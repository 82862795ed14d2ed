/** The list of tools on its way to the host: the host's parser, and what it reads from the guest's list. */
module ToolNames {
  import opened Bytes
  import opened AsciiText
  import opened Framing
  import opened GuestSpec
  import opened GuestTheorems
  import Calls
  import Utf8

  const MAX_TOOLS := 256

  function NamesWire(names: seq<seq<Byte>>): seq<Byte> {
    if names == [] then [] else NameWire(names[0]) + NamesWire(names[1..])
  }

  function ListWire(names: seq<seq<Byte>>): seq<Byte> {
    U16LE(|names|) + NamesWire(names)
  }

  predicate ValidNames(names: seq<seq<Byte>>) {
    |names| <= MAX_TOOLS && forall i :: 0 <= i < |names| ==> Calls.ValidName(names[i])
  }

  /** The name at the front of `s`, if there is a valid one. */
  function TakeName(s: seq<Byte>): (name: Option<seq<Byte>>)
    ensures name.Some? ==> 2 + |name.value| <= |s|
  {
    if |s| < 2 || ReadU16(s) > |s| - 2 || !Calls.ValidName(s[2..2 + ReadU16(s)]) then None
    else Some(s[2..2 + ReadU16(s)])
  }

  /** `count` names and nothing after them. */
  function TakeNames(count: nat, s: seq<Byte>): Option<seq<seq<Byte>>> {
    if count == 0 then if s == [] then Some([]) else None
    else match TakeName(s)
      case None => None
      case Some(name) => Prepend([name], TakeNames(count - 1, s[2 + |name|..]))
  }

  function Prepend(done: seq<seq<Byte>>, rest: Option<seq<seq<Byte>>>): Option<seq<seq<Byte>>> {
    if rest.Some? then Some(done + rest.value) else None
  }

  function ParseList(payload: seq<Byte>): Option<seq<seq<Byte>>> {
    if |payload| < 2 || ReadU16(payload) > MAX_TOOLS then None else TakeNames(ReadU16(payload), payload[2..])
  }

  /** `ParseToolList`: one pass with an offset that never leaves the payload. */
  method ParseToolList(payload: seq<Byte>) returns (names: Option<seq<seq<Byte>>>)
    ensures names == ParseList(payload)
  {
    hide TakeName;
    if |payload| < 2 {
      return None;
    }
    var count := ReadU16(payload);
    if count > MAX_TOOLS {
      return None;
    }
    var offset, tools: seq<seq<Byte>> := 2, [];
    PrependNothing(TakeNames(count, payload[2..]));
    while |tools| < count
      invariant |tools| <= count && 2 <= offset <= |payload|
      invariant ParseList(payload) == Prepend(tools, TakeNames(count - |tools|, payload[offset..]))
      decreases count - |tools|
    {
      var rest := payload[offset..];
      var name := NextName(rest);
      if name.None? {
        return None;
      }
      PrependTwice(tools, [name.value], TakeNames(count - |tools| - 1, rest[2 + |name.value|..]));
      offset := offset + 2 + |name.value|;
      assert payload[offset..] == rest[2 + |name.value|..];
      tools := tools + [name.value];
    }
    if offset != |payload| {
      return None;
    }
    assert tools + [] == tools;
    return Some(tools);
  }

  /** The loop body. */
  method NextName(s: seq<Byte>) returns (name: Option<seq<Byte>>)
    ensures name == TakeName(s)
  {
    if |s| < 2 {
      return None;
    }
    var length := ReadU16(s);
    if length == 0 || length > Calls.MAX_NAME || length > |s| - 2 {
      return None;
    }
    var text := Utf8.Scan(s[2..2 + length]);
    if !text {
      return None;
    }
    return Some(s[2..2 + length]);
  }

  lemma PrependNothing(r: Option<seq<seq<Byte>>>)
    ensures Prepend([], r) == r
  {
    if r.Some? { assert [] + r.value == r.value; }
  }

  lemma PrependTwice(a: seq<seq<Byte>>, b: seq<seq<Byte>>, r: Option<seq<seq<Byte>>>)
    ensures Prepend(a, Prepend(b, r)) == Prepend(a + b, r)
  {
    if r.Some? { assert a + (b + r.value) == a + b + r.value; }
  }

  lemma TakeNameWire(name: seq<Byte>, rest: seq<Byte>)
    requires Calls.ValidName(name)
    ensures var s := NameWire(name) + rest;
            TakeName(s) == Some(name) && s[2 + |name|..] == rest
  {
    hide Utf8.Valid;
    var s := NameWire(name) + rest;
    assert s == U16LE(|name|) + (name + rest);
    U16RoundTrip(|name|, name + rest);
    assert s[2..2 + |name|] == name;
  }

  lemma TakenNameWire(s: seq<Byte>)
    requires TakeName(s).Some?
    ensures var name := TakeName(s).value; Calls.ValidName(name) && s == NameWire(name) + s[2 + |name|..]
  {
    hide Utf8.Valid;
    U16Reread(s);
    var name := TakeName(s).value;
    assert s == s[..2] + name + s[2 + |name|..];
  }

  lemma {:induction false} TakeNamesWire(names: seq<seq<Byte>>)
    requires forall i :: 0 <= i < |names| ==> Calls.ValidName(names[i])
    ensures TakeNames(|names|, NamesWire(names)) == Some(names)
  {
    hide Calls.ValidName, TakeName, NameWire;
    if names != [] {
      TakeNamesWire(names[1..]);
      TakeNameWire(names[0], NamesWire(names[1..]));
      assert names == [names[0]] + names[1..];
    }
  }

  lemma {:induction false} TakenNamesWire(count: nat, s: seq<Byte>)
    requires TakeNames(count, s).Some?
    ensures var names := TakeNames(count, s).value;
            |names| == count && NamesWire(names) == s && forall i :: 0 <= i < |names| ==> Calls.ValidName(names[i])
  {
    hide Calls.ValidName, TakeName, NameWire;
    if count > 0 {
      var name, rest := TakeName(s).value, s[2 + |TakeName(s).value|..];
      TakenNameWire(s);
      TakenNamesWire(count - 1, rest);
      var names := TakeNames(count, s).value;
      assert names[0] == name && names[1..] == TakeNames(count - 1, rest).value;
    }
  }

  /** The parser accepts exactly the text of at most 256 valid names, and returns those. */
  lemma ParseListLaw(payload: seq<Byte>)
    ensures forall ns :: ParseList(payload) == Some(ns) <==> ValidNames(ns) && ListWire(ns) == payload
  {
    hide Calls.ValidName, TakeNames, NamesWire;
    forall ns | ValidNames(ns) && ListWire(ns) == payload
      ensures ParseList(payload) == Some(ns)
    {
      U16RoundTrip(|ns|, NamesWire(ns));
      TakeNamesWire(ns);
      assert payload[2..] == NamesWire(ns);
    }
    if ParseList(payload).Some? {
      U16Reread(payload);
      TakenNamesWire(ReadU16(payload), payload[2..]);
      assert payload == payload[..2] + payload[2..];
    }
  }

  /** The eight tools, by name. */
  function Tools(): seq<seq<Byte>> {
    [Ascii("list"), Ascii("read"), Ascii("write"), Ascii("truncate"), Ascii("remove"), Ascii("build"),
     Ascii("finish_generation"), Ascii("request_feature")]
  }

  lemma ListIsWire(id: U32)
    ensures ToolListResponse(id) == Frame(0x8001, id, ListWire(Tools())) && ValidNames(Tools())
  {
    hide NameWire, Utf8.Valid, Ascii;
    TextOfTools();
    ValidTools();
    ListText(Tools());
    hide NamesWire, ValidNames;
    Regrouped(U16LE(8), NameWire(LIST), NameWire(READ), NameWire(WRITE), NameWire(TRUNCATE), NameWire(REMOVE),
              NameWire(BUILD), NameWire(FINISH), NameWire(FEATURE));
  }

  lemma TextOfTools()
    ensures LIST == Ascii("list") && READ == Ascii("read") && WRITE == Ascii("write") && TRUNCATE == Ascii("truncate")
    ensures REMOVE == Ascii("remove") && BUILD == Ascii("build") && FINISH == Ascii("finish_generation")
    ensures FEATURE == Ascii("request_feature")
  {
  }

  lemma Regrouped(n: seq<Byte>, a: seq<Byte>, b: seq<Byte>, c: seq<Byte>, d: seq<Byte>, e: seq<Byte>, f: seq<Byte>,
                  g: seq<Byte>, h: seq<Byte>)
    ensures n + a + b + c + d + e + f + g + h == n + (a + b + c + d + e + f + g + h)
  {
  }

  lemma ValidTools()
    ensures ValidNames(Tools())
  {
    forall i | 0 <= i < 8
      ensures Calls.ValidName(Tools()[i])
    {
      PlainText(Tools()[i]);
    }
  }

  lemma {:induction false} NamesJoined(a: seq<seq<Byte>>, b: seq<seq<Byte>>)
    ensures NamesWire(a + b) == NamesWire(a) + NamesWire(b)
  {
    hide NameWire;
    if a == [] {
      assert a + b == b;
    } else {
      NamesJoined(a[1..], b);
      assert (a + b)[1..] == a[1..] + b && (a + b)[0] == a[0];
      assert NamesWire(a + b) == NameWire(a[0]) + (NamesWire(a[1..]) + NamesWire(b));
    }
  }

  lemma PairText(x: seq<Byte>, y: seq<Byte>)
    ensures NamesWire([x, y]) == NameWire(x) + NameWire(y)
  {
    hide NameWire;
    assert [x, y][1..] == [y] && [y][1..] == [];
    assert NamesWire([y]) == NameWire(y) + NamesWire([]);
  }

  lemma Grouped(a: seq<Byte>, b: seq<Byte>, c: seq<Byte>, d: seq<Byte>, e: seq<Byte>, f: seq<Byte>, g: seq<Byte>,
                h: seq<Byte>)
    ensures a + b + (c + d + (e + f + (g + h))) == a + b + c + d + e + f + g + h
  {
  }

  lemma ListText(t: seq<seq<Byte>>)
    requires |t| == 8
    ensures NamesWire(t) == NameWire(t[0]) + NameWire(t[1]) + NameWire(t[2]) + NameWire(t[3]) + NameWire(t[4]) +
                            NameWire(t[5]) + NameWire(t[6]) + NameWire(t[7])
  {
    hide NameWire, NamesWire;
    var a, b, c, d := [t[0], t[1]], [t[2], t[3]], [t[4], t[5]], [t[6], t[7]];
    PairText(t[0], t[1]);
    PairText(t[2], t[3]);
    PairText(t[4], t[5]);
    PairText(t[6], t[7]);
    NamesJoined(c, d);
    NamesJoined(b, c + d);
    NamesJoined(a, b + (c + d));
    Grouped(NameWire(t[0]), NameWire(t[1]), NameWire(t[2]), NameWire(t[3]), NameWire(t[4]), NameWire(t[5]),
            NameWire(t[6]), NameWire(t[7]));
    assert t == a + (b + (c + d));
  }

  lemma {:induction false} PlainText(s: seq<Byte>)
    requires forall i :: 0 <= i < |s| ==> s[i] < 0x80
    ensures Utf8.Valid(s)
  {
    if s != [] {
      PlainText(s[1..]);
      Utf8.ValidAscii(s[0]);
      Utf8.ValidConcat([s[0]], s[1..]);
      assert [s[0]] + s[1..] == s;
    }
  }

  /** A request for the list is answered with one frame, from which the host parses the eight names. */
  lemma ListRequest(st: State, id: U32)
    requires Good(st) && id != 0
    ensures var o := KernelRun(st, Wire(Frame(0x0001, id, [])));
            o.state == st && !o.halted &&
            exists f: Frame :: ExtractFrame(o.output) == Complete(f, []) && f.messageType == 0x8001 && f.requestID == id &&
                               ParseList(f.payload) == Some(Tools())
  {
    hide ListWire, Tools, ValidNames, Listing.Valid;
    ListIsWire(id);
    var f := Frame(0x0001, id, []);
    assert Serve(st, Received(f), []) == Answer(ToolListResponse(id), st);
    ServeWire(st, f, []);
    assert Wire(f) + [] == Wire(f);
    ExtractWire(ToolListResponse(id), []);
    assert Wire(ToolListResponse(id)) + [] == Wire(ToolListResponse(id));
    ParseListLaw(ListWire(Tools()));
  }
}
