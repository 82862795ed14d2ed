/** Text written as the source writes it. */
module AsciiText {
  import opened Bytes

  function Ascii(s: string): (b: seq<Byte>)
    requires forall i :: 0 <= i < |s| ==> s[i] < '\U{80}'
    ensures |b| == |s|
  {
    seq(|s|, i requires 0 <= i < |s| => s[i] as int)
  }
}
