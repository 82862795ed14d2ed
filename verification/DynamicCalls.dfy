/** The router object: each method is one region held under its lock, proved equal to a step of the machine. */
module DynamicCalls {
  import opened Bytes
  import R = Router

  /** `dynamicCallInteger`. */
  method IsInteger(value: string) returns (ok: bool)
    ensures ok == R.IntegerText(value)
  {
    if value == "" {
      return false;
    }
    var digits := if value[0] == '-' then value[1..] else value;
    if digits == "" {
      return false;
    }
    for i := 0 to |digits|
      invariant forall k :: 0 <= k < i ==> '0' <= digits[k] <= '9'
    {
      if digits[i] < '0' || digits[i] > '9' {
        return false;
      }
    }
    return true;
  }

  /** `dynamicCallRequestID`: which identifiers are accepted. */
  method AcceptsRequestID(id: R.RequestID) returns (ok: bool)
    ensures ok == R.ValidRequestID(id)
  {
    match id
    case Text(_) => return true;
    case Number(digits) => ok := IsInteger(digits);
    case Integer(_) => return true;
    case Other => return false;
  }

  function OutcomeNamed(name: string): Option<R.Outcome> {
    if name == "delivered" then Some(R.Delivered)
    else if name == "rejected" then Some(R.Rejected)
    else if name == "orphaned" then Some(R.Orphaned)
    else if name == "yielded" then Some(R.Yielded)
    else None
  }

  class DynamicCallRouter {
    var routes: seq<R.Route>
    var calls: map<R.CallKey, nat>
    var order: seq<nat>
    var terminalTurns: set<R.TurnKey>
    var terminalOrder: seq<R.TurnKey>
    ghost var rest: R.State

    ghost function View(): R.State
      reads this
    {
      rest.(routes := routes, calls := calls, order := order, terminalTurns := terminalTurns, terminalOrder := terminalOrder)
    }

    constructor ()
      ensures R.Initial(View())
    {
      routes, calls, order, terminalTurns, terminalOrder := [], map[], [], {}, [];
      rest := R.State([], map[], [], {}, [], multiset{}, [], multiset{}, [], [], {}, map[], multiset{}, multiset{}, multiset{});
    }

    /** `ensure`: the route of a known call, or a new one if the call may be admitted. */
    method Ensure(request: R.Request, threadID: string, turnID: string, phase: string) returns (routing: Option<nat>)
      modifies this`routes, this`calls, this`order, this`rest
      ensures View() == R.EnsureStep(old(View()), request, threadID, turnID, phase)
      ensures var key := R.RequestedCall(request);
              routing == if key.Some? && key.value in calls then Some(calls[key.value]) else None
    {
      if request.params.None? {
        return None;
      }
      var accepted := AcceptsRequestID(request.id);
      if !accepted {
        return None;
      }
      var p := request.params.value;
      if !R.Present(p.callID) || !R.Present(p.threadID) || !R.Present(p.turnID) || !R.Present(p.tool) {
        return None;
      }
      var key := R.CallKey(R.TurnKey(p.threadID.value, p.turnID.value), p.callID.value);
      if key in calls {
        return Some(calls[key]);
      }
      if key.turn in terminalTurns {
        return None;
      }
      if p.threadID.value != threadID || p.turnID.value != turnID || phase == "" {
        return None;
      }
      routing := Some(|routes|);
      calls := calls[key := |routes|];
      order := order + [|routes|];
      routes := routes + [R.Route(request.id, key, phase, p.tool.value, false, false, None, false, false, false, false)];
      rest := rest.(born := rest.born + [|rest.evictions|]);
    }

    method MarkResultReady(i: nat)
      requires i < |routes|
      modifies this`routes, this`rest
      ensures View() == R.ReadyStep(old(View()), i)
    {
      if routes[i].resultReady {
        return;
      }
      routes := routes[i := routes[i].(resultReady := true)];
      rest := R.Owe(rest, R.ResultReady(i));
    }

    method MarkResponseWriteAttempted(i: nat)
      requires i < |routes|
      modifies this`routes, this`rest
      ensures View() == R.AttemptStep(old(View()), i)
    {
      if routes[i].writeAttempted {
        return;
      }
      routes := routes[i := routes[i].(writeAttempted := true)];
      rest := R.Owe(rest, R.WriteAttempted(i));
    }

    /** `finish`: false when there is no route, the outcome has no meaning, or the call has ended already. */
    method Finish(routing: Option<nat>, outcome: string) returns (changed: bool)
      requires routing.Some? ==> routing.value < |routes|
      modifies this`routes, this`rest
      ensures changed == (routing.Some? && OutcomeNamed(outcome).Some? && old(routes)[routing.value].outcome.None?)
      ensures View() == if routing.Some? && OutcomeNamed(outcome).Some?
                        then R.Conclude(old(View()), routing.value, OutcomeNamed(outcome).value) else old(View())
    {
      if routing.None? || OutcomeNamed(outcome).None? {
        return false;
      }
      var i := routing.value;
      if routes[i].outcome.Some? {
        return false;
      }
      routes := routes[i := routes[i].(outcome := OutcomeNamed(outcome))];
      rest := R.Owe(rest, R.Result(i, OutcomeNamed(outcome).value));
      return true;
    }

    /** The region of `recordDelivery`: evidence that passes every check is carried to `finish` without the lock. */
    method CheckDelivery(notice: R.Notice, turn: R.TurnKey) returns (evidence: Option<R.Evidence>)
      requires forall k :: k in calls ==> calls[k] < |routes|
      modifies this`rest
      ensures View() == R.CheckStep(old(View()), notice, turn)
      ensures evidence.Some? ==> evidence.value in rest.inFlight && evidence.value.route < |routes|
    {
      if notice.threadID != Some(turn.threadID) || notice.turnID != Some(turn.turnID) || !R.Present(notice.itemID) {
        return None;
      }
      var key := R.CallKey(turn, notice.itemID.value);
      if key !in calls {
        return None;
      }
      var i := calls[key];
      var failures: seq<string> := [];
      if !routes[i].resultReady {
        failures := failures + ["result_not_ready"];
      }
      if !routes[i].writeAttempted {
        failures := failures + ["response_not_attempted"];
      }
      if notice.status.None? || !R.TerminalStatus(notice.status.value) {
        failures := failures + ["invalid_status"];
      }
      if notice.tool != Some(routes[i].tool) {
        failures := failures + ["tool_mismatch"];
      }
      assert failures == R.DeliveryFailures(routes[i], notice);
      if failures != [] {
        rest := R.Owe(rest, R.DeliveryRejected(i, failures));
        return None;
      }
      var e := R.Evidence(i, notice.status.value, notice.tool.value);
      rest := rest.(inFlight := rest.inFlight + multiset{e});
      return Some(e);
    }

    /** `recordDelivery` reaching `finish` some time after its check. */
    method FinishDelivery(e: R.Evidence)
      requires e.route < |routes|
      modifies this`routes, this`rest
      ensures View() == R.Deliver(old(View()), e)
    {
      var changed := Finish(Some(e.route), "delivered");
      rest := rest.(inFlight := rest.inFlight - multiset{e},
                    accepted := if changed then rest.accepted[e.route := e] else rest.accepted);
    }

    method ReserveHandler(routing: Option<nat>) returns (granted: bool)
      requires routing.Some? ==> routing.value < |routes|
      modifies this`routes, this`rest
      ensures View() == if routing.Some? then R.ReserveStep(old(View()), routing.value) else old(View())
      ensures granted == (routing.Some? && !old(routes)[routing.value].handlerReserved)
    {
      if routing.None? || routes[routing.value].handlerReserved {
        return false;
      }
      var i := routing.value;
      routes := routes[i := routes[i].(handlerReserved := true)];
      rest := rest.(reserved := rest.reserved + multiset{i});
      return true;
    }

    method StartHandler(routing: Option<nat>) returns (granted: bool)
      requires routing.Some? ==> routing.value < |routes|
      modifies this`routes, this`rest
      ensures View() == if routing.Some? then R.StartStep(old(View()), routing.value) else old(View())
      ensures granted == (routing.Some? && R.Startable(old(routes)[routing.value]))
    {
      if routing.None? {
        return false;
      }
      var i := routing.value;
      if !routes[i].handlerReserved || routes[i].handlerStarted || routes[i].handlerFinished {
        return false;
      }
      routes := routes[i := routes[i].(handlerStarted := true)];
      rest := rest.(started := rest.started + multiset{i});
      return true;
    }

    method FinishHandler(i: nat)
      requires i < |routes|
      modifies this`routes
      ensures View() == R.Change(old(View()), i, old(routes)[i].(handlerFinished := true))
    {
      routes := routes[i := routes[i].(handlerFinished := true)];
    }

    /** Whether a response may still be written: the call has not ended and is of the current turn or was interrupted. */
    method MayWrite(i: nat, turn: R.TurnKey, phase: string, interrupted: bool) returns (ok: bool)
      requires i < |routes|
      ensures ok <==> routes[i].outcome.None? && (interrupted || (routes[i].key.turn == turn && routes[i].phase == phase))
    {
      if routes[i].outcome.Some? {
        return false;
      }
      return interrupted || (routes[i].key.turn == turn && routes[i].phase == phase);
    }

    /** The region of `releaseUnstarted`. */
    method ReleaseUnstarted(turn: R.TurnKey) returns (rejected: seq<nat>, count: nat)
      requires R.IndexInv(routes, calls, order)
      modifies this`routes, this`rest
      ensures View() == R.ReleaseTurn(old(View()), turn)
      ensures multiset(rejected) == multiset(R.Unresolved(old(routes), R.UnstartedIn(old(routes), order, turn)))
      ensures count == |R.UnstartedIn(old(routes), order, turn)|
    {
      hide R.IndexInv, R.ReleasedRoutes, R.UnstartedIn, R.Unresolved, R.Results;
      ghost var before := routes;
      OrderSound(routes, calls, order);
      NoneReleased(before, turn);
      rejected, count := [], 0;
      for n := 0 to |order|
        invariant rest == old(rest)
        invariant var done := R.UnstartedIn(before, order[..n], turn);
                  count == |done| && routes == R.ReleasedRoutes(before, done) &&
                  multiset(rejected) == multiset(R.Unresolved(before, done))
      {
        var i := order[n];
        ReleaseNext(before, order, n, turn);
        if R.Unstarted(routes[i], turn) {
          if routes[i].outcome.None? {
            rejected := rejected + [i];
          }
          routes := routes[i := R.ReleasedRoute(routes[i])];
          count := count + 1;
        }
      }
      assert order[..|order|] == order;
      ghost var done := R.UnstartedIn(before, order, turn);
      rest := rest.(released := rest.released + multiset(done),
                    owed := rest.owed + R.Results(R.Unresolved(before, done), R.Rejected));
    }

    /** The bounded memory of ended turns, at the head of `orphanUnresolved`. */
    method Remember(turn: R.TurnKey)
      modifies this`terminalTurns, this`terminalOrder, this`rest
      ensures View() == R.Remember(old(View()), turn)
    {
      if turn !in terminalTurns {
        terminalTurns := terminalTurns + {turn};
        terminalOrder := terminalOrder + [turn];
        if |terminalOrder| > R.MAX_TERMINAL_TURNS {
          var oldest := terminalOrder[0];
          terminalTurns := terminalTurns - {oldest};
          terminalOrder := terminalOrder[1..];
          rest := rest.(evictions := rest.evictions + [oldest], settled := rest.settled - {oldest});
        }
      }
    }

    /** The routes of a turn, in the order they were admitted. */
    method CallsOf(turn: R.TurnKey) returns (members: seq<nat>)
      requires R.IndexInv(routes, calls, order)
      ensures multiset(members) == multiset(R.OfTurn(routes, order, turn))
    {
      hide R.IndexInv;
      OrderSound(routes, calls, order);
      members := [];
      for n := 0 to |order|
        invariant multiset(members) == multiset(R.OfTurn(routes, order[..n], turn))
      {
        CallsNext(routes, order, n, turn);
        if routes[order[n]].key.turn == turn {
          members := members + [order[n]];
        }
      }
      assert order[..|order|] == order;
    }

    /** The region of `orphanUnresolved`. The two passes over the turn's calls give the unresolved ones their outcome,
        unless the turn was interrupted, and then mark them all. */
    method OrphanUnresolved(turn: R.TurnKey, phase: string, status: string) returns (pending: seq<nat>)
      requires R.IndexInv(routes, calls, order)
      modifies this`routes, this`terminalTurns, this`terminalOrder, this`rest
      ensures View() == R.EndTurn(old(View()), turn, phase, status)
      ensures multiset(pending) == multiset(R.Unresolved(old(routes), R.OfTurn(old(routes), order, turn)))
    {
      hide R.IndexInv, R.OfTurn, R.Unresolved, R.Results, R.Remember, R.EndedRoutes;
      ghost var before := routes;
      Remember(turn);
      ghost var remembered := View();
      var members := CallsOf(turn);
      ghost var chosen := R.OfTurn(routes, order, turn);
      var interrupted := status == "interrupted";
      Members(before, calls, order, turn, members);
      pending := Conclude(members, interrupted);
      MarkEnded(members);
      EndedBoth(before, members, chosen, interrupted);
      ghost var unresolved := R.Unresolved(before, chosen);
      rest := rest.(settled := if interrupted then rest.settled else rest.settled + {turn},
                    owed := rest.owed + multiset{R.TurnSummary(turn, phase, status, |chosen|, unresolved)} +
                            if interrupted then multiset{} else R.Results(unresolved, R.Orphaned));
    }

    /** First pass: the unresolved calls, orphaned unless the turn was interrupted. */
    method Conclude(members: seq<nat>, interrupted: bool) returns (pending: seq<nat>)
      requires Distinct(members) && forall m :: m in members ==> m < |routes|
      modifies this`routes
      ensures routes == Concluded(old(routes), members, interrupted)
      ensures multiset(pending) == multiset(R.Unresolved(old(routes), Elements(members)))
    {
      ghost var before := routes;
      pending := [];
      assert R.Unresolved(before, Elements(members[..0])) == {};
      for n := 0 to |members|
        invariant routes == Concluded(before, members[..n], interrupted)
        invariant multiset(pending) == multiset(R.Unresolved(before, Elements(members[..n])))
      {
        var i := members[n];
        assert i in members;
        ConcludeNext(before, members, n, interrupted);
        if routes[i].outcome.None? {
          pending := pending + [i];
          if !interrupted {
            routes := routes[i := routes[i].(outcome := Some(R.Orphaned))];
          }
        }
      }
      assert members[..|members|] == members;
    }

    /** Second pass: every call of the turn has seen its end. */
    method MarkEnded(members: seq<nat>)
      requires forall m :: m in members ==> m < |routes|
      modifies this`routes
      ensures routes == Marked(old(routes), members)
    {
      ghost var before := routes;
      for n := 0 to |members|
        invariant routes == Marked(before, members[..n])
      {
        var i := members[n];
        assert i in members && members[..n + 1] == members[..n] + [i];
        routes := routes[i := routes[i].(turnTerminal := true)];
      }
      assert members[..|members|] == members;
    }

    /** `prune`: finished routes leave the map, and the list is compacted in place. */
    method Prune()
      requires forall k :: k in calls ==> calls[k] < |routes|
      requires forall i :: i in order ==> i < |routes|
      modifies this`calls, this`order
      ensures View() == R.PruneStep(old(View()))
    {
      PruneCalls();
      PruneOrder();
    }

    method PruneCalls()
      requires forall k :: k in calls ==> calls[k] < |routes|
      modifies this`calls
      ensures calls == R.LiveCalls(routes, old(calls))
    {
      ghost var before := calls;
      var keys := calls.Keys;
      while keys != {}
        invariant keys <= before.Keys
        invariant forall k :: k in calls <==> k in before && (k in keys || !R.Finished(routes[before[k]]))
        invariant forall k :: k in calls ==> calls[k] == before[k]
        decreases keys
      {
        var key :| key in keys;
        if R.Finished(routes[calls[key]]) {
          calls := calls - {key};
        }
        keys := keys - {key};
      }
    }

    /** The kept entries slide down over the dropped ones in the same storage, which is then cut to their number. */
    method PruneOrder()
      requires forall i :: i in order ==> i < |routes|
      modifies this`order
      ensures order == R.Live(routes, old(order))
    {
      ghost var before := order;
      var kept := 0;
      for n := 0 to |order|
        invariant kept <= n && |order| == |before|
        invariant order[..kept] == R.Live(routes, before[..n])
        invariant order[n..] == before[n..]
      {
        var i := order[n];
        assert i == before[n];
        assert before[..n + 1][..n] == before[..n];
        assert before[n] in before;
        assert order[n + 1..] == before[n + 1..];
        if !R.Finished(routes[i]) {
          order := order[kept := i];
          kept := kept + 1;
        }
      }
      assert before[..|before|] == before;
      order := order[..kept];
    }
  }

  // ---------------------------------------------------------------- the loops

  function Elements(s: seq<nat>): set<nat> {
    set m | m in s
  }

  ghost predicate Distinct(s: seq<nat>) {
    forall a, b :: 0 <= a < b < |s| ==> s[a] != s[b]
  }

  lemma OrderSound(routes: seq<R.Route>, calls: map<R.CallKey, nat>, order: seq<nat>)
    requires R.IndexInv(routes, calls, order)
    ensures Distinct(order) && forall n :: 0 <= n < |order| ==> order[n] < |routes|
  {
    forall n | 0 <= n < |order|
      ensures order[n] < |routes|
    {
      assert order[n] in order;
    }
  }

  lemma NoneReleased(routes: seq<R.Route>, turn: R.TurnKey)
    ensures R.UnstartedIn(routes, [], turn) == {} && R.ReleasedRoutes(routes, {}) == routes
    ensures R.Unresolved(routes, {}) == {}
  {
  }

  /** What one more entry of the list adds to the calls released so far. */
  lemma ReleaseNext(routes: seq<R.Route>, order: seq<nat>, n: nat, turn: R.TurnKey)
    requires Distinct(order) && n < |order| && order[n] < |routes|
    ensures var done, next := R.UnstartedIn(routes, order[..n], turn), R.UnstartedIn(routes, order[..n + 1], turn);
            var now := R.ReleasedRoutes(routes, done);
            |now| == |routes| && now[order[n]] == routes[order[n]] &&
            if R.Unstarted(routes[order[n]], turn) then
              |next| == |done| + 1 &&
              R.ReleasedRoutes(routes, next) == now[order[n] := R.ReleasedRoute(now[order[n]])] &&
              multiset(R.Unresolved(routes, next)) == multiset(R.Unresolved(routes, done)) +
                if routes[order[n]].outcome.None? then multiset{order[n]} else multiset{}
            else next == done
  {
    hide R.ReleasedRoutes, R.Unresolved, Distinct;
    var done, i := R.UnstartedIn(routes, order[..n], turn), order[n];
    UnstartedNext(routes, order, n, turn);
    hide R.UnstartedIn;
    ReleasedNext(routes, done, i);
    if R.Unstarted(routes[i], turn) {
      UnresolvedNext(routes, done, i);
    }
  }

  lemma UnstartedNext(routes: seq<R.Route>, order: seq<nat>, n: nat, turn: R.TurnKey)
    requires Distinct(order) && n < |order| && order[n] < |routes|
    ensures var done, i := R.UnstartedIn(routes, order[..n], turn), order[n];
            i !in done &&
            R.UnstartedIn(routes, order[..n + 1], turn) == if R.Unstarted(routes[i], turn) then done + {i} else done
  {
    assert order[..n + 1] == order[..n] + [order[n]];
  }

  lemma ReleasedNext(routes: seq<R.Route>, done: set<nat>, i: nat)
    requires i !in done && i < |routes|
    ensures var now := R.ReleasedRoutes(routes, done);
            |now| == |routes| && now[i] == routes[i] &&
            R.ReleasedRoutes(routes, done + {i}) == now[i := R.ReleasedRoute(now[i])]
  {
  }

  lemma UnresolvedNext(routes: seq<R.Route>, done: set<nat>, i: nat)
    requires i !in done && i < |routes|
    ensures multiset(R.Unresolved(routes, done + {i})) ==
            multiset(R.Unresolved(routes, done)) + if routes[i].outcome.None? then multiset{i} else multiset{}
  {
    assert R.Unresolved(routes, done + {i}) ==
           R.Unresolved(routes, done) + if routes[i].outcome.None? then {i} else {};
  }

  lemma CallsNext(routes: seq<R.Route>, order: seq<nat>, n: nat, turn: R.TurnKey)
    requires Distinct(order) && n < |order| && order[n] < |routes|
    ensures multiset(R.OfTurn(routes, order[..n + 1], turn)) == multiset(R.OfTurn(routes, order[..n], turn)) +
            if routes[order[n]].key.turn == turn then multiset{order[n]} else multiset{}
  {
    assert order[..n + 1] == order[..n] + [order[n]];
    assert R.OfTurn(routes, order[..n + 1], turn) ==
           R.OfTurn(routes, order[..n], turn) + if routes[order[n]].key.turn == turn then {order[n]} else {};
  }

  function Concluded(routes: seq<R.Route>, members: seq<nat>, interrupted: bool): seq<R.Route> {
    seq(|routes|, i requires 0 <= i < |routes| =>
      if i in members && routes[i].outcome.None? && !interrupted then routes[i].(outcome := Some(R.Orphaned)) else routes[i])
  }

  function Marked(routes: seq<R.Route>, members: seq<nat>): seq<R.Route> {
    seq(|routes|, i requires 0 <= i < |routes| =>
      if i in members then routes[i].(turnTerminal := true) else routes[i])
  }

  lemma ConcludeNext(routes: seq<R.Route>, members: seq<nat>, n: nat, interrupted: bool)
    requires Distinct(members) && n < |members| && members[n] < |routes|
    ensures var now, i := Concluded(routes, members[..n], interrupted), members[n];
            |now| == |routes| && now[i] == routes[i] &&
            Concluded(routes, members[..n + 1], interrupted) ==
            (if routes[i].outcome.None? && !interrupted then now[i := now[i].(outcome := Some(R.Orphaned))] else now) &&
            multiset(R.Unresolved(routes, Elements(members[..n + 1]))) ==
            multiset(R.Unresolved(routes, Elements(members[..n]))) +
              if routes[i].outcome.None? then multiset{i} else multiset{}
  {
    assert members[..n + 1] == members[..n] + [members[n]];
    UnresolvedNext(routes, Elements(members[..n]), members[n]);
    assert Elements(members[..n + 1]) == Elements(members[..n]) + {members[n]};
  }

  /** The two passes together are the end of the turn for each of its calls. */
  lemma EndedBoth(routes: seq<R.Route>, members: seq<nat>, chosen: set<nat>, interrupted: bool)
    requires forall m :: m in members <==> m in chosen
    ensures Marked(Concluded(routes, members, interrupted), members) == R.EndedRoutes(routes, chosen, interrupted)
    ensures Elements(members) == chosen
  {
  }

  lemma Members(routes: seq<R.Route>, calls: map<R.CallKey, nat>, order: seq<nat>, turn: R.TurnKey, members: seq<nat>)
    requires R.IndexInv(routes, calls, order) && multiset(members) == multiset(R.OfTurn(routes, order, turn))
    ensures Distinct(members) && forall m :: m in members <==> m in R.OfTurn(routes, order, turn)
    ensures forall m :: m in members ==> m < |routes|
  {
    forall m
      ensures m in members <==> m in R.OfTurn(routes, order, turn)
    {
      assert m in members <==> m in multiset(members);
    }
    forall a, b | 0 <= a < b < |members|
      ensures members[a] != members[b]
    {
      if members[a] == members[b] {
        TwiceCounts(members, a, b);
      }
    }
  }

  lemma TwiceCounts(s: seq<nat>, a: nat, b: nat)
    requires a < b < |s| && s[a] == s[b]
    ensures multiset(s)[s[a]] >= 2
  {
    assert s == s[..b] + [s[b]] + s[b + 1..];
    assert s[..b][a] == s[a];
    assert s[a] in multiset(s[..b]);
    assert multiset(s) == multiset(s[..b]) + multiset{s[b]} + multiset(s[b + 1..]);
  }
}
