/** What the router's steps mean for a call: what is admitted, when it is delivered, and what the end of its turn does. */
module RouterLaws {
  import opened Bytes
  import opened Router

  /** The request is well formed and is for this turn. */
  predicate Names(request: Request, threadID: string, turnID: string, callID: string, tool: string) {
    ValidRequestID(request.id) && callID != "" && threadID != "" && turnID != "" && tool != "" &&
    request.params == Some(Params(Some(callID), Some(threadID), Some(turnID), Some(tool)))
  }

  /** An admitted route is exactly what its request says: the ID, thread, turn, call and tool of the request, and the phase
      of the session; nothing has happened to it yet, and both indexes lead to it. */
  lemma AdmitLaw(s: State, request: Request, threadID: string, turnID: string, phase: string, callID: string, tool: string)
    requires Names(request, threadID, turnID, callID, tool) && phase != ""
    ensures var t := Apply(s, Ensure(request, threadID, turnID, phase));
            var key, n := CallKey(TurnKey(threadID, turnID), callID), |s.routes|;
            if key in s.calls || key.turn in s.terminalTurns then t == s
            else
              |t.routes| == n + 1 && t.routes[..n] == s.routes && t.calls == s.calls[key := n] && t.order == s.order + [n] &&
              t == s.(routes := t.routes, calls := t.calls, order := t.order, born := t.born) &&
              var r := t.routes[n];
              r.requestID == request.id && r.key.turn.threadID == threadID && r.key.turn.turnID == turnID &&
              r.key.callID == callID && r.tool == tool && r.phase == phase && r.outcome == None && !r.resultReady &&
              !r.writeAttempted && !r.turnTerminal && !r.handlerFinished && !r.handlerReserved && !r.handlerStarted
  {
  }

  /** Nothing else is ever admitted. */
  lemma RefuseLaw(s: State, request: Request, threadID: string, turnID: string, phase: string)
    requires phase == "" || forall callID, tool :: !Names(request, threadID, turnID, callID, tool)
    ensures Apply(s, Ensure(request, threadID, turnID, phase)) == s
  {
    if request.params.Some? {
      var p := request.params.value;
      if p.callID.Some? && p.tool.Some? { assert phase == "" || !Names(request, threadID, turnID, p.callID.value, p.tool.value); }
    }
  }

  /** The notification is about this call of this turn. */
  predicate About(notice: Notice, turn: TurnKey, callID: string) {
    notice.threadID == Some(turn.threadID) && notice.turnID == Some(turn.turnID) && notice.itemID == Some(callID) && callID != ""
  }

  /** A notification is evidence of delivery if and only if the result was ready, its write attempted, its status one of the
      two final ones and its tool that of the call. Otherwise exactly the checks it fails are recorded. */
  lemma CheckLaw(s: State, notice: Notice, turn: TurnKey, callID: string)
    requires Inv(s) && About(notice, turn, callID) && CallKey(turn, callID) in s.calls
    ensures var i := s.calls[CallKey(turn, callID)];
            Enabled(s, CheckDelivery(notice, turn)) && i < |s.routes| &&
            var t, r := Apply(s, CheckDelivery(notice, turn)), s.routes[i];
            var ends := notice.status == Some("completed") || notice.status == Some("failed");
            if r.resultReady && r.writeAttempted && ends && notice.tool == Some(r.tool) then
              t == s.(inFlight := s.inFlight + multiset{Evidence(i, notice.status.value, r.tool)})
            else
              var failures := (if !r.resultReady then ["result_not_ready"] else []) +
                              (if !r.writeAttempted then ["response_not_attempted"] else []) +
                              (if !ends then ["invalid_status"] else []) +
                              (if notice.tool != Some(r.tool) then ["tool_mismatch"] else []);
              t == s.(owed := s.owed + multiset{DeliveryRejected(i, failures)})
  {
    hide EventInv, DeliveryInv, HandlerInv, MemoryInv, AgeInv;
    var i := s.calls[CallKey(turn, callID)];
    assert NoticedCall(s.calls, notice, turn) == Some(i);
    var r := s.routes[i];
    var failures := DeliveryFailures(r, notice);
    assert failures ==
           (if !r.resultReady then ["result_not_ready"] else []) +
           (if !r.writeAttempted then ["response_not_attempted"] else []) +
           (if !(notice.status == Some("completed") || notice.status == Some("failed")) then ["invalid_status"] else []) +
           (if notice.tool != Some(r.tool) then ["tool_mismatch"] else []);
  }

  /** Notifications about another turn or an unknown call do nothing. */
  lemma IgnoreLaw(s: State, notice: Notice, turn: TurnKey)
    requires Inv(s) && forall callID :: About(notice, turn, callID) ==> CallKey(turn, callID) !in s.calls
    ensures Enabled(s, CheckDelivery(notice, turn)) && Apply(s, CheckDelivery(notice, turn)) == s
  {
    hide EventInv, DeliveryInv, HandlerInv, MemoryInv, AgeInv;
    if notice.itemID.Some? { assert About(notice, turn, notice.itemID.value) ==> CallKey(turn, notice.itemID.value) !in s.calls; }
  }

  /** The steps of one call that goes well. */
  function CallSteps(request: Request, threadID: string, turnID: string, phase: string, i: nat, notice: Notice, tool: string,
                     status: string): seq<Action> {
    [Ensure(request, threadID, turnID, phase), MarkReady(i), MarkAttempted(i),
     CheckDelivery(notice, TurnKey(threadID, turnID)), FinishDelivery(Evidence(i, status, tool))]
  }

  /** In any reachable state a new call that is admitted, made ready, written and then reported by its own thread, turn, ID
      and tool with a final status ends delivered, and owes exactly one result event, which says so. */
  lemma DeliveredRun(s: State, request: Request, threadID: string, turnID: string, phase: string, callID: string, tool: string,
                     status: string)
    requires Inv(s) && Names(request, threadID, turnID, callID, tool) && phase != "" && status in ["completed", "failed"]
    requires CallKey(TurnKey(threadID, turnID), callID) !in s.calls && TurnKey(threadID, turnID) !in s.terminalTurns
    ensures var notice := Notice(Some(threadID), Some(turnID), Some(callID), Some(status), Some(tool));
            var actions := CallSteps(request, threadID, turnID, phase, |s.routes|, notice, tool, status);
            Legal(s, actions) &&
            var t := Execute(s, actions);
            |t.routes| == |s.routes| + 1 && t.routes[|s.routes|].outcome == Some(Delivered) &&
            Count(t, Result(|s.routes|, Delivered)) == 1 &&
            forall o :: o != Delivered ==> Count(t, Result(|s.routes|, o)) == 0
  {
    hide Inv, Enabled, Apply, Count, CallSteps, Legal, Execute;
    var i, turn, key := |s.routes|, TurnKey(threadID, turnID), CallKey(TurnKey(threadID, turnID), callID);
    var notice := Notice(Some(threadID), Some(turnID), Some(callID), Some(status), Some(tool));
    var ensure, check, land := Ensure(request, threadID, turnID, phase), CheckDelivery(notice, turn),
                               FinishDelivery(Evidence(i, status, tool));
    WaitsAfterEnsure(s, request, threadID, turnID, phase, callID, tool);
    var t1 := Apply(s, ensure);
    StepKeeps(s, ensure);
    ReadyLaw(t1, key, i, tool);
    var t2 := Apply(t1, MarkReady(i));
    StepKeeps(t1, MarkReady(i));
    AttemptLaw(t2, key, i, tool);
    var t3 := Apply(t2, MarkAttempted(i));
    StepKeeps(t2, MarkAttempted(i));
    EvidenceLaw(t3, key, i, tool, status, notice);
    var t4 := Apply(t3, check);
    StepKeeps(t3, check);
    LandLaw(t4, Evidence(i, status, tool));
    var t5 := Apply(t4, land);
    StepKeeps(t4, land);
    StepsAre(request, threadID, turnID, phase, i, notice, tool, status);
    FiveSteps(s, t1, t2, t3, t4, t5, CallSteps(request, threadID, turnID, phase, i, notice, tool, status));
    Counted(t5, i);
  }

  lemma StepsAre(request: Request, threadID: string, turnID: string, phase: string, i: nat, notice: Notice, tool: string,
                 status: string)
    ensures var actions := CallSteps(request, threadID, turnID, phase, i, notice, tool, status);
            |actions| == 5 && actions[0] == Ensure(request, threadID, turnID, phase) && actions[1] == MarkReady(i) &&
            actions[2] == MarkAttempted(i) && actions[3] == CheckDelivery(notice, TurnKey(threadID, turnID)) &&
            actions[4] == FinishDelivery(Evidence(i, status, tool))
  {
  }

  /** Call `i` is indexed under `key`, has no outcome, and has come this far. */
  predicate Waits(s: State, key: CallKey, i: nat, tool: string, ready: bool, attempted: bool) {
    i < |s.routes| && key in s.calls && s.calls[key] == i && s.routes[i].tool == tool && s.routes[i].outcome == None &&
    (ready ==> s.routes[i].resultReady) && (attempted ==> s.routes[i].writeAttempted)
  }

  lemma WaitsAfterEnsure(s: State, request: Request, threadID: string, turnID: string, phase: string, callID: string,
                         tool: string)
    requires Names(request, threadID, turnID, callID, tool) && phase != ""
    requires CallKey(TurnKey(threadID, turnID), callID) !in s.calls && TurnKey(threadID, turnID) !in s.terminalTurns
    ensures var a := Ensure(request, threadID, turnID, phase);
            Enabled(s, a) && |Apply(s, a).routes| == |s.routes| + 1 &&
            Waits(Apply(s, a), CallKey(TurnKey(threadID, turnID), callID), |s.routes|, tool, false, false)
  {
    hide Apply;
    AdmitLaw(s, request, threadID, turnID, phase, callID, tool);
  }

  lemma ReadyLaw(s: State, key: CallKey, i: nat, tool: string)
    requires Waits(s, key, i, tool, false, false)
    ensures Enabled(s, MarkReady(i)) && |Apply(s, MarkReady(i)).routes| == |s.routes|
    ensures Waits(Apply(s, MarkReady(i)), key, i, tool, true, false)
  {
  }

  lemma AttemptLaw(s: State, key: CallKey, i: nat, tool: string)
    requires Waits(s, key, i, tool, true, false)
    ensures Enabled(s, MarkAttempted(i)) && |Apply(s, MarkAttempted(i)).routes| == |s.routes|
    ensures Waits(Apply(s, MarkAttempted(i)), key, i, tool, true, true)
  {
  }

  lemma EvidenceLaw(s: State, key: CallKey, i: nat, tool: string, status: string, notice: Notice)
    requires Inv(s) && Waits(s, key, i, tool, true, true) && status in ["completed", "failed"] && key.callID != ""
    requires notice == Notice(Some(key.turn.threadID), Some(key.turn.turnID), Some(key.callID), Some(status), Some(tool))
    ensures Enabled(s, CheckDelivery(notice, key.turn))
    ensures var t := Apply(s, CheckDelivery(notice, key.turn));
            t.routes == s.routes && Evidence(i, status, tool) in t.inFlight
  {
    hide Inv, Apply, Enabled;
    CheckLaw(s, notice, key.turn, key.callID);
  }

  /** Evidence that lands on a call without an outcome delivers it. */
  lemma LandLaw(s: State, e: Evidence)
    requires e in s.inFlight && e.route < |s.routes| && s.routes[e.route].outcome.None?
    ensures Enabled(s, FinishDelivery(e))
    ensures Apply(s, FinishDelivery(e)).routes == s.routes[e.route := s.routes[e.route].(outcome := Some(Delivered))]
  {
  }

  lemma FiveSteps(s: State, t1: State, t2: State, t3: State, t4: State, t5: State, actions: seq<Action>)
    requires |actions| == 5
    requires Enabled(s, actions[0]) && t1 == Apply(s, actions[0]) && Enabled(t1, actions[1]) && t2 == Apply(t1, actions[1])
    requires Enabled(t2, actions[2]) && t3 == Apply(t2, actions[2]) && Enabled(t3, actions[3]) && t4 == Apply(t3, actions[3])
    requires Enabled(t4, actions[4]) && t5 == Apply(t4, actions[4])
    ensures Legal(s, actions) && Execute(s, actions) == t5
  {
    hide Enabled, Apply;
    var b := actions[1..];
    var c := b[1..];
    var d := c[1..];
    var e := d[1..];
    assert e[1..] == [];
    assert Legal(t5, []) && Execute(t5, []) == t5;
    assert Legal(t4, e) && Execute(t4, e) == t5;
    assert Legal(t3, d) && Execute(t3, d) == t5;
    assert Legal(t2, c) && Execute(t2, c) == t5;
    assert Legal(t1, b) && Execute(t1, b) == t5;
  }

  lemma Counted(s: State, i: nat)
    requires Inv(s) && i < |s.routes| && s.routes[i].outcome == Some(Delivered)
    ensures Count(s, Result(i, Delivered)) == 1 && forall o :: o != Delivered ==> Count(s, Result(i, o)) == 0
  {
    hide IndexInv, DeliveryInv, HandlerInv, MemoryInv, AgeInv, Count;
  }

  // ---------------------------------------------------------------- the end of a turn

  /** At the end of a turn every call of it that is still indexed is marked, and those without an outcome are orphaned unless
      the turn was interrupted; other calls are as they were, and the turn is remembered. */
  lemma EndTurnLaw(s: State, turn: TurnKey, phase: string, status: string)
    requires Inv(s)
    ensures var t := Apply(s, Orphan(turn, phase, status));
            |t.routes| == |s.routes| && t.calls == s.calls && t.order == s.order && turn in t.terminalTurns &&
            forall i :: 0 <= i < |s.routes| ==>
              if i in s.order && s.routes[i].key.turn == turn then
                t.routes[i] == s.routes[i].(turnTerminal := true, outcome := t.routes[i].outcome) &&
                t.routes[i].outcome ==
                (if s.routes[i].outcome.None? && status != "interrupted" then Some(Orphaned) else s.routes[i].outcome)
              else t.routes[i] == s.routes[i]
  {
    hide EventInv, DeliveryInv, HandlerInv, AgeInv, IndexInv, Unresolved, Results;
    RememberMemory(s, turn);
    Remembered(s, turn);
    hide Inv, MemoryInv, Remember;
    var t := Apply(s, Orphan(turn, phase, status));
    assert t.routes == EndedRoutes(s.routes, OfTurn(s.routes, s.order, turn), status == "interrupted");
  }

  lemma Remembered(s: State, turn: TurnKey)
    ensures var t := Remember(s, turn); t.calls == s.calls && t.order == s.order && t.routes == s.routes
  {
  }

  /** Releasing a turn finishes every reserved handler of it that has not started, and rejects its call if that has no
      outcome; other calls are as they were. */
  lemma ReleaseLaw(s: State, turn: TurnKey)
    ensures var t := Apply(s, Release(turn));
            |t.routes| == |s.routes| && t.calls == s.calls && t.order == s.order &&
            forall i :: 0 <= i < |s.routes| ==>
              if i in s.order && s.routes[i].key.turn == turn && s.routes[i].handlerReserved && !s.routes[i].handlerStarted &&
                 !s.routes[i].handlerFinished
              then
                t.routes[i] == s.routes[i].(handlerFinished := true, outcome := t.routes[i].outcome) &&
                t.routes[i].outcome == (if s.routes[i].outcome.None? then Some(Rejected) else s.routes[i].outcome)
              else t.routes[i] == s.routes[i]
  {
  }

  /** Pruning takes exactly the routes whose turn is over, whose outcome is known and whose handler has returned out of both
      indexes, and changes no route. */
  lemma PruneLaw(s: State)
    requires Inv(s)
    ensures var t := Apply(s, Prune);
            t.routes == s.routes &&
            (forall i :: i in t.order <==> i in s.order && !(s.routes[i].outcome.Some? && s.routes[i].turnTerminal &&
                                                             s.routes[i].handlerFinished)) &&
            (forall k :: k in t.calls <==> k in s.calls && s.calls[k] in t.order) &&
            (forall k :: k in t.calls ==> t.calls[k] == s.calls[k])
  {
    hide EventInv, DeliveryInv, HandlerInv, MemoryInv, AgeInv;
    LiveExactly(s.routes, s.order);
  }

  lemma {:induction false} LiveExactly(routes: seq<Route>, order: seq<nat>)
    ensures forall i :: i in Live(routes, order) <==> i in order && !(i < |routes| && Finished(routes[i]))
  {
    if order != [] {
      LiveExactly(routes, order[..|order| - 1]);
      assert order == order[..|order| - 1] + [order[|order| - 1]];
    }
  }
}
