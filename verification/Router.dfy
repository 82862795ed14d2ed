/** The router of dynamic tool calls as a machine of its lock-held steps, under any interleaving of the threads that
    call it. A route is named by its place in the table of all routes ever admitted. */
module Router {
  import opened Bytes

  const MAX_TERMINAL_TURNS := 256

  datatype TurnKey = TurnKey(threadID: string, turnID: string)
  datatype CallKey = CallKey(turn: TurnKey, callID: string)
  datatype Outcome = Delivered | Rejected | Orphaned | Yielded

  /** A JSON-RPC request identifier; `Number` holds the digits as they were sent. */
  datatype RequestID = Text(text: string) | Number(digits: string) | Integer(value: int) | Other

  datatype Route = Route(
    requestID: RequestID,
    key: CallKey,
    phase: string,
    tool: string,
    resultReady: bool,
    writeAttempted: bool,
    outcome: Option<Outcome>,
    turnTerminal: bool,
    handlerFinished: bool,
    handlerReserved: bool,
    handlerStarted: bool)

  /** A tool request; a field is `None` when it is missing or not a string. */
  datatype Params = Params(callID: Option<string>, threadID: Option<string>, turnID: Option<string>, tool: Option<string>)
  datatype Request = Request(id: RequestID, params: Option<Params>)

  /** An item/completed notification. */
  datatype Notice = Notice(threadID: Option<string>, turnID: Option<string>, itemID: Option<string>,
                           status: Option<string>, tool: Option<string>)

  datatype Event =
    | ResultReady(route: nat)
    | WriteAttempted(route: nat)
    | Result(route: nat, outcome: Outcome)
    | DeliveryRejected(route: nat, failures: seq<string>)
    | TurnSummary(turn: TurnKey, phase: string, status: string, calls: nat, pending: set<nat>)

  /** Evidence of delivery that has passed the checks and is on its way to `finish`. */
  datatype Evidence = Evidence(route: nat, status: string, tool: string)

  datatype State = State(
    routes: seq<Route>,
    calls: map<CallKey, nat>,
    order: seq<nat>,
    terminalTurns: set<TurnKey>,
    terminalOrder: seq<TurnKey>,
    // Decided under the lock, recorded after it is released.
    owed: multiset<Event>,
    recorded: seq<Event>,
    inFlight: multiset<Evidence>,
    // What the theorems speak about: turns the memory has dropped, how many had been dropped when each route was
    // admitted, turns ended without interruption since they were last remembered, and what each call was told.
    evictions: seq<TurnKey>,
    born: seq<nat>,
    settled: set<TurnKey>,
    accepted: map<nat, Evidence>,
    reserved: multiset<nat>,
    started: multiset<nat>,
    released: multiset<nat>)

  datatype Action =
    | Ensure(request: Request, threadID: string, turnID: string, phase: string)
    | MarkReady(route: nat)
    | MarkAttempted(route: nat)
    | Finish(route: nat, outcome: Outcome)
    | CheckDelivery(notice: Notice, turn: TurnKey)
    | FinishDelivery(evidence: Evidence)
    | Reserve(route: nat)
    | Start(route: nat)
    | Release(turn: TurnKey)
    | FinishHandler(route: nat)
    | Orphan(turn: TurnKey, phase: string, status: string)
    | Prune
    | Record(event: Event)

  // ---------------------------------------------------------------- parts of steps

  predicate AllDigits(s: string) {
    forall i :: 0 <= i < |s| ==> '0' <= s[i] <= '9'
  }

  /** An integer as JSON writes it: an optional minus sign and at least one digit. */
  predicate IntegerText(s: string) {
    s != [] && if s[0] == '-' then |s| > 1 && AllDigits(s[1..]) else AllDigits(s)
  }

  predicate ValidRequestID(id: RequestID) {
    id.Text? || id.Integer? || (id.Number? && IntegerText(id.digits))
  }

  predicate Present(text: Option<string>) {
    text.Some? && text.value != ""
  }

  /** The identity a request names, if the request is well formed. */
  function RequestedCall(request: Request): Option<CallKey> {
    if request.params.None? || !ValidRequestID(request.id) then None
    else
      var p := request.params.value;
      if Present(p.callID) && Present(p.threadID) && Present(p.turnID) && Present(p.tool)
      then Some(CallKey(TurnKey(p.threadID.value, p.turnID.value), p.callID.value))
      else None
  }

  /** Whether `ensure` admits a new route for `key`. */
  predicate Admits(s: State, key: CallKey, threadID: string, turnID: string, phase: string) {
    key !in s.calls && key.turn !in s.terminalTurns && key.turn == TurnKey(threadID, turnID) && phase != ""
  }

  function NewRoute(request: Request, key: CallKey, phase: string): Route
    requires RequestedCall(request) == Some(key)
  {
    Route(request.id, key, phase, request.params.value.tool.value, false, false, None, false, false, false, false)
  }

  function Admit(s: State, route: Route): State {
    s.(routes := s.routes + [route], calls := s.calls[route.key := |s.routes|], order := s.order + [|s.routes|],
       born := s.born + [|s.evictions|])
  }

  function Change(s: State, i: nat, route: Route): State
    requires i < |s.routes|
  {
    s.(routes := s.routes[i := route])
  }

  function Owe(s: State, e: Event): State {
    s.(owed := s.owed + multiset{e})
  }

  /** `finish`: the first outcome wins. */
  function Conclude(s: State, i: nat, outcome: Outcome): State
    requires i < |s.routes|
  {
    if s.routes[i].outcome.Some? then s
    else Owe(Change(s, i, s.routes[i].(outcome := Some(outcome))), Result(i, outcome))
  }

  predicate TerminalStatus(status: string) {
    status == "completed" || status == "failed"
  }

  /** Why a notification is not evidence of delivery. */
  function DeliveryFailures(route: Route, notice: Notice): seq<string> {
    (if route.resultReady then [] else ["result_not_ready"]) +
    (if route.writeAttempted then [] else ["response_not_attempted"]) +
    (if notice.status.Some? && TerminalStatus(notice.status.value) then [] else ["invalid_status"]) +
    (if notice.tool == Some(route.tool) then [] else ["tool_mismatch"])
  }

  /** The call a notification is about, if it is for the session's turn and names a known call. */
  function NoticedCall(calls: map<CallKey, nat>, notice: Notice, turn: TurnKey): Option<nat> {
    if notice.threadID == Some(turn.threadID) && notice.turnID == Some(turn.turnID) && Present(notice.itemID) &&
       CallKey(turn, notice.itemID.value) in calls
    then Some(calls[CallKey(turn, notice.itemID.value)])
    else None
  }

  function Noticed(s: State, i: nat, notice: Notice): State
    requires i < |s.routes|
  {
    var failures := DeliveryFailures(s.routes[i], notice);
    if failures != [] then Owe(s, DeliveryRejected(i, failures))
    else s.(inFlight := s.inFlight + multiset{Evidence(i, notice.status.value, notice.tool.value)})
  }

  function Deliver(s: State, e: Evidence): State
    requires e.route < |s.routes|
  {
    var landed := s.(inFlight := s.inFlight - multiset{e});
    if s.routes[e.route].outcome.Some? then landed
    else Conclude(landed, e.route, Delivered).(accepted := s.accepted[e.route := e])
  }

  predicate Unstarted(route: Route, turn: TurnKey) {
    route.key.turn == turn && route.handlerReserved && !route.handlerStarted && !route.handlerFinished
  }

  /** Members of `order` that satisfy a condition on their route. */
  function UnstartedIn(routes: seq<Route>, order: seq<nat>, turn: TurnKey): set<nat> {
    set i | i in order && i < |routes| && Unstarted(routes[i], turn)
  }

  function OfTurn(routes: seq<Route>, order: seq<nat>, turn: TurnKey): set<nat> {
    set i | i in order && i < |routes| && routes[i].key.turn == turn
  }

  function Unresolved(routes: seq<Route>, chosen: set<nat>): set<nat> {
    set i | i in chosen && i < |routes| && routes[i].outcome.None?
  }

  /** A route whose turn is over, whose outcome is known and whose handler has returned. */
  predicate Finished(route: Route) {
    route.outcome.Some? && route.turnTerminal && route.handlerFinished
  }

  function Results(chosen: set<nat>, outcome: Outcome): multiset<Event> {
    multiset(set i | i in chosen :: Result(i, outcome))
  }

  function ReleasedRoute(route: Route): Route {
    route.(handlerFinished := true, outcome := if route.outcome.Some? then route.outcome else Some(Rejected))
  }

  function ReleasedRoutes(routes: seq<Route>, chosen: set<nat>): seq<Route> {
    seq(|routes|, i requires 0 <= i < |routes| => if i in chosen then ReleasedRoute(routes[i]) else routes[i])
  }

  /** `releaseUnstarted`, before it prunes. */
  function ReleaseTurn(s: State, turn: TurnKey): State {
    var chosen := UnstartedIn(s.routes, s.order, turn);
    s.(routes := ReleasedRoutes(s.routes, chosen), released := s.released + multiset(chosen),
       owed := s.owed + Results(Unresolved(s.routes, chosen), Rejected))
  }

  /** The bounded memory of turns that are over: a new one is appended and the oldest dropped when there are too many. */
  function Remember(s: State, turn: TurnKey): State {
    if turn in s.terminalTurns then s
    else if |s.terminalOrder| < MAX_TERMINAL_TURNS then
      s.(terminalTurns := s.terminalTurns + {turn}, terminalOrder := s.terminalOrder + [turn])
    else
      var longer := s.terminalOrder + [turn];
      s.(terminalTurns := s.terminalTurns + {turn} - {longer[0]}, terminalOrder := longer[1..],
         evictions := s.evictions + [longer[0]], settled := s.settled - {longer[0]})
  }

  function EndedRoute(route: Route, interrupted: bool): Route {
    route.(turnTerminal := true,
           outcome := if route.outcome.None? && !interrupted then Some(Orphaned) else route.outcome)
  }

  function EndedRoutes(routes: seq<Route>, chosen: set<nat>, interrupted: bool): seq<Route> {
    seq(|routes|, i requires 0 <= i < |routes| => if i in chosen then EndedRoute(routes[i], interrupted) else routes[i])
  }

  /** `orphanUnresolved`, before it prunes. */
  function EndTurn(s: State, turn: TurnKey, phase: string, status: string): State {
    var t := Remember(s, turn);
    var chosen := OfTurn(s.routes, s.order, turn);
    var pending := Unresolved(s.routes, chosen);
    var interrupted := status == "interrupted";
    t.(routes := EndedRoutes(s.routes, chosen, interrupted),
       settled := if interrupted then t.settled else t.settled + {turn},
       owed := t.owed + multiset{TurnSummary(turn, phase, status, |chosen|, pending)} +
               if interrupted then multiset{} else Results(pending, Orphaned))
  }

  /** The members of `order` whose route is not finished, in their order. */
  function Live(routes: seq<Route>, order: seq<nat>): seq<nat> {
    if order == [] then []
    else
      var rest := Live(routes, order[..|order| - 1]);
      var last := order[|order| - 1];
      if last < |routes| && Finished(routes[last]) then rest else rest + [last]
  }

  function LiveCalls(routes: seq<Route>, calls: map<CallKey, nat>): map<CallKey, nat> {
    map k | k in calls && !(calls[k] < |routes| && Finished(routes[calls[k]])) :: calls[k]
  }

  // ---------------------------------------------------------------- steps

  predicate Enabled(s: State, a: Action) {
    match a
    case Ensure(_, _, _, _) => true
    case MarkReady(i) => i < |s.routes|
    case MarkAttempted(i) => i < |s.routes|
    case Finish(i, outcome) => i < |s.routes| && outcome != Delivered
    case CheckDelivery(notice, turn) =>
      var call := NoticedCall(s.calls, notice, turn);
      call.Some? ==> call.value < |s.routes|
    case FinishDelivery(e) => e in s.inFlight && e.route < |s.routes|
    case Reserve(i) => i < |s.routes|
    case Start(i) => i < |s.routes|
    case Release(_) => true
    case FinishHandler(i) => i < |s.routes|
    case Orphan(_, _, _) => true
    case Prune => true
    case Record(e) => e in s.owed
  }

  function EnsureStep(s: State, request: Request, threadID: string, turnID: string, phase: string): State {
    var key := RequestedCall(request);
    if key.Some? && Admits(s, key.value, threadID, turnID, phase) then Admit(s, NewRoute(request, key.value, phase)) else s
  }

  function ReadyStep(s: State, i: nat): State
    requires i < |s.routes|
  {
    if s.routes[i].resultReady then s
    else Owe(Change(s, i, s.routes[i].(resultReady := true)), ResultReady(i))
  }

  function AttemptStep(s: State, i: nat): State
    requires i < |s.routes|
  {
    if s.routes[i].writeAttempted then s
    else Owe(Change(s, i, s.routes[i].(writeAttempted := true)), WriteAttempted(i))
  }

  function ReserveStep(s: State, i: nat): State
    requires i < |s.routes|
  {
    if s.routes[i].handlerReserved then s
    else Change(s, i, s.routes[i].(handlerReserved := true)).(reserved := s.reserved + multiset{i})
  }

  predicate Startable(route: Route) {
    route.handlerReserved && !route.handlerStarted && !route.handlerFinished
  }

  function StartStep(s: State, i: nat): State
    requires i < |s.routes|
  {
    if !Startable(s.routes[i]) then s
    else Change(s, i, s.routes[i].(handlerStarted := true)).(started := s.started + multiset{i})
  }

  function CheckStep(s: State, notice: Notice, turn: TurnKey): State
    requires var call := NoticedCall(s.calls, notice, turn);
             call.Some? ==> call.value < |s.routes|
  {
    var call := NoticedCall(s.calls, notice, turn);
    if call.Some? then Noticed(s, call.value, notice) else s
  }

  function PruneStep(s: State): State {
    s.(calls := LiveCalls(s.routes, s.calls), order := Live(s.routes, s.order))
  }

  function Apply(s: State, a: Action): State
    requires Enabled(s, a)
  {
    match a
    case Ensure(request, threadID, turnID, phase) => EnsureStep(s, request, threadID, turnID, phase)
    case MarkReady(i) => ReadyStep(s, i)
    case MarkAttempted(i) => AttemptStep(s, i)
    case Finish(i, outcome) => Conclude(s, i, outcome)
    case CheckDelivery(notice, turn) => CheckStep(s, notice, turn)
    case FinishDelivery(e) => Deliver(s, e)
    case Reserve(i) => ReserveStep(s, i)
    case Start(i) => StartStep(s, i)
    case Release(turn) => ReleaseTurn(s, turn)
    case FinishHandler(i) => Change(s, i, s.routes[i].(handlerFinished := true))
    case Orphan(turn, phase, status) => EndTurn(s, turn, phase, status)
    case Prune => PruneStep(s)
    case Record(e) => s.(owed := s.owed - multiset{e}, recorded := s.recorded + [e])
  }

  // ---------------------------------------------------------------- what every step keeps

  /** The two indexes hold the same routes, and a route in neither is finished. */
  ghost predicate IndexInv(routes: seq<Route>, calls: map<CallKey, nat>, order: seq<nat>) {
    (forall m, n :: 0 <= m < n < |order| ==> order[m] != order[n]) &&
    (forall k :: k in calls ==> calls[k] in order && calls[k] < |routes| && routes[calls[k]].key == k) &&
    (forall i :: i in order ==> i < |routes| && routes[i].key in calls && calls[routes[i].key] == i) &&
    (forall i :: 0 <= i < |routes| && i !in order ==> Finished(routes[i]))
  }

  function Count(s: State, e: Event): nat {
    multiset(s.recorded)[e] + s.owed[e]
  }

  predicate HasOutcome(routes: seq<Route>, i: nat, outcome: Outcome) {
    i < |routes| && routes[i].outcome == Some(outcome)
  }

  /** One result event per outcome, one event per readiness and per write attempt, and none besides. */
  ghost predicate EventInv(s: State) {
    (forall i: nat, o :: Count(s, Result(i, o)) == if HasOutcome(s.routes, i, o) then 1 else 0) &&
    (forall i: nat :: Count(s, ResultReady(i)) == if i < |s.routes| && s.routes[i].resultReady then 1 else 0) &&
    (forall i: nat :: Count(s, WriteAttempted(i)) == if i < |s.routes| && s.routes[i].writeAttempted then 1 else 0)
  }

  predicate Proven(routes: seq<Route>, e: Evidence) {
    e.route < |routes| && routes[e.route].resultReady && routes[e.route].writeAttempted && TerminalStatus(e.status) &&
    e.tool == routes[e.route].tool
  }

  /** Delivery rests on evidence that passed every check, even when it lands later. */
  ghost predicate DeliveryInv(s: State) {
    (forall e :: e in s.inFlight ==> Proven(s.routes, e)) &&
    (forall i :: i in s.accepted ==> s.accepted[i].route == i && Proven(s.routes, s.accepted[i])) &&
    (forall i :: 0 <= i < |s.routes| && s.routes[i].outcome == Some(Delivered) ==> i in s.accepted)
  }

  ghost predicate HandlerInv(s: State) {
    (forall i: nat :: s.reserved[i] == if i < |s.routes| && s.routes[i].handlerReserved then 1 else 0) &&
    (forall i: nat :: s.started[i] == if i < |s.routes| && s.routes[i].handlerStarted then 1 else 0) &&
    (forall i: nat :: s.released[i] <= 1) &&
    (forall i: nat :: i in s.released ==>
      i < |s.routes| && s.routes[i].handlerFinished && s.routes[i].handlerReserved && !s.routes[i].handlerStarted) &&
    (forall i :: 0 <= i < |s.routes| && s.routes[i].handlerStarted ==> s.routes[i].handlerReserved)
  }

  /** The memory of finished turns is bounded and consistent; a settled turn has no unresolved call. */
  ghost predicate MemoryInv(s: State) {
    |s.terminalOrder| <= MAX_TERMINAL_TURNS &&
    (forall m, n :: 0 <= m < n < |s.terminalOrder| ==> s.terminalOrder[m] != s.terminalOrder[n]) &&
    (forall turn :: turn in s.terminalTurns <==> turn in s.terminalOrder) &&
    s.settled <= s.terminalTurns &&
    (forall i :: 0 <= i < |s.routes| && s.routes[i].key.turn in s.settled ==> s.routes[i].outcome.Some?)
  }

  /** The turn has been dropped from memory since there were `from` drops. */
  ghost predicate DroppedSince(evictions: seq<TurnKey>, turn: TurnKey, from: nat) {
    exists e :: from <= e < |evictions| && evictions[e] == turn
  }

  /** A second route for the same call exists only if the turn was dropped in between. */
  ghost predicate AgeInv(s: State) {
    |s.born| == |s.routes| &&
    (forall i :: 0 <= i < |s.born| ==> s.born[i] <= |s.evictions|) &&
    (forall i :: 0 <= i < |s.routes| && s.routes[i].turnTerminal ==>
      s.routes[i].key.turn in s.terminalTurns || DroppedSince(s.evictions, s.routes[i].key.turn, s.born[i])) &&
    (forall i, j :: 0 <= i < j < |s.routes| && s.routes[i].key == s.routes[j].key ==>
      DroppedSince(s.evictions[..s.born[j]], s.routes[i].key.turn, s.born[i]))
  }

  ghost predicate Inv(s: State) {
    IndexInv(s.routes, s.calls, s.order) && EventInv(s) && DeliveryInv(s) && HandlerInv(s) && MemoryInv(s) && AgeInv(s)
  }

  // ---------------------------------------------------------------- what routes keep

  /** A route's identity never changes, its flags are only raised and its outcome is set once. */
  predicate Grown(a: Route, b: Route) {
    a.requestID == b.requestID && a.key == b.key && a.phase == b.phase && a.tool == b.tool &&
    (a.resultReady ==> b.resultReady) && (a.writeAttempted ==> b.writeAttempted) &&
    (a.outcome.Some? ==> b.outcome == a.outcome) && (a.turnTerminal ==> b.turnTerminal) &&
    (a.handlerFinished ==> b.handlerFinished) && (a.handlerReserved ==> b.handlerReserved) &&
    (a.handlerStarted ==> b.handlerStarted)
  }

  ghost predicate Kept(a: seq<Route>, b: seq<Route>) {
    |a| <= |b| && forall i :: 0 <= i < |a| ==> Grown(a[i], b[i])
  }

  lemma IndexKept(a: seq<Route>, b: seq<Route>, calls: map<CallKey, nat>, order: seq<nat>)
    requires IndexInv(a, calls, order) && Kept(a, b) && |a| == |b|
    ensures IndexInv(b, calls, order)
  {
    forall i | 0 <= i < |b| && i !in order
      ensures Finished(b[i])
    {
      assert Grown(a[i], b[i]);
    }
  }

  lemma DeliveryKept(s: State, t: State)
    requires DeliveryInv(s) && Kept(s.routes, t.routes) && t.accepted == s.accepted
    requires forall e :: e in t.inFlight ==> e in s.inFlight
    requires forall i :: 0 <= i < |t.routes| && t.routes[i].outcome == Some(Delivered) ==> HasOutcome(s.routes, i, Delivered)
    ensures DeliveryInv(t)
  {
    forall e | e in t.inFlight
      ensures Proven(t.routes, e)
    {
      assert Proven(s.routes, e) && Grown(s.routes[e.route], t.routes[e.route]);
    }
    forall i | i in t.accepted
      ensures Proven(t.routes, t.accepted[i])
    {
      assert Proven(s.routes, s.accepted[i]) && Grown(s.routes[i], t.routes[i]);
    }
  }

  lemma HandlerKept(s: State, t: State)
    requires HandlerInv(s) && |s.routes| == |t.routes|
    requires t.reserved == s.reserved && t.started == s.started && t.released == s.released
    requires forall i :: 0 <= i < |s.routes| ==>
      t.routes[i].handlerReserved == s.routes[i].handlerReserved &&
      t.routes[i].handlerStarted == s.routes[i].handlerStarted && Grown(s.routes[i], t.routes[i])
    ensures HandlerInv(t)
  {
  }

  lemma MemoryKept(s: State, t: State)
    requires MemoryInv(s) && Kept(s.routes, t.routes) && |s.routes| == |t.routes|
    requires t.terminalOrder == s.terminalOrder && t.terminalTurns == s.terminalTurns && t.settled == s.settled
    ensures MemoryInv(t)
  {
    forall i | 0 <= i < |t.routes| && t.routes[i].key.turn in t.settled
      ensures t.routes[i].outcome.Some?
    {
      assert Grown(s.routes[i], t.routes[i]);
    }
  }

  lemma AgeKept(s: State, t: State)
    requires AgeInv(s) && Kept(s.routes, t.routes) && |s.routes| == |t.routes|
    requires t.evictions == s.evictions && t.born == s.born && t.terminalTurns == s.terminalTurns
    requires forall i :: 0 <= i < |s.routes| ==> t.routes[i].turnTerminal == s.routes[i].turnTerminal
    ensures AgeInv(t)
  {
    hide DroppedSince;
    forall i | 0 <= i < |t.routes|
      ensures t.routes[i].key == s.routes[i].key
    {
      assert Grown(s.routes[i], t.routes[i]);
    }
  }

  // ---------------------------------------------------------------- events

  lemma OweOne(s: State, t: State, e: Event)
    requires t.owed == s.owed + multiset{e} && t.recorded == s.recorded
    ensures forall f :: Count(t, f) == Count(s, f) + if f == e then 1 else 0
  {
  }

  lemma RecordedKeeps(s: State, e: Event, f: Event)
    requires e in s.owed
    ensures Count(s.(owed := s.owed - multiset{e}, recorded := s.recorded + [e]), f) == Count(s, f)
  {
    assert multiset(s.recorded + [e]) == multiset(s.recorded) + multiset{e};
  }

  predicate Among(e: Event, chosen: set<nat>, outcome: Outcome) {
    e.Result? && e.route in chosen && e.outcome == outcome
  }

  lemma ResultsCount(chosen: set<nat>, outcome: Outcome, e: Event)
    ensures Results(chosen, outcome)[e] == if Among(e, chosen, outcome) then 1 else 0
  {
  }

  /** Steps that record nothing and change no outcome, readiness or write attempt. */
  lemma EventKept(s: State, t: State)
    requires EventInv(s) && |t.routes| == |s.routes| && t.owed == s.owed && t.recorded == s.recorded
    requires forall i :: 0 <= i < |s.routes| ==>
      t.routes[i].outcome == s.routes[i].outcome && t.routes[i].resultReady == s.routes[i].resultReady &&
      t.routes[i].writeAttempted == s.routes[i].writeAttempted
    ensures EventInv(t)
  {
    forall e
      ensures Count(t, e) == Count(s, e)
    {
    }
  }

  // ---------------------------------------------------------------- steps on one route

  lemma ReadyKeeps(s: State, i: nat)
    requires Inv(s) && i < |s.routes|
    ensures Inv(ReadyStep(s, i)) && Kept(s.routes, ReadyStep(s, i).routes)
  {
    hide IndexInv, EventInv, DeliveryInv, HandlerInv, MemoryInv, AgeInv, Count;
    var t := ReadyStep(s, i);
    if !s.routes[i].resultReady {
      KeepAllButEvents(s, t);
      OweOne(s, t, ResultReady(i));
      EventsAfterReady(s, t, i);
    }
  }

  lemma EventsAfterReady(s: State, t: State, i: nat)
    requires EventInv(s) && i < |s.routes| && !s.routes[i].resultReady
    requires t.routes == s.routes[i := s.routes[i].(resultReady := true)]
    requires forall e :: Count(t, e) == Count(s, e) + if e == ResultReady(i) then 1 else 0
    ensures EventInv(t)
  {
    hide Count;
  }

  lemma AttemptKeeps(s: State, i: nat)
    requires Inv(s) && i < |s.routes|
    ensures Inv(AttemptStep(s, i)) && Kept(s.routes, AttemptStep(s, i).routes)
  {
    hide IndexInv, EventInv, DeliveryInv, HandlerInv, MemoryInv, AgeInv, Count;
    var t := AttemptStep(s, i);
    if !s.routes[i].writeAttempted {
      KeepAllButEvents(s, t);
      OweOne(s, t, WriteAttempted(i));
      EventsAfterAttempt(s, t, i);
    }
  }

  lemma EventsAfterAttempt(s: State, t: State, i: nat)
    requires EventInv(s) && i < |s.routes| && !s.routes[i].writeAttempted
    requires t.routes == s.routes[i := s.routes[i].(writeAttempted := true)]
    requires forall e :: Count(t, e) == Count(s, e) + if e == WriteAttempted(i) then 1 else 0
    ensures EventInv(t)
  {
    hide Count;
  }

  /** Steps that touch no index, no memory and no handler, and deliver nothing. */
  lemma KeepAllButEvents(s: State, t: State)
    requires Inv(s) && Kept(s.routes, t.routes)
    requires t == s.(routes := t.routes, owed := t.owed, recorded := t.recorded)
    requires |t.routes| == |s.routes|
    requires forall i :: 0 <= i < |s.routes| ==>
      (t.routes[i].outcome == Some(Delivered) ==> s.routes[i].outcome == Some(Delivered)) &&
      t.routes[i].turnTerminal == s.routes[i].turnTerminal &&
      t.routes[i].handlerReserved == s.routes[i].handlerReserved &&
      t.routes[i].handlerStarted == s.routes[i].handlerStarted
    ensures IndexInv(t.routes, t.calls, t.order) && DeliveryInv(t) && HandlerInv(t) && MemoryInv(t) && AgeInv(t)
  {
    IndexKept(s.routes, t.routes, s.calls, s.order);
    hide IndexInv, EventInv;
    DeliveryKept(s, t);
    hide DeliveryInv;
    HandlerKept(s, t);
    hide HandlerInv;
    MemoryKept(s, t);
    hide MemoryInv;
    AgeKept(s, t);
  }

  lemma ConcludeKeeps(s: State, i: nat, outcome: Outcome)
    requires Inv(s) && i < |s.routes| && outcome != Delivered
    ensures Inv(Conclude(s, i, outcome)) && Kept(s.routes, Conclude(s, i, outcome).routes)
  {
    hide IndexInv, EventInv, DeliveryInv, HandlerInv, MemoryInv, AgeInv, Count;
    var t := Conclude(s, i, outcome);
    if s.routes[i].outcome.None? {
      KeepAllButEvents(s, t);
      EventsAfterOutcome(s, t, i, outcome);
    }
  }

  lemma EventsAfterOutcome(s: State, t: State, i: nat, outcome: Outcome)
    requires EventInv(s) && i < |s.routes| && s.routes[i].outcome.None?
    requires t.routes == s.routes[i := s.routes[i].(outcome := Some(outcome))]
    requires t.owed == s.owed + multiset{Result(i, outcome)} && t.recorded == s.recorded
    ensures EventInv(t)
  {
    OweOne(s, t, Result(i, outcome));
    EventsCounted(s, t, i, outcome);
  }

  lemma EventsCounted(s: State, t: State, i: nat, outcome: Outcome)
    requires EventInv(s) && i < |s.routes| && s.routes[i].outcome.None?
    requires t.routes == s.routes[i := s.routes[i].(outcome := Some(outcome))]
    requires forall e :: Count(t, e) == Count(s, e) + if e == Result(i, outcome) then 1 else 0
    ensures EventInv(t)
  {
    hide Count;
  }

  /** The delivery lands: the evidence was checked earlier, and what it rests on cannot have been taken back. */
  lemma DeliverKeeps(s: State, e: Evidence)
    requires Inv(s) && e in s.inFlight
    ensures e.route < |s.routes| && Inv(Deliver(s, e)) && Kept(s.routes, Deliver(s, e).routes)
  {
    hide IndexInv, EventInv, HandlerInv, MemoryInv, AgeInv;
    assert Proven(s.routes, e);
    hide DeliveryInv;
    DeliveredProven(s, e);
    var landed := s.(inFlight := s.inFlight - multiset{e});
    SameRoutes(s, landed);
    EventKept(s, landed);
    if s.routes[e.route].outcome.None? {
      var t := Conclude(landed, e.route, Delivered);
      ConcludeAnyway(landed, t, e.route, Delivered);
      Accepted(t, Deliver(s, e));
    }
  }

  lemma ConcludeAnyway(s: State, t: State, i: nat, outcome: Outcome)
    requires IndexInv(s.routes, s.calls, s.order) && HandlerInv(s) && MemoryInv(s) && AgeInv(s) && EventInv(s)
    requires i < |s.routes| && s.routes[i].outcome.None? && t == Conclude(s, i, outcome)
    ensures IndexInv(t.routes, t.calls, t.order) && HandlerInv(t) && MemoryInv(t) && AgeInv(t) && EventInv(t)
    ensures Kept(s.routes, t.routes)
  {
    hide IndexInv, EventInv, HandlerInv, MemoryInv, AgeInv;
    EventsAfterOutcome(s, t, i, outcome);
    IndexKept(s.routes, t.routes, s.calls, s.order);
    HandlerKept(s, t);
    MemoryKept(s, t);
    AgeKept(s, t);
  }

  lemma Accepted(s: State, t: State)
    requires t == s.(accepted := t.accepted)
    requires HandlerInv(s) && MemoryInv(s) && AgeInv(s) && EventInv(s)
    ensures HandlerInv(t) && MemoryInv(t) && AgeInv(t) && EventInv(t)
  {
    hide HandlerInv, MemoryInv, AgeInv, EventInv;
    assert Kept(s.routes, t.routes);
    HandlerKept(s, t);
    MemoryKept(s, t);
    AgeKept(s, t);
    EventKept(s, t);
  }

  lemma DeliveredProven(s: State, e: Evidence)
    requires DeliveryInv(s) && e in s.inFlight && e.route < |s.routes|
    ensures DeliveryInv(Deliver(s, e))
  {
    assert Proven(s.routes, e);
    var landed := s.(inFlight := s.inFlight - multiset{e});
    assert DeliveryInv(landed);
    if s.routes[e.route].outcome.None? {
      ProvenMap(landed, e);
    }
  }

  lemma ProvenMap(s: State, e: Evidence)
    requires DeliveryInv(s) && Proven(s.routes, e)
    ensures DeliveryInv(Conclude(s, e.route, Delivered).(accepted := s.accepted[e.route := e]))
  {
    var t := Conclude(s, e.route, Delivered);
    forall d | Proven(s.routes, d)
      ensures Proven(t.routes, d)
    {
    }
  }

  lemma CheckKeeps(s: State, notice: Notice, turn: TurnKey)
    requires Inv(s)
    ensures Enabled(s, CheckDelivery(notice, turn)) && Inv(CheckStep(s, notice, turn))
    ensures CheckStep(s, notice, turn).routes == s.routes
  {
    hide EventInv, DeliveryInv, HandlerInv, MemoryInv, AgeInv, DeliveryFailures;
    var call := NoticedCall(s.calls, notice, turn);
    if call.Some? {
      assert call.value in s.order;
      NoticedKeeps(s, call.value, notice);
    }
  }

  lemma NoticedKeeps(s: State, i: nat, notice: Notice)
    requires Inv(s) && i < |s.routes|
    ensures Inv(Noticed(s, i, notice)) && Noticed(s, i, notice).routes == s.routes
  {
    hide IndexInv, EventInv, DeliveryInv, HandlerInv, MemoryInv, AgeInv, DeliveryFailures;
    var t := Noticed(s, i, notice);
    NoticedEvents(s, i, notice);
    NoticedProven(s, i, notice);
    SameRoutes(s, t);
  }

  /** Steps that change no route, index or memory. */
  lemma SameRoutes(s: State, t: State)
    requires t == s.(inFlight := t.inFlight, owed := t.owed, recorded := t.recorded)
    ensures HandlerInv(s) ==> HandlerInv(t)
    ensures MemoryInv(s) ==> MemoryInv(t)
    ensures AgeInv(s) ==> AgeInv(t)
  {
    hide DroppedSince;
  }

  lemma NoticedEvents(s: State, i: nat, notice: Notice)
    requires EventInv(s) && i < |s.routes|
    ensures EventInv(Noticed(s, i, notice))
  {
    var t := Noticed(s, i, notice);
    var failures := DeliveryFailures(s.routes[i], notice);
    if failures != [] {
      OweOne(s, t, DeliveryRejected(i, failures));
    } else {
      assert forall e :: Count(t, e) == Count(s, e);
    }
    OtherEvents(s, t);
  }

  lemma OtherEvents(s: State, t: State)
    requires EventInv(s) && t.routes == s.routes
    requires forall e: Event :: !e.DeliveryRejected? ==> Count(t, e) == Count(s, e)
    ensures EventInv(t)
  {
    hide Count;
  }

  lemma NoticedProven(s: State, i: nat, notice: Notice)
    requires DeliveryInv(s) && i < |s.routes|
    ensures DeliveryInv(Noticed(s, i, notice))
  {
  }

  // ---------------------------------------------------------------- handlers

  lemma HandlerStepKeeps(s: State, t: State, i: nat)
    requires Inv(s) && i < |s.routes| && HandlerInv(t) && Kept(s.routes, t.routes)
    requires t == s.(routes := t.routes, reserved := t.reserved, started := t.started)
    requires t.routes == s.routes[i := s.routes[i].(handlerReserved := t.routes[i].handlerReserved,
                                                   handlerStarted := t.routes[i].handlerStarted,
                                                   handlerFinished := t.routes[i].handlerFinished)]
    ensures Inv(t)
  {
    hide HandlerInv;
    IndexKept(s.routes, t.routes, s.calls, s.order);
    hide IndexInv;
    DeliveryKept(s, t);
    hide DeliveryInv;
    MemoryKept(s, t);
    hide MemoryInv;
    AgeKept(s, t);
    hide AgeInv;
    EventKept(s, t);
  }

  lemma ReserveHandlers(s: State, i: nat)
    requires HandlerInv(s) && i < |s.routes|
    ensures HandlerInv(ReserveStep(s, i))
  {
  }

  lemma StartHandlers(s: State, i: nat)
    requires HandlerInv(s) && i < |s.routes|
    ensures HandlerInv(StartStep(s, i))
  {
  }

  lemma FinishHandlers(s: State, i: nat)
    requires HandlerInv(s) && i < |s.routes|
    ensures HandlerInv(Change(s, i, s.routes[i].(handlerFinished := true)))
  {
  }

  lemma ReserveKeeps(s: State, i: nat)
    requires Inv(s) && i < |s.routes|
    ensures Inv(ReserveStep(s, i)) && Kept(s.routes, ReserveStep(s, i).routes)
  {
    hide IndexInv, EventInv, DeliveryInv, HandlerInv, MemoryInv, AgeInv;
    if !s.routes[i].handlerReserved {
      ReserveHandlers(s, i);
      HandlerStepKeeps(s, ReserveStep(s, i), i);
    }
  }

  lemma StartKeeps(s: State, i: nat)
    requires Inv(s) && i < |s.routes|
    ensures Inv(StartStep(s, i)) && Kept(s.routes, StartStep(s, i).routes)
  {
    hide IndexInv, EventInv, DeliveryInv, HandlerInv, MemoryInv, AgeInv;
    if Startable(s.routes[i]) {
      StartHandlers(s, i);
      HandlerStepKeeps(s, StartStep(s, i), i);
    }
  }

  lemma FinishHandlerKeeps(s: State, i: nat)
    requires Inv(s) && i < |s.routes|
    ensures var t := Change(s, i, s.routes[i].(handlerFinished := true));
            Inv(t) && Kept(s.routes, t.routes)
  {
    hide IndexInv, EventInv, DeliveryInv, HandlerInv, MemoryInv, AgeInv;
    var t := Change(s, i, s.routes[i].(handlerFinished := true));
    FinishHandlers(s, i);
    HandlerStepKeeps(s, t, i);
  }

  // ---------------------------------------------------------------- admission

  lemma AdmitKeeps(s: State, route: Route)
    requires Inv(s) && route.key !in s.calls && route.key.turn !in s.terminalTurns
    requires !route.resultReady && !route.writeAttempted && route.outcome.None? && !route.turnTerminal
    requires !route.handlerReserved && !route.handlerStarted
    ensures Inv(Admit(s, route)) && Kept(s.routes, Admit(s, route).routes)
  {
    hide IndexInv, EventInv, DeliveryInv, HandlerInv, MemoryInv, AgeInv;
    var t := Admit(s, route);
    AdmitIndex(s, route);
    AdmitEvents(s, route);
    DeliveryKept(s, t);
    AdmitHandlers(s, route);
    AdmitMemory(s, route);
    AdmitAge(s, route);
  }

  lemma AdmitIndex(s: State, route: Route)
    requires IndexInv(s.routes, s.calls, s.order) && route.key !in s.calls
    ensures var t := Admit(s, route);
            IndexInv(t.routes, t.calls, t.order)
  {
    var t := Admit(s, route);
    forall m | 0 <= m < |s.order|
      ensures s.order[m] < |s.routes|
    {
      assert s.order[m] in s.order;
    }
    forall i | i in t.order
      ensures i < |t.routes| && t.routes[i].key in t.calls && t.calls[t.routes[i].key] == i
    {
      assert i in s.order || i == |s.routes|;
    }
    forall i | 0 <= i < |t.routes| && i !in t.order
      ensures Finished(t.routes[i])
    {
      assert t.order[|s.order|] == |s.routes|;
      assert i < |s.routes| && i !in s.order;
    }
    forall k | k in t.calls
      ensures t.calls[k] in t.order
    {
      if k == route.key {
        assert t.order[|s.order|] == |s.routes|;
      } else {
        var m :| 0 <= m < |s.order| && s.order[m] == s.calls[k];
        assert t.order[m] == s.calls[k];
      }
    }
  }

  lemma AdmitEvents(s: State, route: Route)
    requires EventInv(s) && !route.resultReady && !route.writeAttempted && route.outcome.None?
    ensures EventInv(Admit(s, route))
  {
    var t := Admit(s, route);
    assert forall e :: Count(t, e) == Count(s, e);
    hide Count;
  }

  lemma AdmitHandlers(s: State, route: Route)
    requires HandlerInv(s) && !route.handlerReserved && !route.handlerStarted
    ensures HandlerInv(Admit(s, route))
  {
  }

  lemma AdmitMemory(s: State, route: Route)
    requires MemoryInv(s) && route.key.turn !in s.terminalTurns
    ensures MemoryInv(Admit(s, route))
  {
  }

  /** An earlier route for the same call has left the index, so its turn was over, and since it is not remembered now it
      has been dropped. */
  lemma AdmitAge(s: State, route: Route)
    requires IndexInv(s.routes, s.calls, s.order) && AgeInv(s)
    requires route.key !in s.calls && route.key.turn !in s.terminalTurns && !route.turnTerminal
    ensures AgeInv(Admit(s, route))
  {
    hide DroppedSince;
    var t := Admit(s, route);
    forall i | 0 <= i < |s.routes| && s.routes[i].key == route.key
      ensures DroppedSince(s.evictions, route.key.turn, s.born[i])
    {
      assert i !in s.order;
    }
    assert s.evictions[..|s.evictions|] == s.evictions;
  }

  // ---------------------------------------------------------------- release

  lemma ReleaseKeeps(s: State, turn: TurnKey)
    requires Inv(s)
    ensures Inv(ReleaseTurn(s, turn)) && Kept(s.routes, ReleaseTurn(s, turn).routes)
  {
    hide IndexInv, EventInv, DeliveryInv, HandlerInv, MemoryInv, AgeInv, UnstartedIn, Unresolved, Results;
    var t := ReleaseTurn(s, turn);
    IndexKept(s.routes, t.routes, s.calls, s.order);
    DeliveryKept(s, t);
    MemoryKept(s, t);
    AgeKept(s, t);
    ReleaseHandlers(s, turn);
    ReleaseEvents(s, UnstartedIn(s.routes, s.order, turn), t);
  }

  lemma ReleaseHandlers(s: State, turn: TurnKey)
    requires HandlerInv(s)
    ensures HandlerInv(ReleaseTurn(s, turn))
  {
    var chosen := UnstartedIn(s.routes, s.order, turn);
    ReleaseSome(s, ReleaseTurn(s, turn), chosen);
  }

  lemma ReleaseSome(s: State, t: State, chosen: set<nat>)
    requires HandlerInv(s)
    requires forall i :: i in chosen ==>
      i < |s.routes| && s.routes[i].handlerReserved && !s.routes[i].handlerStarted && !s.routes[i].handlerFinished
    requires t.routes == ReleasedRoutes(s.routes, chosen) && t.reserved == s.reserved && t.started == s.started
    requires t.released == s.released + multiset(chosen)
    ensures HandlerInv(t)
  {
    forall i: nat
      ensures t.released[i] == s.released[i] + if i in chosen then 1 else 0
    {
    }
    forall i | 0 <= i < |s.routes|
      ensures t.routes[i].handlerReserved == s.routes[i].handlerReserved
      ensures t.routes[i].handlerStarted == s.routes[i].handlerStarted
      ensures t.routes[i].handlerFinished == (s.routes[i].handlerFinished || i in chosen)
    {
    }
    hide ReleasedRoutes;
  }

  lemma RejectedEvents(s: State, t: State, chosen: set<nat>)
    requires EventInv(s) && t.routes == ReleasedRoutes(s.routes, chosen)
    requires forall e ::
      Count(t, e) == Count(s, e) + if Among(e, Unresolved(s.routes, chosen), Rejected) then 1 else 0
    ensures EventInv(t)
  {
    hide Count;
  }

  lemma ReleaseEvents(s: State, chosen: set<nat>, t: State)
    requires EventInv(s) && t.routes == ReleasedRoutes(s.routes, chosen) && t.recorded == s.recorded
    requires t.owed == s.owed + Results(Unresolved(s.routes, chosen), Rejected)
    ensures EventInv(t)
  {
    hide EventInv;
    var pending := Unresolved(s.routes, chosen);
    OweResults(s, t, pending, Rejected);
    RejectedEvents(s, t, chosen);
  }

  lemma OweResults(s: State, t: State, chosen: set<nat>, outcome: Outcome)
    requires t.recorded == s.recorded && t.owed == s.owed + Results(chosen, outcome)
    ensures forall e :: Count(t, e) == Count(s, e) + if Among(e, chosen, outcome) then 1 else 0
  {
    forall e
      ensures Results(chosen, outcome)[e] == if Among(e, chosen, outcome) then 1 else 0
    {
      ResultsCount(chosen, outcome, e);
    }
    hide Results;
  }

  // ---------------------------------------------------------------- the end of a turn

  lemma RememberKeeps(s: State, turn: TurnKey)
    requires Inv(s)
    ensures Inv(Remember(s, turn)) && Remember(s, turn).routes == s.routes && turn in Remember(s, turn).terminalTurns
  {
    hide IndexInv, EventInv, DeliveryInv, HandlerInv, MemoryInv, AgeInv;
    var t := Remember(s, turn);
    assert Kept(s.routes, t.routes);
    EventKept(s, t);
    DeliveryKept(s, t);
    HandlerKept(s, t);
    RememberMemory(s, turn);
    RememberAge(s, turn);
  }

  lemma RememberMemory(s: State, turn: TurnKey)
    requires MemoryInv(s)
    ensures MemoryInv(Remember(s, turn)) && turn in Remember(s, turn).terminalTurns
  {
    var t := Remember(s, turn);
    if turn !in s.terminalTurns {
      var longer := s.terminalOrder + [turn];
      assert forall x :: x in longer <==> x in s.terminalTurns || x == turn;
      assert forall m, n :: 0 <= m < n < |longer| ==> longer[m] != longer[n];
      if |s.terminalOrder| >= MAX_TERMINAL_TURNS {
        forall x
          ensures x in longer[1..] <==> x in longer && x != longer[0]
        {
          if x in longer && x != longer[0] {
            var k :| 0 <= k < |longer| && longer[k] == x;
            assert longer[1..][k - 1] == x;
          }
        }
      }
    }
  }

  lemma RememberAge(s: State, turn: TurnKey)
    requires AgeInv(s) && MemoryInv(s)
    ensures AgeInv(Remember(s, turn))
  {
    var t := Remember(s, turn);
    forall i | 0 <= i < |s.routes| && s.routes[i].turnTerminal
      ensures s.routes[i].key.turn in t.terminalTurns || DroppedSince(t.evictions, s.routes[i].key.turn, s.born[i])
    {
      var k := s.routes[i].key.turn;
      if k !in t.terminalTurns && k in s.terminalTurns {
        assert t.evictions[|s.evictions|] == k;
      } else if k !in t.terminalTurns {
        assert DroppedSince(s.evictions, k, s.born[i]);
        var e :| s.born[i] <= e < |s.evictions| && s.evictions[e] == k;
        assert t.evictions[e] == k;
      }
    }
    forall j | 0 <= j < |s.born|
      ensures t.evictions[..s.born[j]] == s.evictions[..s.born[j]]
    {
    }
    hide DroppedSince, MemoryInv;
  }

  lemma EndTurnKeeps(s: State, turn: TurnKey, phase: string, status: string)
    requires Inv(s)
    ensures Inv(EndTurn(s, turn, phase, status)) && Kept(s.routes, EndTurn(s, turn, phase, status).routes)
  {
    hide IndexInv, EventInv, DeliveryInv, HandlerInv, MemoryInv, AgeInv, OfTurn, Unresolved, Results, Remember;
    RememberKeeps(s, turn);
    RememberOnly(s, turn);
    var r := Remember(s, turn);
    var t := EndTurn(s, turn, phase, status);
    IndexKept(r.routes, t.routes, r.calls, r.order);
    DeliveryKept(r, t);
    HandlerKept(r, t);
    EndTurnMemory(r, t, turn, status == "interrupted");
    EndTurnAge(r, t, turn, status == "interrupted");
    EndTurnEvents(r, t, OfTurn(s.routes, s.order, turn), status == "interrupted",
                  TurnSummary(turn, phase, status, |OfTurn(s.routes, s.order, turn)|,
                              Unresolved(s.routes, OfTurn(s.routes, s.order, turn))));
  }

  lemma RememberOnly(s: State, turn: TurnKey)
    ensures var t := Remember(s, turn);
            t == s.(terminalTurns := t.terminalTurns, terminalOrder := t.terminalOrder, evictions := t.evictions,
                    settled := t.settled)
  {
  }

  lemma EndTurnMemory(s: State, t: State, turn: TurnKey, interrupted: bool)
    requires MemoryInv(s) && IndexInv(s.routes, s.calls, s.order) && turn in s.terminalTurns
    requires t.routes == EndedRoutes(s.routes, OfTurn(s.routes, s.order, turn), interrupted)
    requires t.terminalTurns == s.terminalTurns && t.terminalOrder == s.terminalOrder
    requires t.settled == if interrupted then s.settled else s.settled + {turn}
    ensures MemoryInv(t)
  {
    forall i | 0 <= i < |t.routes| && t.routes[i].key.turn in t.settled
      ensures t.routes[i].outcome.Some?
    {
      if s.routes[i].key.turn !in s.settled {
        assert s.routes[i].key.turn == turn && !interrupted;
        assert i in s.order ==> i in OfTurn(s.routes, s.order, turn);
        assert i !in s.order ==> Finished(s.routes[i]);
      }
    }
  }

  lemma EndTurnAge(s: State, t: State, turn: TurnKey, interrupted: bool)
    requires AgeInv(s) && turn in s.terminalTurns
    requires t.routes == EndedRoutes(s.routes, OfTurn(s.routes, s.order, turn), interrupted)
    requires t.terminalTurns == s.terminalTurns && t.evictions == s.evictions && t.born == s.born
    ensures AgeInv(t)
  {
    hide DroppedSince;
    forall i | 0 <= i < |s.routes|
      ensures t.routes[i].key == s.routes[i].key
      ensures t.routes[i].turnTerminal ==> s.routes[i].turnTerminal || s.routes[i].key.turn == turn
    {
    }
    hide OfTurn, EndedRoutes;
  }

  lemma SummaryOnly(s: State, t: State, summary: Event)
    requires EventInv(s) && summary.TurnSummary? && t.routes == s.routes
    requires forall e :: Count(t, e) == Count(s, e) + if e == summary then 1 else 0
    ensures EventInv(t)
  {
    hide Count;
  }

  lemma OrphanedEvents(s: State, t: State, chosen: set<nat>)
    requires EventInv(s) && t.routes == EndedRoutes(s.routes, chosen, false)
    requires forall e ::
      Count(t, e) == Count(s, e) + if Among(e, Unresolved(s.routes, chosen), Orphaned) then 1 else 0
    ensures EventInv(t)
  {
    hide Count;
  }

  lemma EndTurnEvents(s: State, t: State, chosen: set<nat>, interrupted: bool, summary: Event)
    requires EventInv(s) && summary.TurnSummary? && t.recorded == s.recorded
    requires t.routes == EndedRoutes(s.routes, chosen, interrupted)
    requires t.owed == s.owed + multiset{summary} +
                       if interrupted then multiset{} else Results(Unresolved(s.routes, chosen), Orphaned)
    ensures EventInv(t)
  {
    hide EventInv;
    var pending := Unresolved(s.routes, chosen);
    var u := Owe(s, summary);
    OweOne(s, u, summary);
    if interrupted {
      assert t.owed == u.owed;
      assert forall e :: Count(t, e) == Count(u, e);
      SummaryOnly(s, u, summary);
      EventKept(u, t);
    } else {
      SummaryOnly(s, u, summary);
      OweResults(u, t, pending, Orphaned);
      OrphanedEvents(u, t, chosen);
    }
  }

  // ---------------------------------------------------------------- pruning

  lemma {:induction false} LiveMembers(routes: seq<Route>, order: seq<nat>)
    requires forall m, n :: 0 <= m < n < |order| ==> order[m] != order[n]
    ensures forall i :: i in Live(routes, order) <==> i in order && !(i < |routes| && Finished(routes[i]))
    ensures forall m, n :: 0 <= m < n < |Live(routes, order)| ==> Live(routes, order)[m] != Live(routes, order)[n]
  {
    if order != [] {
      var front, last := order[..|order| - 1], order[|order| - 1];
      LiveMembers(routes, front);
      assert order == front + [last];
      assert last !in front;
    }
  }

  lemma PruneKeeps(s: State)
    requires Inv(s)
    ensures Inv(PruneStep(s))
  {
    hide EventInv, DeliveryInv, HandlerInv, MemoryInv, AgeInv;
    var t := PruneStep(s);
    PruneIndex(s);
    hide IndexInv;
    assert Kept(s.routes, t.routes);
    EventKept(s, t);
    DeliveryKept(s, t);
    HandlerKept(s, t);
    MemoryKept(s, t);
    AgeKept(s, t);
  }

  lemma PruneIndex(s: State)
    requires IndexInv(s.routes, s.calls, s.order)
    ensures IndexInv(s.routes, LiveCalls(s.routes, s.calls), Live(s.routes, s.order))
  {
    LiveMembers(s.routes, s.order);
    hide Live;
  }

  lemma RecordKeeps(s: State, e: Event)
    requires Inv(s) && e in s.owed
    ensures Inv(s.(owed := s.owed - multiset{e}, recorded := s.recorded + [e]))
  {
    hide IndexInv, EventInv, DeliveryInv, HandlerInv, MemoryInv, AgeInv;
    var t := s.(owed := s.owed - multiset{e}, recorded := s.recorded + [e]);
    SameRoutes(s, t);
    assert Kept(s.routes, t.routes);
    DeliveryKept(s, t);
    forall f
      ensures Count(t, f) == Count(s, f)
    {
      RecordedKeeps(s, e, f);
    }
    SameCounts(s, t);
  }

  lemma SameCounts(s: State, t: State)
    requires EventInv(s) && t.routes == s.routes
    requires forall e :: Count(t, e) == Count(s, e)
    ensures EventInv(t)
  {
    hide Count;
  }

  // ---------------------------------------------------------------- whole runs

  /** Every lock-held step of every thread keeps the invariant, every route's identity and every outcome given. */
  lemma StepKeeps(s: State, a: Action)
    requires Inv(s) && Enabled(s, a)
    ensures Inv(Apply(s, a)) && Kept(s.routes, Apply(s, a).routes)
  {
    hide Inv, Deliver, ReleaseTurn, EndTurn, PruneStep, CheckStep, ReadyStep, AttemptStep, ReserveStep, StartStep, Conclude;
    match a
    case Ensure(request, threadID, turnID, phase) => EnsureKeeps(s, request, threadID, turnID, phase);
    case MarkReady(i) => ReadyKeeps(s, i);
    case MarkAttempted(i) => AttemptKeeps(s, i);
    case Finish(i, outcome) => ConcludeKeeps(s, i, outcome);
    case CheckDelivery(notice, turn) => CheckKeeps(s, notice, turn);
    case FinishDelivery(e) => DeliverKeeps(s, e);
    case Reserve(i) => ReserveKeeps(s, i);
    case Start(i) => StartKeeps(s, i);
    case Release(turn) => ReleaseKeeps(s, turn);
    case FinishHandler(i) => FinishHandlerKeeps(s, i);
    case Orphan(turn, phase, status) => EndTurnKeeps(s, turn, phase, status);
    case Prune => PruneKeeps(s); PruneSame(s);
    case Record(e) => RecordKeeps(s, e);
  }

  lemma PruneSame(s: State)
    ensures PruneStep(s).routes == s.routes
  {
  }

  lemma EnsureKeeps(s: State, request: Request, threadID: string, turnID: string, phase: string)
    requires Inv(s)
    ensures var t := EnsureStep(s, request, threadID, turnID, phase);
            Inv(t) && Kept(s.routes, t.routes)
  {
    hide Inv, RequestedCall;
    var key := RequestedCall(request);
    if key.Some? && Admits(s, key.value, threadID, turnID, phase) {
      AdmitKeeps(s, NewRoute(request, key.value, phase));
    }
  }

  ghost predicate Initial(s: State) {
    s == State([], map[], [], {}, [], multiset{}, [], multiset{}, [], [], {}, map[], multiset{}, multiset{}, multiset{})
  }

  ghost predicate Legal(s: State, actions: seq<Action>)
    decreases |actions|
  {
    actions == [] || (Enabled(s, actions[0]) && Legal(Apply(s, actions[0]), actions[1..]))
  }

  ghost function Execute(s: State, actions: seq<Action>): State
    requires Legal(s, actions)
    decreases |actions|
  {
    if actions == [] then s else Execute(Apply(s, actions[0]), actions[1..])
  }

  lemma {:induction false} RunKeeps(s: State, actions: seq<Action>)
    requires Inv(s) && Legal(s, actions)
    ensures Inv(Execute(s, actions)) && Kept(s.routes, Execute(s, actions).routes)
    decreases |actions|
  {
    hide Inv, Enabled, Apply;
    if actions != [] {
      var next := Apply(s, actions[0]);
      StepKeeps(s, actions[0]);
      RunKeeps(next, actions[1..]);
      KeptTwice(s.routes, next.routes, Execute(s, actions).routes);
    }
  }

  lemma KeptTwice(a: seq<Route>, b: seq<Route>, c: seq<Route>)
    requires Kept(a, b) && Kept(b, c)
    ensures Kept(a, c)
  {
    forall i | 0 <= i < |a|
      ensures Grown(a[i], c[i])
    {
      assert Grown(a[i], b[i]) && Grown(b[i], c[i]);
    }
  }

  lemma InitialInv(s: State)
    requires Initial(s)
    ensures Inv(s)
  {
  }

  /** Once every owed event is recorded, each call that ended has exactly one result event, the one for its outcome, and
      no other call has any. */
  lemma OneResultPerCall(s: State, actions: seq<Action>, i: nat, outcome: Outcome)
    requires Initial(s) && Legal(s, actions) && Execute(s, actions).owed == multiset{}
    ensures var t := Execute(s, actions);
            multiset(t.recorded)[Result(i, outcome)] == if HasOutcome(t.routes, i, outcome) then 1 else 0
  {
    InitialInv(s);
    RunKeeps(s, actions);
    hide IndexInv, DeliveryInv, HandlerInv, MemoryInv, AgeInv, Legal, Execute;
    assert Count(Execute(s, actions), Result(i, outcome)) == multiset(Execute(s, actions).recorded)[Result(i, outcome)];
  }

  /** At no point of any run has a call more than one result event, recorded or on its way. */
  lemma AtMostOneResult(s: State, actions: seq<Action>, i: nat, a: Outcome, b: Outcome)
    requires Initial(s) && Legal(s, actions)
    ensures var t := Execute(s, actions);
            multiset(t.recorded)[Result(i, a)] <= 1 &&
            (Result(i, a) in t.recorded && Result(i, b) in t.recorded ==> a == b)
  {
    InitialInv(s);
    RunKeeps(s, actions);
    hide IndexInv, DeliveryInv, HandlerInv, MemoryInv, AgeInv, Legal, Execute;
    var t := Execute(s, actions);
    assert Count(t, Result(i, a)) <= 1;
    assert Count(t, Result(i, a)) + Count(t, Result(i, b)) <= 2;
    assert Result(i, a) in t.recorded ==> Result(i, a) in multiset(t.recorded);
    assert Result(i, b) in t.recorded ==> Result(i, b) in multiset(t.recorded);
  }

  /** In every interleaving: a delivered call had its result ready, its response attempted and checked evidence; the two
      indexes hold the same routes; the memory of turns is bounded; a settled turn has no unresolved call; a call is
      admitted again only after its turn was dropped from memory; a handler starts at most once, and never after its
      reservation was released. */
  lemma EveryRunSafe(s: State, actions: seq<Action>)
    requires Initial(s) && Legal(s, actions)
    ensures var t := Execute(s, actions);
            (forall i :: 0 <= i < |t.routes| && t.routes[i].outcome == Some(Delivered) ==>
              t.routes[i].resultReady && t.routes[i].writeAttempted && i in t.accepted &&
              TerminalStatus(t.accepted[i].status) && t.accepted[i].tool == t.routes[i].tool) &&
            t.calls.Values == (set i | i in t.order) &&
            (forall i :: 0 <= i < |t.routes| && i !in t.order ==> Finished(t.routes[i])) &&
            |t.terminalOrder| <= MAX_TERMINAL_TURNS && t.settled <= t.terminalTurns &&
            (forall i :: 0 <= i < |t.routes| && t.routes[i].key.turn in t.settled ==> t.routes[i].outcome.Some?) &&
            (forall i: nat :: t.started[i] <= t.reserved[i] <= 1 && (t.released[i] > 0 ==> t.started[i] == 0))
    ensures AgeInv(Execute(s, actions))
  {
    InitialInv(s);
    RunKeeps(s, actions);
    hide EventInv, AgeInv, Legal, Execute;
    var t := Execute(s, actions);
    IndexesAgree(t);
    hide IndexInv;
    forall i | 0 <= i < |t.routes| && t.routes[i].outcome == Some(Delivered)
      ensures i in t.accepted && Proven(t.routes, t.accepted[i]) && t.accepted[i].route == i
    {
    }
  }

  lemma IndexesAgree(t: State)
    requires IndexInv(t.routes, t.calls, t.order)
    ensures t.calls.Values == (set i | i in t.order)
    ensures forall i :: 0 <= i < |t.routes| && i !in t.order ==> Finished(t.routes[i])
  {
    forall i | i in t.order
      ensures i in t.calls.Values
    {
      assert t.routes[i].key in t.calls && t.calls[t.routes[i].key] == i;
    }
  }

  /** What a call was told it keeps being told: outcomes given at one point of a run are the outcomes later. */
  lemma OutcomesStay(s: State, before: seq<Action>, after: seq<Action>, i: nat)
    requires Initial(s) && Legal(s, before) && Legal(Execute(s, before), after) && i < |Execute(s, before).routes|
    ensures var u, t := Execute(s, before), Execute(Execute(s, before), after);
            i < |t.routes| && t.routes[i].key == u.routes[i].key &&
            (u.routes[i].outcome.Some? ==> t.routes[i].outcome == u.routes[i].outcome)
  {
    InitialInv(s);
    RunKeeps(s, before);
    RunKeeps(Execute(s, before), after);
    hide Inv;
  }

  /** No call is admitted twice unless its turn was dropped from memory between the two admissions. */
  lemma ReadmittedOnlyAfterDrop(s: State, actions: seq<Action>, i: nat, j: nat)
    requires Initial(s) && Legal(s, actions) && i < j < |Execute(s, actions).routes|
    requires Execute(s, actions).routes[i].key == Execute(s, actions).routes[j].key
    ensures var t := Execute(s, actions);
            i < j < |t.born| && t.born[j] <= |t.evictions| &&
            exists e :: t.born[i] <= e < t.born[j] && t.evictions[e] == t.routes[i].key.turn
  {
    InitialInv(s);
    RunKeeps(s, actions);
    hide IndexInv, EventInv, DeliveryInv, HandlerInv, MemoryInv, Legal, Execute;
    var t := Execute(s, actions);
    var e :| t.born[i] <= e < t.born[j] && t.evictions[..t.born[j]][e] == t.routes[i].key.turn;
    assert t.evictions[e] == t.routes[i].key.turn;
  }
}
