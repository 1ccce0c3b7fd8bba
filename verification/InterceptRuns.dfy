/** Exchanges passing through the interceptor: each keeps the project active when it arrived while
    its request, and later its response, may be held across project switches. */
module InterceptRuns {
  import opened Bytes
  import opened Interceptor

  /** Where an exchange stands: its request held, sent on, its response held, or over. */
  datatype Phase = AtRequest | Sent | AtResponse | Over

  /** A response as it came back, and whether it was held. */
  datatype Reply = Reply(raw: bytes, held: bool)

  /** An exchange: where it stands, the request it went on with, the response that came back and what
      the client was answered. */
  datatype Exchange = Exchange(
    project: string, phase: Phase, onward: Option<bytes>, reply: Option<Reply>, answer: Option<bytes>)

  /** How an exchange arrived: under which project, with which request, and whether it was held. */
  datatype Arrival = Arrival(project: string, raw: bytes, held: bool)

  /** What a held message is, by its id. */
  datatype Holding = Holding(exchange: nat, kind: Kind, raw: bytes)

  /** A history row: the exchange it is for, its project and its request. */
  datatype Row = Row(exchange: nat, project: string, raw: bytes, dropped: bool)

  /** The proxy; `arrivals`, `holds` (every message held, by id), `releases` (the decisions tasks went
      on with) and `lost` (decisions for tasks cancelled before they could go on) are history. */
  datatype State = State(
    board: Board, active: string, exchanges: seq<Exchange>, rows: seq<Row>,
    arrivals: seq<Arrival>, holds: seq<Holding>, releases: seq<Success>, lost: nat)

  datatype Step =
    | Switch(project: string)
    | Arrive(raw: bytes, held: bool, logged: bool)
    | Call(id: nat, decision: Decision, edited: Option<bytes>) | CallAll(decision: Decision)
    | Cancel(k: nat) | Resume(k: nat, logged: bool)
    | Respond(e: nat, raw: bytes, held: bool)

  function Start(active: string): State { State(Board(0, [], []), active, [], [], [], [], [], 0) }

  predicate Enabled(s: State, step: Step) {
    match step
    case Resume(k, _) =>
      && k < |s.board.pending| && s.board.pending[k].future != Open
      && s.board.pending[k].exchange < |s.exchanges|
    case Cancel(k) => k < |s.board.pending|
    case Respond(e, _, _) => e < |s.exchanges| && s.exchanges[e].phase == Sent
    case Call(_, decision, edited) => decision == Drop ==> edited == None
    case _ => true
  }

  function Logs(logged: bool, row: Row): seq<Row> { if logged then [row] else [] }

  function Resumed(s: State, k: nat, logged: bool): State
    requires Enabled(s, Resume(k, logged))
  {
    var item := s.board.pending[k];
    var x := s.exchanges[item.exchange];
    var gone := s.(board := RemovedAt(s.board, k));
    if !Released(s.board, k) then
      gone.(exchanges := s.exchanges[item.exchange := x.(phase := Over)],
             lost := s.lost + if item.future.Done? then 1 else 0)
    else
      var on := gone.(releases := s.releases + [Success(item.id, item.future.decision, item.future.raw)]);
      match (item.kind, item.future.decision)
      case (RequestKind, Forward) =>
        on.(exchanges := s.exchanges[item.exchange := x.(phase := Sent, onward := Some(item.future.raw))],
            rows := s.rows + Logs(logged, Row(item.exchange, x.project, item.future.raw, false)))
      case (RequestKind, Drop) =>
        on.(exchanges := s.exchanges[item.exchange := x.(phase := Over)],
            rows := s.rows + Logs(logged, Row(item.exchange, x.project, item.raw, true)))
      case (ResponseKind, Forward) =>
        on.(exchanges := s.exchanges[item.exchange := x.(phase := Over, answer := Some(item.future.raw))])
      case (ResponseKind, Drop) => on.(exchanges := s.exchanges[item.exchange := x.(phase := Over)])
  }

  function Apply(s: State, step: Step): State
    requires Enabled(s, step)
  {
    match step
    case Switch(project) => s.(active := project)
    case Arrive(raw, held, logged) =>
      var e := |s.exchanges|;
      var t := s.(arrivals := s.arrivals + [Arrival(s.active, raw, held)]);
      if held then
        t.(exchanges := s.exchanges + [Exchange(s.active, AtRequest, None, None, None)],
           holds := s.holds + [Holding(e, RequestKind, raw)],
           board := Held(s.board, RequestKind, s.active, e, raw))
      else
        t.(exchanges := s.exchanges + [Exchange(s.active, Sent, Some(raw), None, None)],
           rows := s.rows + Logs(logged, Row(e, s.active, raw, false)))
    case Call(id, decision, edited) => s.(board := Called(s.board, id, decision, edited))
    case CallAll(decision) => s.(board := CalledAll(s.board, |s.board.pending|, decision))
    case Cancel(k) => s.(board := CancelledAt(s.board, k))
    case Resume(k, logged) => Resumed(s, k, logged)
    case Respond(e, raw, held) =>
      var x := s.exchanges[e].(reply := Some(Reply(raw, held)));
      if held then
        s.(exchanges := s.exchanges[e := x.(phase := AtResponse)],
           holds := s.holds + [Holding(e, ResponseKind, raw)],
           board := Held(s.board, ResponseKind, x.project, e, raw))
      else s.(exchanges := s.exchanges[e := x.(phase := Over, answer := Some(raw))])
  }

  // ------------------------------------------------------------------ invariant

  predicate DistinctIds(log: seq<Success>) { forall i, j :: 0 <= i < j < |log| ==> log[i].id != log[j].id }

  predicate NotLogged(log: seq<Success>, id: nat) { forall i :: 0 <= i < |log| ==> log[i].id != id }

  /** A message's future tells of the one call that resolved it, if any did. */
  predicate FutureOk(item: Item, log: seq<Success>) {
    match item.future
    case Done(decision, raw) => Success(item.id, decision, raw) in log
    case _ => NotLogged(log, item.id) && (item.future == Open ==> !item.doomed)
  }

  predicate BoardInv(b: Board) {
    && (forall k :: 0 <= k < |b.pending| ==> b.pending[k].id < b.issued && FutureOk(b.pending[k], b.log))
    && (forall j, k :: 0 <= j < k < |b.pending| ==> b.pending[j].id < b.pending[k].id)
    && DistinctIds(b.log) && (forall i :: 0 <= i < |b.log| ==> b.log[i].id < b.issued)
  }

  predicate NotHeld(items: seq<Item>, id: nat) { forall k :: 0 <= k < |items| ==> items[k].id != id }

  /** Every release is a successful call's, and no message is released twice. */
  predicate ReleasesInv(releases: seq<Success>, b: Board) {
    && DistinctIds(releases)
    && (forall i :: 0 <= i < |releases| ==>
          releases[i] in b.log && releases[i].id < b.issued && NotHeld(b.pending, releases[i].id))
  }

  function DoneCount(items: seq<Item>): nat {
    if items == [] then 0 else DoneCount(items[..|items| - 1]) + if items[|items| - 1].future.Done? then 1 else 0
  }

  predicate CountInv(s: State) { |s.board.log| == |s.releases| + s.lost + DoneCount(s.board.pending) }

  /** Exchanges, held messages and rows keep the project active at arrival. */
  predicate ProjectInv(s: State) {
    && |s.exchanges| == |s.arrivals|
    && (forall e :: 0 <= e < |s.exchanges| ==> s.exchanges[e].project == s.arrivals[e].project)
    && (forall k :: 0 <= k < |s.board.pending| ==>
          var item := s.board.pending[k];
              item.exchange < |s.arrivals| && item.project == s.arrivals[item.exchange].project)
    && (forall i :: 0 <= i < |s.rows| ==>
          s.rows[i].exchange < |s.arrivals| && s.rows[i].project == s.arrivals[s.rows[i].exchange].project)
  }

  predicate Inv(s: State) {
    BoardInv(s.board) && ReleasesInv(s.releases, s.board) && CountInv(s) && ProjectInv(s)
  }

  // ---------------------------------------------------------------- the board

  lemma {:induction false} DoneUpdate(items: seq<Item>, k: nat, item: Item)
    requires k < |items|
    ensures DoneCount(items[k := item])
         == DoneCount(items) - (if items[k].future.Done? then 1 else 0) + (if item.future.Done? then 1 else 0)
  {
    var n := |items| - 1;
    if k < n {
      assert items[k := item][..n] == items[..n][k := item];
      DoneUpdate(items[..n], k, item);
    } else { assert items[n := item][..n] == items[..n]; }
  }

  lemma {:induction false} DoneRemoved(items: seq<Item>, k: nat)
    requires k < |items|
    ensures DoneCount(items[..k] + items[k + 1..]) == DoneCount(items) - if items[k].future.Done? then 1 else 0
  {
    var n := |items| - 1;
    if k < n {
      assert (items[..k] + items[k + 1..])[..n - 1] == items[..n][..k] + items[..n][k + 1..];
      DoneRemoved(items[..n], k);
    } else { assert items[..n] + items[n + 1..] == items[..n]; }
  }

  lemma LoggedKeeps(item: Item, log: seq<Success>, x: Success)
    requires FutureOk(item, log) && x.id != item.id
    ensures FutureOk(item, log + [x])
  {
    if item.future.Done? { assert Success(item.id, item.future.decision, item.future.raw) in log + [x]; }
  }

  /** The same exchanges wait in the same places. */
  predicate SameExchanges(b: Board, t: Board) {
    && |t.pending| == |b.pending|
    && forall j :: 0 <= j < |b.pending| ==>
         t.pending[j].exchange == b.pending[j].exchange && t.pending[j].project == b.pending[j].project
  }

  lemma SameItself(b: Board)
    ensures SameExchanges(b, b)
  {}

  lemma SameThrough(a: Board, b: Board, c: Board)
    ensures SameExchanges(a, b) && SameExchanges(b, c) ==> SameExchanges(a, c)
  {}

  /** Resolving one message keeps the board and everything released so far, and counts it. */
  lemma ResolvedKeeps(b: Board, k: nat, decision: Decision, raw: Option<bytes>, releases: seq<Success>)
    requires BoardInv(b) && ReleasesInv(releases, b)
    ensures var t := ResolvedAt(b, k, decision, raw);
      && BoardInv(t) && ReleasesInv(releases, t) && SameExchanges(b, t)
      && |t.log| - |b.log| == DoneCount(t.pending) - DoneCount(b.pending)
  {
    if Resolves(b, k) {
      var item := b.pending[k];
      var x := Success(item.id, decision, BytesFor(item, raw));
      DoneUpdate(b.pending, k, item.(future := Done(decision, x.raw)));
      assert FutureOk(item, b.log);
      ResolvedBoard(b, k, x);
      ResolvedReleases(b, k, x, releases);
    }
  }

  lemma ResolvedBoard(b: Board, k: nat, x: Success)
    requires BoardInv(b) && k < |b.pending| && b.pending[k].future == Open && x.id == b.pending[k].id
    ensures BoardInv(b.(pending := b.pending[k := b.pending[k].(future := Done(x.decision, x.raw))],
                        log := b.log + [x]))
  {
    var items := b.pending[k := b.pending[k].(future := Done(x.decision, x.raw))];
    forall j | 0 <= j < |items| ensures FutureOk(items[j], b.log + [x]) {
      if j != k { LoggedKeeps(b.pending[j], b.log, x); }
    }
    assert FutureOk(b.pending[k], b.log);
    hide FutureOk;
  }

  lemma ResolvedReleases(b: Board, k: nat, x: Success, releases: seq<Success>)
    requires ReleasesInv(releases, b) && k < |b.pending| && x.id == b.pending[k].id
    ensures ReleasesInv(releases, b.(pending := b.pending[k := b.pending[k].(future := Done(x.decision, x.raw))],
                                    log := b.log + [x]))
  {
  }

  lemma {:induction false} CalledAllKeeps(b: Board, n: nat, decision: Decision, releases: seq<Success>)
    requires BoardInv(b) && ReleasesInv(releases, b)
    ensures var t := CalledAll(b, n, decision);
      && BoardInv(t) && ReleasesInv(releases, t) && SameExchanges(b, t)
      && |t.log| - |b.log| == DoneCount(t.pending) - DoneCount(b.pending)
  {
    hide BoardInv, ReleasesInv, ResolvedAt, DoneCount, SameExchanges;
    if n == 0 { SameItself(b); }
    else {
      CalledAllKeeps(b, n - 1, decision, releases);
      ResolvedKeeps(CalledAll(b, n - 1, decision), n - 1, decision, None, releases);
      SameThrough(b, CalledAll(b, n - 1, decision), CalledAll(b, n, decision));
    }
  }

  lemma CancelledKeeps(b: Board, k: nat, releases: seq<Success>)
    requires BoardInv(b) && ReleasesInv(releases, b) && k < |b.pending|
    ensures var t := CancelledAt(b, k);
      BoardInv(t) && ReleasesInv(releases, t) && DoneCount(t.pending) == DoneCount(b.pending)
  {
    DoneUpdate(b.pending, k, CancelledAt(b, k).pending[k]);
    assert FutureOk(b.pending[k], b.log);
    hide DoneCount, DistinctIds, NotLogged;
  }

  lemma HeldKeeps(b: Board, kind: Kind, project: string, exchange: nat, raw: bytes, releases: seq<Success>)
    requires BoardInv(b) && ReleasesInv(releases, b)
    ensures var t := Held(b, kind, project, exchange, raw);
      BoardInv(t) && ReleasesInv(releases, t) && DoneCount(t.pending) == DoneCount(b.pending)
  {
    var t := Held(b, kind, project, exchange, raw);
    assert t.pending[..|b.pending|] == b.pending;
    assert NotLogged(b.log, b.issued);
    assert forall k :: 0 <= k < |b.pending| ==> FutureOk(t.pending[k], b.log);
    assert FutureOk(t.pending[|b.pending|], b.log);
    hide FutureOk, DistinctIds;
  }

  lemma RemovedKeeps(b: Board, k: nat, releases: seq<Success>)
    requires BoardInv(b) && ReleasesInv(releases, b) && k < |b.pending|
    ensures var t := RemovedAt(b, k); BoardInv(t) && ReleasesInv(releases, t) && NotHeld(t.pending, b.pending[k].id)
  {
    var items := b.pending[..k] + b.pending[k + 1..];
    assert forall j :: 0 <= j < |items| ==> items[j] == b.pending[if j < k then j else j + 1];
    hide FutureOk, DistinctIds;
  }

  /** A message's own release joins the others. */
  lemma ReleasedKeeps(b: Board, k: nat, releases: seq<Success>)
    requires BoardInv(b) && ReleasesInv(releases, b) && k < |b.pending| && b.pending[k].future.Done?
    ensures var item := b.pending[k];
      ReleasesInv(releases + [Success(item.id, item.future.decision, item.future.raw)], RemovedAt(b, k))
  {
    RemovedKeeps(b, k, releases);
    var item := b.pending[k];
    assert FutureOk(item, b.log) && item.id < b.issued;
    assert forall i :: 0 <= i < |releases| ==> releases[i].id != item.id by {
      forall i | 0 <= i < |releases| ensures releases[i].id != item.id { assert NotHeld(b.pending, releases[i].id); }
    }
    hide BoardInv, NotHeld, FutureOk;
  }

  // --------------------------------------------------------- steps keep the invariant

  lemma ResumeKeeps(s: State, k: nat, logged: bool)
    requires Inv(s) && Enabled(s, Resume(k, logged))
    ensures Inv(Resumed(s, k, logged))
  {
    hide BoardInv, ReleasesInv, ProjectInv;
    RemovedKeeps(s.board, k, s.releases);
    DoneRemoved(s.board.pending, k);
    if Released(s.board, k) { ReleasedKeeps(s.board, k, s.releases); }
    ResumedProjects(s, k, logged);
    hide DoneCount;
  }

  lemma WithoutItem(items: seq<Item>, k: nat)
    requires k < |items|
    ensures var rest := items[..k] + items[k + 1..];
      |rest| == |items| - 1 && forall j :: 0 <= j < |rest| ==> rest[j] == items[if j < k then j else j + 1]
  {}

  lemma ResumedProjects(s: State, k: nat, logged: bool)
    requires ProjectInv(s) && Enabled(s, Resume(k, logged))
    ensures ProjectInv(Resumed(s, k, logged))
  {
    var items := s.board.pending;
    WithoutItem(items, k);
    var item := items[k];
    assert item.project == s.arrivals[item.exchange].project == s.exchanges[item.exchange].project;
  }

  lemma ArrivedProjects(s: State, raw: bytes, held: bool, logged: bool)
    requires ProjectInv(s)
    ensures ProjectInv(Apply(s, Arrive(raw, held, logged)))
  {}

  lemma ArriveKeeps(s: State, raw: bytes, held: bool, logged: bool)
    requires Inv(s)
    ensures Inv(Apply(s, Arrive(raw, held, logged)))
  {
    hide BoardInv, ReleasesInv, DoneCount, ProjectInv;
    HeldKeeps(s.board, RequestKind, s.active, |s.exchanges|, raw, s.releases);
    ArrivedProjects(s, raw, held, logged);
  }

  lemma RespondedProjects(s: State, e: nat, raw: bytes, held: bool)
    requires ProjectInv(s) && Enabled(s, Respond(e, raw, held))
    ensures ProjectInv(Apply(s, Respond(e, raw, held)))
  {}

  lemma RespondKeeps(s: State, e: nat, raw: bytes, held: bool)
    requires Inv(s) && Enabled(s, Respond(e, raw, held))
    ensures Inv(Apply(s, Respond(e, raw, held)))
  {
    hide BoardInv, ReleasesInv, DoneCount, ProjectInv;
    RespondedProjects(s, e, raw, held);
    HeldKeeps(s.board, ResponseKind, s.exchanges[e].project, e, raw, s.releases);
  }

  lemma CallKeeps(s: State, step: Step)
    requires Inv(s) && Enabled(s, step) && (step.Call? || step.CallAll? || step.Cancel?)
    ensures Inv(Apply(s, step))
  {
    hide BoardInv, ReleasesInv, DoneCount, ResolvedAt, CalledAll;
    match step {
      case Call(id, decision, edited) =>
        ResolvedKeeps(s.board, Place(s.board.pending, id), decision, edited, s.releases);
      case CallAll(decision) => CalledAllKeeps(s.board, |s.board.pending|, decision, s.releases);
      case Cancel(k) => CancelledKeeps(s.board, k, s.releases);
    }
  }

  lemma StepKeeps(s: State, step: Step)
    requires Inv(s) && Enabled(s, step)
    ensures Inv(Apply(s, step))
  {
    hide BoardInv, ReleasesInv, DoneCount;
    match step {
      case Switch(_) =>
      case Arrive(raw, held, logged) => ArriveKeeps(s, raw, held, logged);
      case Resume(k, logged) => ResumeKeeps(s, k, logged);
      case Respond(e, raw, held) => RespondKeeps(s, e, raw, held);
      case _ => CallKeeps(s, step);
    }
  }

  // ------------------------------------------------------------------ whole runs

  predicate IsRun(active: string, states: seq<State>, steps: seq<Step>) {
    && |states| == |steps| + 1 && states[0] == Start(active)
    && forall i :: 0 <= i < |steps| ==> Enabled(states[i], steps[i]) && states[i + 1] == Apply(states[i], steps[i])
  }

  lemma {:induction false} RunInv(active: string, states: seq<State>, steps: seq<Step>, n: nat)
    requires IsRun(active, states, steps) && n < |states|
    ensures Inv(states[n])
  {
    if n > 0 {
      hide Inv, Enabled, Apply;
      RunInv(active, states, steps, n - 1);
      StepKeeps(states[n - 1], steps[n - 1]);
    }
  }

  /** Every message a task went on with was resolved by exactly one successful call, with that call's
      decision and bytes, and went on once. */
  lemma ReleasedOnce(active: string, states: seq<State>, steps: seq<Step>, n: nat, r: nat) returns (c: nat)
    requires IsRun(active, states, steps) && n < |states| && r < |states[n].releases|
    ensures var s := states[n]; var x := s.releases[r];
      && c < |s.board.log| && s.board.log[c] == x
      && (forall i :: 0 <= i < |s.board.log| && s.board.log[i].id == x.id ==> i == c)
      && (forall i :: 0 <= i < |s.releases| && s.releases[i].id == x.id ==> i == r)
  {
    RunInv(active, states, steps, n);
    var s := states[n];
    assert s.releases[r] in s.board.log;
    c :| 0 <= c < |s.board.log| && s.board.log[c] == s.releases[r];
    hide ProjectInv, FutureOk, NotHeld;
  }

  /** Successes are counted exactly: each is a message released, one whose task was cancelled first, or
      one decided and about to go on. */
  lemma SuccessesReleased(active: string, states: seq<State>, steps: seq<Step>, n: nat)
    requires IsRun(active, states, steps) && n < |states|
    ensures var s := states[n];
      && |s.board.log| == |s.releases| + s.lost + DoneCount(s.board.pending)
      && (s.board.pending == [] && s.lost == 0 ==> |s.board.log| == |s.releases|)
  {
    RunInv(active, states, steps, n);
    hide BoardInv, ReleasesInv, ProjectInv;
  }

  /** A history row, and every message held for its exchange, carries the project active when the
      exchange arrived, however often the project was switched since. */
  lemma RowsKeepProject(active: string, states: seq<State>, steps: seq<Step>, n: nat, i: nat)
    requires IsRun(active, states, steps) && n < |states| && i < |states[n].rows|
    ensures var s := states[n]; var e := s.rows[i].exchange;
      && e < |s.arrivals| && s.rows[i].project == s.arrivals[e].project
      && (forall k :: 0 <= k < |s.board.pending| && s.board.pending[k].exchange == e ==>
          s.board.pending[k].project == s.arrivals[e].project)
  {
    RunInv(active, states, steps, n);
    hide BoardInv, ReleasesInv, CountInv;
  }

  /** What an exchange arrived under is never rewritten. */
  lemma {:induction false} ArrivalsGrow(active: string, states: seq<State>, steps: seq<Step>, m: nat, n: nat)
    requires IsRun(active, states, steps) && m <= n < |states|
    ensures states[m].arrivals <= states[n].arrivals
    ensures m < n && steps[m].Arrive? ==>
      && |states[m].arrivals| < |states[n].arrivals|
      && states[n].arrivals[|states[m].arrivals|] == Arrival(states[m].active, steps[m].raw, steps[m].held)
    decreases n - m
  {
    if m < n {
      ArrivalsGrow(active, states, steps, m + 1, n);
      ArrivalsStep(states[m], steps[m]);
      hide Apply, Enabled;
    }
  }

  lemma ArrivalsStep(s: State, step: Step)
    requires Enabled(s, step)
    ensures Apply(s, step).arrivals == s.arrivals + if step.Arrive? then [Arrival(s.active, step.raw, step.held)]
        else []
  {}
}
