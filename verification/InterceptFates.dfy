/** What becomes of every exchange: which bytes it goes on with, what its client is answered and what
    its history row says, by the decisions its messages were released with. */
module InterceptFates {
  import opened Bytes
  import opened Interceptor
  import opened InterceptRuns

  /** The release is of this exchange's request, or of its response. */
  predicate Of(x: Success, holds: seq<Holding>, e: nat, kind: Kind) {
    x.id < |holds| && holds[x.id].exchange == e && holds[x.id].kind == kind
  }

  predicate Undecided(releases: seq<Success>, holds: seq<Holding>, e: nat, kind: Kind) {
    forall r :: 0 <= r < |releases| ==> !Of(releases[r], holds, e, kind)
  }

  /** What a release lets through. */
  function Verdict(x: Success): Option<bytes> { if x.decision == Forward then Some(x.raw) else None }

  predicate Agrees(releases: seq<Success>, holds: seq<Holding>, e: nat, kind: Kind, got: Option<bytes>) {
    forall r :: 0 <= r < |releases| && Of(releases[r], holds, e, kind) ==> got == Verdict(releases[r])
  }

  /** A request not held goes on as it is; a held one waits, and goes on exactly as it was released. */
  predicate RequestFate(x: Exchange, a: Arrival, releases: seq<Success>, holds: seq<Holding>, e: nat) {
    if !a.held then Undecided(releases, holds, e, RequestKind) && x.onward == Some(a.raw) && x.phase != AtRequest
    else if Undecided(releases, holds, e, RequestKind) then x.onward == None
        && (x.phase == AtRequest || x.phase == Over)
    else
      && Agrees(releases, holds, e, RequestKind, x.onward) && x.phase != AtRequest
      && (x.onward == None ==> x.phase == Over)
  }

  /** The same of the response, once there is one. */
  predicate ReplyFate(x: Exchange, releases: seq<Success>, holds: seq<Holding>, e: nat) {
    match x.reply
    case None => Undecided(releases, holds, e, ResponseKind) && x.answer == None && x.phase != AtResponse
    case Some(reply) =>
      && x.onward.Some? && (x.phase == AtResponse || x.phase == Over)
      && if !reply.held then
           Undecided(releases, holds, e, ResponseKind) && x.answer == Some(reply.raw) && x.phase == Over
         else if Undecided(releases, holds, e, ResponseKind) then x.answer == None
         else Agrees(releases, holds, e, ResponseKind, x.answer) && x.phase == Over
  }

  predicate HoldOk(h: Holding, exchanges: seq<Exchange>, arrivals: seq<Arrival>) {
    && h.exchange < |exchanges| == |arrivals|
    && (h.kind == RequestKind ==> arrivals[h.exchange] == Arrival(arrivals[h.exchange].project, h.raw, true))
    && (h.kind == ResponseKind ==> exchanges[h.exchange].reply == Some(Reply(h.raw, true)))
  }

  predicate DistinctHolds(holds: seq<Holding>) {
    forall i, j :: 0 <= i < j < |holds| ==> holds[i].exchange != holds[j].exchange || holds[i].kind != holds[j].kind
  }

  predicate ItemOk(item: Item, holds: seq<Holding>, exchanges: seq<Exchange>) {
    && item.id < |holds| && holds[item.id] == Holding(item.exchange, item.kind, item.raw)
    && item.exchange < |exchanges|
    && exchanges[item.exchange].phase == if item.kind == RequestKind then AtRequest else AtResponse
  }

  /** A row of a request that went on carries its bytes; one marked dropped is a dropped request's. */
  predicate RowOk(row: Row, exchanges: seq<Exchange>, arrivals: seq<Arrival>, releases: seq<Success>,
      holds: seq<Holding>) {
    && row.exchange < |exchanges| == |arrivals|
    && if !row.dropped then exchanges[row.exchange].onward == Some(row.raw)
       else
         && exchanges[row.exchange].onward == None && row.raw == arrivals[row.exchange].raw
         && !Undecided(releases, holds, row.exchange, RequestKind)
  }

  predicate DistinctRows(rows: seq<Row>) { forall i, j :: 0 <= i < j < |rows| ==> rows[i].exchange != rows[j].exchange }

  predicate FateInv(s: State) {
    && |s.holds| == s.board.issued && |s.exchanges| == |s.arrivals| && DistinctHolds(s.holds) && DistinctRows(s.rows)
    && (forall i :: 0 <= i < |s.holds| ==> HoldOk(s.holds[i], s.exchanges, s.arrivals))
    && (forall k :: 0 <= k < |s.board.pending| ==> ItemOk(s.board.pending[k], s.holds, s.exchanges))
    && (forall r :: 0 <= r < |s.releases| ==> s.releases[r].id < |s.holds|)
    && (forall e :: 0 <= e < |s.exchanges| ==>
          RequestFate(s.exchanges[e], s.arrivals[e], s.releases, s.holds, e)
          && ReplyFate(s.exchanges[e], s.releases, s.holds, e))
    && (forall i :: 0 <= i < |s.rows| ==> RowOk(s.rows[i], s.exchanges, s.arrivals, s.releases, s.holds))
  }

  // --------------------------------------------------------------- the board's part

  /** The same messages are held, whatever became of their futures. */
  predicate SameHeld(b: Board, t: Board) {
    && t.issued == b.issued && |t.pending| == |b.pending|
    && forall j :: 0 <= j < |b.pending| ==>
         var x, y := b.pending[j], t.pending[j];
         (y.id, y.kind, y.exchange, y.raw) == (x.id, x.kind, x.exchange, x.raw)
  }

  lemma ResolvedSame(b: Board, k: nat, decision: Decision, raw: Option<bytes>)
    ensures SameHeld(b, ResolvedAt(b, k, decision, raw))
  {}

  lemma {:induction false} CalledAllSame(b: Board, n: nat, decision: Decision)
    ensures SameHeld(b, CalledAll(b, n, decision))
  {
    if n > 0 {
      CalledAllSame(b, n - 1, decision);
      ResolvedSame(CalledAll(b, n - 1, decision), n - 1, decision, None);
      hide ResolvedAt;
    }
  }

  lemma CalledFates(s: State, step: Step)
    requires FateInv(s) && Enabled(s, step) && (step.Call? || step.CallAll? || step.Cancel? || step.Switch?)
    ensures FateInv(Apply(s, step))
  {
    var t := Apply(s, step);
    assert SameHeld(s.board, t.board) by {
      match step {
        case Call(id, decision, edited) => ResolvedSame(s.board, Place(s.board.pending, id), decision, edited);
        case CallAll(decision) => CalledAllSame(s.board, |s.board.pending|, decision);
        case _ =>
      }
      hide ResolvedAt, CalledAll;
    }
    assert (t.exchanges, t.rows, t.arrivals, t.holds, t.releases)
        == (s.exchanges, s.rows, s.arrivals, s.holds, s.releases);
    hide Apply, Enabled, ResolvedAt, CalledAll, DistinctHolds, DistinctRows, HoldOk, RequestFate, ReplyFate, RowOk;
    forall k | 0 <= k < |t.board.pending| ensures ItemOk(t.board.pending[k], t.holds, t.exchanges) {
      assert ItemOk(s.board.pending[k], s.holds, s.exchanges);
    }
  }

  // ------------------------------------------------------- one more hold, one more release

  /** Holding another message changes nothing about releases of earlier ones. */
  lemma HoldSnoc(releases: seq<Success>, holds: seq<Holding>, h: Holding, e: nat, kind: Kind, got: Option<bytes>)
    requires forall r :: 0 <= r < |releases| ==> releases[r].id < |holds|
    ensures Undecided(releases, holds + [h], e, kind) == Undecided(releases, holds, e, kind)
    ensures Agrees(releases, holds + [h], e, kind, got) == Agrees(releases, holds, e, kind, got)
  {
    forall r | 0 <= r < |releases| ensures Of(releases[r], holds + [h], e, kind) == Of(releases[r], holds, e, kind) {}
    hide Of, Verdict;
  }

  lemma ReleaseSnoc(releases: seq<Success>, x: Success, holds: seq<Holding>, e: nat, kind: Kind, got: Option<bytes>)
    ensures Undecided(releases + [x], holds, e, kind) == (Undecided(releases, holds, e, kind) && !Of(x, holds, e, kind))
    ensures Agrees(releases + [x], holds, e, kind, got)
         == (Agrees(releases, holds, e, kind, got) && (Of(x, holds, e, kind) ==> got == Verdict(x)))
  {
    hide Of, Verdict;
    var all := releases + [x];
    assert all[|releases|] == x && forall r :: 0 <= r < |releases| ==> all[r] == releases[r];
  }

  lemma UndecidedAgrees(releases: seq<Success>, holds: seq<Holding>, e: nat, kind: Kind, got: Option<bytes>)
    requires Undecided(releases, holds, e, kind)
    ensures Agrees(releases, holds, e, kind, got)
  {
    hide Of, Verdict;
  }

  /** Nothing is released of a message not held yet. */
  lemma NeverHeld(releases: seq<Success>, holds: seq<Holding>, e: nat, kind: Kind)
    requires forall i :: 0 <= i < |holds| ==> holds[i].exchange != e || holds[i].kind != kind
    ensures Undecided(releases, holds, e, kind)
  {}

  /** A message still held has not been released. */
  lemma StillHeld(s: State, k: nat)
    requires FateInv(s) && ReleasesInv(s.releases, s.board) && k < |s.board.pending|
    ensures Undecided(s.releases, s.holds, s.board.pending[k].exchange, s.board.pending[k].kind)
  {
    var item := s.board.pending[k];
    assert ItemOk(item, s.holds, s.exchanges);
    forall r | 0 <= r < |s.releases| ensures !Of(s.releases[r], s.holds, item.exchange, item.kind) {
      assert NotHeld(s.board.pending, s.releases[r].id);
    }
    hide FateInv, ReleasesInv;
  }

  /** An exchange nothing happened to keeps its fate while another message is held. */
  lemma FateKept(x: Exchange, a: Arrival, releases: seq<Success>, holds: seq<Holding>, h: Holding, e: nat)
    requires RequestFate(x, a, releases, holds, e) && ReplyFate(x, releases, holds, e)
    requires forall r :: 0 <= r < |releases| ==> releases[r].id < |holds|
    ensures RequestFate(x, a, releases, holds + [h], e) && ReplyFate(x, releases, holds + [h], e)
  {
    HoldSnoc(releases, holds, h, e, RequestKind, x.onward);
    HoldSnoc(releases, holds, h, e, ResponseKind, x.answer);
    hide Undecided, Agrees;
  }

  /** And while a message of another exchange is released. */
  lemma FateApart(x: Exchange, a: Arrival, releases: seq<Success>, s: Success, holds: seq<Holding>, e: nat)
    requires RequestFate(x, a, releases, holds, e) && ReplyFate(x, releases, holds, e)
    requires s.id < |holds| && holds[s.id].exchange != e
    ensures RequestFate(x, a, releases + [s], holds, e) && ReplyFate(x, releases + [s], holds, e)
  {
    ReleaseSnoc(releases, s, holds, e, RequestKind, x.onward);
    ReleaseSnoc(releases, s, holds, e, ResponseKind, x.answer);
    hide Undecided, Agrees;
  }

  // ------------------------------------------------------------------ the other steps

  lemma ArriveFates(s: State, raw: bytes, held: bool, logged: bool)
    requires FateInv(s)
    ensures FateInv(Apply(s, Arrive(raw, held, logged)))
  {
    var t := Apply(s, Arrive(raw, held, logged));
    var e := |s.exchanges|;
    var h := Holding(e, RequestKind, raw);
    hide Undecided, Agrees;
    forall d | 0 <= d < |t.exchanges|
      ensures RequestFate(t.exchanges[d], t.arrivals[d], t.releases, t.holds, d)
          && ReplyFate(t.exchanges[d], t.releases, t.holds, d)
    {
      if d < e {
        if held { FateKept(s.exchanges[d], s.arrivals[d], s.releases, s.holds, h, d); }
      } else {
        forall i | 0 <= i < |s.holds| ensures s.holds[i].exchange != e {
          assert HoldOk(s.holds[i], s.exchanges, s.arrivals);
        }
        NeverHeld(s.releases, s.holds, e, RequestKind);
        NeverHeld(s.releases, s.holds, e, ResponseKind);
        HoldSnoc(s.releases, s.holds, h, e, RequestKind, None);
        HoldSnoc(s.releases, s.holds, h, e, ResponseKind, None);
      }
    }
    ArriveRest(s, raw, held, logged);
    hide RequestFate, ReplyFate;
  }

  lemma ArriveRest(s: State, raw: bytes, held: bool, logged: bool)
    requires FateInv(s)
    ensures var t := Apply(s, Arrive(raw, held, logged));
      && |t.holds| == t.board.issued && DistinctHolds(t.holds) && DistinctRows(t.rows)
      && (forall i :: 0 <= i < |t.holds| ==> HoldOk(t.holds[i], t.exchanges, t.arrivals))
      && (forall k :: 0 <= k < |t.board.pending| ==> ItemOk(t.board.pending[k], t.holds, t.exchanges))
      && (forall i :: 0 <= i < |t.rows| ==> RowOk(t.rows[i], t.exchanges, t.arrivals, t.releases, t.holds))
  {
    var t := Apply(s, Arrive(raw, held, logged));
    forall i | 0 <= i < |s.holds| ensures s.holds[i].exchange < |s.exchanges| {
      assert HoldOk(s.holds[i], s.exchanges, s.arrivals);
    }
    forall i | 0 <= i < |s.rows| ensures s.rows[i].exchange < |s.exchanges| {
      assert RowOk(s.rows[i], s.exchanges, s.arrivals, s.releases, s.holds);
    }
    forall i | 0 <= i < |s.rows| ensures RowOk(s.rows[i], t.exchanges, t.arrivals, t.releases, t.holds) {
      assert RowOk(s.rows[i], s.exchanges, s.arrivals, s.releases, s.holds);
      HoldSnoc(s.releases, s.holds, Holding(|s.exchanges|, RequestKind, raw), s.rows[i].exchange, RequestKind, None);
    }
    forall k | 0 <= k < |s.board.pending| ensures ItemOk(s.board.pending[k], t.holds, t.exchanges) {
      assert ItemOk(s.board.pending[k], s.holds, s.exchanges);
    }
    hide RequestFate, ReplyFate, Undecided, Agrees, FateInv;
  }

  /** While its request is out, nothing of an exchange is held, and no response of it ever was. */
  lemma NoneHeld(s: State, e: nat)
    requires FateInv(s) && e < |s.exchanges| && s.exchanges[e].phase == Sent
    ensures forall k :: 0 <= k < |s.board.pending| ==> s.board.pending[k].exchange != e
    ensures forall i :: 0 <= i < |s.holds| ==> s.holds[i].exchange != e || s.holds[i].kind != ResponseKind
    ensures s.exchanges[e].reply == None && s.exchanges[e].onward.Some?
  {
    assert RequestFate(s.exchanges[e], s.arrivals[e], s.releases, s.holds, e)
        && ReplyFate(s.exchanges[e], s.releases, s.holds, e);
    forall k | 0 <= k < |s.board.pending| ensures s.board.pending[k].exchange != e {
      assert ItemOk(s.board.pending[k], s.holds, s.exchanges);
    }
    forall i | 0 <= i < |s.holds| ensures s.holds[i].exchange != e || s.holds[i].kind != ResponseKind {
      assert HoldOk(s.holds[i], s.exchanges, s.arrivals);
    }
    hide FateInv, Undecided, Agrees;
  }

  lemma RespondFates(s: State, e: nat, raw: bytes, held: bool)
    requires FateInv(s) && Enabled(s, Respond(e, raw, held))
    ensures FateInv(Apply(s, Respond(e, raw, held)))
  {
    var t := Apply(s, Respond(e, raw, held));
    var h := Holding(e, ResponseKind, raw);
    NoneHeld(s, e);
    hide Undecided, Agrees;
    forall d | 0 <= d < |t.exchanges|
      ensures RequestFate(t.exchanges[d], t.arrivals[d], t.releases, t.holds, d)
          && ReplyFate(t.exchanges[d], t.releases, t.holds, d)
    {
      assert RequestFate(s.exchanges[d], s.arrivals[d], s.releases, s.holds, d)
          && ReplyFate(s.exchanges[d], s.releases, s.holds, d);
      if held { FateKept(s.exchanges[d], s.arrivals[d], s.releases, s.holds, h, d); }
      if d == e {
        NeverHeld(s.releases, s.holds, e, ResponseKind);
        if held { HoldSnoc(s.releases, s.holds, h, e, ResponseKind, None); }
      }
    }
    RespondRest(s, e, raw, held);
    hide RequestFate, ReplyFate;
  }

  lemma RespondRest(s: State, e: nat, raw: bytes, held: bool)
    requires FateInv(s) && Enabled(s, Respond(e, raw, held))
    ensures var t := Apply(s, Respond(e, raw, held));
      && |t.holds| == t.board.issued && DistinctHolds(t.holds)
      && (forall i :: 0 <= i < |t.holds| ==> HoldOk(t.holds[i], t.exchanges, t.arrivals))
      && (forall k :: 0 <= k < |t.board.pending| ==> ItemOk(t.board.pending[k], t.holds, t.exchanges))
      && (forall i :: 0 <= i < |t.rows| ==> RowOk(t.rows[i], t.exchanges, t.arrivals, t.releases, t.holds))
  {
    var t := Apply(s, Respond(e, raw, held));
    NoneHeld(s, e);
    forall i | 0 <= i < |s.holds| ensures HoldOk(s.holds[i], t.exchanges, t.arrivals) {
      assert HoldOk(s.holds[i], s.exchanges, s.arrivals);
    }
    forall i | 0 <= i < |s.rows| ensures RowOk(s.rows[i], t.exchanges, t.arrivals, t.releases, t.holds) {
      assert RowOk(s.rows[i], s.exchanges, s.arrivals, s.releases, s.holds);
      HoldSnoc(s.releases, s.holds, Holding(e, ResponseKind, raw), s.rows[i].exchange, RequestKind, None);
    }
    forall k | 0 <= k < |s.board.pending| ensures ItemOk(s.board.pending[k], t.holds, t.exchanges) {
      assert ItemOk(s.board.pending[k], s.holds, s.exchanges);
    }
    hide RequestFate, ReplyFate, Undecided, Agrees, FateInv;
  }

  /** No other message of an exchange is held beside one that is. */
  lemma OneHeld(s: State, k: nat)
    requires FateInv(s) && BoardInv(s.board) && k < |s.board.pending|
    ensures forall j :: 0 <= j < |s.board.pending| && j != k ==>
        s.board.pending[j].exchange != s.board.pending[k].exchange
  {
    var items := s.board.pending;
    assert ItemOk(items[k], s.holds, s.exchanges);
    forall j | 0 <= j < |items| && j != k ensures items[j].exchange != items[k].exchange {
      assert ItemOk(items[j], s.holds, s.exchanges);
      assert items[j].id != items[k].id;
    }
    hide FateInv, BoardInv, HoldOk;
  }

  /** The exchange a coroutine goes on with or gives up, and every other. */
  lemma ResumeFates(s: State, k: nat, logged: bool)
    requires FateInv(s) && BoardInv(s.board) && ReleasesInv(s.releases, s.board) && Enabled(s, Resume(k, logged))
    ensures FateInv(Resumed(s, k, logged))
  {
    var t := Resumed(s, k, logged);
    var item := s.board.pending[k];
    assert ItemOk(item, s.holds, s.exchanges);
    forall d | 0 <= d < |t.exchanges|
      ensures RequestFate(t.exchanges[d], t.arrivals[d], t.releases, t.holds, d)
          && ReplyFate(t.exchanges[d], t.releases, t.holds, d)
    {
      assert RequestFate(s.exchanges[d], s.arrivals[d], s.releases, s.holds, d)
          && ReplyFate(s.exchanges[d], s.releases, s.holds, d);
      if d == item.exchange { ResumedFate(s, k, logged); }
      else if Released(s.board, k) {
        FateApart(s.exchanges[d], s.arrivals[d], s.releases,
                  Success(item.id, item.future.decision, item.future.raw), s.holds, d);
      }
    }
    ResumeRest(s, k, logged);
    ResumeRows(s, k, logged);
    assert forall r :: 0 <= r < |t.releases| ==> t.releases[r].id < |t.holds|;
    hide RequestFate, ReplyFate, Undecided, Agrees, HoldOk, ItemOk, RowOk, BoardInv, ReleasesInv;
  }

  lemma ResumedFate(s: State, k: nat, logged: bool)
    requires FateInv(s) && ReleasesInv(s.releases, s.board) && Enabled(s, Resume(k, logged))
    ensures var t := Resumed(s, k, logged); var e := s.board.pending[k].exchange;
      && RequestFate(t.exchanges[e], t.arrivals[e], t.releases, t.holds, e)
      && ReplyFate(t.exchanges[e], t.releases, t.holds, e)
  {
    var item := s.board.pending[k];
    var e := item.exchange;
    assert ItemOk(item, s.holds, s.exchanges);
    assert RequestFate(s.exchanges[e], s.arrivals[e], s.releases, s.holds, e)
        && ReplyFate(s.exchanges[e], s.releases, s.holds, e);
    StillHeld(s, k);
    assert HoldOk(s.holds[item.id], s.exchanges, s.arrivals);
    if Released(s.board, k) {
      var x := Success(item.id, item.future.decision, item.future.raw);
      UndecidedAgrees(s.releases, s.holds, e, item.kind, Verdict(x));
      ReleaseSnoc(s.releases, x, s.holds, e, RequestKind, if item.kind == RequestKind then Verdict(x)
          else s.exchanges[e].onward);
      ReleaseSnoc(s.releases, x, s.holds, e, ResponseKind, Verdict(x));
    }
    hide Undecided, Agrees, FateInv, ReleasesInv;
  }

  lemma ResumeRest(s: State, k: nat, logged: bool)
    requires FateInv(s) && BoardInv(s.board) && Enabled(s, Resume(k, logged))
    ensures var t := Resumed(s, k, logged);
      && (forall i :: 0 <= i < |t.holds| ==> HoldOk(t.holds[i], t.exchanges, t.arrivals))
      && (forall j :: 0 <= j < |t.board.pending| ==> ItemOk(t.board.pending[j], t.holds, t.exchanges))
  {
    ResumeHolds(s, k, logged);
    ResumeItems(s, k, logged);
    hide FateInv, BoardInv, Enabled, Resumed;
  }

  lemma ResumeHolds(s: State, k: nat, logged: bool)
    requires FateInv(s) && Enabled(s, Resume(k, logged))
    ensures var t := Resumed(s, k, logged);
      forall i :: 0 <= i < |t.holds| ==> HoldOk(t.holds[i], t.exchanges, t.arrivals)
  {
    var t := Resumed(s, k, logged);
    forall i | 0 <= i < |s.holds| ensures HoldOk(s.holds[i], t.exchanges, t.arrivals) {
      assert HoldOk(s.holds[i], s.exchanges, s.arrivals);
    }
    hide RequestFate, ReplyFate, Undecided, Agrees, FateInv, ItemOk;
  }

  lemma ResumeItems(s: State, k: nat, logged: bool)
    requires FateInv(s) && BoardInv(s.board) && Enabled(s, Resume(k, logged))
    ensures var t := Resumed(s, k, logged);
      forall j :: 0 <= j < |t.board.pending| ==> ItemOk(t.board.pending[j], t.holds, t.exchanges)
  {
    var t := Resumed(s, k, logged);
    var e := s.board.pending[k].exchange;
    OneHeld(s, k);
    WithoutItem(s.board.pending, k);
    ResumeShape(s, k, logged);
    AllItems(s);
    hide FateInv, BoardInv, Enabled, Resumed, ItemOk;
    forall j | 0 <= j < |t.board.pending| ensures ItemOk(t.board.pending[j], t.holds, t.exchanges) {
      ItemStays(s.board.pending[if j < k then j else j + 1], s.holds, s.exchanges, e, t.exchanges[e]);
    }
  }

  lemma AllItems(s: State)
    requires FateInv(s)
    ensures forall k :: 0 <= k < |s.board.pending| ==> ItemOk(s.board.pending[k], s.holds, s.exchanges)
  {
    hide ItemOk;
  }

  lemma ResumeShape(s: State, k: nat, logged: bool)
    requires Enabled(s, Resume(k, logged))
    ensures var t := Resumed(s, k, logged); var items, e := s.board.pending, s.board.pending[k].exchange;
      e < |t.exchanges| == |s.exchanges| && t.exchanges == s.exchanges[e := t.exchanges[e]] && t.holds == s.holds
      && t.board.pending == items[..k] + items[k + 1..]
  {}

  lemma ItemStays(item: Item, holds: seq<Holding>, exchanges: seq<Exchange>, e: nat, x: Exchange)
    requires ItemOk(item, holds, exchanges) && e < |exchanges| && item.exchange != e
    ensures ItemOk(item, holds, exchanges[e := x])
  {}

  /** Rows there were are of other exchanges than a request still held, and stay right. */
  lemma OldRow(s: State, k: nat, logged: bool, i: nat)
    requires FateInv(s) && ReleasesInv(s.releases, s.board) && Enabled(s, Resume(k, logged)) && i < |s.rows|
    ensures var t := Resumed(s, k, logged);
      && RowOk(s.rows[i], t.exchanges, t.arrivals, t.releases, t.holds)
      && (s.board.pending[k].kind == RequestKind ==> s.rows[i].exchange != s.board.pending[k].exchange)
  {
    var item := s.board.pending[k];
    var e := item.exchange;
    assert RowOk(s.rows[i], s.exchanges, s.arrivals, s.releases, s.holds);
    assert ItemOk(item, s.holds, s.exchanges) && HoldOk(s.holds[item.id], s.exchanges, s.arrivals);
    assert RequestFate(s.exchanges[e], s.arrivals[e], s.releases, s.holds, e);
    StillHeld(s, k);
    hide FateInv, ReleasesInv, Undecided, Agrees, BoardInv;
    OldRowApart(s, k, i);
    ResumeRowFrame(s, k, logged);
    hide Resumed, HoldOk, ReplyFate;
    if Released(s.board, k) {
      ReleaseSnoc(s.releases, Success(item.id, item.future.decision, item.future.raw), s.holds,
                  s.rows[i].exchange, RequestKind, None);
    }
  }

  lemma OldRowApart(s: State, k: nat, i: nat)
    requires k < |s.board.pending| && i < |s.rows|
    requires RowOk(s.rows[i], s.exchanges, s.arrivals, s.releases, s.holds)
    requires ItemOk(s.board.pending[k], s.holds, s.exchanges)
    requires RequestFate(s.exchanges[s.board.pending[k].exchange], s.arrivals[s.board.pending[k].exchange],
                         s.releases, s.holds, s.board.pending[k].exchange)
    requires Undecided(s.releases, s.holds, s.board.pending[k].exchange, s.board.pending[k].kind)
    ensures s.board.pending[k].kind == RequestKind ==> s.rows[i].exchange != s.board.pending[k].exchange
  {
    hide Undecided, Agrees;
  }

  /** What going on leaves of the state that rows are judged by. */
  lemma ResumeRowFrame(s: State, k: nat, logged: bool)
    requires Enabled(s, Resume(k, logged))
    ensures var t := Resumed(s, k, logged); var item := s.board.pending[k]; var e := item.exchange;
      && t.arrivals == s.arrivals && t.holds == s.holds && |t.exchanges| == |s.exchanges|
      && (forall d :: 0 <= d < |s.exchanges| && d != e ==> t.exchanges[d] == s.exchanges[d])
      && (item.kind == ResponseKind ==> t.exchanges[e].onward == s.exchanges[e].onward)
      && t.releases == s.releases
         + if Released(s.board, k) then [Success(item.id, item.future.decision, item.future.raw)] else []
  {}

  /** The row a released request gets. */
  lemma NewRow(s: State, k: nat, logged: bool)
    requires FateInv(s) && ReleasesInv(s.releases, s.board) && Enabled(s, Resume(k, logged))
    ensures var t := Resumed(s, k, logged); var item := s.board.pending[k];
      && |s.rows| <= |t.rows| <= |s.rows| + 1 && t.rows[..|s.rows|] == s.rows
      && (|t.rows| == |s.rows| + 1 ==>
            item.kind == RequestKind && t.rows[|s.rows|].exchange == item.exchange
            && RowOk(t.rows[|s.rows|], t.exchanges, t.arrivals, t.releases, t.holds))
  {
    var item := s.board.pending[k];
    assert ItemOk(item, s.holds, s.exchanges) && HoldOk(s.holds[item.id], s.exchanges, s.arrivals);
    assert RequestFate(s.exchanges[item.exchange], s.arrivals[item.exchange], s.releases, s.holds, item.exchange);
    StillHeld(s, k);
    hide FateInv, ReleasesInv, Undecided, Agrees;
    if Released(s.board, k) {
      ReleaseSnoc(s.releases, Success(item.id, item.future.decision, item.future.raw), s.holds,
                  item.exchange, RequestKind, None);
    }
  }

  lemma ResumeRows(s: State, k: nat, logged: bool)
    requires FateInv(s) && ReleasesInv(s.releases, s.board) && Enabled(s, Resume(k, logged))
    ensures var t := Resumed(s, k, logged);
      DistinctRows(t.rows) && forall i :: 0 <= i < |t.rows| ==>
          RowOk(t.rows[i], t.exchanges, t.arrivals, t.releases, t.holds)
  {
    var t := Resumed(s, k, logged);
    NewRow(s, k, logged);
    assert DistinctRows(s.rows);
    forall i | 0 <= i < |s.rows|
      ensures RowOk(t.rows[i], t.exchanges, t.arrivals, t.releases, t.holds)
      ensures s.board.pending[k].kind == RequestKind ==> s.rows[i].exchange != s.board.pending[k].exchange
    {
      OldRow(s, k, logged, i);
      assert t.rows[i] == t.rows[..|s.rows|][i];
    }
    hide RowOk, Resumed, FateInv, ReleasesInv;
    assert forall i :: 0 <= i < |s.rows| ==> t.rows[i] == t.rows[..|s.rows|][i];
  }

  lemma StepFates(s: State, step: Step)
    requires FateInv(s) && BoardInv(s.board) && ReleasesInv(s.releases, s.board) && Enabled(s, step)
    ensures FateInv(Apply(s, step))
  {
    hide FateInv, BoardInv, ReleasesInv, Resumed;
    match step {
      case Arrive(raw, held, logged) => ArriveFates(s, raw, held, logged);
      case Resume(k, logged) => ResumeFates(s, k, logged);
      case Respond(e, raw, held) => RespondFates(s, e, raw, held);
      case _ => CalledFates(s, step);
    }
  }

  // ------------------------------------------------------------------ whole runs

  lemma RunAt(active: string, states: seq<State>, steps: seq<Step>, k: nat)
    requires IsRun(active, states, steps) && k < |steps|
    ensures |states| == |steps| + 1 && Enabled(states[k], steps[k]) && states[k + 1] == Apply(states[k], steps[k])
  {
    hide Enabled, Apply;
  }

  lemma {:induction false} RunFates(active: string, states: seq<State>, steps: seq<Step>, n: nat)
    requires IsRun(active, states, steps) && n <= |steps| < |states|
    ensures FateInv(states[n])
  {
    if n > 0 {
      RunAt(active, states, steps, n - 1);
      RunInv(active, states, steps, n - 1);
      RunFates(active, states, steps, n - 1);
      hide IsRun, FateInv, Enabled, Apply, BoardInv, ReleasesInv, CountInv, ProjectInv;
      StepFates(states[n - 1], steps[n - 1]);
    }
  }

  /** The release of an exchange's held request or response, if it has been released. */
  predicate ReleasedAs(s: State, e: nat, kind: Kind, x: Success) {
    x in s.releases && x.id < |s.holds| && s.holds[x.id].exchange == e && s.holds[x.id].kind == kind
  }

  lemma ReleaseIs(s: State, e: nat, kind: Kind, x: Success, got: Option<bytes>)
    requires ReleasedAs(s, e, kind, x)
    ensures !Undecided(s.releases, s.holds, e, kind)
    ensures Agrees(s.releases, s.holds, e, kind, got) ==> got == Verdict(x)
  {
    var r :| 0 <= r < |s.releases| && s.releases[r] == x;
    assert Of(s.releases[r], s.holds, e, kind);
  }

  lemma SomeRelease(s: State, e: nat, kind: Kind) returns (x: Success)
    requires !Undecided(s.releases, s.holds, e, kind)
    ensures ReleasedAs(s, e, kind, x)
  {
    var r :| 0 <= r < |s.releases| && Of(s.releases[r], s.holds, e, kind);
    x := s.releases[r];
  }

  /** In every run: a request that was not held goes on unchanged; a held one goes on exactly if it was
      released with Forward, and with the bytes it was released with.  One released with Drop is over:
      nothing of it goes on and nothing is answered. */
  lemma RequestsGoOn(active: string, states: seq<State>, steps: seq<Step>, n: nat, e: nat, raw: bytes)
    requires IsRun(active, states, steps) && n <= |steps| < |states| && e < |states[n].exchanges|
    ensures var s := states[n]; e < |s.arrivals| && var x, a := s.exchanges[e], s.arrivals[e];
      && (x.onward == Some(raw) <==>
            if a.held then exists y :: ReleasedAs(s, e, RequestKind, y) && y.decision == Forward && y.raw == raw
            else a.raw == raw)
      && (forall y :: ReleasedAs(s, e, RequestKind, y) && y.decision == Drop ==>
            x.phase == Over && x.onward == None && x.answer == None)
      && (x.phase == Sent || x.phase == AtResponse ==> x.onward.Some?)
  {
    RunFates(active, states, steps, n);
    var s := states[n];
    var x, a := s.exchanges[e], s.arrivals[e];
    assert RequestFate(x, a, s.releases, s.holds, e) && ReplyFate(x, s.releases, s.holds, e);
    hide FateInv, IsRun, ReleasedAs, Undecided, Agrees;
    forall y, got | ReleasedAs(s, e, RequestKind, y)
      ensures !Undecided(s.releases, s.holds, e, RequestKind)
      ensures Agrees(s.releases, s.holds, e, RequestKind, got) ==> got == Verdict(y)
    {
      ReleaseIs(s, e, RequestKind, y, got);
    }
    if !Undecided(s.releases, s.holds, e, RequestKind) { var y := SomeRelease(s, e, RequestKind); }
  }

  /** The client is answered with a response that was not held as it came, and with a held one exactly
      if it was released with Forward, with the bytes it was released with. */
  lemma AnswersGiven(active: string, states: seq<State>, steps: seq<Step>, n: nat, e: nat, raw: bytes)
    requires IsRun(active, states, steps) && n <= |steps| < |states| && e < |states[n].exchanges|
    ensures var s := states[n]; var x := s.exchanges[e];
      x.answer == Some(raw) <==>
        x.reply.Some?
        && if !x.reply.value.held then x.reply.value.raw == raw
           else exists y :: ReleasedAs(s, e, ResponseKind, y) && y.decision == Forward && y.raw == raw
  {
    RunFates(active, states, steps, n);
    var s := states[n];
    var x := s.exchanges[e];
    assert ReplyFate(x, s.releases, s.holds, e);
    hide FateInv, IsRun, ReleasedAs, Undecided, Agrees;
    forall y, got | ReleasedAs(s, e, ResponseKind, y)
      ensures !Undecided(s.releases, s.holds, e, ResponseKind)
      ensures Agrees(s.releases, s.holds, e, ResponseKind, got) ==> got == Verdict(y)
    {
      ReleaseIs(s, e, ResponseKind, y, got);
    }
    if !Undecided(s.releases, s.holds, e, ResponseKind) { var y := SomeRelease(s, e, ResponseKind); }
  }

  /** A history row marked dropped is of a request released with Drop and carries it as it arrived; any
      other carries the bytes that went on.  No exchange has two rows. */
  lemma RowsTell(active: string, states: seq<State>, steps: seq<Step>, n: nat, i: nat)
    requires IsRun(active, states, steps) && n <= |steps| < |states| && i < |states[n].rows|
    ensures var s := states[n]; var row := s.rows[i];
      && row.exchange < |s.exchanges| == |s.arrivals|
      && (!row.dropped ==> s.exchanges[row.exchange].onward == Some(row.raw))
      && (row.dropped ==>
            row.raw == s.arrivals[row.exchange].raw
            && exists y :: ReleasedAs(s, row.exchange, RequestKind, y) && y.decision == Drop)
      && forall j :: 0 <= j < |s.rows| && s.rows[j].exchange == row.exchange ==> j == i
  {
    RunFates(active, states, steps, n);
    var s := states[n];
    var row := s.rows[i];
    assert RowOk(row, s.exchanges, s.arrivals, s.releases, s.holds);
    var e := row.exchange;
    assert RequestFate(s.exchanges[e], s.arrivals[e], s.releases, s.holds, e);
    assert DistinctRows(s.rows);
    hide FateInv, IsRun, ReleasedAs, Undecided, Agrees;
    if row.dropped {
      var y := SomeRelease(s, e, RequestKind);
      ReleaseIs(s, e, RequestKind, y, None);
    }
  }

  /** Where history rows come from: one for a request that goes on or is dropped where logging asks for it,
      and none otherwise. */
  lemma RowsMade(s: State, step: Step)
    requires Enabled(s, step)
    ensures var t := Apply(s, step);
      var made := (step.Arrive? && !step.held && step.logged)
        || (step.Resume? && step.logged && s.board.pending[step.k].kind == RequestKind && Released(s.board, step.k));
      |t.rows| == |s.rows| + (if made then 1 else 0) && t.rows[..|s.rows|] == s.rows
      && (made && step.Arrive? ==> t.rows[|s.rows|] == Row(|s.exchanges|, s.active, step.raw, false))
      && (made && step.Resume? ==> t.rows[|s.rows|].exchange == s.board.pending[step.k].exchange)
  {
    hide CalledAll, ResolvedAt;
  }

  // ------------------------------------------------------------- what calls do

  /** The bytes a call decides on: the edited ones if there are any, else those held. */
  predicate DecidesOn(edited: Option<bytes>, held: bytes, raw: bytes) {
    match edited case Some(e) => raw == e case None => raw == held
  }

  /** The step is a call that can log this success. */
  predicate Explains(step: Step, x: Success, held: bytes) {
    || (step.Call? && step.id == x.id && step.decision == x.decision && DecidesOn(step.edited, held, x.raw))
    || (step.CallAll? && step.decision == x.decision && x.raw == held)
  }

  /** Resolving a place logs the open message there, once, and nothing else. */
  lemma ResolvedLogs(b: Board, k: nat, decision: Decision, edited: Option<bytes>)
    ensures var t := ResolvedAt(b, k, decision, edited);
      if k < |b.pending| && b.pending[k].future == Open then
        && |t.log| == |b.log| + 1 && t.log[..|b.log|] == b.log
        && t.log[|b.log|].id == b.pending[k].id && t.log[|b.log|].decision == decision
        && DecidesOn(edited, b.pending[k].raw, t.log[|b.log|].raw)
      else t == b
  {}

  /** A call on a message held and open is logged, with its decision and bytes; on any other it changes
      nothing. */
  lemma CallLogs(s: State, id: nat, decision: Decision, edited: Option<bytes>, k: nat)
    requires BoardInv(s.board) && Enabled(s, Call(id, decision, edited))
    ensures var b, t := s.board, Apply(s, Call(id, decision, edited)).board;
      && (k < |b.pending| && b.pending[k].id == id && b.pending[k].future == Open ==>
            |t.log| == |b.log| + 1 && t.log[..|b.log|] == b.log
            && t.log[|b.log|].id == id && t.log[|b.log|].decision == decision
            && DecidesOn(edited, b.pending[k].raw, t.log[|b.log|].raw))
      && ((forall j :: 0 <= j < |b.pending| ==> b.pending[j].id != id || b.pending[j].future != Open) ==> t == b)
  {
    var b := s.board;
    var p := Place(b.pending, id);
    ResolvedLogs(b, p, decision, edited);
    if k < |b.pending| && b.pending[k].id == id {
      assert p == k by { assert p < |b.pending| ==> b.pending[p].id == id; hide FutureOk; }
    }
    hide BoardInv, DecidesOn, ResolvedAt;
  }

  /** The open messages' successes, in the order they are held. */
  function OpenOnes(items: seq<Item>, decision: Decision): seq<Success> {
    if items == [] then [] else
      var item := items[|items| - 1];
      OpenOnes(items[..|items| - 1], decision)
      + if item.future == Open then [Success(item.id, decision, item.raw)] else []
  }

  lemma {:induction false} CalledAllLogs(b: Board, n: nat, decision: Decision)
    requires n <= |b.pending|
    ensures var t := CalledAll(b, n, decision);
      && t.log == b.log + OpenOnes(b.pending[..n], decision) && |t.pending| == |b.pending|
      && (forall j :: 0 <= j < n ==> t.pending[j].future != Open)
      && (forall j :: n <= j < |b.pending| ==> t.pending[j] == b.pending[j])
  {
    if n == 0 { assert b.log + [] == b.log; }
    else {
      CalledAllLogs(b, n - 1, decision);
      var u := CalledAll(b, n - 1, decision);
      assert b.pending[..n][..n - 1] == b.pending[..n - 1];
      hide CalledAll, OpenOnes;
      var item := b.pending[n - 1];
      var more := if item.future == Open then [Success(item.id, decision, item.raw)] else [];
      assert ResolvedAt(u, n - 1, decision, None).log == u.log + more;
      Assoc(b.log, OpenOnes(b.pending[..n - 1], decision), more);
      OpenNext(b.pending, n, decision);
      CalledNext(b, n, decision);
    }
  }

  lemma OpenNext(items: seq<Item>, n: nat, decision: Decision)
    requires 0 < n <= |items|
    ensures OpenOnes(items[..n], decision) == OpenOnes(items[..n - 1], decision)
      + if items[n - 1].future == Open then [Success(items[n - 1].id, decision, items[n - 1].raw)] else []
  {
    assert items[..n][..n - 1] == items[..n - 1];
  }

  lemma CalledNext(b: Board, n: nat, decision: Decision)
    requires n > 0
    ensures CalledAll(b, n, decision) == ResolvedAt(CalledAll(b, n - 1, decision), n - 1, decision, None)
  {
    hide ResolvedAt;
  }

  /** Forwarding or dropping all logs every open message, in order, with the bytes held, and leaves none open. */
  lemma CallAllLogs(s: State, decision: Decision)
    ensures var b, t := s.board, Apply(s, CallAll(decision)).board;
      && t.log == b.log + OpenOnes(b.pending, decision)
      && forall j :: 0 <= j < |t.pending| ==> t.pending[j].future != Open
  {
    CalledAllLogs(s.board, |s.board.pending|, decision);
    assert s.board.pending[..|s.board.pending|] == s.board.pending;
    hide CalledAll, OpenOnes;
  }

  lemma {:induction false} OpenIs(items: seq<Item>, decision: Decision, c: nat) returns (k: nat)
    requires c < |OpenOnes(items, decision)|
    ensures k < |items| && OpenOnes(items, decision)[c] == Success(items[k].id, decision, items[k].raw)
  {
    var n := |items| - 1;
    if c < |OpenOnes(items[..n], decision)| { k := OpenIs(items[..n], decision, c); } else { k := n; }
  }

  /** Every success a step logs is explained by the step. */
  lemma StepLogs(s: State, step: Step, c: nat)
    requires Enabled(s, step) && FateInv(s) && c < |Apply(s, step).board.log|
    ensures |s.board.log| <= |Apply(s, step).board.log|
    ensures c < |s.board.log| ==> Apply(s, step).board.log[c] == s.board.log[c]
    ensures var x := Apply(s, step).board.log[c];
      c >= |s.board.log| ==> x.id < |s.holds| && Explains(step, x, s.holds[x.id].raw)
  {
    hide FateInv, Explains;
    match step {
      case Call(id, decision, edited) => CallExplained(s, id, decision, edited, c);
      case CallAll(decision) => CallAllExplained(s, decision, c);
      case _ => hide CalledAll, ResolvedAt;
    }
  }

  lemma CallAllExplained(s: State, decision: Decision, c: nat)
    requires FateInv(s) && c < |CalledAll(s.board, |s.board.pending|, decision).log|
    ensures var t := CalledAll(s.board, |s.board.pending|, decision);
      |s.board.log| <= |t.log| && (c < |s.board.log| ==> t.log[c] == s.board.log[c])
      && (c >= |s.board.log| ==>
            t.log[c].id < |s.holds| && Explains(CallAll(decision), t.log[c], s.holds[t.log[c].id].raw))
  {
    CallAllLogs(s, decision);
    AllHeld(s);
    hide FateInv, CalledAll, OpenOnes, ItemOk;
    if c >= |s.board.log| { var k := OpenIs(s.board.pending, decision, c - |s.board.log|); }
  }

  lemma AllHeld(s: State)
    requires FateInv(s)
    ensures forall k :: 0 <= k < |s.board.pending| ==>
      s.board.pending[k].id < |s.holds| && s.holds[s.board.pending[k].id].raw == s.board.pending[k].raw
  {
    forall k | 0 <= k < |s.board.pending|
      ensures s.board.pending[k].id < |s.holds| && s.holds[s.board.pending[k].id].raw == s.board.pending[k].raw
    {
      assert ItemOk(s.board.pending[k], s.holds, s.exchanges);
    }
    hide FateInv;
  }

  lemma CallExplained(s: State, id: nat, decision: Decision, edited: Option<bytes>, c: nat)
    requires FateInv(s) && c < |Called(s.board, id, decision, edited).log|
    ensures var t := Called(s.board, id, decision, edited);
      |s.board.log| <= |t.log| && (c < |s.board.log| ==> t.log[c] == s.board.log[c])
      && (c >= |s.board.log| ==>
            t.log[c].id < |s.holds| && Explains(Call(id, decision, edited), t.log[c], s.holds[t.log[c].id].raw))
  {
    var t := Called(s.board, id, decision, edited);
    var p := Place(s.board.pending, id);
    ResolvedLogs(s.board, p, decision, edited);
    assert p < |s.board.pending| ==> s.board.pending[p].id == id && ItemOk(s.board.pending[p], s.holds, s.exchanges);
    hide FateInv, ResolvedAt, DecidesOn;
    assert c < |s.board.log| ==> t.log[c] == t.log[..|s.board.log|][c];
  }

  lemma HoldsGrow(s: State, step: Step)
    requires Enabled(s, step)
    ensures s.holds <= Apply(s, step).holds
  {
    hide CalledAll, ResolvedAt;
  }

  /** Every success comes of one call: with the call's decision, and its bytes or else those held. */
  lemma {:induction false} SuccessBytes(active: string, states: seq<State>, steps: seq<Step>, n: nat,
      c: nat) returns (m: nat)
    requires IsRun(active, states, steps) && n <= |steps| < |states| && c < |states[n].board.log|
    ensures var x := states[n].board.log[c];
      m < n && x.id < |states[n].holds| && Explains(steps[m], x, states[n].holds[x.id].raw)
  {
    m := 0;
    if n > 0 {
      RunAt(active, states, steps, n - 1);
      RunFates(active, states, steps, n - 1);
      StepLogs(states[n - 1], steps[n - 1], c);
      HoldsGrow(states[n - 1], steps[n - 1]);
      hide IsRun, FateInv, Enabled, Apply, Explains;
      if c < |states[n - 1].board.log| { m := SuccessBytes(active, states, steps, n - 1, c); } else { m := n - 1; }
    }
  }

  // --------------------------------------------------------------- cancelled tasks

  /** The message is doomed if it is still held, and has not been released. */
  predicate GivenUp(s: State, id: nat) {
    && id < s.board.issued
    && (forall k :: 0 <= k < |s.board.pending| && s.board.pending[k].id == id ==> s.board.pending[k].doomed)
    && (forall r :: 0 <= r < |s.releases| ==> s.releases[r].id != id)
  }

  lemma ResolvedDoomed(b: Board, k: nat, decision: Decision, raw: Option<bytes>)
    ensures var t := ResolvedAt(b, k, decision, raw);
      t.issued == b.issued && |t.pending| == |b.pending|
      && forall j :: 0 <= j < |b.pending| ==>
           t.pending[j].id == b.pending[j].id && t.pending[j].doomed == b.pending[j].doomed
  {}

  lemma {:induction false} CalledAllDoomed(b: Board, n: nat, decision: Decision)
    ensures var t := CalledAll(b, n, decision);
      t.issued == b.issued && |t.pending| == |b.pending|
      && forall j :: 0 <= j < |b.pending| ==>
           t.pending[j].id == b.pending[j].id && t.pending[j].doomed == b.pending[j].doomed
  {
    if n > 0 {
      CalledAllDoomed(b, n - 1, decision);
      ResolvedDoomed(CalledAll(b, n - 1, decision), n - 1, decision, None);
      hide ResolvedAt;
    }
  }

  lemma GivenUpStep(s: State, step: Step, id: nat)
    requires Enabled(s, step) && GivenUp(s, id)
    ensures GivenUp(Apply(s, step), id)
  {
    match step {
      case Call(i, decision, edited) =>
        ResolvedDoomed(s.board, Place(s.board.pending, i), decision, edited);
        hide ResolvedAt;
      case CallAll(decision) =>
        CalledAllDoomed(s.board, |s.board.pending|, decision);
        hide CalledAll;
      case Resume(k, logged) => GivenUpResume(s, k, logged, id);
      case _ => hide ResolvedAt, CalledAll;
    }
  }

  lemma GivenUpResume(s: State, k: nat, logged: bool, id: nat)
    requires Enabled(s, Resume(k, logged)) && GivenUp(s, id)
    ensures GivenUp(Resumed(s, k, logged), id)
  {
    WithoutItem(s.board.pending, k);
  }

  /** A message whose task was cancelled before it could go on is never released. */
  lemma {:induction false} CancelledNever(active: string, states: seq<State>, steps: seq<Step>, m: nat, n: nat)
    requires IsRun(active, states, steps) && m < n <= |steps| < |states| && steps[m].Cancel?
    ensures steps[m].k < |states[m].board.pending|
    ensures var id := states[m].board.pending[steps[m].k].id;
      forall r :: 0 <= r < |states[n].releases| ==> states[n].releases[r].id != id
  {
    RunAt(active, states, steps, m);
    var id := states[m].board.pending[steps[m].k].id;
    RunInv(active, states, steps, m);
    CancelGivesUp(states[m], steps[m].k);
    hide Enabled, Apply, GivenUp, Inv;
    StaysGivenUp(active, states, steps, m + 1, n, id);
    GivenUpMeans(states[n], id);
  }

  lemma GivenUpMeans(s: State, id: nat)
    requires GivenUp(s, id)
    ensures forall r :: 0 <= r < |s.releases| ==> s.releases[r].id != id
  {}

  lemma CancelGivesUp(s: State, k: nat)
    requires Inv(s) && k < |s.board.pending|
    ensures GivenUp(Apply(s, Cancel(k)), s.board.pending[k].id)
  {
    assert forall r :: 0 <= r < |s.releases| ==> NotHeld(s.board.pending, s.releases[r].id);
    hide CountInv, ProjectInv, FutureOk;
  }

  lemma {:induction false} StaysGivenUp(active: string, states: seq<State>, steps: seq<Step>, m: nat, n: nat, id: nat)
    requires IsRun(active, states, steps) && m <= n <= |steps| < |states| && GivenUp(states[m], id)
    ensures GivenUp(states[n], id)
    decreases n - m
  {
    if m < n {
      hide Enabled, Apply, GivenUp;
      StaysGivenUp(active, states, steps, m, n - 1, id);
      RunAt(active, states, steps, n - 1);
      GivenUpStep(states[n - 1], steps[n - 1], id);
    }
  }
}
