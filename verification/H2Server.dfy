/** Sending response bodies on one HTTP/2 connection to a browser: a task for each stream, one
    lock, one connection window and one wake-up event.  Tasks interleave at their await points,
    so a run is a sequence of atomic steps; the h2 library is a ledger of windows that only
    WINDOW_UPDATE raises. */
module H2Server {
  import opened Bytes
  import opened FlowControl

  /** Where a sender stands: at its loop test, waiting for the lock, writing a chunk with the lock
      held, asleep (and whether it has been woken), about to end or reset its stream, writing that
      last frame with the lock held, or over. */
  datatype Pc =
    | Looping | Locking | Flushing(chunk: nat) | Sleeping(woken: bool) | Ending | Resetting | Finishing | Done | Failed

  datatype Sender = Sender(
    body: bytes, offset: nat, window: int, open: bool, pc: Pc, log: seq<Frame>, granted: nat)

  /** What a sender does between two await points. */
  datatype Act = Test | Acquire | Flush | Wake | EndBody | SendReset | Finish | TimeOut | Break | Cancel

  datatype Event = WindowUpdated | DataReceived | StreamReset | ConnectionTerminated

  /** What the peer's bytes mean to the ledger. */
  datatype Input = GrantConnection(n: nat) | GrantStream(i: nat, n: nat) | ResetStream(i: nat) | GoAway | PeerData

  datatype Owner = Free | HeldBy(i: nat) | HeldByReader

  /** The reading task: between reads, writing with the lock held, or gone. */
  datatype Reader = Reading | Writing(fatal: bool) | Left

  datatype State = State(
    senders: seq<Sender>, conn: int, granted: nat, lock: Owner, flag: bool,
    pending: seq<Event>, reader: Reader, closed: bool)

  function Start(window: nat): State { State([], window, window, Free, false, [], Reading, false) }

  datatype Step =
    | Open(body: bytes, window: nat)
    | Send(i: nat, act: Act)
    | Receive(inputs: seq<Input>, fatal: bool) | Written | Dispatch | Leave

  predicate Over(pc: Pc) { pc.Done? || pc.Failed? }

  predicate HasLock(pc: Pc) { pc.Flushing? || pc.Finishing? }

  predicate NeedsLock(act: Act) { act.Acquire? || act.EndBody? || act.SendReset? }

  predicate Can(pc: Pc, act: Act) {
    match act
    case Test => pc == Looping
    case Acquire => pc == Locking
    case Flush => pc.Flushing?
    case Wake => pc == Sleeping(true)
    case EndBody => pc == Ending
    case SendReset => pc == Resetting
    case Finish => pc == Finishing
    case TimeOut => pc.Sleeping?
    case Break => HasLock(pc)
    case Cancel => !Over(pc)
  }

  predicate Enabled(s: State, step: Step) {
    match step
    case Open(body, _) => s.reader != Left && body != ""
    case Send(i, act) =>
      && i < |s.senders| && Can(s.senders[i].pc, act)
      && (NeedsLock(act) ==> s.lock == Free) && (act == Cancel ==> s.reader == Left)
    case Receive(_, _) => s.reader == Reading && s.pending == [] && s.lock == Free
    case Written => s.reader == Writing(false)
    case Dispatch => s.reader == Reading && s.pending != [] && (s.pending[0] == DataReceived ==> s.lock == Free)
    case Leave => s.reader != Left
  }

  /** With the lock, the window is read and, unless it is shut, a chunk goes out; if it is shut
      the event is cleared and waited for, with no await in between. */
  function Acquired(x: Sender, conn: int, maxFrame: nat): Sender {
    var chunk := if x.offset <= |x.body| then Chunk(Smaller(x.window, conn), maxFrame, |x.body| - x.offset) else 0;
    if !x.open then x.(pc := Failed)
    else if chunk > 0 then
      x.(pc := Flushing(chunk), window := x.window - chunk, log := x.log + [Data(x.body[x.offset..x.offset + chunk])])
    else x.(pc := Sleeping(false))
  }

  /** The last frame of a stream; one the peer has reset takes no more frames. */
  function Concluded(x: Sender, last: Frame): Sender {
    if x.open then x.(log := x.log + [last], open := last != Reset, pc := Finishing) else x.(pc := Done)
  }

  function Moved(x: Sender, act: Act, conn: int, closed: bool, maxFrame: nat): Sender
    requires Can(x.pc, act)
  {
    match act
    case Test => x.(pc := if x.offset < |x.body| && !closed then Locking else Ending)
    case Acquire => Acquired(x, conn, maxFrame)
    case Flush => x.(offset := x.offset + x.pc.chunk, pc := Looping)
    case Wake => x.(pc := Looping)
    case EndBody => Concluded(x, EndStream)
    case SendReset => Concluded(x, Reset)
    case Finish => x.(pc := Done)
    case TimeOut => x.(pc := Resetting)
    case Break => x.(pc := Failed)
    case Cancel => x.(pc := Failed)
  }

  /** `Event.set` resolves every wait in progress. */
  function WakeAll(xs: seq<Sender>): (r: seq<Sender>)
    ensures |r| == |xs|
    ensures forall i :: 0 <= i < |xs| ==> r[i] == if xs[i].pc.Sleeping? then xs[i].(pc := Sleeping(true)) else xs[i]
  {
    seq(|xs|, i requires 0 <= i < |xs| => if xs[i].pc.Sleeping? then xs[i].(pc := Sleeping(true)) else xs[i])
  }

  function Credited(x: Sender, n: nat, open: bool): Sender {
    x.(window := x.window + n, granted := x.granted + n, open := open)
  }

  /** One frame of the peer's: its effect on the ledger, and the event to be dispatched later. */
  function Take(s: State, input: Input): State {
    match input
    case GrantConnection(n) => s.(conn := s.conn + n, granted := s.granted + n, pending := s.pending + [WindowUpdated])
    case GrantStream(i, n) =>
      if i < |s.senders| && s.senders[i].open then
        s.(senders := s.senders[i := Credited(s.senders[i], n, true)], pending := s.pending + [WindowUpdated])
      else s
    case ResetStream(i) =>
      if i < |s.senders| then
        s.(senders := s.senders[i := Credited(s.senders[i], 0, false)], pending := s.pending + [StreamReset])
      else s
    case GoAway => s.(pending := s.pending + [ConnectionTerminated])
    case PeerData => s.(pending := s.pending + [DataReceived])
  }

  function TakeAll(s: State, inputs: seq<Input>): State
    decreases |inputs|
  {
    if inputs == [] then s else TakeAll(Take(s, inputs[0]), inputs[1..])
  }

  function Dispatched(s: State): State
    requires s.pending != []
  {
    var rest := s.(pending := s.pending[1..]);
    match s.pending[0]
    case WindowUpdated => rest.(flag := true, senders := WakeAll(s.senders))
    case ConnectionTerminated => rest.(closed := true)
    case DataReceived => rest.(lock := HeldByReader, reader := Writing(false))
    case StreamReset => rest
  }

  /** A sender's move; a chunk is charged to the connection's window too. */
  function Sent(s: State, i: nat, act: Act, maxFrame: nat): State
    requires i < |s.senders| && Can(s.senders[i].pc, act)
  {
    var x := s.senders[i];
    var y := Moved(x, act, s.conn, s.closed, maxFrame);
    s.(senders := s.senders[i := y], conn := s.conn - (x.window - y.window),
       lock := if HasLock(y.pc) then HeldBy(i) else if HasLock(x.pc) then Free else s.lock,
       closed := s.closed || act == Break, flag := s.flag && y.pc != Sleeping(false))
  }

  function Apply(s: State, step: Step, maxFrame: nat): State
    requires Enabled(s, step)
  {
    match step
    case Open(body, window) => s.(senders := s.senders + [Sender(body, 0, window, true, Looping, [], window)])
    case Send(i, act) => Sent(s, i, act, maxFrame)
    case Receive(inputs, fatal) =>
      var t := TakeAll(s, inputs);
      t.(lock := HeldByReader, reader := Writing(fatal), pending := if fatal then [] else t.pending)
    case Written => s.(lock := Free, reader := Reading)
    case Dispatch => Dispatched(s)
    case Leave => s.(reader := Left, closed := true, lock := if s.lock == HeldByReader then Free else s.lock)
  }

  // ------------------------------------------------------------------ invariant

  /** What one stream has carried: a prefix of its body, framed, within the credit granted. */
  predicate StreamInv(x: Sender, maxFrame: nat) {
    && DataOf(x.log) <= x.body && Framed(x.log, maxFrame)
    && 0 <= x.window == x.granted - |DataOf(x.log)|
  }

  predicate Whole(x: Sender, closed: bool) { Ends(x.log) ==> DataOf(x.log) == x.body || closed }

  /** Where a sender stands agrees with what it has sent; a stream is ended on the whole body
      unless the connection was marked closed. */
  predicate PcInv(x: Sender, closed: bool) {
    match x.pc
    case Locking => AllData(x.log) && |DataOf(x.log)| == x.offset < |x.body|
    case Flushing(n) => AllData(x.log) && |DataOf(x.log)| == x.offset + n
    case Ending => AllData(x.log) && |DataOf(x.log)| == x.offset && (x.offset == |x.body| || closed)
    case Finishing => Whole(x, closed)
    case Done => Whole(x, closed)
    case Failed => Whole(x, closed)
    case _ => AllData(x.log) && |DataOf(x.log)| == x.offset
  }

  predicate StreamsInv(xs: seq<Sender>, maxFrame: nat, closed: bool) {
    forall i :: 0 <= i < |xs| ==> StreamInv(xs[i], maxFrame) && PcInv(xs[i], closed)
  }

  function Total(xs: seq<Sender>): nat {
    if xs == [] then 0 else Total(xs[..|xs| - 1]) + |DataOf(xs[|xs| - 1].log)|
  }

  /** All data sent on the connection comes out of the connection's credit. */
  predicate ConnInv(xs: seq<Sender>, conn: int, granted: nat) { 0 <= conn == granted - Total(xs) }

  /** The lock is held by exactly the coroutine that is writing. */
  predicate LockInv(xs: seq<Sender>, lock: Owner, reader: Reader) {
    && (forall i :: 0 <= i < |xs| ==> (HasLock(xs[i].pc) <==> lock == HeldBy(i)))
    && (lock == HeldByReader <==> reader.Writing?)
    && (lock.HeldBy? ==> lock.i < |xs|)
  }

  predicate Doomed(reader: Reader) { reader == Left || reader == Writing(true) }

  predicate Overslept(x: Sender, conn: int) { x.pc == Sleeping(false) && Smaller(x.window, conn) > 0 }

  /** A sender sleeps unwoken on an open window only while an event that will wake it waits to be
      dispatched, or the connection is going down. */
  predicate WakeInv(xs: seq<Sender>, conn: int, pending: seq<Event>, reader: Reader) {
    WindowUpdated in pending || Doomed(reader) || forall i :: 0 <= i < |xs| ==> !Overslept(xs[i], conn)
  }

  predicate EndInv(s: State) { s.reader == Left ==> s.closed }

  predicate Inv(s: State, maxFrame: nat) {
    && StreamsInv(s.senders, maxFrame, s.closed) && ConnInv(s.senders, s.conn, s.granted)
    && LockInv(s.senders, s.lock, s.reader) && WakeInv(s.senders, s.conn, s.pending, s.reader) && EndInv(s)
  }

  lemma {:induction false} TotalUpdate(xs: seq<Sender>, i: nat, x: Sender)
    requires i < |xs|
    ensures Total(xs[i := x]) == Total(xs) - |DataOf(xs[i].log)| + |DataOf(x.log)|
  {
    var n := |xs| - 1;
    if i < n {
      assert xs[i := x][..n] == xs[..n][i := x];
      TotalUpdate(xs[..n], i, x);
    } else { assert xs[n := x][..n] == xs[..n]; }
  }

  lemma {:induction false} TotalSame(xs: seq<Sender>, ys: seq<Sender>)
    requires |xs| == |ys| && forall i :: 0 <= i < |xs| ==> xs[i].log == ys[i].log
    ensures Total(xs) == Total(ys)
  {
    if xs != [] { TotalSame(xs[..|xs| - 1], ys[..|ys| - 1]); }
  }

  lemma TotalSnoc(xs: seq<Sender>, x: Sender)
    ensures Total(xs + [x]) == Total(xs) + |DataOf(x.log)|
  {
    assert (xs + [x])[..|xs|] == xs;
  }

  // --------------------------------------------------------------- one sender's moves

  lemma PrefixAt(a: bytes, b: bytes, n: nat)
    requires a <= b && |a| == n
    ensures a == b[..n]
  {}

  lemma ChunkStream(x: Sender, chunk: nat, maxFrame: nat, closed: bool)
    requires StreamInv(x, maxFrame) && PcInv(x, closed) && x.pc == Locking
    requires 0 < chunk <= maxFrame && chunk <= x.window && x.offset + chunk <= |x.body|
    ensures var y := x.(pc := Flushing(chunk), window := x.window - chunk,
                        log := x.log + [Data(x.body[x.offset..x.offset + chunk])]);
      StreamInv(y, maxFrame) && PcInv(y, closed)
  {
    PrefixAt(DataOf(x.log), x.body, x.offset);
    SendNext(x.log, x.body, x.offset, chunk, maxFrame);
  }

  lemma LastStream(x: Sender, last: Frame, maxFrame: nat, closed: bool)
    requires StreamInv(x, maxFrame) && PcInv(x, closed)
    requires (x.pc == Ending && last == EndStream) || (x.pc == Resetting && last == Reset)
    ensures var y := Concluded(x, last);
      StreamInv(y, maxFrame) && PcInv(y, closed)
  {
    SendLast(x.log, last, maxFrame);
    if x.pc == Ending && !closed { PrefixAt(DataOf(x.log), x.body, |x.body|); }
  }

  lemma AcquiredStream(x: Sender, conn: int, closed: bool, maxFrame: nat)
    requires StreamInv(x, maxFrame) && PcInv(x, closed) && x.pc == Locking && maxFrame > 0
    ensures var y := Acquired(x, conn, maxFrame);
      StreamInv(y, maxFrame) && PcInv(y, closed)
  {
    var chunk := if x.offset <= |x.body| then Chunk(Smaller(x.window, conn), maxFrame, |x.body| - x.offset) else 0;
    if chunk > 0 { ChunkStream(x, chunk, maxFrame, closed); }
  }

  lemma MovedStream(x: Sender, act: Act, conn: int, closed: bool, maxFrame: nat)
    requires StreamInv(x, maxFrame) && PcInv(x, closed) && Can(x.pc, act) && maxFrame > 0
    ensures var y := Moved(x, act, conn, closed, maxFrame);
      StreamInv(y, maxFrame) && PcInv(y, closed || act == Break)
  {
    match act {
      case Acquire => AcquiredStream(x, conn, closed, maxFrame);
      case EndBody => LastStream(x, EndStream, maxFrame, closed);
      case SendReset => LastStream(x, Reset, maxFrame, closed);
      case _ => hide DataOf, Framed;
    }
  }

  /** The window a move takes is the data it sends, and never more than the connection has. */
  lemma MovedCredit(x: Sender, act: Act, conn: int, closed: bool, maxFrame: nat)
    requires StreamInv(x, maxFrame) && PcInv(x, closed) && Can(x.pc, act) && maxFrame > 0 && conn >= 0
    ensures var y := Moved(x, act, conn, closed, maxFrame);
      0 <= x.window - y.window <= conn && |DataOf(y.log)| - |DataOf(x.log)| == x.window - y.window
  {
    MovedStream(x, act, conn, closed, maxFrame);
    hide DataOf, Framed;
  }

  // --------------------------------------------------------- steps keep the invariant

  /** Marking the connection closed only weakens what is asked of a sender. */
  lemma ClosedKeeps(xs: seq<Sender>, maxFrame: nat, closed: bool, later: bool)
    requires StreamsInv(xs, maxFrame, closed) && (closed ==> later)
    ensures StreamsInv(xs, maxFrame, later)
  {
    hide DataOf, Framed, StreamInv;
  }

  lemma ReplaceStream(xs: seq<Sender>, i: nat, y: Sender, maxFrame: nat, closed: bool)
    requires i < |xs| && StreamsInv(xs, maxFrame, closed) && StreamInv(y, maxFrame) && PcInv(y, closed)
    ensures StreamsInv(xs[i := y], maxFrame, closed)
  {
    hide StreamInv, PcInv;
  }

  lemma SendStreams(s: State, i: nat, act: Act, maxFrame: nat)
    requires Inv(s, maxFrame) && Enabled(s, Send(i, act)) && maxFrame > 0
    ensures var t := Sent(s, i, act, maxFrame);
      StreamsInv(t.senders, maxFrame, t.closed) && ConnInv(t.senders, t.conn, t.granted)
  {
    var x := s.senders[i];
    assert StreamInv(x, maxFrame) && PcInv(x, s.closed);
    hide PcInv, StreamInv, Moved, LockInv, WakeInv;
    MovedStream(x, act, s.conn, s.closed, maxFrame);
    MovedCredit(x, act, s.conn, s.closed, maxFrame);
    var y := Moved(x, act, s.conn, s.closed, maxFrame);
    TotalUpdate(s.senders, i, y);
    hide StreamsInv, Total;
    ClosedKeeps(s.senders, maxFrame, s.closed, s.closed || act == Break);
    ReplaceStream(s.senders, i, y, maxFrame, s.closed || act == Break);
  }

  lemma SendLock(s: State, i: nat, act: Act, maxFrame: nat)
    requires LockInv(s.senders, s.lock, s.reader) && Enabled(s, Send(i, act))
    ensures var t := Sent(s, i, act, maxFrame); LockInv(t.senders, t.lock, t.reader)
  {
    var x, y := s.senders[i], Moved(s.senders[i], act, s.conn, s.closed, maxFrame);
    assert HasLock(x.pc) <==> s.lock == HeldBy(i);
    assert HasLock(y.pc) ==> s.lock == Free || s.lock == HeldBy(i);
    hide Moved, HasLock;
  }

  lemma SendWake(s: State, i: nat, act: Act, maxFrame: nat)
    requires Inv(s, maxFrame) && Enabled(s, Send(i, act)) && maxFrame > 0
    ensures var t := Sent(s, i, act, maxFrame); WakeInv(t.senders, t.conn, t.pending, t.reader)
  {
    var x := s.senders[i];
    var y := Moved(x, act, s.conn, s.closed, maxFrame);
    assert StreamInv(x, maxFrame) && PcInv(x, s.closed) && s.conn >= 0;
    MovedCredit(x, act, s.conn, s.closed, maxFrame);
    assert y.pc == Sleeping(false) ==> !Overslept(y, s.conn) by { SleepsShut(x, act, s.conn, s.closed, maxFrame); }
    hide Moved, StreamsInv, LockInv, ConnInv, StreamInv, PcInv;
  }

  /** A sender falls asleep only on a shut window. */
  lemma SleepsShut(x: Sender, act: Act, conn: int, closed: bool, maxFrame: nat)
    requires Can(x.pc, act) && StreamInv(x, maxFrame) && PcInv(x, closed) && maxFrame > 0
    ensures Moved(x, act, conn, closed, maxFrame).pc == Sleeping(false) ==> Smaller(x.window, conn) <= 0
  {
  }

  lemma SendKeeps(s: State, i: nat, act: Act, maxFrame: nat)
    requires Inv(s, maxFrame) && Enabled(s, Send(i, act)) && maxFrame > 0
    ensures Inv(Sent(s, i, act, maxFrame), maxFrame)
  {
    SendStreams(s, i, act, maxFrame);
    SendLock(s, i, act, maxFrame);
    SendWake(s, i, act, maxFrame);
    hide StreamsInv, ConnInv, LockInv, WakeInv, Moved;
  }

  lemma OpenedStreams(xs: seq<Sender>, x: Sender, maxFrame: nat, closed: bool)
    requires StreamsInv(xs, maxFrame, closed) && StreamInv(x, maxFrame) && PcInv(x, closed)
    ensures StreamsInv(xs + [x], maxFrame, closed)
  {
    hide StreamInv, PcInv;
  }

  lemma OpenedRest(xs: seq<Sender>, x: Sender, lock: Owner, reader: Reader, conn: int, pending: seq<Event>)
    requires LockInv(xs, lock, reader) && WakeInv(xs, conn, pending, reader) && x.pc == Looping
    ensures LockInv(xs + [x], lock, reader) && WakeInv(xs + [x], conn, pending, reader)
  {}

  lemma OpenKeeps(s: State, body: bytes, window: nat, maxFrame: nat)
    requires Inv(s, maxFrame) && Enabled(s, Open(body, window))
    ensures Inv(Apply(s, Open(body, window), maxFrame), maxFrame)
  {
    var x := Sender(body, 0, window, true, Looping, [], window);
    assert StreamInv(x, maxFrame) && PcInv(x, s.closed) && DataOf(x.log) == "";
    hide StreamInv, PcInv, DataOf, Total;
    TotalSnoc(s.senders, x);
    OpenedRest(s.senders, x, s.lock, s.reader, s.conn, s.pending);
    OpenedStreams(s.senders, x, maxFrame, s.closed);
    hide StreamsInv, LockInv, WakeInv;
  }

  /** Credit and resets change windows and what is open, never what was sent. */
  lemma CreditedStream(x: Sender, n: nat, open: bool, maxFrame: nat, closed: bool)
    requires StreamInv(x, maxFrame) && PcInv(x, closed)
    ensures StreamInv(Credited(x, n, open), maxFrame) && PcInv(Credited(x, n, open), closed)
    ensures Credited(x, n, open).log == x.log
  {
    hide DataOf, Framed, AllData;
  }

  lemma CreditedStreams(xs: seq<Sender>, i: nat, n: nat, open: bool, maxFrame: nat, closed: bool)
    requires i < |xs| && StreamsInv(xs, maxFrame, closed)
    ensures StreamsInv(xs[i := Credited(xs[i], n, open)], maxFrame, closed)
    ensures Total(xs[i := Credited(xs[i], n, open)]) == Total(xs)
  {
    assert StreamInv(xs[i], maxFrame) && PcInv(xs[i], closed);
    hide StreamsInv, StreamInv, PcInv, DataOf, Total, Credited;
    CreditedStream(xs[i], n, open, maxFrame, closed);
    ReplaceStream(xs, i, Credited(xs[i], n, open), maxFrame, closed);
    TotalUpdate(xs, i, Credited(xs[i], n, open));
  }

  lemma TakeStreams(s: State, input: Input, maxFrame: nat)
    requires StreamsInv(s.senders, maxFrame, s.closed) && ConnInv(s.senders, s.conn, s.granted)
    ensures var t := Take(s, input); StreamsInv(t.senders, maxFrame, t.closed) && ConnInv(t.senders, t.conn, t.granted)
  {
    hide StreamsInv, Total;
    if (input.GrantStream? || input.ResetStream?) && input.i < |s.senders| {
      var x := s.senders[input.i];
      CreditedStreams(s.senders, input.i, if input.GrantStream? then input.n else 0,
                      input.GrantStream? && x.open, maxFrame, s.closed);
    }
  }

  lemma TakeRest(s: State, input: Input)
    requires LockInv(s.senders, s.lock, s.reader) && WakeInv(s.senders, s.conn, s.pending, s.reader)
    ensures var t := Take(s, input);
      LockInv(t.senders, t.lock, t.reader) && WakeInv(t.senders, t.conn, t.pending, t.reader)
  {
    assert WindowUpdated in s.pending ==> WindowUpdated in Take(s, input).pending;
  }

  lemma TakeKeeps(s: State, input: Input, maxFrame: nat)
    requires Inv(s, maxFrame)
    ensures var t := Take(s, input);
      Inv(t, maxFrame) && t.lock == s.lock && t.reader == s.reader && t.closed == s.closed
  {
    TakeStreams(s, input, maxFrame);
    TakeRest(s, input);
    hide StreamsInv, ConnInv, LockInv, WakeInv;
  }

  lemma {:induction false} TakeAllKeeps(s: State, inputs: seq<Input>, maxFrame: nat)
    requires Inv(s, maxFrame)
    ensures var t := TakeAll(s, inputs);
      Inv(t, maxFrame) && t.lock == s.lock && t.reader == s.reader && t.closed == s.closed
    decreases |inputs|
  {
    if inputs != [] {
      hide Inv, Take;
      TakeKeeps(s, inputs[0], maxFrame);
      TakeAllKeeps(Take(s, inputs[0]), inputs[1..], maxFrame);
    }
  }

  lemma ReceiveKeeps(s: State, inputs: seq<Input>, fatal: bool, maxFrame: nat)
    requires Inv(s, maxFrame) && Enabled(s, Receive(inputs, fatal))
    ensures Inv(Apply(s, Receive(inputs, fatal), maxFrame), maxFrame)
  {
    TakeAllKeeps(s, inputs, maxFrame);
    hide StreamsInv, ConnInv;
  }

  lemma WokenStreams(xs: seq<Sender>, maxFrame: nat, closed: bool)
    requires StreamsInv(xs, maxFrame, closed)
    ensures StreamsInv(WakeAll(xs), maxFrame, closed)
  {
    hide DataOf, Framed, AllData;
  }

  lemma WakeKeeps(s: State, maxFrame: nat)
    requires Inv(s, maxFrame) && Enabled(s, Dispatch) && s.pending[0] == WindowUpdated
    ensures Inv(Dispatched(s), maxFrame)
  {
    hide StreamsInv, Total;
    WokenStreams(s.senders, maxFrame, s.closed);
    TotalSame(s.senders, WakeAll(s.senders));
    WokenRest(s.senders, s.lock, s.reader, s.conn);
    hide LockInv, WakeAll;
  }

  lemma WokenRest(xs: seq<Sender>, lock: Owner, reader: Reader, conn: int)
    requires LockInv(xs, lock, reader)
    ensures LockInv(WakeAll(xs), lock, reader) && forall i :: 0 <= i < |xs| ==> !Overslept(WakeAll(xs)[i], conn)
  {}

  lemma DispatchKeeps(s: State, maxFrame: nat)
    requires Inv(s, maxFrame) && Enabled(s, Dispatch)
    ensures Inv(Dispatched(s), maxFrame)
  {
    if s.pending[0] == WindowUpdated { WakeKeeps(s, maxFrame); }
    else {
      ClosedKeeps(s.senders, maxFrame, s.closed, true);
      hide StreamsInv, ConnInv;
      assert s.pending == [s.pending[0]] + s.pending[1..];
      assert WindowUpdated in s.pending ==> WindowUpdated in s.pending[1..];
    }
  }

  lemma ReaderKeeps(s: State, step: Step, maxFrame: nat)
    requires Inv(s, maxFrame) && Enabled(s, step) && (step.Written? || step.Leave?)
    ensures Inv(Apply(s, step, maxFrame), maxFrame)
  {
    ClosedKeeps(s.senders, maxFrame, s.closed, true);
    hide StreamsInv, ConnInv;
  }

  lemma StepKeeps(s: State, step: Step, maxFrame: nat)
    requires Inv(s, maxFrame) && Enabled(s, step) && maxFrame > 0
    ensures Inv(Apply(s, step, maxFrame), maxFrame)
  {
    hide Inv;
    match step {
      case Open(body, window) => OpenKeeps(s, body, window, maxFrame);
      case Send(i, act) => SendKeeps(s, i, act, maxFrame);
      case Receive(inputs, fatal) => ReceiveKeeps(s, inputs, fatal, maxFrame);
      case Written => ReaderKeeps(s, step, maxFrame);
      case Dispatch => DispatchKeeps(s, maxFrame);
      case Leave => ReaderKeeps(s, step, maxFrame);
    }
  }

  // ------------------------------------------------------------------ whole runs

  /** A run: states, each from the one before by an enabled step. */
  predicate IsRun(states: seq<State>, steps: seq<Step>, window: nat, maxFrame: nat) {
    && |states| == |steps| + 1 && states[0] == Start(window)
    && forall k :: 0 <= k < |steps| ==>
      Enabled(states[k], steps[k]) && states[k + 1] == Apply(states[k], steps[k], maxFrame)
  }

  lemma RunAt(states: seq<State>, steps: seq<Step>, window: nat, maxFrame: nat, k: nat)
    requires IsRun(states, steps, window, maxFrame) && k < |steps|
    ensures |states| == |steps| + 1
    ensures Enabled(states[k], steps[k]) && states[k + 1] == Apply(states[k], steps[k], maxFrame)
  {
    hide Enabled, Apply;
  }

  lemma {:induction false} RunInv(states: seq<State>, steps: seq<Step>, window: nat, maxFrame: nat, n: nat)
    requires IsRun(states, steps, window, maxFrame) && maxFrame > 0 && n < |states|
    ensures Inv(states[n], maxFrame)
  {
    if n > 0 {
      hide Inv, Enabled, Apply;
      RunInv(states, steps, window, maxFrame, n - 1);
      StepKeeps(states[n - 1], steps[n - 1], maxFrame);
    }
  }

  /** In every interleaving, a stream carries a prefix of its body in frames that are neither empty
      nor over the limit, nothing follows its last frame, and it stays within the credit the peer
      granted to the stream. */
  lemma StreamsSafe(states: seq<State>, steps: seq<Step>, window: nat, maxFrame: nat, n: nat, i: nat)
    requires IsRun(states, steps, window, maxFrame) && maxFrame > 0 && n < |states| && i < |states[n].senders|
    ensures var x := states[n].senders[i];
      && DataOf(x.log) <= x.body && |DataOf(x.log)| <= x.granted
      && (forall k :: 0 <= k < |x.log| && x.log[k].Data? ==> 0 < |x.log[k].data| <= maxFrame)
      && (forall k :: 0 <= k < |x.log| - 1 ==> x.log[k].Data?)
  {
    RunInv(states, steps, window, maxFrame, n);
    assert StreamInv(states[n].senders[i], maxFrame);
    hide DataOf, Inv;
  }

  /** All streams together stay within the connection's credit, and what is left of it is exact. */
  lemma CreditConserved(states: seq<State>, steps: seq<Step>, window: nat, maxFrame: nat, n: nat)
    requires IsRun(states, steps, window, maxFrame) && maxFrame > 0 && n < |states|
    ensures Total(states[n].senders) + states[n].conn == states[n].granted && states[n].conn >= 0
  {
    RunInv(states, steps, window, maxFrame, n);
    hide StreamsInv, LockInv, WakeInv, Total;
  }

  /** On a connection not marked closed, END_STREAM means the whole body was sent. */
  lemma EndMeansWhole(states: seq<State>, steps: seq<Step>, window: nat, maxFrame: nat, n: nat, i: nat)
    requires IsRun(states, steps, window, maxFrame) && maxFrame > 0 && n < |states| && i < |states[n].senders|
    requires Ends(states[n].senders[i].log) && !states[n].closed
    ensures DataOf(states[n].senders[i].log) == states[n].senders[i].body
  {
    RunInv(states, steps, window, maxFrame, n);
    assert PcInv(states[n].senders[i], false);
    hide DataOf, Inv, Framed;
  }

  /** While the event is set, nobody waits for it. */
  predicate FlagInv(s: State) { s.flag ==> forall i :: 0 <= i < |s.senders| ==> s.senders[i].pc != Sleeping(false) }

  lemma {:induction false} TakeAllFlag(s: State, inputs: seq<Input>)
    requires FlagInv(s)
    ensures FlagInv(TakeAll(s, inputs))
    decreases |inputs|
  {
    if inputs != [] { TakeAllFlag(Take(s, inputs[0]), inputs[1..]); }
  }

  lemma FlagKeeps(s: State, step: Step, maxFrame: nat)
    requires FlagInv(s) && Enabled(s, step)
    ensures FlagInv(Apply(s, step, maxFrame))
  {
    if step.Receive? { TakeAllFlag(s, step.inputs); }
    hide TakeAll, Moved;
  }

  lemma {:induction false} RunFlag(states: seq<State>, steps: seq<Step>, window: nat, maxFrame: nat, n: nat)
    requires IsRun(states, steps, window, maxFrame) && n < |states|
    ensures FlagInv(states[n])
  {
    if n > 0 {
      hide FlagInv, Enabled, Apply;
      RunFlag(states, steps, window, maxFrame, n - 1);
      FlagKeeps(states[n - 1], steps[n - 1], maxFrame);
    }
  }

  /** No wake-up is lost: a sender asleep and not yet woken has a shut window, or a WINDOW_UPDATE
      still waits to be dispatched, or the connection is going down; and the event it waits for is
      not already set. */
  lemma NoLostWakeUp(states: seq<State>, steps: seq<Step>, window: nat, maxFrame: nat, n: nat, i: nat)
    requires IsRun(states, steps, window, maxFrame) && maxFrame > 0 && n < |states| && i < |states[n].senders|
    requires states[n].senders[i].pc == Sleeping(false)
    ensures !states[n].flag
    ensures Doomed(states[n].reader) || WindowUpdated in states[n].pending
         || Smaller(states[n].senders[i].window, states[n].conn) <= 0
  {
    RunInv(states, steps, window, maxFrame, n);
    RunFlag(states, steps, window, maxFrame, n);
    hide StreamsInv, ConnInv, LockInv;
  }

  /** What the connection can do without the peer, a timeout or an error. */
  predicate Internal(step: Step) {
    step.Written? || step.Dispatch? || (step.Send? && !step.act.TimeOut? && !step.act.Break?)
  }

  ghost predicate Blocked(s: State) { forall step :: Internal(step) ==> !Enabled(s, step) }

  /** A task holding the lock can always go on. */
  lemma BlockedLock(s: State)
    requires LockInv(s.senders, s.lock, s.reader) && Blocked(s) && s.reader != Writing(true)
    ensures s.lock == Free
  {
    assert !Enabled(s, Written);
    var j := if s.lock.HeldBy? then s.lock.i else 0;
    assert s.lock.HeldBy? ==> HasLock(s.senders[j].pc);
    assert !Enabled(s, Send(j, Flush)) && !Enabled(s, Send(j, Finish));
  }

  lemma BlockedState(s: State, maxFrame: nat, i: nat)
    requires LockInv(s.senders, s.lock, s.reader) && WakeInv(s.senders, s.conn, s.pending, s.reader) && Blocked(s)
    requires i < |s.senders| && !Over(s.senders[i].pc) && s.reader != Writing(true)
    ensures s.senders[i].pc == Sleeping(false) && Smaller(s.senders[i].window, s.conn) <= 0
    ensures s.pending == [] && s.lock == Free && s.reader == Reading
  {
    BlockedLock(s);
    assert !Enabled(s, Written) && !Enabled(s, Dispatch);
    hide LockInv;
    assert !Enabled(s, Send(i, Cancel)) && !Enabled(s, Send(i, Test)) && !Enabled(s, Send(i, Acquire))
        && !Enabled(s, Send(i, Flush)) && !Enabled(s, Send(i, Wake)) && !Enabled(s, Send(i, EndBody))
        && !Enabled(s, Send(i, SendReset)) && !Enabled(s, Send(i, Finish));
  }

  /** The connection never deadlocks: when it can do nothing by itself, every unfinished stream is
      asleep on a shut window with nothing left to dispatch, unless a fatal error is about to end
      the connection. */
  lemma OnlyCreditBlocks(states: seq<State>, steps: seq<Step>, window: nat, maxFrame: nat, n: nat, i: nat)
    requires IsRun(states, steps, window, maxFrame) && maxFrame > 0 && n < |states| && i < |states[n].senders|
    requires Blocked(states[n])
    requires !Over(states[n].senders[i].pc) && states[n].reader != Writing(true)
    ensures states[n].senders[i].pc == Sleeping(false) && Smaller(states[n].senders[i].window, states[n].conn) <= 0
    ensures states[n].pending == [] && states[n].lock == Free && states[n].reader == Reading
  {
    RunInv(states, steps, window, maxFrame, n);
    hide StreamsInv, ConnInv, LockInv, WakeInv, Blocked;
    BlockedState(states[n], maxFrame, i);
  }

  // ---------------------------------------------------- a connection marked closed

  /** A step that is not the sender's own leaves what it has sent; it can only wake it. */
  predicate Same(x: Sender, y: Sender) {
    && y.body == x.body && y.offset == x.offset && y.log == x.log && (y.open ==> x.open)
    && (y.pc == x.pc || (x.pc.Sleeping? && y.pc == Sleeping(true)))
  }

  lemma {:induction false} TakeAllLeaves(s: State, inputs: seq<Input>, i: nat)
    requires i < |s.senders|
    ensures var t := TakeAll(s, inputs);
      |t.senders| == |s.senders| && Same(s.senders[i], t.senders[i]) && t.senders[i].pc == s.senders[i].pc
    decreases |inputs|
  {
    if inputs != [] { TakeAllLeaves(Take(s, inputs[0]), inputs[1..], i); }
  }

  lemma OthersLeave(s: State, step: Step, i: nat, maxFrame: nat)
    requires Enabled(s, step) && i < |s.senders| && !(step.Send? && step.i == i)
    ensures var t := Apply(s, step, maxFrame); i < |t.senders| && Same(s.senders[i], t.senders[i])
  {
    if step.Receive? { TakeAllLeaves(s, step.inputs, i); }
    hide TakeAll, Moved;
  }

  // ------------------------------------------------------------ how streams end

  /** A sender that is through with an open stream has ended it. */
  predicate EndedWell(x: Sender) { (x.pc.Finishing? || x.pc.Done?) && x.open ==> Ends(x.log) }

  lemma MovedEnds(x: Sender, act: Act, conn: int, closed: bool, maxFrame: nat)
    requires Can(x.pc, act) && EndedWell(x)
    ensures EndedWell(Moved(x, act, conn, closed, maxFrame))
  {}

  /** A stream that is not open takes no more frames. */
  lemma MovedShut(x: Sender, act: Act, conn: int, closed: bool, maxFrame: nat)
    requires Can(x.pc, act) && !x.open
    ensures var y := Moved(x, act, conn, closed, maxFrame); !y.open && y.log == x.log
  {}

  lemma SentMoves(s: State, i: nat, act: Act, maxFrame: nat)
    requires Enabled(s, Send(i, act))
    ensures Apply(s, Send(i, act), maxFrame).senders[i] == Moved(s.senders[i], act, s.conn, s.closed, maxFrame)
  {
    hide Moved;
  }

  lemma OpenedNew(s: State, step: Step, i: nat, maxFrame: nat)
    requires Enabled(s, step) && |s.senders| <= i < |Apply(s, step, maxFrame).senders|
    ensures step.Open? && var x := Apply(s, step, maxFrame).senders[i];
      x == Sender(step.body, 0, step.window, true, Looping, [], step.window)
  {
    if step.Receive? { TakeAllSize(s, step.inputs); }
    hide TakeAll, Moved;
  }

  lemma EndsStep(s: State, step: Step, i: nat, maxFrame: nat)
    requires Enabled(s, step) && i < |Apply(s, step, maxFrame).senders|
    requires i < |s.senders| ==> EndedWell(s.senders[i])
    ensures EndedWell(Apply(s, step, maxFrame).senders[i])
  {
    hide Moved, Ends;
    if i >= |s.senders| { OpenedNew(s, step, i, maxFrame); }
    else if step.Send? && step.i == i {
      MovedEnds(s.senders[i], step.act, s.conn, s.closed, maxFrame);
      SentMoves(s, i, step.act, maxFrame);
      hide Apply, Enabled, EndedWell;
    } else {
      OthersLeave(s, step, i, maxFrame);
      hide Apply, Enabled;
    }
  }

  /** A stream that its sender is done with, and that the peer has not reset, carries END_STREAM as its
      last frame. */
  lemma {:induction false} DoneEnds(states: seq<State>, steps: seq<Step>, window: nat, maxFrame: nat, n: nat, i: nat)
    requires IsRun(states, steps, window, maxFrame) && n < |states| && i < |states[n].senders|
    ensures EndedWell(states[n].senders[i])
  {
    if n > 0 {
      hide EndedWell, Enabled, Apply;
      if i < |states[n - 1].senders| { DoneEnds(states, steps, window, maxFrame, n - 1, i); }
      EndsStep(states[n - 1], steps[n - 1], i, maxFrame);
    }
  }

  /** On a connection not marked closed such a stream carries its whole body and its end. */
  lemma DoneWhole(states: seq<State>, steps: seq<Step>, window: nat, maxFrame: nat, n: nat, i: nat)
    requires IsRun(states, steps, window, maxFrame) && maxFrame > 0 && n < |states| && i < |states[n].senders|
    requires states[n].senders[i].pc.Done? && states[n].senders[i].open && !states[n].closed
    ensures var x := states[n].senders[i]; Ends(x.log) && DataOf(x.log) == x.body
  {
    DoneEnds(states, steps, window, maxFrame, n, i);
    hide IsRun, DataOf, Ends;
    EndMeansWhole(states, steps, window, maxFrame, n, i);
  }

  lemma ShutStep(s: State, step: Step, i: nat, maxFrame: nat)
    requires Enabled(s, step) && i < |s.senders| && !s.senders[i].open
    ensures var t := Apply(s, step, maxFrame);
      i < |t.senders| && !t.senders[i].open && t.senders[i].log == s.senders[i].log
  {
    hide Moved;
    if step.Send? && step.i == i {
      MovedShut(s.senders[i], step.act, s.conn, s.closed, maxFrame);
      SentMoves(s, i, step.act, maxFrame);
      SendersKept(s, step, maxFrame);
      hide Apply, Enabled;
    } else {
      OthersLeave(s, step, i, maxFrame);
      hide Apply, Enabled;
    }
  }

  lemma SendersKept(s: State, step: Step, maxFrame: nat)
    requires Enabled(s, step) && step.Send?
    ensures |Apply(s, step, maxFrame).senders| == |s.senders|
  {
    hide Moved;
  }

  /** From the peer's reset on, a stream takes no more frames. */
  lemma {:induction false} ResetSilences(states: seq<State>, steps: seq<Step>, window: nat, maxFrame: nat,
                                         m: nat, n: nat, i: nat)
    requires IsRun(states, steps, window, maxFrame) && m < n < |states| && i < |states[m].senders|
    requires steps[m].Receive? && ResetStream(i) in steps[m].inputs
    ensures i < |states[n].senders| && !states[n].senders[i].open
    ensures states[n].senders[i].log == states[m].senders[i].log
    decreases n - m
  {
    hide Enabled, Apply;
    if n > m + 1 {
      ResetSilences(states, steps, window, maxFrame, m, n - 1, i);
      ShutStep(states[n - 1], steps[n - 1], i, maxFrame);
    } else { ResetShuts(states[m], steps[m], i, maxFrame); }
  }

  lemma ResetShuts(s: State, step: Step, i: nat, maxFrame: nat)
    requires Enabled(s, step) && step.Receive? && ResetStream(i) in step.inputs && i < |s.senders|
    ensures var t := Apply(s, step, maxFrame);
      i < |t.senders| && !t.senders[i].open && t.senders[i].log == s.senders[i].log
  {
    TakeAllLeaves(s, step.inputs, i);
    TakenReset(s, step.inputs, i);
    hide TakeAll;
  }

  lemma {:induction false} TakenReset(s: State, inputs: seq<Input>, i: nat)
    requires i < |s.senders| && (ResetStream(i) in inputs || !s.senders[i].open)
    ensures i < |TakeAll(s, inputs).senders| && !TakeAll(s, inputs).senders[i].open
    decreases |inputs|
  {
    if inputs != [] {
      assert inputs == [inputs[0]] + inputs[1..];
      TakenReset(Take(s, inputs[0]), inputs[1..], i);
    }
  }

  /** What a sender that gave up waiting does: it resets the stream, unless the peer has or it is broken off. */
  predicate TimedOut(x: Sender, log: seq<Frame>, broken: bool) {
    || (x.pc.Resetting? && x.log == log)
    || ((x.pc.Finishing? || x.pc.Done? || (x.pc.Failed? && broken)) && !x.open
        && (x.log == log || x.log == log + [Reset]))
    || (x.pc.Failed? && broken && x.log == log)
  }

  lemma TimedOutMoves(x: Sender, act: Act, conn: int, closed: bool, maxFrame: nat, log: seq<Frame>, broken: bool)
    requires Can(x.pc, act) && TimedOut(x, log, broken)
    ensures TimedOut(Moved(x, act, conn, closed, maxFrame), log, broken || act == Break || act == Cancel)
  {}

  /** The sender is broken off or cancelled. */
  predicate BreaksOff(step: Step, i: nat) { step == Send(i, Break) || step == Send(i, Cancel) }

  lemma TimedOutStep(s: State, step: Step, i: nat, maxFrame: nat, log: seq<Frame>, broken: bool)
    requires Enabled(s, step) && i < |s.senders| && TimedOut(s.senders[i], log, broken)
    ensures var t := Apply(s, step, maxFrame);
      i < |t.senders| && TimedOut(t.senders[i], log, broken || BreaksOff(step, i))
  {
    hide Moved;
    if step.Send? && step.i == i {
      TimedOutMoves(s.senders[i], step.act, s.conn, s.closed, maxFrame, log, broken);
      SentMoves(s, i, step.act, maxFrame);
      SendersKept(s, step, maxFrame);
      hide Apply, Enabled, TimedOut;
    } else {
      OthersLeave(s, step, i, maxFrame);
      hide Apply, Enabled;
    }
  }

  /** After a wait for credit has timed out, the stream gets no more data and no END_STREAM: it is reset, if
      the peer has not done so first and the sender is not broken off. */
  lemma {:induction false} TimeOutResets(states: seq<State>, steps: seq<Step>, window: nat, maxFrame: nat,
                                         m: nat, n: nat, i: nat)
    requires IsRun(states, steps, window, maxFrame) && m < n <= |steps| < |states|
    requires i < |states[m].senders| && steps[m] == Send(i, TimeOut)
    ensures i < |states[n].senders|
    ensures TimedOut(states[n].senders[i], states[m].senders[i].log, exists k :: m < k < n && BreaksOff(steps[k], i))
    decreases n - m
  {
    hide IsRun, Enabled, Apply, TimedOut, BreaksOff;
    RunAt(states, steps, window, maxFrame, n - 1);
    if n > m + 1 {
      TimeOutResets(states, steps, window, maxFrame, m, n - 1, i);
      TimedOutStep(states[n - 1], steps[n - 1], i, maxFrame, states[m].senders[i].log,
                   exists k :: m < k < n - 1 && BreaksOff(steps[k], i));
    } else { TimeOutStep(states[m], i, maxFrame); }
  }

  lemma TimeOutStep(s: State, i: nat, maxFrame: nat)
    requires Enabled(s, Send(i, TimeOut))
    ensures var t := Apply(s, Send(i, TimeOut), maxFrame);
      i < |t.senders| && forall broken :: TimedOut(t.senders[i], s.senders[i].log, broken)
  {}

  /** When the connection is marked closed: the peer's going away is dispatched, a write breaks, or the
      reader leaves. */
  predicate Closes(s: State, step: Step) {
    || (step.Dispatch? && s.pending != [] && s.pending[0] == ConnectionTerminated)
    || (step.Send? && step.act == Break) || step.Leave?
  }

  lemma ClosedStep(s: State, step: Step, maxFrame: nat)
    requires Enabled(s, step)
    ensures Apply(s, step, maxFrame).closed <==> s.closed || Closes(s, step)
  {
    if step.Receive? { TakenClosed(s, step.inputs); }
    hide TakeAll, Moved;
  }

  lemma {:induction false} TakenClosed(s: State, inputs: seq<Input>)
    ensures TakeAll(s, inputs).closed == s.closed
    decreases |inputs|
  {
    if inputs != [] { TakenClosed(Take(s, inputs[0]), inputs[1..]); }
  }

  /** In every run the connection is marked closed exactly from such a step on. */
  lemma {:induction false} ClosedWhen(states: seq<State>, steps: seq<Step>, window: nat, maxFrame: nat, n: nat)
    requires IsRun(states, steps, window, maxFrame) && n < |states|
    ensures states[n].closed <==> exists k :: 0 <= k < n && Closes(states[k], steps[k])
  {
    if n > 0 {
      hide Enabled, Apply, Closes;
      ClosedWhen(states, steps, window, maxFrame, n - 1);
      ClosedStep(states[n - 1], steps[n - 1], maxFrame);
    }
  }

  // ------------------------------------------------------- what the peer granted

  /** The connection credit in some frames of the peer's. */
  function ConnectionCredit(inputs: seq<Input>): nat {
    if inputs == [] then 0 else
      (if inputs[0].GrantConnection? then inputs[0].n else 0) + ConnectionCredit(inputs[1..])
  }

  /** The credit for one stream in them, up to a reset of it. */
  function StreamCredit(inputs: seq<Input>, i: nat): nat {
    if inputs == [] || inputs[0] == ResetStream(i) then 0
    else (if inputs[0].GrantStream? && inputs[0].i == i then inputs[0].n else 0) + StreamCredit(inputs[1..], i)
  }

  lemma {:induction false} TakenCredit(s: State, inputs: seq<Input>, i: nat)
    ensures TakeAll(s, inputs).granted == s.granted + ConnectionCredit(inputs)
    ensures |TakeAll(s, inputs).senders| == |s.senders|
    ensures i < |s.senders| ==>
      TakeAll(s, inputs).senders[i].granted
      == s.senders[i].granted + if s.senders[i].open then StreamCredit(inputs, i) else 0
    decreases |inputs|
  {
    if inputs != [] { TakenCredit(Take(s, inputs[0]), inputs[1..], i); }
  }

  function Received(step: Step): seq<Input> { if step.Receive? then step.inputs else [] }

  lemma CreditStep(s: State, step: Step, i: nat, maxFrame: nat)
    requires Enabled(s, step)
    ensures var t := Apply(s, step, maxFrame);
      && t.granted == s.granted + ConnectionCredit(Received(step))
      && (i < |s.senders| ==>
            i < |t.senders|
            && t.senders[i].granted
               == s.senders[i].granted + if s.senders[i].open then StreamCredit(Received(step), i) else 0)
  {
    if step.Receive? { TakenCredit(s, step.inputs, i); hide TakeAll; }
    else { CreditKept(s, step, i, maxFrame); hide Apply, Enabled; }
  }

  lemma CreditKept(s: State, step: Step, i: nat, maxFrame: nat)
    requires Enabled(s, step) && !step.Receive?
    ensures var t := Apply(s, step, maxFrame);
      t.granted == s.granted && (i < |s.senders| ==> i < |t.senders| && t.senders[i].granted == s.senders[i].granted)
  {
    hide TakeAll;
  }

  /** All connection credit received in the first n steps. */
  function ConnectionGrants(steps: seq<Step>, n: nat): nat
    requires n <= |steps|
  {
    if n == 0 then 0 else ConnectionGrants(steps, n - 1) + ConnectionCredit(Received(steps[n - 1]))
  }

  /** The credit a connection is held to is what the peer granted: the first window and every increment. */
  lemma {:induction false} ConnectionGranted(states: seq<State>, steps: seq<Step>, window: nat, maxFrame: nat, n: nat)
    requires IsRun(states, steps, window, maxFrame) && n < |states|
    ensures states[n].granted == window + ConnectionGrants(steps, n)
  {
    if n > 0 {
      hide Enabled, Apply;
      ConnectionGranted(states, steps, window, maxFrame, n - 1);
      CreditStep(states[n - 1], steps[n - 1], 0, maxFrame);
    }
  }

  /** The credit received for a stream while it was open. */
  function StreamGrants(states: seq<State>, steps: seq<Step>, i: nat, m: nat, n: nat): nat
    requires m <= n <= |steps| < |states|
    decreases n - m
  {
    if n == m then 0 else
      StreamGrants(states, steps, i, m, n - 1)
      + if i < |states[n - 1].senders| && states[n - 1].senders[i].open then StreamCredit(Received(steps[n - 1]), i)
          else 0
  }

  /** And a stream's: its window when it was opened and every increment for it since. */
  lemma {:induction false} StreamGranted(states: seq<State>, steps: seq<Step>, window: nat, maxFrame: nat, m: nat,
      n: nat)
    requires IsRun(states, steps, window, maxFrame) && m < n < |states| && steps[m].Open?
    ensures var i := |states[m].senders|;
      i < |states[n].senders| && states[n].senders[i].granted == steps[m].window
          + StreamGrants(states, steps, i, m + 1, n)
    decreases n - m
  {
    var i := |states[m].senders|;
    hide Enabled, Apply;
    if n > m + 1 {
      StreamGranted(states, steps, window, maxFrame, m, n - 1);
      CreditStep(states[n - 1], steps[n - 1], i, maxFrame);
    } else { OpenedCredit(states[m], steps[m], maxFrame); }
  }

  lemma OpenedCredit(s: State, step: Step, maxFrame: nat)
    requires Enabled(s, step) && step.Open?
    ensures var t := Apply(s, step, maxFrame);
      |t.senders| == |s.senders| + 1 && t.senders[|s.senders|].granted == step.window
  {}

  /** This step is the stream's loop test finding the connection marked closed with bytes left. */
  predicate Turns(s: State, step: Step, i: nat) {
    step == Send(i, Test) && i < |s.senders| && s.closed && s.senders[i].offset < |s.senders[i].body|
  }

  /** This step ends the stream, which the peer has not reset. */
  predicate EndsNow(s: State, step: Step, i: nat) {
    step == Send(i, EndBody) && i < |s.senders| && s.senders[i].open
  }

  predicate TurnedShort(states: seq<State>, steps: seq<Step>, i: nat, n: nat)
    requires n <= |steps| < |states|
  {
    exists a :: 0 <= a < n && Turns(states[a], steps[a], i)
  }

  predicate EndedShort(states: seq<State>, steps: seq<Step>, i: nat, n: nat)
    requires n <= |steps| < |states|
  {
    exists b :: 0 <= b < n && EndsNow(states[b], steps[b], i) && TurnedShort(states, steps, i, b)
  }

  /** What a sender's past says of it now. */
  predicate PastOf(x: Sender, short: bool, ended: bool) {
    && (short ==> |DataOf(x.log)| < |x.body| && (x.pc.Ending? || x.pc.Finishing? || Over(x.pc)))
    && (x.pc == Ending && x.offset < |x.body| ==> short)
    && (ended <==> Ends(x.log) && |DataOf(x.log)| < |x.body|)
  }

  lemma AcquiredPast(x: Sender, conn: int, closed: bool, maxFrame: nat, ended: bool)
    requires StreamInv(x, maxFrame) && PcInv(x, closed) && x.pc == Locking && maxFrame > 0 && PastOf(x, false, ended)
    ensures PastOf(Acquired(x, conn, maxFrame), false, ended)
  {
    hide DataOf, Framed;
  }

  lemma ConcludedPast(x: Sender, last: Frame, maxFrame: nat, closed: bool, short: bool, ended: bool)
    requires StreamInv(x, maxFrame) && PcInv(x, closed) && PastOf(x, short, ended)
    requires (x.pc == Ending && last == EndStream) || (x.pc == Resetting && last == Reset)
    ensures PastOf(Concluded(x, last), short, ended || (x.pc == Ending && x.open && short))
  {
    SendLast(x.log, last, maxFrame);
    hide DataOf, Framed;
  }

  lemma MovedPast(x: Sender, act: Act, conn: int, closed: bool, maxFrame: nat, short: bool, ended: bool)
    requires StreamInv(x, maxFrame) && PcInv(x, closed) && Can(x.pc, act) && maxFrame > 0 && PastOf(x, short, ended)
    ensures PastOf(Moved(x, act, conn, closed, maxFrame), short || (act == Test && closed && x.offset < |x.body|),
                   ended || (act == EndBody && x.open && short))
  {
    hide DataOf, Framed;
    match act {
      case Acquire => AcquiredPast(x, conn, closed, maxFrame, ended);
      case EndBody => ConcludedPast(x, EndStream, maxFrame, closed, short, ended);
      case SendReset => ConcludedPast(x, Reset, maxFrame, closed, short, ended);
      case _ =>
    }
  }

  lemma StepPast(s: State, step: Step, i: nat, maxFrame: nat, short: bool, ended: bool)
    requires Inv(s, maxFrame) && Enabled(s, step) && maxFrame > 0 && i < |s.senders|
    requires PastOf(s.senders[i], short, ended)
    ensures var t := Apply(s, step, maxFrame);
      i < |t.senders|
      && PastOf(t.senders[i], short || Turns(s, step, i), ended || (EndsNow(s, step, i) && short))
  {
    assert StreamInv(s.senders[i], maxFrame) && PcInv(s.senders[i], s.closed);
    hide Inv, StreamInv, PcInv, Moved, TakeAll, DataOf;
    if step.Send? && step.i == i {
      MovedPast(s.senders[i], step.act, s.conn, s.closed, maxFrame, short, ended);
      hide PastOf;
    } else {
      OthersLeave(s, step, i, maxFrame);
      hide Enabled, Apply;
    }
  }

  /** A stream just opened has no past. */
  lemma NewPast(s: State, step: Step, i: nat, maxFrame: nat)
    requires Enabled(s, step) && |s.senders| <= i < |Apply(s, step, maxFrame).senders|
    ensures PastOf(Apply(s, step, maxFrame).senders[i], false, false)
  {
    if step.Receive? { TakeAllSize(s, step.inputs); }
    hide TakeAll, Moved;
  }

  lemma {:induction false} TakeAllSize(s: State, inputs: seq<Input>)
    ensures |TakeAll(s, inputs).senders| == |s.senders|
    decreases |inputs|
  {
    if inputs != [] { TakeAllSize(Take(s, inputs[0]), inputs[1..]); }
  }

  /** The stream's past, whether or not it has been opened yet. */
  predicate PastAt(s: State, i: nat, short: bool, ended: bool) {
    if i < |s.senders| then PastOf(s.senders[i], short, ended) else !short && !ended
  }

  lemma PastKept(s: State, step: Step, i: nat, maxFrame: nat, short: bool, ended: bool)
    requires Inv(s, maxFrame) && Enabled(s, step) && maxFrame > 0 && PastAt(s, i, short, ended)
    ensures PastAt(Apply(s, step, maxFrame), i, short || Turns(s, step, i), ended || (EndsNow(s, step, i) && short))
  {
    if i < |s.senders| {
      hide Inv, PastOf, Turns, EndsNow, Enabled, Apply;
      StepPast(s, step, i, maxFrame, short, ended);
    } else {
      assert !Turns(s, step, i) && !EndsNow(s, step, i);
      hide Inv, PastOf, Turns, EndsNow, Enabled, Apply;
      if i < |Apply(s, step, maxFrame).senders| { NewPast(s, step, i, maxFrame); }
    }
  }

  lemma {:induction false} RunPast(states: seq<State>, steps: seq<Step>, window: nat, maxFrame: nat, n: nat, i: nat)
    requires IsRun(states, steps, window, maxFrame) && maxFrame > 0 && n <= |steps| < |states|
    ensures PastAt(states[n], i, TurnedShort(states, steps, i, n), EndedShort(states, steps, i, n))
  {
    hide Inv, PastAt, Turns, EndsNow, TurnedShort, EndedShort, Apply, Enabled, IsRun;
    if n == 0 { NoPast(states, steps, window, maxFrame, i); }
    else {
      RunAt(states, steps, window, maxFrame, n - 1);
      RunPast(states, steps, window, maxFrame, n - 1, i);
      RunInv(states, steps, window, maxFrame, n - 1);
      PastNext(states, steps, i, n - 1);
      PastKept(states[n - 1], steps[n - 1], i, maxFrame,
               TurnedShort(states, steps, i, n - 1), EndedShort(states, steps, i, n - 1));
    }
  }

  lemma NoPast(states: seq<State>, steps: seq<Step>, window: nat, maxFrame: nat, i: nat)
    requires IsRun(states, steps, window, maxFrame) && |steps| < |states|
    ensures PastAt(states[0], i, TurnedShort(states, steps, i, 0), EndedShort(states, steps, i, 0))
  {
    hide Turns, EndsNow, Enabled, Apply;
  }

  lemma PastNext(states: seq<State>, steps: seq<Step>, i: nat, n: nat)
    requires n < |steps| < |states|
    ensures TurnedShort(states, steps, i, n + 1) <==> TurnedShort(states, steps, i, n) || Turns(states[n], steps[n], i)
    ensures EndedShort(states, steps, i, n + 1) <==>
      EndedShort(states, steps, i, n) || (EndsNow(states[n], steps[n], i) && TurnedShort(states, steps, i, n))
  {
    hide Turns, EndsNow;
    if EndedShort(states, steps, i, n + 1) && !EndedShort(states, steps, i, n) {
      var b :| 0 <= b < n + 1 && EndsNow(states[b], steps[b], i) && TurnedShort(states, steps, i, b);
      assert b == n;
    }
  }

  /** In every run, a stream carries END_STREAM after less than its body exactly when one of its loop
      tests found the connection marked closed with bytes left and it then ended while the peer had
      not reset it. */
  lemma ShortEnd(states: seq<State>, steps: seq<Step>, window: nat, maxFrame: nat, n: nat, i: nat)
    requires IsRun(states, steps, window, maxFrame) && maxFrame > 0 && n < |states| && i < |states[n].senders|
    ensures var x := states[n].senders[i];
      (Ends(x.log) && DataOf(x.log) != x.body) <==> EndedShort(states, steps, i, n)
  {
    var x := states[n].senders[i];
    RunInv(states, steps, window, maxFrame, n);
    assert StreamInv(x, maxFrame);
    RunPast(states, steps, window, maxFrame, n, i);
    hide IsRun, DataOf, Inv, EndedShort, TurnedShort;
    if |DataOf(x.log)| == |x.body| { PrefixAt(DataOf(x.log), x.body, |x.body|); }
  }

  /** A connection with one stream, in the states a peer's going away takes it through. */
  function ClosingState(k: nat): State {
    var x := Sender("a", 0, 10, true, Looping, [], 10);
    var s := State([x], 10, 10, Free, false, [], Reading, false);
    if k == 0 then Start(10)
    else if k == 1 then s
    else if k == 2 then s.(lock := HeldByReader, reader := Writing(false), pending := [ConnectionTerminated])
    else if k == 3 then s.(pending := [ConnectionTerminated])
    else if k == 4 then s.(closed := true)
    else if k == 5 then s.(closed := true, senders := [x.(pc := Ending)])
    else s.(closed := true, senders := [x.(pc := Finishing, log := [EndStream])], lock := HeldBy(0))
  }

  const CLOSING_STEPS: seq<Step> :=
    [Open("a", 10), Receive([GoAway], false), Written, Dispatch, Send(0, Test), Send(0, EndBody)]

  lemma ClosingStep(k: nat)
    requires k < 6
    ensures Enabled(ClosingState(k), CLOSING_STEPS[k])
    ensures ClosingState(k + 1) == Apply(ClosingState(k), CLOSING_STEPS[k], 10)
  {
    var s := ClosingState(k);
    match k {
      case 0 =>
      case 1 => assert TakeAll(s, [GoAway]) == Take(s, GoAway);
      case 2 =>
      case 3 => assert s.pending[1..] == [];
      case 4 => assert s.senders[0 := s.senders[0].(pc := Ending)] == [s.senders[0].(pc := Ending)];
      case _ => assert [] + [EndStream] == [EndStream];
    }
  }

  /** Such an end is reached: once the peer has said it is going away, a stream is ended with
      nothing of its body sent, though both windows are open. */
  lemma ClosedTruncates() returns (states: seq<State>)
    ensures IsRun(states, CLOSING_STEPS, 10, 10)
    ensures states[6] == ClosingState(6) && Ends(states[6].senders[0].log)
    ensures DataOf(states[6].senders[0].log) == "" && states[6].senders[0].body == "a"
    ensures states[6].senders[0].window > 0 && states[6].conn > 0
  {
    states := seq(7, k requires 0 <= k => ClosingState(k));
    forall k | 0 <= k < 6
      ensures Enabled(states[k], CLOSING_STEPS[k]) && states[k + 1] == Apply(states[k], CLOSING_STEPS[k], 10)
    {
      ClosingStep(k);
      hide Enabled, Apply, ClosingState;
    }
    hide Enabled, Apply;
    DataSnoc([], EndStream);
  }
}
