/** Sending one request body to an origin over HTTP/2, while a pump task reads the peer's frames
    and raises credit as it handles them.  The two tasks interleave at their await points. */
module H2Client {
  import opened Bytes
  import opened FlowControl

  datatype Pc = Looping | Waiting | Flushing | Closing | Returned | Failed

  datatype Exchange = Exchange(
    body: bytes, offset: nat, window: int, conn: int, open: bool, flag: bool, finished: bool,
    pc: Pc, log: seq<Frame>, granted: nat, connGranted: nat)

  /** Frames of the peer's as the pump handles them; `Over` ends the exchange (the response's end,
      a close, or a body too large), `ResetStream` also closes the stream. */
  datatype Input = GrantConnection(n: nat) | GrantStream(n: nat) | ResetStream | Over | Other

  datatype Step = Turn | Flushed | Wake | Break | Pump(inputs: seq<Input>, fatal: bool)

  function Start(body: bytes, window: nat, conn: nat): Exchange {
    Exchange(body, 0, window, conn, true, false, false, Looping, [], window, conn)
  }

  predicate Enabled(x: Exchange, step: Step) {
    match step
    case Turn => x.pc == Looping
    case Flushed => x.pc == Flushing || x.pc == Closing
    case Wake => x.pc == Waiting && (x.flag || x.finished)
    case Break => x.pc == Flushing || x.pc == Closing
    case Pump(_, _) => !x.finished
  }

  /** From the head of the loop to the next await. */
  function Turned(x: Exchange, maxFrame: nat): Exchange {
    if x.offset >= |x.body| then
      if x.open then x.(log := x.log + [EndStream], pc := Closing) else x.(pc := Failed)
    else if x.finished then x.(pc := Returned)
    else
      var window := Smaller(x.window, x.conn);
      if window <= 0 then x.(flag := false, pc := Waiting)
      else
        var chunk := Chunk(window, maxFrame, |x.body| - x.offset);
        x.(log := x.log + [Data(x.body[x.offset..x.offset + chunk])], offset := x.offset + chunk,
           window := x.window - chunk, conn := x.conn - chunk, pc := Flushing)
  }

  function Handled(x: Exchange, input: Input): Exchange {
    match input
    case GrantConnection(n) => x.(conn := x.conn + n, connGranted := x.connGranted + n, flag := true)
    case GrantStream(n) => if x.open then x.(window := x.window + n, granted := x.granted + n, flag := true) else x
    case ResetStream => x.(open := false, finished := true)
    case Over => x.(finished := true)
    case Other => x
  }

  function Pumped(x: Exchange, inputs: seq<Input>): Exchange
    decreases |inputs|
  {
    if inputs == [] then x else Pumped(Handled(x, inputs[0]), inputs[1..])
  }

  function Apply(x: Exchange, step: Step, maxFrame: nat): Exchange
    requires Enabled(x, step)
  {
    match step
    case Turn => Turned(x, maxFrame)
    case Flushed => x.(pc := if x.pc == Flushing then Looping else Returned)
    case Wake => x.(pc := Looping)
    case Break => x.(pc := Failed)
    case Pump(inputs, fatal) =>
      var y := Pumped(x, inputs);
      if fatal then y.(flag := x.flag, finished := true) else y
  }

  /** What was sent is the body up to the offset, framed and within both windows' credit. */
  predicate SentInv(x: Exchange, maxFrame: nat) {
    && x.offset <= |x.body| && DataOf(x.log) == x.body[..x.offset] && Framed(x.log, maxFrame)
    && 0 <= x.window == x.granted - x.offset && 0 <= x.conn == x.connGranted - x.offset
  }

  predicate PcInv(x: Exchange) {
    && (Ends(x.log) ==> x.offset == |x.body|)
    && (x.pc == Looping || x.pc == Waiting || x.pc == Flushing ==> AllData(x.log))
    && (x.pc == Closing ==> Ends(x.log))
    && (x.pc == Returned ==> Ends(x.log) || x.finished)
  }

  predicate WakeInv(x: Exchange) {
    x.pc == Waiting && Smaller(x.window, x.conn) > 0 ==> x.flag || x.finished
  }

  predicate Inv(x: Exchange, maxFrame: nat) { SentInv(x, maxFrame) && PcInv(x) && WakeInv(x) }

  lemma EndKeeps(x: Exchange, maxFrame: nat)
    requires Inv(x, maxFrame) && x.pc == Looping && x.offset == |x.body|
    ensures Inv(Turned(x, maxFrame), maxFrame)
  {
    SendLast(x.log, EndStream, maxFrame);
    hide DataOf, Framed;
  }

  lemma NotEnded(log: seq<Frame>)
    requires AllData(log)
    ensures !Ends(log)
  {}

  lemma ChunkKeeps(x: Exchange, maxFrame: nat)
    requires Inv(x, maxFrame) && x.pc == Looping && maxFrame > 0
    requires x.offset < |x.body| && !x.finished && Smaller(x.window, x.conn) > 0
    ensures Inv(Turned(x, maxFrame), maxFrame)
  {
    hide DataOf, Framed, AllData, Chunk;
    var chunk := Chunk(Smaller(x.window, x.conn), maxFrame, |x.body| - x.offset);
    SendNext(x.log, x.body, x.offset, chunk, maxFrame);
    NotEnded(x.log + [Data(x.body[x.offset..x.offset + chunk])]);
  }

  lemma TurnKeeps(x: Exchange, maxFrame: nat)
    requires Inv(x, maxFrame) && x.pc == Looping && maxFrame > 0
    ensures Inv(Turned(x, maxFrame), maxFrame)
  {
    if x.offset == |x.body| { EndKeeps(x, maxFrame); }
    else if !x.finished && Smaller(x.window, x.conn) > 0 { ChunkKeeps(x, maxFrame); }
    else { hide DataOf, Framed, AllData; }
  }

  /** The pump changes no part of the exchange but credit, the events and whether the stream is open. */
  predicate PumpedFrom(x: Exchange, y: Exchange) {
    && (y.body, y.offset, y.pc, y.log) == (x.body, x.offset, x.pc, x.log)
    && y.window - x.window == y.granted - x.granted >= 0 && y.conn - x.conn == y.connGranted - x.connGranted >= 0
    && (x.finished ==> y.finished) && (x.flag ==> y.flag)
    && (y.window > x.window || y.conn > x.conn ==> y.flag)
  }

  lemma {:induction false} PumpedKeeps(x: Exchange, inputs: seq<Input>)
    ensures PumpedFrom(x, Pumped(x, inputs))
    decreases |inputs|
  {
    if inputs != [] { PumpedKeeps(Handled(x, inputs[0]), inputs[1..]); }
  }

  lemma StepKeeps(x: Exchange, step: Step, maxFrame: nat)
    requires Inv(x, maxFrame) && Enabled(x, step) && maxFrame > 0
    ensures Inv(Apply(x, step, maxFrame), maxFrame)
  {
    match step {
      case Turn => TurnKeeps(x, maxFrame);
      case Pump(inputs, _) => PumpedKeeps(x, inputs); hide DataOf, Framed, AllData, Pumped;
      case _ => hide DataOf, Framed;
    }
  }

  /** A run: states, each from the one before by an enabled step. */
  predicate IsRun(states: seq<Exchange>, steps: seq<Step>, body: bytes, window: nat, conn: nat, maxFrame: nat) {
    && |states| == |steps| + 1 && states[0] == Start(body, window, conn)
    && forall k :: 0 <= k < |steps| ==>
      Enabled(states[k], steps[k]) && states[k + 1] == Apply(states[k], steps[k], maxFrame)
  }

  lemma {:induction false} RunInv(states: seq<Exchange>, steps: seq<Step>, body: bytes, window: nat, conn: nat,
                                  maxFrame: nat, n: nat)
    requires IsRun(states, steps, body, window, conn, maxFrame) && maxFrame > 0 && n < |states|
    ensures Inv(states[n], maxFrame) && states[n].body == body
  {
    if n > 0 {
      RunInv(states, steps, body, window, conn, maxFrame, n - 1);
      StepKeeps(states[n - 1], steps[n - 1], maxFrame);
      if steps[n - 1].Pump? { PumpedKeeps(states[n - 1], steps[n - 1].inputs); }
      hide Inv;
    }
  }

  /** In every interleaving the DATA sent is a prefix of the body, in frames within the limit and
      within both credits; END_STREAM means the whole body; and the sender stops without it only
      when the exchange is over or broken. */
  lemma BodySafe(states: seq<Exchange>, steps: seq<Step>, body: bytes, window: nat, conn: nat, maxFrame: nat, n: nat)
    requires IsRun(states, steps, body, window, conn, maxFrame) && maxFrame > 0 && n < |states|
    ensures var x := states[n];
      && DataOf(x.log) <= body && |DataOf(x.log)| <= x.granted && |DataOf(x.log)| <= x.connGranted
      && (forall k :: 0 <= k < |x.log| && x.log[k].Data? ==> 0 < |x.log[k].data| <= maxFrame)
      && (Ends(x.log) ==> DataOf(x.log) == body)
      && (x.pc == Returned && !x.finished ==> Ends(x.log) && DataOf(x.log) == body)
  {
    RunInv(states, steps, body, window, conn, maxFrame, n);
    var x := states[n];
    if x.offset == |body| { assert body[..x.offset] == body; }
    hide DataOf;
  }

  /** A run's k-th step, and what it leaves. */
  lemma RunAt(states: seq<Exchange>, steps: seq<Step>, body: bytes, window: nat, conn: nat, maxFrame: nat, k: nat)
    requires IsRun(states, steps, body, window, conn, maxFrame) && k < |steps|
    ensures |states| == |steps| + 1
    ensures Enabled(states[k], steps[k]) && states[k + 1] == Apply(states[k], steps[k], maxFrame)
  {
    hide Enabled, Apply;
  }

  // ------------------------------------------------------- what the peer granted

  function ConnectionCredit(inputs: seq<Input>): nat {
    if inputs == [] then 0 else
      (if inputs[0].GrantConnection? then inputs[0].n else 0) + ConnectionCredit(inputs[1..])
  }

  /** Credit for the stream, up to its reset. */
  function StreamCredit(inputs: seq<Input>): nat {
    if inputs == [] || inputs[0] == ResetStream then 0
    else (if inputs[0].GrantStream? then inputs[0].n else 0) + StreamCredit(inputs[1..])
  }

  predicate EndsExchange(inputs: seq<Input>) { ResetStream in inputs || Over in inputs }

  lemma {:induction false} PumpedCredit(x: Exchange, inputs: seq<Input>)
    ensures var y := Pumped(x, inputs);
      && y.connGranted == x.connGranted + ConnectionCredit(inputs)
      && y.granted == x.granted + (if x.open then StreamCredit(inputs) else 0)
      && y.open == (x.open && ResetStream !in inputs)
      && y.finished == (x.finished || EndsExchange(inputs))
    decreases |inputs|
  {
    if inputs != [] {
      assert inputs == [inputs[0]] + inputs[1..];
      PumpedCredit(Handled(x, inputs[0]), inputs[1..]);
    }
  }

  function Received(step: Step): seq<Input> { if step.Pump? then step.inputs else [] }

  /** The step is the pump's and ends the exchange: by a reset, the response's end or a broken connection. */
  predicate Finishes(step: Step) { step.Pump? && (step.fatal || EndsExchange(step.inputs)) }

  lemma StepCredit(x: Exchange, step: Step, maxFrame: nat)
    requires Enabled(x, step)
    ensures var y := Apply(x, step, maxFrame);
      && y.connGranted == x.connGranted + ConnectionCredit(Received(step))
      && y.granted == x.granted + (if x.open then StreamCredit(Received(step)) else 0)
      && y.open == (x.open && ResetStream !in Received(step))
      && y.finished == (x.finished || Finishes(step))
  {
    if step.Pump? { PumpedCredit(x, step.inputs); hide Pumped; }
  }

  function ConnectionGrants(steps: seq<Step>, n: nat): nat
    requires n <= |steps|
  {
    if n == 0 then 0 else ConnectionGrants(steps, n - 1) + ConnectionCredit(Received(steps[n - 1]))
  }

  /** The stream's credit, up to the step that resets it. */
  function StreamGrants(steps: seq<Step>, n: nat): nat
    requires n <= |steps|
  {
    if n == 0 then 0 else
      StreamGrants(steps, n - 1)
      + if exists k :: 0 <= k < n - 1 && ResetStream in Received(steps[k]) then 0
          else StreamCredit(Received(steps[n - 1]))
  }

  /** Both credits are what the peer granted, the stream is open until the peer resets it, and the
      exchange is over exactly when the pump has ended it. */
  lemma {:induction false} CreditGranted(states: seq<Exchange>, steps: seq<Step>, body: bytes, window: nat, conn: nat,
                                         maxFrame: nat, n: nat)
    requires IsRun(states, steps, body, window, conn, maxFrame) && n <= |steps| < |states|
    ensures var x := states[n];
      && x.connGranted == conn + ConnectionGrants(steps, n) && x.granted == window + StreamGrants(steps, n)
      && (x.open <==> !exists k :: 0 <= k < n && ResetStream in Received(steps[k]))
      && (x.finished <==> exists k :: 0 <= k < n && Finishes(steps[k]))
  {
    if n > 0 {
      RunAt(states, steps, body, window, conn, maxFrame, n - 1);
      hide IsRun, Enabled, Apply, Finishes, Received, StreamCredit, ConnectionCredit;
      CreditGranted(states, steps, body, window, conn, maxFrame, n - 1);
      StepCredit(states[n - 1], steps[n - 1], maxFrame);
    }
  }

  /** From the peer's reset on, the stream takes no more frames. */
  lemma {:induction false} ResetSilences(states: seq<Exchange>, steps: seq<Step>, body: bytes, window: nat, conn: nat,
                                         maxFrame: nat, m: nat, n: nat)
    requires IsRun(states, steps, body, window, conn, maxFrame) && m < n <= |steps| < |states|
    requires ResetStream in Received(steps[m])
    ensures states[n].log == states[m].log && !states[n].open && states[n].finished
    decreases n - m
  {
    RunAt(states, steps, body, window, conn, maxFrame, n - 1);
    hide IsRun, Enabled, Apply;
    if n > m + 1 {
      ResetSilences(states, steps, body, window, conn, maxFrame, m, n - 1);
      ShutStep(states[n - 1], steps[n - 1], maxFrame);
    } else { ResetStep(states[m], steps[m], maxFrame); }
  }

  lemma ShutStep(x: Exchange, step: Step, maxFrame: nat)
    requires Enabled(x, step) && !x.open && x.finished
    ensures var y := Apply(x, step, maxFrame); y.log == x.log && !y.open && y.finished
  {
    if step.Pump? { PumpedKeeps(x, step.inputs); PumpedCredit(x, step.inputs); hide Pumped; }
  }

  lemma ResetStep(x: Exchange, step: Step, maxFrame: nat)
    requires Enabled(x, step) && ResetStream in Received(step)
    ensures var y := Apply(x, step, maxFrame); y.log == x.log && !y.open && y.finished
  {
    PumpedKeeps(x, step.inputs);
    PumpedCredit(x, step.inputs);
    hide Pumped;
  }

  /** The sender is stuck only on a shut window in an exchange still going on. */
  lemma OnlyCreditBlocks(states: seq<Exchange>, steps: seq<Step>, body: bytes, window: nat, conn: nat,
                         maxFrame: nat, n: nat)
    requires IsRun(states, steps, body, window, conn, maxFrame) && maxFrame > 0 && n < |states|
    requires !Enabled(states[n], Turn) && !Enabled(states[n], Flushed) && !Enabled(states[n], Wake)
    requires states[n].pc != Returned && states[n].pc != Failed
    ensures states[n].pc == Waiting && Smaller(states[n].window, states[n].conn) <= 0 && !states[n].finished
  {
    RunInv(states, steps, body, window, conn, maxFrame, n);
    hide SentInv;
  }
}
