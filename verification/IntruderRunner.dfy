/** Running an attack: one producer, several workers and a bounded queue, with pause, resume
    and stop at any moment.  Tasks interleave at their await points, so a run is a sequence of
    atomic steps. */
module IntruderRunner {
  import opened MixedRadix
  import opened IntruderJobs

  /** What a run is started with: how many jobs the generator yields, and the concurrency asked for. */
  datatype Config = Config(jobs: nat, concurrency: int)

  function Workers(c: Config): nat { if c.concurrency < 1 then 1 else c.concurrency }

  /** Room in the queue; a queue with no positive bound is unbounded. */
  predicate HasRoom(c: Config, queue: seq<Item>) { c.concurrency <= 0 || |queue| < c.concurrency * 4 }

  datatype Item = JobItem(index: nat) | Sentinel

  datatype Status = Running | Paused | Stopped | Finished | Failed

  /** Where a worker stands: waiting for an item, holding a job before the pause gate (and
      whether it has been let through), sending it, storing the result, sleeping, or returned. */
  datatype Worker = Idle | Holding(job: nat, woken: bool) | Sending(job: nat) | Storing(job: nat) | Resting | Returned

  /** The run; `taken`, `eaten`, `started` and `finished` are history: jobs and sentinels taken
      off the queue, jobs begun, and jobs counted as completed. */
  datatype State = State(
    next: nat, sent: nat, queue: seq<Item>, workers: seq<Worker>,
    status: Status, gate: bool, completed: nat,
    broken: bool, cancelling: bool, producing: bool, ended: bool,
    taken: nat, eaten: nat, started: seq<nat>, finished: seq<nat>)

  function Start(c: Config): State {
    State(0, 0, [], seq(Workers(c), _ => Idle), Running, true, 0, false, false, true, false, 0, 0, [], [])
  }

  datatype Step =
    | Put
    | Get(w: nat) | Begin(w: nat) | Complete(w: nat) | Store(w: nat) | Wake(w: nat)
    | Break(w: nat)
    | Pause | Resume | Stop | Delete
    | CancelWorker(w: nat) | CancelProducer
    | FinishAll | FailAll | EndCancelled

  predicate AllReturned(s: State) { forall w :: 0 <= w < |s.workers| ==> s.workers[w] == Returned }

  predicate Enabled(c: Config, s: State, step: Step) {
    match step
    case Put => s.producing && HasRoom(c, s.queue) && (s.next < c.jobs || s.sent < Workers(c))
    case Get(w) => w < |s.workers| && s.workers[w] == Idle && s.queue != []
    case Begin(w) => w < |s.workers| && s.workers[w].Holding? && s.workers[w].woken
    case Complete(w) => w < |s.workers| && s.workers[w].Sending?
    case Store(w) => w < |s.workers| && s.workers[w].Storing?
    case Wake(w) => w < |s.workers| && s.workers[w] == Resting
    case Break(w) => w < |s.workers| && (s.workers[w].Sending? || s.workers[w].Storing?)
    case Pause => s.status == Running
    case Resume => s.status == Paused
    case Stop => true
    case Delete => true
    case CancelWorker(w) => s.cancelling && w < |s.workers|
    case CancelProducer => s.cancelling
    case FinishAll =>
      !s.ended && !s.cancelling && !s.broken && AllReturned(s) && s.next == c.jobs && s.sent == Workers(c)
    case FailAll => !s.ended && !s.cancelling && s.broken
    case EndCancelled => !s.ended && s.cancelling && AllReturned(s)
  }

  /** `Event.set`: every task waiting at the gate is let through, even if it closes again. */
  function OpenGate(ws: seq<Worker>): (r: seq<Worker>)
    ensures |r| == |ws|
    ensures forall w :: 0 <= w < |ws| ==> r[w] == if ws[w].Holding? then ws[w].(woken := true) else ws[w]
  {
    seq(|ws|, w requires 0 <= w < |ws| => if ws[w].Holding? then ws[w].(woken := true) else ws[w])
  }

  function Taken(s: State, w: nat): State
    requires w < |s.workers| && s.queue != []
  {
    match s.queue[0]
    case Sentinel => s.(queue := s.queue[1..], workers := s.workers[w := Returned], eaten := s.eaten + 1)
    case JobItem(i) => s.(queue := s.queue[1..], workers := s.workers[w := Holding(i, s.gate)], taken := s.taken + 1)
  }

  function Apply(c: Config, s: State, step: Step): State
    requires Enabled(c, s, step)
  {
    match step
    case Put =>
      if s.next < c.jobs then s.(queue := s.queue + [JobItem(s.next)], next := s.next + 1)
      else s.(queue := s.queue + [Sentinel], sent := s.sent + 1)
    case Get(w) => Taken(s, w)
    case Begin(w) =>
      if s.status == Stopped || s.status == Failed then s.(workers := s.workers[w := Returned])
      else s.(workers := s.workers[w := Sending(s.workers[w].job)], started := s.started + [s.workers[w].job])
    case Complete(w) =>
      s.(workers := s.workers[w := Storing(s.workers[w].job)], completed := s.completed + 1,
         finished := s.finished + [s.workers[w].job])
    case Store(w) => s.(workers := s.workers[w := Resting])
    case Wake(w) => s.(workers := s.workers[w := Idle])
    case Break(w) => s.(workers := s.workers[w := Returned], broken := true)
    case Pause => s.(gate := false, status := Paused)
    case Resume => s.(gate := true, status := Running, workers := OpenGate(s.workers))
    case Stop => s.(status := Stopped, gate := true, workers := OpenGate(s.workers),
                      cancelling := s.cancelling || !s.ended)
    case Delete => s.(cancelling := s.cancelling || !s.ended)
    case CancelWorker(w) => s.(workers := s.workers[w := Returned])
    case CancelProducer => s.(producing := false)
    case FinishAll => s.(ended := true, status := if s.status == Running then Finished else s.status)
    case FailAll => s.(ended := true, status := Failed)
    case EndCancelled => s.(ended := true, status := Stopped)
  }

  // ------------------------------------------------------------------ invariant

  /** Jobs numbered from `first`, in order, then sentinels. */
  predicate QueueShape(queue: seq<Item>, first: nat, jobs: nat, sentinels: nat) {
    && |queue| == jobs + sentinels
    && forall i :: 0 <= i < |queue| ==> queue[i] == if i < jobs then JobItem(first + i) else Sentinel
  }

  lemma ShapeTail(queue: seq<Item>, first: nat, jobs: nat, sentinels: nat)
    requires QueueShape(queue, first, jobs, sentinels) && queue != []
    ensures queue[0] == if jobs > 0 then JobItem(first) else Sentinel
    ensures jobs > 0 ==> QueueShape(queue[1..], first + 1, jobs - 1, sentinels)
    ensures jobs == 0 ==> sentinels > 0 && QueueShape(queue[1..], first, 0, sentinels - 1)
  {}

  /** The queue holds the jobs produced and not taken, in order, then the sentinels. */
  predicate QueueInv(c: Config, s: State) {
    && s.taken <= s.next <= c.jobs && s.eaten <= s.sent <= Workers(c) && |s.workers| == Workers(c)
    && QueueShape(s.queue, s.taken, s.next - s.taken, s.sent - s.eaten)
    && (s.sent > 0 ==> s.next == c.jobs)
    && (s.eaten > 0 ==> s.taken == c.jobs)
  }

  predicate HasJob(w: Worker) { w.Holding? || w.Sending? || w.Storing? }

  /** Jobs begun and jobs completed, each listed once. */
  predicate LogInv(started: seq<nat>, finished: seq<nat>, taken: nat) {
    && NoDuplicates(started) && NoDuplicates(finished)
    && (forall i :: 0 <= i < |started| ==> started[i] < taken)
    && (forall i :: 0 <= i < |finished| ==> finished[i] in started)
  }

  /** The jobs workers have are different ones, and in the logs as far as they have come. */
  predicate JobsInv(ws: seq<Worker>, started: seq<nat>, finished: seq<nat>, taken: nat) {
    && (forall w :: 0 <= w < |ws| && HasJob(ws[w]) ==> ws[w].job < taken)
    && (forall w :: 0 <= w < |ws| && ws[w].Holding? ==> ws[w].job !in started)
    && (forall w :: 0 <= w < |ws| && ws[w].Sending? ==> ws[w].job in started && ws[w].job !in finished)
    && (forall v, w :: 0 <= v < w < |ws| && HasJob(ws[v]) && HasJob(ws[w]) ==> ws[v].job != ws[w].job)
  }

  /** Every job taken is begun at most once and counted at most once. */
  predicate OnceInv(s: State) {
    && s.completed == |s.finished| && LogInv(s.started, s.finished, s.taken)
    && JobsInv(s.workers, s.started, s.finished, s.taken)
  }

  /** A job a worker has taken and not yet completed. */
  predicate Carries(w: Worker, j: nat) { (w.Holding? || w.Sending?) && w.job == j }

  predicate Carried(ws: seq<Worker>, j: nat) { exists w :: 0 <= w < |ws| && Carries(ws[w], j) }

  function CountReturned(ws: seq<Worker>): nat {
    if ws == [] then 0 else (if ws[0] == Returned then 1 else 0) + CountReturned(ws[1..])
  }

  /** Nothing has stopped, failed or been cancelled. */
  predicate Sound(s: State) { !s.broken && !s.cancelling && s.status != Stopped && s.status != Failed }

  /** While sound, no job is lost and workers return only on a sentinel. */
  predicate SoundInv(c: Config, s: State) {
    Sound(s) ==>
      && s.producing
      && (forall j :: 0 <= j < s.taken ==> j in s.finished || Carried(s.workers, j))
      && CountReturned(s.workers) == s.eaten
  }

  predicate GateInv(s: State) {
    s.status == Running ==> s.gate && forall w :: 0 <= w < |s.workers| && s.workers[w].Holding? ==> s.workers[w].woken
  }

  predicate EndInv(c: Config, s: State) {
    s.status == Finished ==> s.ended && forall j :: 0 <= j < c.jobs ==> j in s.finished
  }

  predicate Inv(c: Config, s: State) {
    QueueInv(c, s) && OnceInv(s) && SoundInv(c, s) && GateInv(s) && EndInv(c, s)
  }

  // ------------------------------------------------------- counting the returned

  lemma {:induction false} CountUpdate(ws: seq<Worker>, w: nat, x: Worker)
    requires w < |ws|
    ensures CountReturned(ws[w := x])
         == CountReturned(ws) - (if ws[w] == Returned then 1 else 0) + (if x == Returned then 1 else 0)
  {
    if w > 0 {
      assert ws[w := x][1..] == ws[1..][w - 1 := x];
      CountUpdate(ws[1..], w - 1, x);
    } else { assert ws[0 := x][1..] == ws[1..]; }
  }

  lemma {:induction false} CountBounds(ws: seq<Worker>)
    ensures CountReturned(ws) <= |ws|
    ensures CountReturned(ws) == |ws| <==> forall w :: 0 <= w < |ws| ==> ws[w] == Returned
  {
    if ws != [] {
      CountBounds(ws[1..]);
      assert (forall w :: 0 <= w < |ws| ==> ws[w] == Returned)
         ==> forall w :: 0 <= w < |ws[1..]| ==> ws[1..][w] == Returned;
      assert forall w :: 1 <= w < |ws| ==> ws[w] == ws[1..][w - 1];
    }
  }

  lemma {:induction false} CountOpenGate(ws: seq<Worker>)
    ensures CountReturned(OpenGate(ws)) == CountReturned(ws)
  {
    if ws != [] {
      CountOpenGate(ws[1..]);
      assert OpenGate(ws)[1..] == OpenGate(ws[1..]);
    }
  }

  /** Replacing one worker keeps every job carried, save perhaps its own. */
  lemma CarriedUpdate(ws: seq<Worker>, w: nat, x: Worker, j: nat)
    requires w < |ws| && Carried(ws, j) && (Carries(ws[w], j) ==> Carries(x, j))
    ensures Carried(ws[w := x], j)
  {
    var v :| 0 <= v < |ws| && Carries(ws[v], j);
    assert Carries(ws[w := x][v], j);
  }

  lemma CarriedOpenGate(ws: seq<Worker>, j: nat)
    requires Carried(ws, j)
    ensures Carried(OpenGate(ws), j)
  {
    var v :| 0 <= v < |ws| && Carries(ws[v], j);
    assert Carries(OpenGate(ws)[v], j);
  }

  // --------------------------------------------------------- steps keep the invariant

  lemma PutKeeps(c: Config, s: State)
    requires Inv(c, s) && Enabled(c, s, Put)
    ensures Inv(c, Apply(c, s, Put))
  {}

  lemma GetQueue(c: Config, s: State, w: nat)
    requires QueueInv(c, s) && Enabled(c, s, Get(w))
    ensures QueueInv(c, Taken(s, w))
    ensures s.queue[0] == if s.taken < s.next then JobItem(s.taken) else Sentinel
  {
    hide QueueShape;
    ShapeTail(s.queue, s.taken, s.next - s.taken, s.sent - s.eaten);
  }

  /** A worker without a job of its own changes nothing for the others. */
  lemma JobDropped(ws: seq<Worker>, w: nat, x: Worker, started: seq<nat>, finished: seq<nat>, taken: nat)
    requires w < |ws| && JobsInv(ws, started, finished, taken)
    requires !HasJob(x) || (x.Storing? && ws[w].Storing? && x.job == ws[w].job)
    ensures JobsInv(ws[w := x], started, finished, taken)
  {}

  lemma JobTaken(ws: seq<Worker>, w: nat, woken: bool, started: seq<nat>, finished: seq<nat>, taken: nat)
    requires w < |ws| && JobsInv(ws, started, finished, taken) && LogInv(started, finished, taken)
    ensures JobsInv(ws[w := Holding(taken, woken)], started, finished, taken + 1)
    ensures LogInv(started, finished, taken + 1)
  {
    hide NoDuplicates;
    assert taken !in started;
  }

  lemma JobBegun(ws: seq<Worker>, w: nat, started: seq<nat>, finished: seq<nat>, taken: nat)
    requires w < |ws| && ws[w].Holding? && JobsInv(ws, started, finished, taken) && LogInv(started, finished, taken)
    ensures JobsInv(ws[w := Sending(ws[w].job)], started + [ws[w].job], finished, taken)
    ensures LogInv(started + [ws[w].job], finished, taken)
  {
    var j := ws[w].job;
    assert HasJob(ws[w]);
    assert j !in finished by { assert forall i :: 0 <= i < |finished| ==> finished[i] in started; }
    assert forall v :: 0 <= v < |ws| && v != w && HasJob(ws[v]) ==> ws[v].job != j;
  }

  lemma JobCompleted(ws: seq<Worker>, w: nat, started: seq<nat>, finished: seq<nat>, taken: nat)
    requires w < |ws| && ws[w].Sending? && JobsInv(ws, started, finished, taken) && LogInv(started, finished, taken)
    ensures JobsInv(ws[w := Storing(ws[w].job)], started, finished + [ws[w].job], taken)
    ensures LogInv(started, finished + [ws[w].job], taken)
  {
    var j := ws[w].job;
    assert HasJob(ws[w]);
    assert forall v :: 0 <= v < |ws| && v != w && HasJob(ws[v]) ==> ws[v].job != j;
  }

  lemma GetOnce(c: Config, s: State, w: nat)
    requires OnceInv(s) && Enabled(c, s, Get(w))
    requires s.queue[0] == Sentinel || s.queue[0] == JobItem(s.taken)
    ensures OnceInv(Taken(s, w))
  {
    hide JobsInv, LogInv;
    JobDropped(s.workers, w, Returned, s.started, s.finished, s.taken);
    JobTaken(s.workers, w, s.gate, s.started, s.finished, s.taken);
  }

  lemma GetGate(c: Config, s: State, w: nat)
    requires GateInv(s) && Enabled(c, s, Get(w))
    ensures GateInv(Taken(s, w))
  {}

  lemma GetSound(c: Config, s: State, w: nat)
    requires Inv(c, s) && Enabled(c, s, Get(w))
    ensures SoundInv(c, Taken(s, w))
  {
    var t := Taken(s, w);
    GetQueue(c, s, w);
    CountUpdate(s.workers, w, t.workers[w]);
    forall j | 0 <= j < s.taken && Carried(s.workers, j) ensures Carried(t.workers, j) {
      CarriedUpdate(s.workers, w, t.workers[w], j);
    }
    if t.workers[w].Holding? { assert Carries(t.workers[w], s.taken); }
    hide QueueInv, OnceInv, GateInv, CountReturned, Carried;
  }

  lemma GetKeeps(c: Config, s: State, w: nat)
    requires Inv(c, s) && Enabled(c, s, Get(w))
    ensures Inv(c, Taken(s, w))
  {
    hide QueueInv, OnceInv, SoundInv, GateInv;
    GetQueue(c, s, w);
    GetOnce(c, s, w);
    GetGate(c, s, w);
    GetSound(c, s, w);
  }

  predicate IsWork(step: Step, w: nat) {
    step == Begin(w) || step == Complete(w) || step == Store(w) || step == Wake(w)
  }

  lemma WorkOnce(c: Config, s: State, step: Step, w: nat)
    requires Inv(c, s) && Enabled(c, s, step) && IsWork(step, w)
    ensures OnceInv(Apply(c, s, step)) && GateInv(Apply(c, s, step))
  {
    hide SoundInv, QueueInv, JobsInv, LogInv;
    match step {
      case Begin(_) =>
        JobBegun(s.workers, w, s.started, s.finished, s.taken);
        JobDropped(s.workers, w, Returned, s.started, s.finished, s.taken);
      case Complete(_) => JobCompleted(s.workers, w, s.started, s.finished, s.taken);
      case Store(_) => JobDropped(s.workers, w, Resting, s.started, s.finished, s.taken);
      case Wake(_) => JobDropped(s.workers, w, Idle, s.started, s.finished, s.taken);
    }
  }

  function Weight(w: Worker): nat {
    match w
    case Holding(_, _) => 4 case Sending(_) => 3 case Storing(_) => 2 case Resting => 1 case _ => 0
  }

  /** What a worker does with a job it has taken leaves the queue and its counters alone. */
  lemma WorkApart(c: Config, s: State, step: Step, w: nat)
    requires Enabled(c, s, step) && IsWork(step, w)
    ensures w < |s.workers| == |Apply(c, s, step).workers|
    ensures SameButWorker(s, Apply(c, s, step), w, Apply(c, s, step).workers[w])
    ensures Weight(Apply(c, s, step).workers[w]) < Weight(s.workers[w])
  {
    match step {
      case Begin(_) =>
      case Complete(_) =>
      case Store(_) =>
      case Wake(_) =>
    }
  }

  predicate SameButWorker(s: State, t: State, w: nat, x: Worker) {
    && w < |s.workers| && t.workers == s.workers[w := x]
    && (t.queue, t.next, t.sent, t.taken, t.eaten, t.ended) == (s.queue, s.next, s.sent, s.taken, s.eaten, s.ended)
  }

  lemma WorkQueue(c: Config, s: State, step: Step, w: nat)
    requires QueueInv(c, s) && Enabled(c, s, step) && IsWork(step, w)
    ensures QueueInv(c, Apply(c, s, step))
  {
    hide Apply, Enabled, IsWork, Weight;
    WorkApart(c, s, step, w);
  }

  lemma WorkSound(c: Config, s: State, step: Step, w: nat)
    requires Inv(c, s) && Enabled(c, s, step) && IsWork(step, w)
    ensures SoundInv(c, Apply(c, s, step)) && EndInv(c, Apply(c, s, step))
  {
    hide QueueInv, OnceInv, GateInv, CountReturned, Carried;
    var t := Apply(c, s, step);
    CountUpdate(s.workers, w, t.workers[w]);
    if Sound(t) {
      forall j | 0 <= j < t.taken ensures j in t.finished || Carried(t.workers, j) {
        if Carried(s.workers, j) && !(step.Complete? && s.workers[w].job == j) {
          CarriedUpdate(s.workers, w, t.workers[w], j);
        }
      }
    }
  }

  /** The steps of a worker that has a job keep the invariant. */
  lemma WorkKeeps(c: Config, s: State, step: Step, w: nat)
    requires Inv(c, s) && Enabled(c, s, step) && IsWork(step, w)
    ensures Inv(c, Apply(c, s, step))
  {
    hide QueueInv, OnceInv, SoundInv, GateInv, EndInv, Apply;
    WorkQueue(c, s, step, w);
    WorkOnce(c, s, step, w);
    WorkSound(c, s, step, w);
  }

  lemma LeaveKeeps(c: Config, s: State, step: Step, w: nat)
    requires Inv(c, s) && Enabled(c, s, step) && (step == Break(w) || step == CancelWorker(w))
    ensures Inv(c, Apply(c, s, step))
  {
    hide CountReturned, Carried;
  }

  lemma ControlOnce(c: Config, s: State, step: Step)
    requires Inv(c, s) && Enabled(c, s, step)
    requires step.Pause? || step.Resume? || step.Stop? || step.Delete? || step.CancelProducer?
    ensures OnceInv(Apply(c, s, step)) && GateInv(Apply(c, s, step)) && QueueInv(c, Apply(c, s, step))
  {
    hide SoundInv, NoDuplicates;
  }

  lemma ControlKeeps(c: Config, s: State, step: Step)
    requires Inv(c, s) && Enabled(c, s, step)
    requires step.Pause? || step.Resume? || step.Stop? || step.Delete? || step.CancelProducer?
    ensures Inv(c, Apply(c, s, step))
  {
    ControlOnce(c, s, step);
    hide QueueInv, OnceInv, GateInv, CountReturned, Carried;
    CountOpenGate(s.workers);
    forall j | 0 <= j < s.taken && Carried(s.workers, j) ensures Carried(OpenGate(s.workers), j) {
      CarriedOpenGate(s.workers, j);
    }
  }

  /** Nothing is carried or queued once every worker has returned on its sentinel. */
  lemma AllDone(c: Config, s: State)
    requires Inv(c, s) && Sound(s) && AllReturned(s)
    ensures s.taken == c.jobs && s.queue == [] && forall j :: 0 <= j < c.jobs ==> j in s.finished
  {
    CountBounds(s.workers);
    assert s.eaten == Workers(c) > 0;
    forall j | 0 <= j < c.jobs ensures j in s.finished { assert !Carried(s.workers, j); }
  }

  lemma EndKeeps(c: Config, s: State, step: Step)
    requires Inv(c, s) && Enabled(c, s, step) && (step.FinishAll? || step.FailAll? || step.EndCancelled?)
    ensures Inv(c, Apply(c, s, step))
  {
    if step.FinishAll? && s.status == Running { AllDone(c, s); }
    hide CountReturned, Carried, QueueInv;
  }

  lemma StepKeeps(c: Config, s: State, step: Step)
    requires Inv(c, s) && Enabled(c, s, step)
    ensures Inv(c, Apply(c, s, step))
  {
    hide Inv;
    match step {
      case Put => PutKeeps(c, s);
      case Get(w) => GetKeeps(c, s, w);
      case Begin(w) => WorkKeeps(c, s, step, w);
      case Complete(w) => WorkKeeps(c, s, step, w);
      case Store(w) => WorkKeeps(c, s, step, w);
      case Wake(w) => WorkKeeps(c, s, step, w);
      case Break(w) => LeaveKeeps(c, s, step, w);
      case CancelWorker(w) => LeaveKeeps(c, s, step, w);
      case FinishAll => EndKeeps(c, s, step);
      case FailAll => EndKeeps(c, s, step);
      case EndCancelled => EndKeeps(c, s, step);
      case _ => ControlKeeps(c, s, step);
    }
  }

  // ------------------------------------------------------------------ whole runs

  /** A run: states, each from the one before by an enabled step. */
  predicate IsRun(c: Config, states: seq<State>, steps: seq<Step>) {
    && |states| == |steps| + 1 && states[0] == Start(c)
    && forall i :: 0 <= i < |steps| ==>
      Enabled(c, states[i], steps[i]) && states[i + 1] == Apply(c, states[i], steps[i])
  }

  lemma StartInv(c: Config)
    ensures Inv(c, Start(c))
  {
    CountStart(Workers(c));
  }

  lemma {:induction false} CountStart(n: nat)
    ensures CountReturned(seq(n, _ => Idle)) == 0
  {
    var ws: seq<Worker> := seq(n, _ => Idle);
    if n > 0 { CountStart(n - 1); assert ws[1..] == seq(n - 1, _ => Idle); }
  }

  lemma {:induction false} RunInv(c: Config, states: seq<State>, steps: seq<Step>, n: nat)
    requires IsRun(c, states, steps) && n < |states|
    ensures Inv(c, states[n])
  {
    hide Inv, Enabled, Apply;
    if n == 0 { StartInv(c); }
    else {
      RunInv(c, states, steps, n - 1);
      StepKeeps(c, states[n - 1], steps[n - 1]);
    }
  }

  function Times(log: seq<nat>, j: nat): nat {
    if log == [] then 0 else (if log[0] == j then 1 else 0) + Times(log[1..], j)
  }

  lemma {:induction false} TimesOnce(log: seq<nat>, j: nat)
    requires NoDuplicates(log)
    ensures Times(log, j) == if j in log then 1 else 0
  {
    if log != [] {
      assert forall i, k :: 0 <= i < k < |log[1..]| ==> log[1..][i] == log[i + 1] && log[1..][k] == log[k + 1];
      TimesOnce(log[1..], j);
      assert log == [log[0]] + log[1..];
      assert forall k :: 0 <= k < |log[1..]| ==> log[1..][k] == log[k + 1] != log[0];
    }
  }

  /** In every run, each job is begun and completed at most once, and only jobs that exist. */
  lemma AtMostOnce(c: Config, states: seq<State>, steps: seq<Step>, n: nat, j: nat)
    requires IsRun(c, states, steps) && n < |states|
    ensures Times(states[n].started, j) <= 1 && Times(states[n].finished, j) <= Times(states[n].started, j)
    ensures Times(states[n].started, j) == 1 ==> j < c.jobs
    ensures states[n].completed == |states[n].finished| <= c.jobs
  {
    RunInv(c, states, steps, n);
    var s := states[n];
    TimesOnce(s.started, j);
    TimesOnce(s.finished, j);
    assert forall i :: 0 <= i < |s.finished| ==> s.finished[i] < c.jobs by {
      forall i | 0 <= i < |s.finished| ensures s.finished[i] < c.jobs { InLog(s, i); }
    }
    Pigeonhole(s.finished, c.jobs);
  }

  lemma InLog(s: State, i: nat)
    requires LogInv(s.started, s.finished, s.taken) && i < |s.finished|
    ensures s.finished[i] < s.taken
  {
    var j := s.finished[i];
    var k :| 0 <= k < |s.started| && s.started[k] == j;
  }

  /** The numbers below n. */
  function Below(n: nat): (r: set<nat>)
    ensures |r| == n && forall j: nat :: j in r <==> j < n
  {
    if n == 0 then {} else Below(n - 1) + {n - 1}
  }

  /** The numbers a log lists. */
  function Members(log: seq<nat>): (r: set<nat>)
    ensures forall j: nat :: j in r <==> j in log
  {
    if log == [] then {} else
      assert log == [log[0]] + log[1..];
      Members(log[1..]) + {log[0]}
  }

  lemma NoDuplicatesTail(log: seq<nat>)
    requires NoDuplicates(log) && log != []
    ensures NoDuplicates(log[1..]) && log[0] !in log[1..]
  {
    assert forall i :: 0 <= i < |log| - 1 ==> log[1..][i] == log[i + 1];
  }

  lemma {:induction false} MembersSize(log: seq<nat>)
    requires NoDuplicates(log)
    ensures |Members(log)| == |log|
  {
    if log != [] {
      NoDuplicatesTail(log);
      hide NoDuplicates;
      MembersSize(log[1..]);
    }
  }

  /** Distinct numbers below n are at most n, and exactly n when all of them are there. */
  lemma Pigeonhole(log: seq<nat>, n: nat)
    requires NoDuplicates(log) && forall i :: 0 <= i < |log| ==> log[i] < n
    ensures |log| <= n
    ensures (forall j :: 0 <= j < n ==> j in log) ==> |log| == n
  {
    MembersSize(log);
    hide NoDuplicates;
    assert Members(log) <= Below(n);
    SubsetSize(Members(log), Below(n));
    if forall j :: 0 <= j < n ==> j in log { assert Members(log) == Below(n); }
  }

  lemma {:induction false} SubsetSize(a: set<nat>, b: set<nat>)
    requires a <= b
    ensures |a| <= |b|
    decreases |a|
  {
    if a != {} {
      var x :| x in a;
      SubsetSize(a - {x}, b - {x});
    }
  }

  /** A run whose status is finished has begun and completed every job exactly once. */
  lemma FinishedComplete(c: Config, states: seq<State>, steps: seq<Step>, n: nat)
    requires IsRun(c, states, steps) && n < |states| && states[n].status == Finished
    ensures states[n].completed == c.jobs
    ensures forall j :: 0 <= j < c.jobs ==> Times(states[n].started, j) == 1 && Times(states[n].finished, j) == 1
  {
    RunInv(c, states, steps, n);
    var s := states[n];
    forall i | 0 <= i < |s.finished| ensures s.finished[i] < c.jobs { InLog(s, i); }
    Pigeonhole(s.finished, c.jobs);
    forall j | 0 <= j < c.jobs ensures Times(s.started, j) == 1 && Times(s.finished, j) == 1 {
      TimesOnce(s.started, j);
      TimesOnce(s.finished, j);
      var k :| 0 <= k < |s.finished| && s.finished[k] == j;
      assert s.finished[k] in s.started;
    }
  }

  // ------------------------------------------------------------ pausing and stopping

  /** A worker holds the job and has been let through the gate. */
  predicate HeldThrough(s: State, j: nat) { exists w :: 0 <= w < |s.workers| && s.workers[w] == Holding(j, true) }

  predicate OpensGate(step: Step) { step.Resume? || step.Stop? }

  /** While the gate is shut no worker is let through, and the jobs begun are those of workers that were. */
  lemma ShutStep(c: Config, s: State, step: Step)
    requires Enabled(c, s, step) && !s.gate && !OpensGate(step)
    ensures var t := Apply(c, s, step);
      && !t.gate && (forall j :: HeldThrough(t, j) ==> HeldThrough(s, j))
      && (t.started == s.started || exists j :: t.started == s.started + [j] && HeldThrough(s, j))
  {
    ShutWorkers(c, s, step);
    ShutStarted(c, s, step);
    hide Enabled, Apply;
  }

  lemma ShutWorkers(c: Config, s: State, step: Step)
    requires Enabled(c, s, step) && !s.gate && !OpensGate(step)
    ensures !Apply(c, s, step).gate && forall j :: HeldThrough(Apply(c, s, step), j) ==> HeldThrough(s, j)
  {
    hide OpenGate, HasRoom, Workers, AllReturned, HeldThrough;
    var t := Apply(c, s, step);
    assert |t.workers| == |s.workers|;
    forall j | HeldThrough(t, j) ensures HeldThrough(s, j) {
      var w := ThroughAt(t, j);
      assert s.workers[w] == Holding(j, true);
      ThroughIs(s, w, j);
    }
  }

  lemma ThroughAt(s: State, j: nat) returns (w: nat)
    requires HeldThrough(s, j)
    ensures w < |s.workers| && s.workers[w] == Holding(j, true)
  {
    w :| w < |s.workers| && s.workers[w] == Holding(j, true);
  }

  lemma ThroughIs(s: State, w: nat, j: nat)
    requires w < |s.workers| && s.workers[w] == Holding(j, true)
    ensures HeldThrough(s, j)
  {}

  lemma ShutStarted(c: Config, s: State, step: Step)
    requires Enabled(c, s, step)
    ensures var t := Apply(c, s, step);
      t.started == s.started || exists j :: t.started == s.started + [j] && HeldThrough(s, j)
  {
    hide OpenGate, HasRoom, Workers, AllReturned, HeldThrough;
    if step.Begin? {
      var j := s.workers[step.w].job;
      ThroughIs(s, step.w, j);
      hide Enabled;
    }
  }

  /** Until the next Resume or Stop, a pause lets no job begin but those of workers let through before
      it: a job taken off the queue while paused waits. */
  lemma {:induction false} PauseHolds(c: Config, states: seq<State>, steps: seq<Step>, m: nat, n: nat)
    requires IsRun(c, states, steps) && m < n < |states| && steps[m] == Pause
    requires forall k :: m < k < n ==> !OpensGate(steps[k])
    ensures !states[n].gate && states[m].started <= states[n].started
    ensures forall j :: HeldThrough(states[n], j) ==> HeldThrough(states[m], j)
    ensures forall i :: |states[m].started| <= i < |states[n].started| ==> HeldThrough(states[m], states[n].started[i])
    decreases n - m
  {
    hide IsRun, Enabled, Apply, HeldThrough;
    RunSize(c, states, steps);
    RunStep(c, states, steps, n - 1);
    if n > m + 1 {
      PauseHolds(c, states, steps, m, n - 1);
      ShutStep(c, states[n - 1], steps[n - 1]);
    } else { PauseStep(c, states[m]); }
  }

  lemma PauseStep(c: Config, s: State)
    requires Enabled(c, s, Pause)
    ensures var t := Apply(c, s, Pause);
      !t.gate && t.started == s.started && forall j :: HeldThrough(t, j) ==> HeldThrough(s, j)
  {}

  lemma RunSize(c: Config, states: seq<State>, steps: seq<Step>)
    requires IsRun(c, states, steps)
    ensures |states| == |steps| + 1
  {}

  lemma RunStep(c: Config, states: seq<State>, steps: seq<Step>, i: nat)
    requires IsRun(c, states, steps) && i < |steps|
    ensures Enabled(c, states[i], steps[i]) && states[i + 1] == Apply(c, states[i], steps[i])
  {
    hide Enabled, Apply;
  }

  predicate Halted(s: State) { s.status == Stopped || s.status == Failed }

  /** Nobody waits at the gate. */
  predicate GateOpen(s: State) {
    s.gate && forall w :: 0 <= w < |s.workers| && s.workers[w].Holding? ==> s.workers[w].woken
  }

  lemma OpenStep(c: Config, s: State, step: Step)
    requires Enabled(c, s, step) && Halted(s) && GateOpen(s)
    ensures GateOpen(Apply(c, s, step))
  {
    hide HasRoom, Workers, AllReturned;
  }

  lemma HaltedStep(c: Config, s: State, step: Step)
    requires Enabled(c, s, step) && Halted(s)
    ensures Halted(Apply(c, s, step)) && Apply(c, s, step).started == s.started
  {
    hide OpenGate, HasRoom, Workers, AllReturned;
  }

  /** Once stopped, an attack begins no job, is never running, paused or finished again, and keeps no
      worker waiting at the gate. */
  lemma {:induction false} StopHolds(c: Config, states: seq<State>, steps: seq<Step>, m: nat, n: nat)
    requires IsRun(c, states, steps) && m < n < |states| && steps[m] == Stop
    ensures Halted(states[n]) && states[n].started == states[m].started && GateOpen(states[n])
    decreases n - m
  {
    hide IsRun, Enabled, Apply, Halted, GateOpen;
    RunSize(c, states, steps);
    RunStep(c, states, steps, n - 1);
    if n > m + 1 {
      StopHolds(c, states, steps, m, n - 1);
      HaltedStep(c, states[n - 1], steps[n - 1]);
      OpenStep(c, states[n - 1], steps[n - 1]);
    } else { StopStep(c, states[m]); }
  }

  lemma StopStep(c: Config, s: State)
    ensures Enabled(c, s, Stop) && Halted(Apply(c, s, Stop)) && Apply(c, s, Stop).started == s.started
    ensures GateOpen(Apply(c, s, Stop))
  {}

  predicate Cancelled(s: State) { s.cancelling && (s.ended ==> s.status == Stopped) }

  lemma CancelledStep(c: Config, s: State, step: Step)
    requires Enabled(c, s, step) && Cancelled(s)
    ensures Cancelled(Apply(c, s, step))
  {
    hide OpenGate, HasRoom, Workers, AllReturned;
  }

  lemma CancelStep(c: Config, s: State, step: Step)
    requires Enabled(c, s, step) && (step.Stop? || step.Delete?) && !s.ended
    ensures Cancelled(Apply(c, s, step)) && !Apply(c, s, step).ended
  {
    hide OpenGate;
  }

  /** An attack stopped or deleted before it has ended is cancelled: it can end in no other way, then is
      shown as stopped, and until it has ended it can always be brought nearer to that. */
  lemma {:induction false} CancelEnds(c: Config, states: seq<State>, steps: seq<Step>, m: nat, n: nat)
    requires IsRun(c, states, steps) && m < n < |states| && (steps[m].Stop? || steps[m].Delete?) && !states[m].ended
    ensures states[n].cancelling && (states[n].ended ==> states[n].status == Stopped)
    ensures !states[n].ended ==>
      Enabled(c, states[n], EndCancelled)
      || exists w: nat :: w < |states[n].workers| && states[n].workers[w] != Returned
          && Enabled(c, states[n], CancelWorker(w))
    decreases n - m
  {
    hide IsRun, Enabled, Apply, Cancelled;
    RunSize(c, states, steps);
    RunStep(c, states, steps, n - 1);
    if n > m + 1 { CancelledAt(c, states, steps, m, n); } else { CancelStep(c, states[m], steps[m]); }
    CancelEnabled(c, states[n]);
  }

  lemma {:induction false} CancelledAt(c: Config, states: seq<State>, steps: seq<Step>, m: nat, n: nat)
    requires IsRun(c, states, steps) && m < n < |states| && (steps[m].Stop? || steps[m].Delete?) && !states[m].ended
    ensures Cancelled(states[n])
    decreases n - m
  {
    hide IsRun, Enabled, Apply, Cancelled;
    RunSize(c, states, steps);
    RunStep(c, states, steps, n - 1);
    if n > m + 1 {
      CancelledAt(c, states, steps, m, n - 1);
      CancelledStep(c, states[n - 1], steps[n - 1]);
    } else { CancelStep(c, states[m], steps[m]); }
  }

  lemma CancelEnabled(c: Config, s: State)
    requires Cancelled(s)
    ensures s.cancelling && (s.ended ==> s.status == Stopped)
    ensures !s.ended ==>
      Enabled(c, s, EndCancelled)
      || exists w: nat :: w < |s.workers| && s.workers[w] != Returned && Enabled(c, s, CancelWorker(w))
  {
    if !AllReturned(s) {
      var w: nat :| w < |s.workers| && s.workers[w] != Returned;
      assert s.cancelling ==> Enabled(c, s, CancelWorker(w));
    }
  }

  /** A run that has ended is over in all its workers, or shown as stopped or failed; a broken one is shown so. */
  predicate ErrorShown(s: State) { s.ended ==> Halted(s) || (AllReturned(s) && !s.broken) }

  lemma ErrorStep(c: Config, s: State, step: Step)
    requires Enabled(c, s, step) && ErrorShown(s)
    ensures ErrorShown(Apply(c, s, step))
  {
    hide HasRoom, Workers;
  }

  /** An attack that broke is shown as failed or stopped once it has ended, and never as finished. */
  lemma {:induction false} BrokenShown(c: Config, states: seq<State>, steps: seq<Step>, n: nat)
    requires IsRun(c, states, steps) && n < |states|
    ensures ErrorShown(states[n])
  {
    if n > 0 {
      hide IsRun, Enabled, Apply, ErrorShown;
      RunSize(c, states, steps);
      RunStep(c, states, steps, n - 1);
      BrokenShown(c, states, steps, n - 1);
      ErrorStep(c, states[n - 1], steps[n - 1]);
    }
  }

  /** A queue with a bound never holds more than four items a worker. */
  lemma {:induction false} QueueBounded(c: Config, states: seq<State>, steps: seq<Step>, n: nat)
    requires IsRun(c, states, steps) && n < |states| && c.concurrency > 0
    ensures |states[n].queue| <= 4 * c.concurrency
  {
    if n > 0 {
      QueueBounded(c, states, steps, n - 1);
      QueueStep(c, states[n - 1], steps[n - 1]);
      hide Enabled, Apply;
    }
  }

  lemma QueueStep(c: Config, s: State, step: Step)
    requires Enabled(c, s, step) && c.concurrency > 0 && |s.queue| <= 4 * c.concurrency
    ensures |Apply(c, s, step).queue| <= 4 * c.concurrency
  {
    hide Workers, HasRoom, AllReturned, OpenGate, Taken;
    if step.Put? { PutRoom(c, s); }
    else if step.Get? { TakenQueue(s, step.w); }
    else { QueueSame(c, s, step); }
  }

  lemma PutRoom(c: Config, s: State)
    requires Enabled(c, s, Put) && c.concurrency > 0
    ensures |Apply(c, s, Put).queue| <= 4 * c.concurrency
  {
    hide Workers;
  }

  lemma TakenQueue(s: State, w: nat)
    requires w < |s.workers| && s.queue != []
    ensures Taken(s, w).queue == s.queue[1..]
  {}

  lemma QueueSame(c: Config, s: State, step: Step)
    requires Enabled(c, s, step) && !step.Put? && !step.Get?
    ensures Apply(c, s, step).queue == s.queue
  {
    hide OpenGate, Workers, AllReturned, HasRoom, Taken;
  }

  // -------------------------------------------------------------------- progress

  /** Steps the run takes by itself. */
  predicate Own(step: Step) {
    step.Put? || step.Get? || step.Begin? || step.Complete? || step.Store? || step.Wake? || step.FinishAll?
  }

  function Load(ws: seq<Worker>): nat { if ws == [] then 0 else Weight(ws[0]) + Load(ws[1..]) }

  /** What is left to do: jobs and sentinels weighted by how far they have come. */
  function Measure(c: Config, s: State): int {
    6 * (c.jobs - s.next) + 5 * (s.next - s.taken) + 2 * (Workers(c) - s.sent) + (s.sent - s.eaten)
    + Load(s.workers) + if s.ended then 0 else 1
  }

  lemma {:induction false} LoadUpdate(ws: seq<Worker>, w: nat, x: Worker)
    requires w < |ws|
    ensures Load(ws[w := x]) == Load(ws) - Weight(ws[w]) + Weight(x)
  {
    if w > 0 {
      assert ws[w := x][1..] == ws[1..][w - 1 := x];
      LoadUpdate(ws[1..], w - 1, x);
    } else { assert ws[0 := x][1..] == ws[1..]; }
  }

  /** The measure follows the load when only one worker moves on. */
  lemma LighterWorker(c: Config, s: State, t: State, w: nat, x: Worker)
    requires QueueInv(c, s) && w < |s.workers| && t.workers == s.workers[w := x] && Weight(x) < Weight(s.workers[w])
    requires (t.next, t.sent, t.taken, t.eaten, t.ended) == (s.next, s.sent, s.taken, s.eaten, s.ended)
    ensures 0 <= Measure(c, t) < Measure(c, s)
  {
    LoadUpdate(s.workers, w, x);
    hide Load, Weight;
  }

  lemma WorkerDecreases(c: Config, s: State, step: Step, w: nat)
    requires QueueInv(c, s) && Enabled(c, s, step) && IsWork(step, w)
    ensures 0 <= Measure(c, Apply(c, s, step)) < Measure(c, s)
  {
    hide Measure, QueueInv, Load, Apply, Enabled, IsWork, Weight;
    WorkApart(c, s, step, w);
    var t := Apply(c, s, step);
    LighterWorker(c, s, t, w, t.workers[w]);
  }

  /** Taking an item moves its weight from the queue to the worker, less one. */
  lemma GetDecreases(c: Config, s: State, w: nat)
    requires w < |s.workers| && s.workers[w] == Idle && s.queue != []
    requires s.taken <= s.next <= c.jobs && s.eaten <= s.sent <= Workers(c)
    requires s.queue[0] == if s.taken < s.next then JobItem(s.taken) else Sentinel
    requires s.taken < s.next || s.eaten < s.sent
    ensures 0 <= Measure(c, Taken(s, w)) < Measure(c, s)
  {
    hide Load;
    LoadUpdate(s.workers, w, Taken(s, w).workers[w]);
  }

  /** Every step of the run's own brings it nearer its end. */
  lemma OwnDecreases(c: Config, s: State, step: Step)
    requires Inv(c, s) && Enabled(c, s, step) && Own(step)
    ensures 0 <= Measure(c, Apply(c, s, step)) < Measure(c, s)
  {
    hide OnceInv, SoundInv, GateInv, EndInv, Load, Weight, Measure, HasRoom, AllReturned, QueueShape;
    match step {
      case Get(w) =>
        GetQueue(c, s, w);
        GetDecreases(c, s, w);
      case Begin(w) => WorkerDecreases(c, s, step, w);
      case Complete(w) => WorkerDecreases(c, s, step, w);
      case Store(w) => WorkerDecreases(c, s, step, w);
      case Wake(w) => WorkerDecreases(c, s, step, w);
      case Put => PutDecreases(c, s);
      case FinishAll => FinishDecreases(c, s);
    }
  }

  lemma PutDecreases(c: Config, s: State)
    requires QueueInv(c, s) && Enabled(c, s, Put)
    ensures 0 <= Measure(c, Apply(c, s, Put)) < Measure(c, s)
  {
    hide Load, HasRoom, QueueShape;
  }

  lemma FinishDecreases(c: Config, s: State)
    requires QueueInv(c, s) && Enabled(c, s, FinishAll)
    ensures 0 <= Measure(c, Apply(c, s, FinishAll)) < Measure(c, s)
  {
    hide Load, AllReturned, QueueShape;
  }

  /** While a run is sound, the workers still live are as many as the sentinels queued and unsent. */
  lemma LiveWorkers(c: Config, states: seq<State>, steps: seq<Step>, n: nat)
    requires IsRun(c, states, steps) && n < |states| && Sound(states[n])
    ensures var s := states[n]; |s.workers| - CountReturned(s.workers) == (s.sent - s.eaten) + (Workers(c) - s.sent)
  {
    RunInv(c, states, steps, n);
  }

  /** A running attack is never stuck: some step of its own is enabled until it has ended. */
  lemma NeverStuck(c: Config, s: State) returns (step: Step)
    requires Inv(c, s) && Sound(s) && s.status == Running && !s.ended
    ensures Own(step) && Enabled(c, s, step)
  {
    CountBounds(s.workers);
    if AllReturned(s) {
      AllDone(c, s);
      step := FinishAll;
    } else {
      var w: nat :| w < |s.workers| && s.workers[w] != Returned;
      match s.workers[w] {
        case Holding(_, _) => step := Begin(w);
        case Sending(_) => step := Complete(w);
        case Storing(_) => step := Store(w);
        case Resting => step := Wake(w);
        case Idle => step := if s.queue != [] then Get(w) else Put;
      }
      hide CountReturned, Carried, OnceInv;
    }
  }

  lemma {:induction false} LoadStart(n: nat)
    ensures Load(seq(n, _ => Idle)) == 0
  {
    var ws: seq<Worker> := seq(n, _ => Idle);
    if n > 0 { LoadStart(n - 1); assert ws[1..] == seq(n - 1, _ => Idle); }
  }

  lemma StartMeasure(c: Config)
    ensures Over(c, Start(c)) && Measure(c, Start(c)) == 6 * c.jobs + 2 * Workers(c) + 1
  {
    LoadStart(Workers(c));
    hide Load;
  }

  /** How many of the first `n` steps are the run's own. */
  function OwnSteps(steps: seq<Step>, n: nat): (r: nat)
    requires n <= |steps|
    ensures r <= n
  {
    if n == 0 then 0 else OwnSteps(steps, n - 1) + if Own(steps[n - 1]) then 1 else 0
  }

  lemma {:induction false} LoadOpenGate(ws: seq<Worker>)
    ensures Load(OpenGate(ws)) == Load(ws)
  {
    if ws != [] {
      LoadOpenGate(ws[1..]);
      assert OpenGate(ws)[1..] == OpenGate(ws[1..]);
    }
  }

  /** A step to a sound state is the run's own or the operator's pausing and resuming, which leave
      what is to be done; a run already over cannot be cancelled. */
  lemma SoundStep(c: Config, s: State, step: Step)
    requires Enabled(c, s, step) && Sound(Apply(c, s, step))
    ensures Sound(s)
    ensures !Own(step) ==> Measure(c, Apply(c, s, step)) == Measure(c, s)
    ensures !Own(step) ==> Apply(c, s, step).ended == s.ended && (AllReturned(s) ==> AllReturned(Apply(c, s, step)))
  {
    if step.Resume? { LoadOpenGate(s.workers); }
    hide Load;
  }

  /** Once the run has ended nothing is left to be done. */
  predicate Over(c: Config, s: State) { s.ended ==> AllReturned(s) && s.next == c.jobs && s.sent == Workers(c) }

  lemma OverKept(c: Config, s: State, step: Step)
    requires Enabled(c, s, step) && Sound(Apply(c, s, step)) && Over(c, s)
    ensures Over(c, Apply(c, s, step))
  {
    SoundStep(c, s, step);
    hide Measure;
  }

  lemma {:induction false} SoundPrefix(c: Config, states: seq<State>, steps: seq<Step>, n: nat)
    requires IsRun(c, states, steps) && n < |states| && Sound(states[n])
    ensures Over(c, states[n]) && 0 <= Measure(c, states[n])
    ensures OwnSteps(steps, n) + Measure(c, states[n]) <= Measure(c, Start(c))
  {
    hide Inv, Enabled, Apply, Measure, Sound, Own, Over;
    if n == 0 { StartMeasure(c); }
    else {
      var s, step := states[n - 1], steps[n - 1];
      assert Enabled(c, s, step) && states[n] == Apply(c, s, step);
      SoundStep(c, s, step);
      SoundPrefix(c, states, steps, n - 1);
      RunInv(c, states, steps, n - 1);
      OverKept(c, s, step);
      if Own(step) { OwnDecreases(c, s, step); }
    }
  }

  lemma OverComplete(c: Config, s: State)
    requires Inv(c, s) && Sound(s) && Over(c, s) && s.ended
    ensures s.completed == c.jobs
  {
    AllDone(c, s);
    forall i | 0 <= i < |s.finished| ensures s.finished[i] < c.jobs { InLog(s, i); }
    Pigeonhole(s.finished, c.jobs);
  }

  /** However often it is paused and resumed, an attack that nothing stops or breaks takes a bounded
      number of steps of its own; once ended it has completed every job; and until then it can go on
      by itself unless it is paused. */
  lemma SoundEnds(c: Config, states: seq<State>, steps: seq<Step>, n: nat)
    requires IsRun(c, states, steps) && n < |states| && Sound(states[n])
    ensures OwnSteps(steps, n) <= 6 * c.jobs + 2 * Workers(c) + 1
    ensures states[n].ended ==> states[n].completed == c.jobs
    ensures states[n].ended || states[n].status == Paused || exists step :: Own(step) && Enabled(c, states[n], step)
  {
    var s := states[n];
    SoundPrefix(c, states, steps, n);
    StartMeasure(c);
    RunInv(c, states, steps, n);
    assert s.status == Finished ==> s.ended;
    hide Inv, Measure, Enabled, Apply, Over;
    if s.ended { OverComplete(c, s); }
    else if s.status == Running { var step := NeverStuck(c, s); }
  }

  /** The tasks of the run end while its status is running. */
  predicate EndsRunning(states: seq<State>, steps: seq<Step>, n: nat)
    requires n <= |steps| < |states|
  {
    exists k :: 0 <= k < n && steps[k] == FinishAll && states[k].status == Running
  }

  lemma EndsNext(states: seq<State>, steps: seq<Step>, n: nat)
    requires n < |steps| < |states|
    ensures EndsRunning(states, steps, n + 1)
       <==> EndsRunning(states, steps, n) || (steps[n] == FinishAll && states[n].status == Running)
  {}

  lemma StatusStep(c: Config, s: State, step: Step)
    requires Enabled(c, s, step) && Sound(Apply(c, s, step)) && (s.status == Finished ==> s.ended)
    ensures Apply(c, s, step).status == Finished <==> s.status == Finished || (step == FinishAll && s.status == Running)
  {
    hide OpenGate, Workers, HasRoom, AllReturned;
    if Own(step) && !step.FinishAll? {
      StatusKept(c, s, step);
      hide Apply, Enabled;
    }
  }

  lemma StatusKept(c: Config, s: State, step: Step)
    requires Enabled(c, s, step) && Own(step) && !step.FinishAll?
    ensures Apply(c, s, step).status == s.status
  {
    hide OpenGate, Workers, HasRoom, AllReturned;
  }

  lemma FinishedEnded(c: Config, s: State)
    requires Inv(c, s)
    ensures s.status == Finished ==> s.ended
  {
    hide QueueInv, OnceInv, SoundInv, GateInv;
  }

  /** An attack that nothing stops or breaks is shown as finished exactly when its tasks ended while
      it was running; one paused over its last jobs never is. */
  lemma {:induction false} FinishedWhen(c: Config, states: seq<State>, steps: seq<Step>, n: nat)
    requires IsRun(c, states, steps) && n < |states| && Sound(states[n])
    ensures states[n].status == Finished <==> EndsRunning(states, steps, n)
  {
    if n > 0 {
      hide Inv, Enabled, Apply, Measure, Sound, EndsRunning;
      SoundStep(c, states[n - 1], steps[n - 1]);
      EndsNext(states, steps, n - 1);
      FinishedWhen(c, states, steps, n - 1);
      RunInv(c, states, steps, n - 1);
      FinishedEnded(c, states[n - 1]);
      StatusStep(c, states[n - 1], steps[n - 1]);
    }
  }

  /** A run with one job, paused while its result is stored and resumed when its tasks have ended. */
  const LATE_PAUSE: seq<Step> :=
    [Put, Put, Get(0), Begin(0), Complete(0), Pause, Store(0), Wake(0), Get(0), FinishAll, Resume]

  function LateState(k: nat): State {
    var c := Config(1, 1);
    var s := Start(c);
    if k == 0 then s
    else if k == 1 then s.(next := 1, queue := [JobItem(0)])
    else if k == 2 then s.(next := 1, sent := 1, queue := [JobItem(0), Sentinel])
    else
      var after := s.(next := 1, sent := 1, queue := [Sentinel], taken := 1);
      if k == 3 then after.(workers := [Holding(0, true)])
      else if k == 4 then after.(workers := [Sending(0)], started := [0])
      else
        var done := after.(started := [0], finished := [0], completed := 1, workers := [Storing(0)]);
        if k == 5 then done
        else
          var paused := done.(gate := false, status := Paused);
          if k == 6 then paused
          else if k == 7 then paused.(workers := [Resting])
          else if k == 8 then paused.(workers := [Idle])
          else
            var returned := paused.(workers := [Returned], queue := [], eaten := 1);
            if k == 9 then returned
            else if k == 10 then returned.(ended := true)
            else returned.(ended := true, gate := true, status := Running)
  }

  lemma LateBefore(k: nat)
    requires k < 5
    ensures Enabled(Config(1, 1), LateState(k), LATE_PAUSE[k])
    ensures LateState(k + 1) == Apply(Config(1, 1), LateState(k), LATE_PAUSE[k])
  {
    assert seq(1, _ => Idle) == [Idle];
  }

  lemma LateAfter(k: nat)
    requires 5 <= k < 11
    ensures Enabled(Config(1, 1), LateState(k), LATE_PAUSE[k])
    ensures LateState(k + 1) == Apply(Config(1, 1), LateState(k), LATE_PAUSE[k])
  {}

  /** Such a run is reached: every job is completed and the run has ended, yet its status is running,
      and it can take no more steps of its own. */
  lemma NeverShownFinished() returns (states: seq<State>)
    ensures IsRun(Config(1, 1), states, LATE_PAUSE)
    ensures states[11].ended && states[11].completed == 1 && states[11].status == Running
    ensures forall step :: Own(step) ==> !Enabled(Config(1, 1), states[11], step)
  {
    states := seq(12, k requires 0 <= k => LateState(k));
    forall k | 0 <= k < 11
      ensures Enabled(Config(1, 1), states[k], LATE_PAUSE[k])
      ensures states[k + 1] == Apply(Config(1, 1), states[k], LATE_PAUSE[k])
    {
      if k < 5 { LateBefore(k); } else { LateAfter(k); }
      hide Enabled, Apply, LateState;
    }
    hide Apply;
  }

  /** Nobody pauses, stops or breaks the run. */
  predicate Undisturbed(steps: seq<Step>) { forall i :: 0 <= i < |steps| ==> Own(steps[i]) }

  predicate Healthy(s: State) { Sound(s) && (s.status == if s.ended then Finished else Running) }

  lemma OwnHealthy(c: Config, s: State, step: Step)
    requires Healthy(s) && Enabled(c, s, step) && Own(step)
    ensures Healthy(Apply(c, s, step))
  {}

  lemma {:induction false} UndisturbedPrefix(c: Config, states: seq<State>, steps: seq<Step>, n: nat)
    requires IsRun(c, states, steps) && Undisturbed(steps) && n < |states|
    ensures Healthy(states[n]) && OwnSteps(steps, n) == n
  {
    hide Enabled, Apply;
    if n > 0 {
      UndisturbedPrefix(c, states, steps, n - 1);
      assert Own(steps[n - 1]);
      hide Undisturbed, Healthy, Own;
      OwnHealthy(c, states[n - 1], steps[n - 1]);
    }
  }

  /** Left alone, an attack takes a bounded number of steps, and where it can go no further it has
      finished with every job completed. */
  lemma UndisturbedFinishes(c: Config, states: seq<State>, steps: seq<Step>)
    requires IsRun(c, states, steps) && Undisturbed(steps)
    ensures |steps| <= 6 * c.jobs + 2 * Workers(c) + 1
    ensures (forall step :: Own(step) ==> !Enabled(c, states[|steps|], step))
        ==> states[|steps|].status == Finished && states[|steps|].completed == c.jobs
  {
    UndisturbedPrefix(c, states, steps, |steps|);
    SoundEnds(c, states, steps, |steps|);
    hide Enabled, Apply, IsRun, Undisturbed;
  }

  // ------------------------------------------------------- jobs and the total shown

  /** The total an attack announces: the count, up to the requests allowed. */
  function Announced(attack: AttackType, n: nat, sets: seq<PayloadList>, maxRequests: int): int {
    if JobCount(attack, n, sets) < maxRequests then JobCount(attack, n, sets) else maxRequests
  }

  /** It is neither more than is counted nor more than is allowed, and one of the two. */
  lemma AnnouncedMeans(attack: AttackType, n: nat, sets: seq<PayloadList>, maxRequests: int)
    ensures var total := Announced(attack, n, sets, maxRequests);
      total <= maxRequests && total <= JobCount(attack, n, sets)
      && (total == maxRequests || total == JobCount(attack, n, sets))
  {
    hide JobCount;
  }

  /** The run of an attack whose generator is limited to the announced total. */
  function AttackConfig(attack: AttackType, n: nat, sets: seq<PayloadList>, maxRequests: int,
                        concurrency: int): Config {
    Config(Clamp(Announced(attack, n, sets, maxRequests), JobTotal(attack, n, sets)), concurrency)
  }

  /** A finished attack has completed the total it announced exactly when that is no negative number
      and there are that many jobs, and so whenever the count is right and requests are allowed. */
  lemma FinishedTotal(attack: AttackType, n: nat, sets: seq<PayloadList>, maxRequests: int,
                      concurrency: int, states: seq<State>, steps: seq<Step>, k: nat)
    requires IsRun(AttackConfig(attack, n, sets, maxRequests, concurrency), states, steps)
    requires k < |states| && states[k].status == Finished
    ensures states[k].completed == Announced(attack, n, sets, maxRequests)
       <==> 0 <= Announced(attack, n, sets, maxRequests) <= JobTotal(attack, n, sets)
    ensures CountHolds(attack, n, sets) && maxRequests >= 0 ==>
      states[k].completed == Announced(attack, n, sets, maxRequests)
  {
    FinishedComplete(AttackConfig(attack, n, sets, maxRequests, concurrency), states, steps, k);
    CountExact(attack, n, sets);
    hide IsRun, JobTotal, JobCount, CountHolds;
  }

  /** A negative limit is announced as the total, and no job is ever completed. */
  lemma NegativeLimit(attack: AttackType, n: nat, sets: seq<PayloadList>, maxRequests: int,
                      concurrency: int, states: seq<State>, steps: seq<Step>, k: nat)
    requires IsRun(AttackConfig(attack, n, sets, maxRequests, concurrency), states, steps)
    requires k < |states| && maxRequests < 0
    ensures Announced(attack, n, sets, maxRequests) == maxRequests && states[k].completed == 0
  {
    AtMostOnce(AttackConfig(attack, n, sets, maxRequests, concurrency), states, steps, k, 0);
    hide IsRun, JobTotal, JobCount;
  }
}
