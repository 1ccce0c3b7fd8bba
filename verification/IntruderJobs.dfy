/** The jobs of an attack: the four enumeration orders, their count, and what tells two
    cluster-bomb jobs apart. */
module IntruderJobs {
  import opened Arith
  import opened Bytes
  import opened MixedRadix
  import opened IntruderTemplate

  const MAX_REQUESTS: nat := 250_000

  /** A payload, already encoded as bytes. */
  type Payload = seq<byte>
  type PayloadList = seq<Payload>

  datatype AttackType = Sniper | BatteringRam | Pitchfork | ClusterBomb

  datatype Job = Job(index: nat, values: seq<bytes>, display: seq<Payload>, position: Option<nat>)

  function Enc(v: Payload, urlEncode: bool): bytes { if urlEncode then UrlEncode(v) else v }

  function EncAll(vs: seq<Payload>, urlEncode: bool): (r: seq<bytes>)
    ensures |r| == |vs| && forall k :: 0 <= k < |vs| ==> r[k] == Enc(vs[k], urlEncode)
  {
    seq(|vs|, k requires 0 <= k < |vs| => Enc(vs[k], urlEncode))
  }

  function FirstSet(sets: seq<PayloadList>): PayloadList { if sets == [] then [] else sets[0] }

  /** The sets pitchfork and cluster bomb use, one for each position; none when there are too few. */
  function Usable(n: nat, sets: seq<PayloadList>): seq<PayloadList> {
    if n == 0 || |sets| < n then [] else sets[..n]
  }

  function MinLength(sets: seq<PayloadList>): nat {
    if sets == [] then 0 else if |sets| == 1 then |sets[0]|
    else var m := MinLength(sets[1..]); if |sets[0]| <= m then |sets[0]| else m
  }

  lemma {:induction false} MinLengthBound(sets: seq<PayloadList>, k: nat)
    requires k < |sets|
    ensures MinLength(sets) <= |sets[k]|
  {
    if k > 0 { MinLengthBound(sets[1..], k - 1); }
  }

  // ------------------------------------------------------ what is to be enumerated

  /** How many jobs there are without a limit. */
  function JobTotal(attack: AttackType, n: nat, sets: seq<PayloadList>): nat {
    match attack
    case Sniper => n * |FirstSet(sets)|
    case BatteringRam => |FirstSet(sets)|
    case Pitchfork => MinLength(Usable(n, sets))
    case ClusterBomb => if Usable(n, sets) == [] then 0 else Size(Usable(n, sets))
  }

  /** The i-th payload of every set. */
  function Column(sets: seq<PayloadList>, i: nat): (r: seq<Payload>)
    requires forall k :: 0 <= k < |sets| ==> i < |sets[k]|
    ensures |r| == |sets| && forall k :: 0 <= k < |sets| ==> r[k] == sets[k][i]
  {
    seq(|sets|, k requires 0 <= k < |sets| => sets[k][i])
  }

  function ComboJob(i: nat, combo: seq<Payload>, urlEncode: bool): Job {
    Job(i, EncAll(combo, urlEncode), combo, None)
  }

  /** The i-th job, in closed form. */
  function JobAt(attack: AttackType, bases: seq<bytes>, sets: seq<PayloadList>, urlEncode: bool, i: nat): (j: Job)
    requires i < JobTotal(attack, |bases|, sets)
    ensures j.index == i && |j.values| == |bases|
  {
    var usable := Usable(|bases|, sets);
    match attack
    case Sniper =>
      var payloads := FirstSet(sets);
      Radix(|bases|, |payloads|, i);
      var v := payloads[i % |payloads|];
      Job(i, bases[i / |payloads| := Enc(v, urlEncode)], [v], Some(i / |payloads|))
    case BatteringRam =>
      var v := FirstSet(sets)[i];
      Job(i, seq(|bases|, _ => Enc(v, urlEncode)), [v], None)
    case Pitchfork =>
      assert forall k :: 0 <= k < |usable| ==> i < |usable[k]| by {
        forall k | 0 <= k < |usable| ensures i < |usable[k]| { MinLengthBound(usable, k); }
      }
      ComboJob(i, Column(usable, i), urlEncode)
    case ClusterBomb => ComboJob(i, Combo(usable, i), urlEncode)
  }

  function Clamp(limit: int, total: nat): nat { if limit < 0 then 0 else if limit < total then limit else total }

  /** The jobs listed are the first ones in closed form. */
  ghost predicate Lists(jobs: seq<Job>, attack: AttackType, bases: seq<bytes>, sets: seq<PayloadList>,
                        urlEncode: bool) {
    && |jobs| <= JobTotal(attack, |bases|, sets)
    && forall i :: 0 <= i < |jobs| ==> jobs[i] == JobAt(attack, bases, sets, urlEncode, i)
  }

  method SniperJobs(bases: seq<bytes>, sets: seq<PayloadList>, urlEncode: bool, limit: int) returns (jobs: seq<Job>)
    ensures |jobs| == Clamp(limit, JobTotal(Sniper, |bases|, sets))
    ensures Lists(jobs, Sniper, bases, sets, urlEncode)
  {
    jobs := [];
    var index, payloads := 0, FirstSet(sets);
    for pos := 0 to |bases|
      invariant index == |jobs| == pos * |payloads| && (index <= limit || index == 0)
      invariant Lists(jobs, Sniper, bases, sets, urlEncode)
    {
      for j := 0 to |payloads|
        invariant index == |jobs| == pos * |payloads| + j && (index <= limit || index == 0)
        invariant Lists(jobs, Sniper, bases, sets, urlEncode)
      {
        MulStep(pos, |bases|, |payloads|);
        if index >= limit { return; }
        DivModOf(pos, |payloads|, j);
        hide UrlEncode;
        jobs := jobs + [Job(index, bases[pos := Enc(payloads[j], urlEncode)], [payloads[j]], Some(pos))];
        index := index + 1;
      }
      Distribute(pos, 1, |payloads|);
    }
  }

  method RamJobs(bases: seq<bytes>, sets: seq<PayloadList>, urlEncode: bool, limit: int) returns (jobs: seq<Job>)
    ensures |jobs| == Clamp(limit, JobTotal(BatteringRam, |bases|, sets))
    ensures Lists(jobs, BatteringRam, bases, sets, urlEncode)
  {
    jobs := [];
    var payloads := FirstSet(sets);
    for index := 0 to |payloads|
      invariant index == |jobs| && (index <= limit || index == 0)
      invariant Lists(jobs, BatteringRam, bases, sets, urlEncode)
    {
      if index >= limit { return; }
      var encoded := Enc(payloads[index], urlEncode);
      jobs := jobs + [Job(index, seq(|bases|, _ => encoded), [payloads[index]], None)];
    }
  }

  /** `zip(*usable)`. */
  function Zip(usable: seq<PayloadList>): (r: seq<seq<Payload>>)
    ensures |r| == MinLength(usable)
    ensures forall i, k :: 0 <= i < |r| && 0 <= k < |usable| ==>
        |r[i]| == |usable| && i < |usable[k]| && r[i][k] == usable[k][i]
  {
    assert forall k :: 0 <= k < |usable| ==> MinLength(usable) <= |usable[k]| by {
      forall k | 0 <= k < |usable| ensures MinLength(usable) <= |usable[k]| { MinLengthBound(usable, k); }
    }
    seq(MinLength(usable), i requires 0 <= i < MinLength(usable) => Column(usable, i))
  }

  lemma NoJobs(attack: AttackType, bases: seq<bytes>, sets: seq<PayloadList>, urlEncode: bool)
    ensures Lists([], attack, bases, sets, urlEncode)
  {}

  lemma ListsNext(jobs: seq<Job>, attack: AttackType, bases: seq<bytes>, sets: seq<PayloadList>, urlEncode: bool)
    requires Lists(jobs, attack, bases, sets, urlEncode) && |jobs| < JobTotal(attack, |bases|, sets)
    ensures Lists(jobs + [JobAt(attack, bases, sets, urlEncode, |jobs|)], attack, bases, sets, urlEncode)
  {
    hide JobAt, JobTotal;
  }

  lemma ZipTotal(bases: seq<bytes>, sets: seq<PayloadList>, usable: seq<PayloadList>)
    requires usable == Usable(|bases|, sets)
    ensures |Zip(usable)| == JobTotal(Pitchfork, |bases|, sets)
  {}

  lemma ZipJobAt(bases: seq<bytes>, sets: seq<PayloadList>, usable: seq<PayloadList>, urlEncode: bool, i: nat)
    requires usable == Usable(|bases|, sets) && i < |Zip(usable)|
    ensures i < JobTotal(Pitchfork, |bases|, sets)
    ensures JobAt(Pitchfork, bases, sets, urlEncode, i) == ComboJob(i, Zip(usable)[i], urlEncode)
  {
    hide UrlEncode, MinLength;
    forall k | 0 <= k < |usable| ensures i < |usable[k]| { MinLengthBound(usable, k); }
    assert Zip(usable)[i] == Column(usable, i);
  }

  method PitchforkJobs(bases: seq<bytes>, sets: seq<PayloadList>, urlEncode: bool, limit: int) returns (jobs: seq<Job>)
    ensures |jobs| == Clamp(limit, JobTotal(Pitchfork, |bases|, sets))
    ensures Lists(jobs, Pitchfork, bases, sets, urlEncode)
  {
    jobs := [];
    var usable := if |bases| <= |sets| then sets[..|bases|] else sets;
    if |usable| < |bases| || usable == [] { return; }
    hide Zip, Lists, JobAt, JobTotal, ComboJob;
    var combos := Zip(usable);
    ZipTotal(bases, sets, usable);
    assert Lists(jobs, Pitchfork, bases, sets, urlEncode) by { NoJobs(Pitchfork, bases, sets, urlEncode); }
    for index := 0 to |combos|
      invariant index == |jobs| && (index <= limit || index == 0)
      invariant Lists(jobs, Pitchfork, bases, sets, urlEncode)
    {
      if index >= limit { return; }
      ZipJobAt(bases, sets, usable, urlEncode, index);
      ListsNext(jobs, Pitchfork, bases, sets, urlEncode);
      jobs := jobs + [ComboJob(index, combos[index], urlEncode)];
    }
  }

  lemma ClusterTotal(bases: seq<bytes>, sets: seq<PayloadList>, usable: seq<PayloadList>)
    requires usable == Usable(|bases|, sets) != []
    ensures |Product(usable)| == JobTotal(ClusterBomb, |bases|, sets)
  {
    ProductAt(usable);
    hide Product, Size;
  }

  lemma ClusterJobAt(bases: seq<bytes>, sets: seq<PayloadList>, usable: seq<PayloadList>, urlEncode: bool, i: nat)
    requires usable == Usable(|bases|, sets) != [] && i < |Product(usable)|
    ensures i < JobTotal(ClusterBomb, |bases|, sets)
    ensures JobAt(ClusterBomb, bases, sets, urlEncode, i) == ComboJob(i, Product(usable)[i], urlEncode)
  {
    ProductAt(usable);
    hide Product, Size, Combo, UrlEncode;
  }

  method ClusterJobs(bases: seq<bytes>, sets: seq<PayloadList>, urlEncode: bool, limit: int) returns (jobs: seq<Job>)
    ensures |jobs| == Clamp(limit, JobTotal(ClusterBomb, |bases|, sets))
    ensures Lists(jobs, ClusterBomb, bases, sets, urlEncode)
  {
    jobs := [];
    var usable := if |bases| <= |sets| then sets[..|bases|] else sets;
    if |usable| < |bases| || usable == [] { return; }
    hide Product, Lists, JobAt, JobTotal, ComboJob;
    var combos := Product(usable);
    ClusterTotal(bases, sets, usable);
    assert Lists(jobs, ClusterBomb, bases, sets, urlEncode) by { NoJobs(ClusterBomb, bases, sets, urlEncode); }
    for index := 0 to |combos|
      invariant index == |jobs| && (index <= limit || index == 0)
      invariant Lists(jobs, ClusterBomb, bases, sets, urlEncode)
    {
      if index >= limit { return; }
      ClusterJobAt(bases, sets, usable, urlEncode, index);
      ListsNext(jobs, ClusterBomb, bases, sets, urlEncode);
      jobs := jobs + [ComboJob(index, combos[index], urlEncode)];
    }
  }

  /** Exactly the first jobs, up to the limit, numbered from zero. */
  method GenerateJobs(attack: AttackType, bases: seq<bytes>, sets: seq<PayloadList>, urlEncode: bool, limit: int)
    returns (jobs: seq<Job>)
    ensures |jobs| == Clamp(limit, JobTotal(attack, |bases|, sets))
    ensures Lists(jobs, attack, bases, sets, urlEncode)
  {
    match attack {
      case Sniper => jobs := SniperJobs(bases, sets, urlEncode, limit);
      case BatteringRam => jobs := RamJobs(bases, sets, urlEncode, limit);
      case Pitchfork => jobs := PitchforkJobs(bases, sets, urlEncode, limit);
      case ClusterBomb => jobs := ClusterJobs(bases, sets, urlEncode, limit);
    }
  }

  // -------------------------------------------------------------------- counting

  /** The running product, cut off as soon as it passes the cap. */
  function CappedSize(sets: seq<PayloadList>, total: nat): nat
    decreases sets
  {
    if sets == [] then total
    else if total * |sets[0]| > MAX_REQUESTS then MAX_REQUESTS
    else CappedSize(sets[1..], total * |sets[0]|)
  }

  function JobCount(attack: AttackType, n: nat, sets: seq<PayloadList>): nat {
    if n == 0 then 0
    else match attack
      case Sniper => n * |FirstSet(sets)|
      case BatteringRam => |FirstSet(sets)|
      case Pitchfork => MinLength(Usable(n, sets))
      case ClusterBomb => if Usable(n, sets) == [] then 0 else CappedSize(Usable(n, sets), 1)
  }

  method CountJobs(attack: AttackType, positions: nat, sets: seq<PayloadList>) returns (count: nat)
    ensures count == JobCount(attack, positions, sets)
  {
    if positions == 0 { return 0; }
    if attack == Sniper { return positions * if sets == [] then 0 else |sets[0]|; }
    if attack == BatteringRam { return if sets == [] then 0 else |sets[0]|; }
    var usable := if positions <= |sets| then sets[..positions] else sets;
    if |usable| < positions || usable == [] { return 0; }
    assert usable == Usable(positions, sets);
    if attack == Pitchfork { return MinLength(usable); }
    count := 1;
    for k := 0 to |usable|
      invariant CappedSize(usable, 1) == CappedSize(usable[k..], count)
    {
      assert usable[k..][1..] == usable[k + 1..];
      count := count * |usable[k]|;
      if count > MAX_REQUESTS { return MAX_REQUESTS; }
    }
  }

  /** Sizes of the sets before the first empty one. */
  function LeadingSize(sets: seq<PayloadList>): nat {
    if sets == [] || sets[0] == [] then 1 else |sets[0]| * LeadingSize(sets[1..])
  }

  predicate SomeEmpty(sets: seq<PayloadList>) { exists k :: 0 <= k < |sets| && sets[k] == [] }

  /** When the count can be relied on; a caller can check this on the sets. */
  predicate CountHolds(attack: AttackType, n: nat, sets: seq<PayloadList>) {
    match attack
    case BatteringRam => n > 0 || FirstSet(sets) == []
    case ClusterBomb => SomeEmpty(Usable(n, sets)) ==> LeadingSize(Usable(n, sets)) <= MAX_REQUESTS
    case _ => true
  }

  function Min(a: nat, b: nat): nat { if a <= b then a else b }

  lemma MulBig(a: nat, b: nat)
    ensures b > 0 ==> a <= a * b
    ensures b == 0 ==> a * b == 0
  {
    if b > 0 { assert a * b == a + a * (b - 1) && a * (b - 1) >= 0; }
  }

  lemma SomeEmptyTail(sets: seq<PayloadList>)
    requires sets != []
    ensures SomeEmpty(sets) == (sets[0] == [] || SomeEmpty(sets[1..]))
  {
    if SomeEmpty(sets) {
      var k :| 0 <= k < |sets| && sets[k] == [];
      if k > 0 { assert sets[1..][k - 1] == []; }
    }
    if SomeEmpty(sets[1..]) {
      var k :| 0 <= k < |sets| - 1 && sets[1..][k] == [];
      assert sets[k + 1] == [];
    }
  }

  lemma {:induction false} SizeEmpty(sets: seq<PayloadList>)
    ensures Size(sets) == if SomeEmpty(sets) then 0 else LeadingSize(sets)
    ensures LeadingSize(sets) > 0
  {
    if sets != [] {
      SizeEmpty(sets[1..]);
      SomeEmptyTail(sets);
      MulBig(LeadingSize(sets[1..]), |sets[0]|);
      MulBig(|sets[0]|, Size(sets[1..]));
    }
  }

  /** The loop's result: the cap as soon as the leading sizes pass it, the product otherwise. */
  lemma {:induction false} CappedSizeIs(sets: seq<PayloadList>, total: nat)
    requires 0 < total <= MAX_REQUESTS
    ensures CappedSize(sets, total)
         == if total * LeadingSize(sets) > MAX_REQUESTS then MAX_REQUESTS else total * Size(sets)
    decreases sets
  {
    if sets != [] {
      var t := total * |sets[0]|;
      SizeEmpty(sets[1..]);
      if sets[0] == [] { CappedZero(sets[1..]); }
      else {
        MulAssoc(total, |sets[0]|, LeadingSize(sets[1..]));
        MulAssoc(total, |sets[0]|, Size(sets[1..]));
        MulBig(t, LeadingSize(sets[1..]));
        MulBig(total, |sets[0]|);
        if t <= MAX_REQUESTS { CappedSizeIs(sets[1..], t); }
      }
    }
  }

  lemma {:induction false} CappedZero(sets: seq<PayloadList>)
    ensures CappedSize(sets, 0) == 0
  {
    if sets != [] { CappedZero(sets[1..]); }
  }

  /** The count is the number of jobs, cut at the cap for cluster bomb, exactly under CountHolds. */
  lemma CountExact(attack: AttackType, n: nat, sets: seq<PayloadList>)
    ensures var total := JobTotal(attack, n, sets);
      JobCount(attack, n, sets) == (if attack == ClusterBomb then Min(total, MAX_REQUESTS) else total)
      <==> CountHolds(attack, n, sets)
  {
    if attack == ClusterBomb {
      var usable := Usable(n, sets);
      CappedSizeIs(usable, 1);
      SizeEmpty(usable);
    }
  }

  /** Where it fails: the battering ram without positions, and a large set before an empty one. */
  lemma CountFails(sets: seq<PayloadList>)
    requires |sets| == 2 && |sets[0]| == MAX_REQUESTS + 1 && sets[1] == []
    ensures JobCount(BatteringRam, 0, sets) == 0 < JobTotal(BatteringRam, 0, sets)
    ensures JobCount(ClusterBomb, 2, sets) == MAX_REQUESTS && JobTotal(ClusterBomb, 2, sets) == 0
  {
    assert Usable(2, sets) == sets;
    SizeEmpty(sets);
    assert SomeEmpty(sets);
    CappedSizeIs(sets, 1);
    assert LeadingSize(sets[1..]) == 1;
  }

  // ------------------------------------------------- totals and jobs, set by set

  lemma {:induction false} MinLengthReached(sets: seq<PayloadList>)
    requires sets != []
    ensures exists k :: 0 <= k < |sets| && |sets[k]| == MinLength(sets)
  {
    if |sets| == 1 { assert |sets[0]| == MinLength(sets); }
    else {
      MinLengthReached(sets[1..]);
      var k :| 0 <= k < |sets[1..]| && |sets[1..][k]| == MinLength(sets[1..]);
      assert sets[k + 1] == sets[1..][k];
      assert |sets[0]| == MinLength(sets) || |sets[k + 1]| == MinLength(sets);
    }
  }

  /** Pitchfork has as many jobs as the shortest of the sets it uses, one for each position, and counts
      as many; with too few sets, or no position, there are none. */
  lemma PitchforkTotal(n: nat, sets: seq<PayloadList>)
    ensures JobCount(Pitchfork, n, sets) == JobTotal(Pitchfork, n, sets)
    ensures n == 0 || |sets| < n ==> JobTotal(Pitchfork, n, sets) == 0
    ensures 0 < n <= |sets| ==>
      && (forall k :: 0 <= k < n ==> JobTotal(Pitchfork, n, sets) <= |sets[k]|)
      && exists k :: 0 <= k < n && JobTotal(Pitchfork, n, sets) == |sets[k]|
  {
    var usable := Usable(n, sets);
    if 0 < n <= |sets| {
      forall k | 0 <= k < n ensures MinLength(usable) <= |sets[k]| { MinLengthBound(usable, k); }
      MinLengthReached(usable);
      var k :| 0 <= k < |usable| && |usable[k]| == MinLength(usable);
      assert sets[k] == usable[k];
    }
  }

  /** What job i of a sniper sends: position by position, payload by payload. */
  lemma SniperMeans(bases: seq<bytes>, sets: seq<PayloadList>, urlEncode: bool, i: nat)
    requires i < JobTotal(Sniper, |bases|, sets)
    ensures sets != [] && sets[0] != [] && i / |sets[0]| < |bases|
    ensures var pos, v := i / |sets[0]|, sets[0][i % |sets[0]|];
      JobAt(Sniper, bases, sets, urlEncode, i)
      == Job(i, bases[..pos] + [Enc(v, urlEncode)] + bases[pos + 1..], [v], Some(pos))
  {
    hide UrlEncode;
    Radix(|bases|, |FirstSet(sets)|, i);
    var pos, v := i / |sets[0]|, sets[0][i % |sets[0]|];
    assert bases[pos := Enc(v, urlEncode)] == bases[..pos] + [Enc(v, urlEncode)] + bases[pos + 1..];
  }

  /** A battering ram puts payload i at every position. */
  lemma RamMeans(bases: seq<bytes>, sets: seq<PayloadList>, urlEncode: bool, i: nat)
    requires i < JobTotal(BatteringRam, |bases|, sets)
    ensures sets != [] && i < |sets[0]|
    ensures var j := JobAt(BatteringRam, bases, sets, urlEncode, i);
      && j.index == i && j.display == [sets[0][i]] && j.position == None && |j.values| == |bases|
      && forall k :: 0 <= k < |bases| ==> j.values[k] == Enc(sets[0][i], urlEncode)
  {
    hide UrlEncode;
  }

  /** A pitchfork puts payload i of each position's own set there. */
  lemma PitchforkMeans(bases: seq<bytes>, sets: seq<PayloadList>, urlEncode: bool, i: nat)
    requires i < JobTotal(Pitchfork, |bases|, sets)
    ensures |bases| <= |sets|
    ensures var j := JobAt(Pitchfork, bases, sets, urlEncode, i);
      && j.index == i && |j.display| == |j.values| == |bases| && j.position == None
      && forall k :: 0 <= k < |bases| ==>
           i < |sets[k]| && j.display[k] == sets[k][i] && j.values[k] == Enc(sets[k][i], urlEncode)
  {
    hide UrlEncode;
    var usable := Usable(|bases|, sets);
    forall k | 0 <= k < |usable| ensures i < |usable[k]| { MinLengthBound(usable, k); }
    hide MinLength;
  }

  /** A cluster bomb puts at each position the payload of its own digit of i, the last position's
      changing fastest. */
  lemma ClusterMeans(bases: seq<bytes>, sets: seq<PayloadList>, urlEncode: bool, i: nat)
    requires i < JobTotal(ClusterBomb, |bases|, sets)
    ensures |bases| <= |sets|
    ensures var j := JobAt(ClusterBomb, bases, sets, urlEncode, i);
      && j.index == i && |j.display| == |j.values| == |bases| && j.position == None
      && forall k :: 0 <= k < |bases| ==>
          IsDigit(sets, |bases|, i, k, j.display[k]) && j.values[k] == Enc(j.display[k], urlEncode)
  {
    hide UrlEncode, Combo, Size, IsDigit;
    var usable := Usable(|bases|, sets);
    var combo := Combo(usable, i);
    assert JobAt(ClusterBomb, bases, sets, urlEncode, i) == ComboJob(i, combo, urlEncode);
    forall k | 0 <= k < |bases| ensures IsDigit(sets, |bases|, i, k, combo[k]) { ClusterDigit(sets, |bases|, i, k); }
  }

  /** Payload number d of set k, where d is the digit of i at weight w, the number of combinations of
      the sets behind it. */
  predicate IsDigit(sets: seq<PayloadList>, n: nat, i: nat, k: nat, v: Payload)
    requires k < n <= |sets|
  {
    var w := Size(sets[k + 1..n]);
    w > 0 && |sets[k]| > 0 && v == sets[k][(i / w) % |sets[k]|]
  }

  lemma ClusterDigit(sets: seq<PayloadList>, n: nat, i: nat, k: nat)
    requires k < n <= |sets| && i < Size(sets[..n])
    ensures IsDigit(sets, n, i, k, Combo(sets[..n], i)[k])
  {
    ComboDigit(sets[..n], i, k);
    assert sets[..n][k + 1..] == sets[k + 1..n];
    hide Combo, Size;
  }

  /** How many jobs the other attacks have. */
  lemma OtherTotals(n: nat, sets: seq<PayloadList>)
    ensures sets == [] ==> JobTotal(Sniper, n, sets) == 0 == JobTotal(BatteringRam, n, sets)
    ensures sets != [] ==> JobTotal(Sniper, n, sets) == n * |sets[0]| && JobTotal(BatteringRam, n, sets) == |sets[0]|
    ensures n == 0 || |sets| < n ==> JobTotal(ClusterBomb, n, sets) == 0
    ensures 0 < n <= |sets| ==> JobTotal(ClusterBomb, n, sets) == Size(sets[..n])
  {
    assert n * 0 == 0;
    hide Size;
  }

  // ---------------------------------------------------------- distinct requests

  lemma EncAllInjective(v: seq<Payload>, w: seq<Payload>)
    requires EncAll(v, true) == EncAll(w, true)
    ensures v == w
  {
    assert |v| == |w|;
    forall k | 0 <= k < |v| ensures v[k] == w[k] {
      assert EncAll(v, true)[k] == EncAll(w, true)[k];
      UrlEncodeInjective(v[k], w[k]);
    }
  }

  /** With URL-encoding, payload sets without duplicates and a byte outside the encoded
      alphabet between each two positions, different cluster-bomb jobs build different bytes. */
  lemma ClusterBombDistinct(literals: seq<bytes>, bases: seq<bytes>, sets: seq<PayloadList>, i: nat, j: nat)
    requires |literals| == |bases| + 1
    requires i < JobTotal(ClusterBomb, |bases|, sets) && j < JobTotal(ClusterBomb, |bases|, sets) && i != j
    requires forall k :: 0 <= k < |Usable(|bases|, sets)| ==> NoDuplicates(Usable(|bases|, sets)[k])
    requires forall k :: 0 < k < |bases| ==> Separates(literals[k])
    ensures Build(literals, JobAt(ClusterBomb, bases, sets, true, i).values)
         != Build(literals, JobAt(ClusterBomb, bases, sets, true, j).values)
  {
    var usable := Usable(|bases|, sets);
    var v, w := EncAll(Combo(usable, i), true), EncAll(Combo(usable, j), true);
    forall k | 0 <= k < |v| ensures AllEncoded(v[k]) && AllEncoded(w[k]) {
      EncodeAlphabet(Combo(usable, i)[k]); EncodeAlphabet(Combo(usable, j)[k]);
    }
    if v == w {
      EncAllInjective(Combo(usable, i), Combo(usable, j));
      ComboInjective(usable, i, j);
    } else if Build(literals, v) == Build(literals, w) { BuildInjective(literals, v, w); }
  }
}
