/** Cartesian products in the order of their mixed-radix numbers. */
module MixedRadix {
  import opened Arith

  function Size<T>(sets: seq<seq<T>>): nat {
    if sets == [] then 1 else |sets[0]| * Size(sets[1..])
  }

  function Prefixed<T>(x: T, rows: seq<seq<T>>): (r: seq<seq<T>>)
    ensures |r| == |rows| && forall i :: 0 <= i < |rows| ==> r[i] == [x] + rows[i]
  {
    seq(|rows|, i requires 0 <= i < |rows| => [x] + rows[i])
  }

  function Rows<T>(xs: seq<T>, rows: seq<seq<T>>): seq<seq<T>> {
    if xs == [] then [] else Prefixed(xs[0], rows) + Rows(xs[1..], rows)
  }

  /** `itertools.product(*sets)`: the last set varies fastest. */
  function Product<T>(sets: seq<seq<T>>): seq<seq<T>> {
    if sets == [] then [[]] else Rows(sets[0], Product(sets[1..]))
  }

  /** The combination whose mixed-radix number is `i`. */
  function Combo<T>(sets: seq<seq<T>>, i: nat): (r: seq<T>)
    requires i < Size(sets)
    ensures |r| == |sets|
  {
    if sets == [] then []
    else
      var w := Size(sets[1..]);
      Radix(|sets[0]|, w, i);
      [sets[0][i / w]] + Combo(sets[1..], i % w)
  }

  lemma {:induction false} RowsAt<T>(xs: seq<T>, rows: seq<seq<T>>, i: nat)
    requires i < |xs| * |rows|
    ensures |Rows(xs, rows)| == |xs| * |rows|
    ensures |rows| > 0 && i / |rows| < |xs| && Rows(xs, rows)[i] == [xs[i / |rows|]] + rows[i % |rows|]
    decreases |xs|
  {
    hide Rows, Size, Product;
    var w := |rows|;
    Radix(|xs|, w, i);
    Distribute(1, |xs| - 1, w);
    RowsLength(xs, rows);
    RowsStep(xs, rows, i);
    if i < w { DivModOf(0, w, i); }
    else {
      RowsAt(xs[1..], rows, i - w);
      NextRow(i, w);
    }
  }

  lemma RowsStep<T>(xs: seq<T>, rows: seq<seq<T>>, i: nat)
    requires xs != [] && i < |Rows(xs, rows)|
    ensures |Rows(xs, rows)| == |rows| + |Rows(xs[1..], rows)|
    ensures Rows(xs, rows)[i] == if i < |rows| then [xs[0]] + rows[i] else Rows(xs[1..], rows)[i - |rows|]
  {
    hide *;
    FirstRows(xs, rows);
    ConcatAt(Prefixed(xs[0], rows), Rows(xs[1..], rows), i);
  }

  lemma FirstRows<T>(xs: seq<T>, rows: seq<seq<T>>)
    requires xs != []
    ensures Rows(xs, rows) == Prefixed(xs[0], rows) + Rows(xs[1..], rows)
  {
    hide Prefixed;
  }

  lemma ConcatAt<T>(a: seq<T>, b: seq<T>, i: nat)
    requires i < |a + b|
    ensures (a + b)[i] == if i < |a| then a[i] else b[i - |a|]
  {}

  lemma NextRow(i: nat, w: nat)
    requires 0 < w <= i
    ensures i / w == (i - w) / w + 1 && i % w == (i - w) % w
  {
    var q, r := (i - w) / w, (i - w) % w;
    assert i - w == q * w + r && r < w;
    Distribute(q, 1, w);
    DivModOf(q + 1, w, r);
  }

  lemma {:induction false} RowsLength<T>(xs: seq<T>, rows: seq<seq<T>>)
    ensures |Rows(xs, rows)| == |xs| * |rows|
  {
    if xs != [] { RowsLength(xs[1..], rows); Distribute(1, |xs| - 1, |rows|); }
  }

  /** The product lists the combinations in the order of their mixed-radix numbers. */
  lemma {:induction false} ProductAt<T>(sets: seq<seq<T>>)
    ensures |Product(sets)| == Size(sets)
    ensures forall i :: 0 <= i < Size(sets) ==> Product(sets)[i] == Combo(sets, i)
  {
    if sets != [] {
      var rows := Product(sets[1..]);
      ProductAt(sets[1..]);
      RowsLength(sets[0], rows);
      forall i | 0 <= i < Size(sets) ensures Product(sets)[i] == Combo(sets, i) { RowsAt(sets[0], rows, i); }
    }
  }

  /** Explicitly, position k of combination i is digit k of i in the mixed radix of the sizes. */
  lemma {:induction false} ComboDigit<T>(sets: seq<seq<T>>, i: nat, k: nat)
    requires i < Size(sets) && k < |sets|
    ensures var w := Size(sets[k + 1..]);
      w > 0 && |sets[k]| > 0 && Combo(sets, i)[k] == sets[k][(i / w) % |sets[k]|]
  {
    var w := Size(sets[1..]);
    Radix(|sets[0]|, w, i);
    if k == 0 { DivModOf(0, |sets[0]|, i / w); }
    else {
      ComboDigit(sets[1..], i % w, k - 1);
      var u, m := Size(sets[k + 1..]), |sets[k]|;
      assert sets[1..][k - 1 + 1..] == sets[k + 1..];
      SizeSplit(sets[1..], k - 1);
      DigitOfRest(i, Size(sets[1..][..k - 1]), m, u);
    }
  }

  lemma {:induction false} SizeSplit<T>(sets: seq<seq<T>>, k: nat)
    requires k < |sets|
    ensures Size(sets) == Size(sets[..k]) * (|sets[k]| * Size(sets[k + 1..]))
  {
    if k > 0 {
      SizeSplit(sets[1..], k - 1);
      assert sets[..k][1..] == sets[1..][..k - 1] && sets[1..][k..] == sets[k + 1..];
      MulAssoc(|sets[0]|, Size(sets[1..][..k - 1]), |sets[k]| * Size(sets[k + 1..]));
    } else { assert sets[..0] == []; }
  }

  predicate NoDuplicates<T(==)>(s: seq<T>) { forall i, j :: 0 <= i < j < |s| ==> s[i] != s[j] }

  lemma SameHead<T>(x: T, a: seq<T>, y: T, b: seq<T>)
    requires [x] + a == [y] + b
    ensures x == y && a == b
  {
    assert ([x] + a)[0] == ([y] + b)[0] && ([x] + a)[1..] == ([y] + b)[1..];
  }

  /** Sets without duplicates: different numbers, different combinations. */
  lemma {:induction false} ComboInjective<T>(sets: seq<seq<T>>, i: nat, j: nat)
    requires i < Size(sets) && j < Size(sets) && Combo(sets, i) == Combo(sets, j)
    requires forall k :: 0 <= k < |sets| ==> NoDuplicates(sets[k])
    ensures i == j
  {
    if sets != [] {
      var w := Size(sets[1..]);
      Radix(|sets[0]|, w, i); Radix(|sets[0]|, w, j);
      var a, b := i / w, j / w;
      SameHead(sets[0][a], Combo(sets[1..], i % w), sets[0][b], Combo(sets[1..], j % w));
      assert NoDuplicates(sets[0]);
      ComboInjective(sets[1..], i % w, j % w);
      DivModEqual(i, j, w);
    }
  }

  /** The digits of a number in the mixed radix of the sizes. */
  function Digits<T>(sets: seq<seq<T>>, i: nat): (r: seq<nat>)
    requires i < Size(sets)
    ensures |r| == |sets|
  {
    if sets == [] then []
    else
      var w := Size(sets[1..]);
      Radix(|sets[0]|, w, i);
      [i / w] + Digits(sets[1..], i % w)
  }

  lemma {:induction false} ComboOfDigits<T>(sets: seq<seq<T>>, i: nat, k: nat)
    requires i < Size(sets) && k < |sets|
    ensures Digits(sets, i)[k] < |sets[k]| && Combo(sets, i)[k] == sets[k][Digits(sets, i)[k]]
  {
    var w := Size(sets[1..]);
    Radix(|sets[0]|, w, i);
    if k > 0 { ComboOfDigits(sets[1..], i % w, k - 1); }
  }

  /** `a` comes before `b` in lexicographic order. */
  ghost predicate LexLess(a: seq<nat>, b: seq<nat>) {
    exists k :: 0 <= k < |a| && k < |b| && a[k] < b[k] && a[..k] == b[..k]
  }

  lemma LexCons(x: nat, y: nat, a: seq<nat>, b: seq<nat>)
    requires x < y || (x == y && LexLess(a, b))
    ensures LexLess([x] + a, [y] + b)
  {
    if x < y { assert ([x] + a)[..0] == ([y] + b)[..0]; }
    else {
      var k :| 0 <= k < |a| && k < |b| && a[k] < b[k] && a[..k] == b[..k];
      assert ([x] + a)[..k + 1] == [x] + a[..k] && ([y] + b)[..k + 1] == [y] + b[..k];
      assert ([x] + a)[k + 1] < ([y] + b)[k + 1];
    }
  }

  /** Combinations are listed in lexicographic order of their digits. */
  lemma {:induction false} DigitsOrdered<T>(sets: seq<seq<T>>, i: nat, j: nat)
    requires i < j < Size(sets)
    ensures LexLess(Digits(sets, i), Digits(sets, j))
  {
    var w := Size(sets[1..]);
    Radix(|sets[0]|, w, i); Radix(|sets[0]|, w, j);
    DivModOrder(i, j, w);
    if i / w == j / w { DigitsOrdered(sets[1..], i % w, j % w); }
    LexCons(i / w, j / w, Digits(sets[1..], i % w), Digits(sets[1..], j % w));
  }
}
