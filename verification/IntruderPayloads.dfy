/** The values a payload set stands for: lists, number ranges and brute force. */
module IntruderPayloads {
  import opened Arith
  import opened Bytes
  import opened MixedRadix
  import opened Ascii
  import opened IntruderJobs

  datatype PayloadSet =
    | Listed(lines: seq<string>)
    | Numbers(first: int, last: int, step: int)
    | Brute(charset: string, minLength: int, maxLength: int)

  function Abs(n: int): nat { if n < 0 then -n else n }

  function Max(a: int, b: int): int { if a >= b then a else b }

  // ---------------------------------------------------------------- number ranges

  /** Python's `str(n)`. */
  function Shown(n: int): string { if n < 0 then "-" + Decimal(-n) else Decimal(n) }

  function StepOr1(step: int): int { if step == 0 then 1 else step }

  /** The step with its sign turned towards the end of the range. */
  function Turned(first: int, last: int, step: int): int {
    if (last - first) * StepOr1(step) < 0 then -StepOr1(step) else StepOr1(step)
  }

  /** The interface's formula for the number of values of a range. */
  function RangeSize(first: int, last: int, step: int): nat {
    Abs(last - first) / Abs(StepOr1(step)) + 1
  }

  lemma TurnedSign(first: int, last: int, step: int)
    ensures var s := Turned(first, last, step);
      Abs(s) == Abs(StepOr1(step)) > 0 && (first < last ==> s > 0) && (last < first ==> s < 0)
  {
    var a, b := last - first, StepOr1(step);
    if a > 0 { MulSign(a, b); } else if a < 0 { MulSign(-a, b); assert (-a) * b == -(a * b); }
  }

  lemma MulSign(a: int, b: int)
    requires a > 0
    ensures (a * b < 0) == (b < 0)
  {
    MulStep(0, a, Abs(b));
    if b < 0 { assert a * b == -(a * (-b)); }
  }

  /** Where the walk from `first` by `s` passes `last`: after gap / |s| steps. */
  lemma PassesLast(first: int, last: int, s: int, count: nat)
    requires s != 0 && (first < last ==> s > 0) && (last < first ==> s < 0)
    ensures (s > 0 && first + count * s > last) || (s < 0 && first + count * s < last)
       <==> count > Abs(last - first) / Abs(s)
  {
    Exceeds(Abs(last - first), Abs(s), count);
    NegMultiple(count, s);
  }

  method NumberValues(first: int, last: int, step: int) returns (values: seq<string>)
    ensures |values| == Min(MAX_REQUESTS, RangeSize(first, last, step))
    ensures forall i :: 0 <= i < |values| ==> values[i] == Shown(first + i * Turned(first, last, step))
  {
    values := [];
    var s := if step == 0 then 1 else step;
    var current := first;
    if (last - first) * s < 0 { s := -s; }
    TurnedSign(first, last, step);
    var count := 0;
    while count < MAX_REQUESTS
      invariant count == |values| <= MAX_REQUESTS && current == first + count * s
      invariant count <= RangeSize(first, last, step) == Abs(last - first) / Abs(s) + 1
      invariant forall i :: 0 <= i < |values| ==> values[i] == Shown(first + i * s)
    {
      PassesLast(first, last, s, count);
      NextMultiple(count, s);
      hide Decimal, Turned, RangeSize, Abs;
      if s > 0 && current > last { break; }
      if s < 0 && current < last { break; }
      values := values + [Shown(current)];
      current := current + s;
      count := count + 1;
    }
  }

  /** What a range holds: steps of the size given, one for a zero, towards its end; every term is within
      the range and one more step would leave it. */
  lemma RangeMeans(first: int, last: int, step: int, i: nat)
    ensures var s := Turned(first, last, step); var n := RangeSize(first, last, step);
      && (s == step || s == -step || (step == 0 && (s == 1 || s == -1))) && (step != 0 ==> s != 0)
      && n > 0 && (first < last ==> s > 0) && (last < first ==> s < 0)
      && (i < n <==> if s > 0 then first + i * s <= Max(first, last) else first + i * s >= -Max(-first, -last))
  {
    var s := Turned(first, last, step);
    TurnedSign(first, last, step);
    PassesLast(first, last, s, i);
  }

  /** A number is shown as Python reads it. */
  lemma ShownReads(n: int)
    ensures PyInt(Shown(n), 10) == Some(n)
  {
    if n >= 0 { DecimalRoundTrip(n); }
    else {
      var d := Decimal(-n);
      DecimalDigits(-n);
      DecimalRoundTrip(-n);
      assert d[|d| - 1] in d;
      StripTrimmed("-" + d);
      assert ("-" + d)[1..] == d;
      hide Decimal, Strip, DigitsValue;
    }
  }

  // ------------------------------------------------------------------ brute force

  function Copies(chars: string, length: nat): (r: seq<string>)
    ensures |r| == length
  { if length == 0 then [] else [chars] + Copies(chars, length - 1) }

  function Pow(k: nat, n: nat): nat { if n == 0 then 1 else k * Pow(k, n - 1) }

  function SumPow(k: nat, lo: nat, hi: int): nat
    decreases hi - lo + 1
  { if lo > hi then 0 else Pow(k, lo) + SumPow(k, lo + 1, hi) }

  /** All strings over the characters, shorter ones first. */
  function AllStrings(chars: string, lo: nat, hi: int): seq<string>
    decreases hi - lo + 1
  { if lo > hi then [] else Product(Copies(chars, lo)) + AllStrings(chars, lo + 1, hi) }

  lemma {:induction false} CopiesSize(chars: string, length: nat)
    ensures Size(Copies(chars, length)) == Pow(|chars|, length) == |Product(Copies(chars, length))|
  {
    ProductAt(Copies(chars, length));
    if length > 0 {
      CopiesSize(chars, length - 1);
      assert Copies(chars, length)[1..] == Copies(chars, length - 1);
    }
  }

  lemma {:induction false} AllStringsSize(chars: string, lo: nat, hi: int)
    ensures |AllStrings(chars, lo, hi)| == SumPow(|chars|, lo, hi)
    decreases hi - lo + 1
  {
    if lo <= hi {
      CopiesSize(chars, lo);
      AllStringsSize(chars, lo + 1, hi);
    }
  }

  /** Value number j of a length has j's digits in base |chars|, and values of one length are
      listed in lexicographic order of their digits. */
  lemma BruteOrder(chars: string, length: nat, i: nat, j: nat)
    requires i < j < Pow(|chars|, length)
    ensures var sets := Copies(chars, length);
      && i < j < Size(sets) == |Product(sets)|
      && Product(sets)[j] == Combo(sets, j) && LexLess(Digits(sets, i), Digits(sets, j))
  {
    CopiesSize(chars, length);
    ProductAt(Copies(chars, length));
    DigitsOrdered(Copies(chars, length), i, j);
  }

  function Capped(all: seq<string>): seq<string> { if |all| <= MAX_REQUESTS then all else all[..MAX_REQUESTS] }

  function CharsOr(charset: string): string { if charset == "" then "abc" else charset }

  function Lowest(minLength: int): nat { Max(1, minLength) }

  function Highest(minLength: int, maxLength: int): nat { Max(Lowest(minLength), maxLength) }

  /** The first of all the strings, up to the cap. */
  function BruteSent(charset: string, minLength: int, maxLength: int): seq<string> {
    Capped(AllStrings(CharsOr(charset), Lowest(minLength), Highest(minLength, maxLength)))
  }

  method BruteValues(charset: string, minLength: int, maxLength: int) returns (values: seq<string>)
    ensures values == BruteSent(charset, minLength, maxLength)
  {
    var chars := if charset == "" then "abc" else charset;
    var lo := Max(1, minLength);
    var hi := Max(lo, maxLength);
    hide AllStrings, Product, Copies;
    values := [];
    ghost var all := AllStrings(chars, lo, hi);
    for length := lo to hi + 1
      invariant all == values + AllStrings(chars, length, hi)
      invariant |values| < MAX_REQUESTS
    {
      var combos := Product(Copies(chars, length));
      ghost var rest := AllStrings(chars, length + 1, hi);
      NextLength(chars, length, hi);
      Assoc(values, combos, rest);
      assert combos[0..] == combos;
      for c := 0 to |combos|
        invariant all == values + combos[c..] + rest
        invariant |values| < MAX_REQUESTS
      {
        TakeOne(values, combos, c, rest);
        values := values + [combos[c]];
        if |values| >= MAX_REQUESTS {
          PrefixOf(values, combos[c + 1..], rest);
          return;
        }
      }
      NothingLeft(values, combos, rest);
    }
    NoMoreLengths(chars, hi);
    assert values + [] == values;
  }

  lemma NextLength(chars: string, length: nat, hi: int)
    requires length <= hi
    ensures AllStrings(chars, length, hi) == Product(Copies(chars, length)) + AllStrings(chars, length + 1, hi)
  {}

  lemma NoMoreLengths(chars: string, hi: nat)
    ensures AllStrings(chars, hi + 1, hi) == []
  {}

  lemma NothingLeft<T>(done: seq<T>, todo: seq<T>, rest: seq<T>)
    ensures done + todo[|todo|..] + rest == done + rest
  {}

  lemma TakeOne<T>(done: seq<T>, todo: seq<T>, c: nat, rest: seq<T>)
    requires c < |todo|
    ensures done + todo[c..] + rest == (done + [todo[c]]) + todo[c + 1..] + rest
  {
    assert todo[c..] == [todo[c]] + todo[c + 1..];
    Assoc(done, [todo[c]], todo[c + 1..]);
  }

  lemma PrefixOf<T>(a: seq<T>, b: seq<T>, c: seq<T>)
    ensures (a + b + c)[..|a|] == a
  {}

  method BaseValues(p: PayloadSet) returns (values: seq<string>)
    ensures p.Numbers? ==> |values| == Min(MAX_REQUESTS, RangeSize(p.first, p.last, p.step))
    ensures p.Numbers? ==> forall i :: 0 <= i < |values| ==>
        values[i] == Shown(p.first + i * Turned(p.first, p.last, p.step))
    ensures p.Brute? ==> values == BruteSent(p.charset, p.minLength, p.maxLength)
    ensures p.Listed? ==> values == NonEmptyLines(p.lines)
    ensures !p.Listed? ==> |values| <= MAX_REQUESTS
  {
    match p {
      case Numbers(first, last, step) => values := NumberValues(first, last, step);
      case Brute(charset, lo, hi) => values := BruteValues(charset, lo, hi);
      case Listed(lines) => values := NonEmptyLines(lines);
    }
  }

  /** Of the lines, those that are not empty, in order. */
  lemma {:induction false} LinesKept(a: seq<string>, line: string, b: seq<string>)
    ensures NonEmptyLines([]) == []
    ensures NonEmptyLines(a + [line] + b) == NonEmptyLines(a) + (if line == "" then [] else [line]) + NonEmptyLines(b)
  {
    var kept := if line == "" then [] else [line];
    if a == [] {
      assert a + [line] + b == [line] + b && ([line] + b)[1..] == b && [] + kept == kept;
    } else {
      var all := a + [line] + b;
      assert all[0] == a[0] && all[1..] == a[1..] + [line] + b;
      LinesKept(a[1..], line, b);
      var first := if a[0] == "" then [] else [a[0]];
      Assoc(first, NonEmptyLines(a[1..]) + kept, NonEmptyLines(b));
      Assoc(first, NonEmptyLines(a[1..]), kept);
    }
  }

  function NonEmptyLines(lines: seq<string>): seq<string> {
    if lines == [] then [] else (if lines[0] == "" then [] else [lines[0]]) + NonEmptyLines(lines[1..])
  }

  // ------------------------------------------------- the size the interface shows

  function CharSet(s: string): set<char> { set c | c in s }

  /** The interface's formula for brute force: distinct characters, lengths as given. */
  function ShownBruteSize(charset: string, minLength: int, maxLength: int): nat {
    SumPow(Max(1, |CharSet(charset)|), Lowest(minLength), Max(minLength, maxLength))
  }

  lemma {:induction false} DistinctCount(s: string)
    ensures |CharSet(s)| <= |s|
    ensures |CharSet(s)| == |s| <==> NoDuplicates(s)
  {
    if s == "" { assert CharSet(s) == {}; }
    else {
      var tl := s[1..];
      DistinctCount(tl);
      assert s == [s[0]] + tl;
      assert CharSet(s) == CharSet(tl) + {s[0]};
      if s[0] in tl { assert CharSet(s) == CharSet(tl); }
      assert NoDuplicates(s) <==> s[0] !in tl && NoDuplicates(tl) by { NoDuplicatesCons(s); }
    }
  }

  lemma NoDuplicatesCons(s: string)
    requires s != ""
    ensures NoDuplicates(s) <==> s[0] !in s[1..] && NoDuplicates(s[1..])
  {
    var tl := s[1..];
    assert forall i :: 0 <= i < |tl| ==> tl[i] == s[i + 1];
    if s[0] in tl { var i :| 0 <= i < |tl| && tl[i] == s[0]; assert s[i + 1] == s[0]; }
  }

  lemma {:induction false} PowGrows(a: nat, b: nat, n: nat)
    requires 1 <= a <= b
    ensures 1 <= Pow(a, n) <= Pow(b, n)
    ensures a < b && n > 0 ==> Pow(a, n) < Pow(b, n)
  {
    if n > 0 {
      var x, y := Pow(a, n - 1), Pow(b, n - 1);
      PowGrows(a, b, n - 1);
      assert b * y == a * x + (b - a) * y + a * (y - x) && (b - a) * y >= b - a && a * (y - x) >= 0 && a * x >= 1 by {
        MulGrows(a, b, x, y);
      }
    }
  }

  lemma MulGrows(a: nat, b: nat, x: nat, y: nat)
    requires 1 <= a <= b && 1 <= x <= y
    ensures b * y == a * x + (b - a) * y + a * (y - x) && (b - a) * y >= b - a && a * (y - x) >= 0 && a * x >= 1
  {
    MulBig(b - a, y);
    MulBig(a, x);
    MulBig(a, y - x);
    assert b * y == (b - a) * y + a * y && a * y == a * x + a * (y - x);
  }

  lemma {:induction false} SumPowGrows(a: nat, b: nat, lo: nat, hi: int)
    requires 1 <= a <= b && 1 <= lo
    ensures SumPow(a, lo, hi) <= SumPow(b, lo, hi)
    ensures lo <= hi ==> 1 <= SumPow(a, lo, hi) && (a < b ==> SumPow(a, lo, hi) < SumPow(b, lo, hi))
    decreases hi - lo + 1
  {
    if lo <= hi {
      PowGrows(a, b, lo);
      SumPowGrows(a, b, lo + 1, hi);
    }
  }

  /** The size shown for brute force is the number of strings there are exactly when the character
      set is given, without repetition, and some length is at least one. */
  lemma ShownStrings(charset: string, minLength: int, maxLength: int)
    ensures ShownBruteSize(charset, minLength, maxLength)
         == |AllStrings(CharsOr(charset), Lowest(minLength), Highest(minLength, maxLength))|
       <==> charset != "" && NoDuplicates(charset) && Max(minLength, maxLength) >= 1
  {
    var chars, lo, hi := CharsOr(charset), Lowest(minLength), Highest(minLength, maxLength);
    var shown: nat := Max(1, |CharSet(charset)|);
    hide AllStrings, SumPow;
    AllStringsSize(chars, lo, hi);
    DistinctCount(charset);
    if charset == "" { assert CharSet(charset) == {}; } else { assert charset[0] in CharSet(charset); }
    SumPowGrows(shown, |chars|, lo, hi);
    SumPowEmpty(shown, lo, Max(minLength, maxLength));
  }

  /** The size shown for brute force is the number of values sent exactly when it is the cap, or is
      below the cap and the character set is given, without repetition, and some length is at least
      one. */
  lemma ShownSizeExact(charset: string, minLength: int, maxLength: int)
    ensures var shown := ShownBruteSize(charset, minLength, maxLength);
      shown == |BruteSent(charset, minLength, maxLength)|
      <==> shown == MAX_REQUESTS
           || (shown < MAX_REQUESTS && charset != "" && NoDuplicates(charset) && Max(minLength, maxLength) >= 1)
  {
    var chars, lo, hi := CharsOr(charset), Lowest(minLength), Highest(minLength, maxLength);
    var base: nat := Max(1, |CharSet(charset)|);
    hide AllStrings, SumPow;
    ShownStrings(charset, minLength, maxLength);
    AllStringsSize(chars, lo, hi);
    DistinctCount(charset);
    SumPowGrows(base, |chars|, lo, hi);
    SumPowEmpty(base, lo, Max(minLength, maxLength));
  }

  /** More strings than are sent: 250000 values, with 524286 shown. */
  lemma OverTheCap()
    ensures ShownBruteSize("ab", 1, 18) == 524286 && |BruteSent("ab", 1, 18)| == 250000
    ensures NoDuplicates("ab")
  {
    hide SumPow, AllStrings;
    assert CharSet("ab") == {'a', 'b'};
    BinaryTotal();
    AllStringsSize("ab", 1, 18);
  }

  lemma BinaryTotal()
    ensures SumPow(2, 1, 18) == 524286
  {
    hide SumPow;
    BinaryStrings(1, 18);
    PowSum(2, 9, 10);
    PowSum(2, 5, 5);
    PowSum(2, 5, 4);
    SmallPowers();
    hide Pow;
  }

  lemma SmallPowers()
    ensures Pow(2, 1) == 2 && Pow(2, 4) == 16 && Pow(2, 5) == 32
  {}

  lemma {:induction false} PowSum(k: nat, a: nat, b: nat)
    ensures Pow(k, a + b) == Pow(k, a) * Pow(k, b)
  {
    if a > 0 {
      PowSum(k, a - 1, b);
      MulAssoc(k, Pow(k, a - 1), Pow(k, b));
    }
  }

  /** Strings of two characters, by length: a geometric sum. */
  lemma {:induction false} BinaryStrings(lo: nat, hi: nat)
    requires lo <= hi + 1
    ensures SumPow(2, lo, hi) == Pow(2, hi + 1) - Pow(2, lo)
    decreases hi + 1 - lo
  {
    if lo <= hi { BinaryStrings(lo + 1, hi); }
  }

  /** Without a character set, a, b and c are used. */
  lemma DefaultCharset()
    ensures BruteSent("", 1, 1) == ["a", "b", "c"]
  {
    NextLength("abc", 1, 1);
    NoMoreLengths("abc", 1);
    hide AllStrings;
    assert Copies("abc", 1) == ["abc"];
    CopiesSize("abc", 1);
    ProductAt(["abc"]);
    assert Pow(3, 1) == 3 && Combo(["abc"], 0) == ["abc"[0]] && Combo(["abc"], 1) == ["abc"[1]]
        && Combo(["abc"], 2) == ["abc"[2]];
    assert Product(["abc"]) == ["a", "b", "c"];
  }

  /** A repeated character: one value is shown, and two are sent. */
  lemma RepeatedCharacter()
    ensures ShownBruteSize("aa", 1, 1) == 1 && BruteSent("aa", 1, 1) == AllStrings("aa", 1, 1) == ["a", "a"]
  {
    assert CharSet("aa") == {'a'};
    assert SumPow(1, 1, 1) == 1;
    NextLength("aa", 1, 1);
    NoMoreLengths("aa", 1);
    hide AllStrings;
    assert Copies("aa", 1) == ["aa"];
    CopiesSize("aa", 1);
    ProductAt(["aa"]);
    assert Pow(2, 1) == 2 && Combo(["aa"], 0) == ["aa"[0]] && Combo(["aa"], 1) == ["aa"[1]];
    assert Product(["aa"]) == ["a", "a"];
  }

  lemma SumPowEmpty(k: nat, lo: nat, hi: int)
    ensures hi < lo ==> SumPow(k, lo, hi) == 0
  {}
}
