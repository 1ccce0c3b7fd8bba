/** Byte strings as the proxy uses them: search, split, join, strip, lower-casing and the
    integer literals that Python's `int` accepts.  A byte is written as the character with
    its code, which is what decoding as latin-1 gives. */
module Bytes {
  type bytes = string

  datatype Option<+T> = None | Some(value: T)

  const CRLF: bytes := "\r\n"
  const BLANK: bytes := "\r\n\r\n"

  lemma Assoc<T>(a: seq<T>, b: seq<T>, c: seq<T>)
    ensures a + (b + c) == (a + b) + c
  {}

  lemma Cut<T>(s: seq<T>, k: nat)
    requires k <= |s|
    ensures s == s[..k] + s[k..]
  {}

  /** Stepping along a suffix. */
  lemma Next<T>(s: seq<T>, i: nat)
    requires i < |s|
    ensures s[i..] != [] && s[i..][0] == s[i] && s[i..][1..] == s[i + 1..]
  {}

  lemma Cons<T>(s: seq<T>)
    requires s != []
    ensures s == [s[0]] + s[1..]
  {}

  lemma ConsParts<T>(x: T, s: seq<T>)
    ensures ([x] + s)[0] == x && ([x] + s)[1..] == s && |[x] + s| == |s| + 1
  {}

  // ---------------------------------------------------------------- search

  /** `pat` occurs in `s` at position `i`. */
  predicate At(s: bytes, pat: bytes, i: int) {
    0 <= i && i + |pat| <= |s| && s[i..i + |pat|] == pat
  }

  /** First occurrence of `pat` at or after `i`, or -1. */
  function FindFrom(s: bytes, pat: bytes, i: nat): (r: int)
    requires i <= |s|
    ensures r == -1 || (i <= r && At(s, pat, r))
    ensures forall j :: i <= j && (r == -1 || j < r) ==> !At(s, pat, j)
    decreases |s| - i
  {
    if At(s, pat, i) then i else if i == |s| then -1 else FindFrom(s, pat, i + 1)
  }

  function Find(s: bytes, pat: bytes): (r: int)
    ensures r == -1 || (0 <= r && At(s, pat, r))
    ensures forall j :: 0 <= j && (r == -1 || j < r) ==> !At(s, pat, j)
  {
    FindFrom(s, pat, 0)
  }

  predicate Contains(s: bytes, pat: bytes) { Find(s, pat) != -1 }

  /** No proper suffix of `pat` is a prefix of it, so two occurrences never overlap. */
  predicate Unbordered(pat: bytes) {
    |pat| > 0 && forall k :: 0 < k < |pat| ==> pat[k..] != pat[..|pat| - k]
  }

  lemma SeparatorsUnbordered(c: char)
    ensures Unbordered([c]) && Unbordered(CRLF)
  {
    assert CRLF[1..] == ['\n'] && CRLF[..1] == ['\r'];
  }

  /** What a separator-free piece is followed by does not move the first separator. */
  lemma FindSeparator(p: bytes, pat: bytes, rest: bytes)
    requires Unbordered(pat) && !Contains(p, pat)
    ensures Find(p + pat + rest, pat) == |p|
  {
    var s := p + pat + rest;
    assert At(s, pat, |p|);
    forall j | 0 <= j < |p| ensures !At(s, pat, j) {
      var k := |p| - j;
      if k >= |pat| {
        assert p[j..j + |pat|] == s[j..j + |pat|];
        assert !At(p, pat, j);
      } else {
        assert s[j..j + |pat|][k..] == s[|p|..j + |pat|] == pat[..|pat| - k];
      }
    }
  }

  /** A byte is found exactly when the string has it. */
  lemma FindByte(s: bytes, c: char)
    ensures Contains(s, [c]) <==> c in s
    ensures var r := Find(s, [c]); r >= 0 ==> r < |s| && s[r] == c && c !in s[..r]
  {
    var r := Find(s, [c]);
    forall i | 0 <= i < |s| && (r == -1 || i < r) ensures s[i] != c {
      assert !At(s, [c], i);
      assert s[i..i + 1] == [s[i]];
    }
    if r >= 0 { assert s[r..r + 1] == [s[r]]; }
  }

  lemma FindByteIs(s: bytes, c: char, k: nat)
    requires k < |s| && s[k] == c && c !in s[..k]
    ensures Find(s, [c]) == k
  {
    FindByte(s, c);
    var r := Find(s, [c]);
    forall i | 0 <= i < k ensures s[i] != c { assert s[i] == s[..k][i]; }
    if r >= 0 { forall i | 0 <= i < r ensures s[i] != c { assert s[i] == s[..r][i]; } }
  }

  lemma AtCrlf(s: bytes, i: int)
    ensures At(s, CRLF, i) <==> 0 <= i && i + 1 < |s| && s[i] == '\r' && s[i + 1] == '\n'
  {
    if 0 <= i && i + 1 < |s| { assert s[i..i + 2] == [s[i], s[i + 1]]; }
  }

  lemma AtBlank(s: bytes, i: int)
    ensures At(s, BLANK, i) <==> At(s, CRLF, i) && At(s, CRLF, i + 2)
  {
    if 0 <= i && i + 4 <= |s| {
      assert s[i..i + 4] == s[i..i + 2] + s[i + 2..i + 4];
      assert s[i..i + 2] == s[i..i + 4][..2] && s[i + 2..i + 4] == s[i..i + 4][2..];
      assert BLANK == CRLF + CRLF && BLANK[..2] == CRLF && BLANK[2..] == CRLF;
    }
  }

  /** A string without line feeds holds no CRLF. */
  lemma NoLfNoCrlf(s: bytes)
    requires '\n' !in s
    ensures !Contains(s, CRLF)
  {
    AtCrlf(s, Find(s, CRLF));
  }

  // ---------------------------------------------------------- split and join

  /** Python's `s.split(pat)`. */
  function Split(s: bytes, pat: bytes): (parts: seq<bytes>)
    requires |pat| > 0
    ensures |parts| > 0
    decreases |s|
  {
    var i := Find(s, pat);
    if i == -1 then [s] else [s[..i]] + Split(s[i + |pat|..], pat)
  }

  /** Python's `sep.join(parts)`. */
  function Join(parts: seq<bytes>, sep: bytes): bytes
  {
    if |parts| == 0 then [] else if |parts| == 1 then parts[0] else parts[0] + sep + Join(parts[1..], sep)
  }

  lemma {:induction false} JoinSplit(s: bytes, pat: bytes)
    requires |pat| > 0
    ensures Join(Split(s, pat), pat) == s
    decreases |s|
  {
    var i := Find(s, pat);
    if i != -1 {
      var rest := s[i + |pat|..];
      JoinSplit(rest, pat);
      ConsParts(s[..i], Split(rest, pat));
      assert s == s[..i] + pat + rest by { hide Split, Join; assert s[i..i + |pat|] == pat; }
      hide Find;
    }
  }

  lemma {:induction false} SplitJoin(parts: seq<bytes>, pat: bytes)
    requires |parts| > 0 && Unbordered(pat)
    requires forall p <- parts :: !Contains(p, pat)
    ensures Split(Join(parts, pat), pat) == parts
  {
    if |parts| > 1 {
      var rest := Join(parts[1..], pat);
      FindSeparator(parts[0], pat, rest);
      var s := parts[0] + pat + rest;
      assert s[..|parts[0]|] == parts[0] && s[|parts[0]| + |pat|..] == rest;
      SplitJoin(parts[1..], pat);
    }
  }

  lemma BeforeFirst(s: bytes, pat: bytes)
    requires |pat| > 0 && Contains(s, pat)
    ensures !Contains(s[..Find(s, pat)], pat)
  {
    var i := Find(s, pat);
    forall j | 0 <= j && j + |pat| <= i ensures At(s[..i], pat, j) == At(s, pat, j) {
      assert s[..i][j..j + |pat|] == s[j..j + |pat|];
    }
  }

  /** No piece of a split holds the separator. */
  lemma {:induction false} SplitPieces(s: bytes, pat: bytes)
    requires |pat| > 0
    ensures forall p <- Split(s, pat) :: !Contains(p, pat)
    decreases |s|
  {
    var i := Find(s, pat);
    if i != -1 {
      SplitPieces(s[i + |pat|..], pat);
      BeforeFirst(s, pat);
      hide Find, Contains;
    }
  }

  /** Joining with a further piece at the end. */
  lemma {:induction false} JoinSnoc(parts: seq<bytes>, last: bytes, sep: bytes)
    requires |parts| > 0
    ensures Join(parts + [last], sep) == Join(parts, sep) + sep + last
  {
    if |parts| > 1 {
      JoinSnoc(parts[1..], last, sep);
      assert (parts + [last])[1..] == parts[1..] + [last];
    }
  }

  lemma RegroupLine(l: bytes, tail: bytes, rest: bytes)
    ensures l + CRLF + (tail + BLANK + rest) == l + CRLF + tail + BLANK + rest
  {}

  /** Lines free of CRLF, none but the first empty, end at the first blank line. */
  lemma {:induction false} FirstBlank(lines: seq<bytes>, rest: bytes)
    requires |lines| > 0
    requires forall l <- lines :: !Contains(l, CRLF)
    requires forall i :: 1 <= i < |lines| ==> lines[i] != []
    ensures Find(Join(lines, CRLF) + BLANK + rest, BLANK) == |Join(lines, CRLF)|
  {
    var l := lines[0];
    if |lines| == 1 {
      LineThenLine(l, [], rest);
      assert l + CRLF + ([] + CRLF + rest) == l + BLANK + rest;
      assert At(l + BLANK + rest, BLANK, |l|);
    } else {
      var tail := Join(lines[1..], CRLF) + BLANK + rest;
      FirstBlank(lines[1..], rest);
      assert Contains(tail, BLANK);
      hide Find, Contains, At;
      var more := JoinHead(lines[1..], rest);
      LineThenLine(l, lines[1], more);
      BlankShift(l + CRLF, tail);
      RegroupLine(l, Join(lines[1..], CRLF), rest);
    }
  }

  lemma JoinHead(lines: seq<bytes>, rest: bytes) returns (more: bytes)
    requires |lines| > 0
    ensures Join(lines, CRLF) + BLANK + rest == lines[0] + CRLF + more
  {
    if |lines| == 1 {
      more := CRLF + rest;
      assert BLANK + rest == CRLF + more;
      assert lines[0] + BLANK + rest == lines[0] + (BLANK + rest);
    } else {
      var tl := Join(lines[1..], CRLF);
      more := tl + BLANK + rest;
      assert lines[0] + CRLF + tl + BLANK + rest == lines[0] + CRLF + more;
    }
  }

  /** No blank line starts inside a line that another line follows, nor inside its CRLF. */
  lemma LineThenLine(l: bytes, next: bytes, more: bytes)
    requires !Contains(l, CRLF) && !Contains(next, CRLF)
    ensures forall j :: 0 <= j < |l| ==> !At(l + CRLF + (next + CRLF + more), BLANK, j)
    ensures next != [] ==> forall j :: 0 <= j < |l| + 2 ==> !At(l + CRLF + (next + CRLF + more), BLANK, j)
  {
    var tail := next + CRLF + more;
    var s := l + CRLF + tail;
    SeparatorsUnbordered('x');
    FindSeparator(l, CRLF, tail);
    forall j | 0 <= j < |l| ensures !At(s, BLANK, j) { AtBlank(s, j); }
    AtBlank(s, |l|);
    AtBlank(s, |l| + 1);
    AtCrlf(s, |l| + 1);
    AtCrlf(s, |l| + 2);
    if next != [] {
      assert s[|l| + 1] == '\n' && s[|l| + 2] == next[0] && s[|l| + 3] == (next + CRLF)[1];
      AtCrlf(next, 0);
    }
  }

  lemma BlankShift(p: bytes, tail: bytes)
    requires forall j :: 0 <= j < |p| ==> !At(p + tail, BLANK, j)
    requires Contains(tail, BLANK)
    ensures Find(p + tail, BLANK) == |p| + Find(tail, BLANK)
  {
    var s := p + tail;
    var r := Find(tail, BLANK);
    forall j | 0 <= j && j + 4 <= |tail| ensures At(s, BLANK, |p| + j) == At(tail, BLANK, j) {
      assert s[|p| + j..|p| + j + 4] == tail[j..j + 4];
    }
    forall j | 0 <= j < |p| + r ensures !At(s, BLANK, j) {
      if j >= |p| { assert !At(tail, BLANK, j - |p|); }
    }
  }
}
