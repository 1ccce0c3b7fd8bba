/** The ASCII text operations of Python's `bytes`: strip, split on white space, lower, and
    the integer literals `int` reads and `str` writes. */
module Ascii {
  import opened Bytes

  // ------------------------------------------------------------ white space

  predicate IsSpace(c: char) {
    c == ' ' || c == '\t' || c == '\n' || c == '\r' || c == '\U{0B}' || c == '\U{0C}'
  }

  function LStrip(s: bytes): (r: bytes)
    ensures |r| <= |s|
  {
    if s == [] || !IsSpace(s[0]) then s else LStrip(s[1..])
  }

  function RStrip(s: bytes): (r: bytes)
    ensures |r| <= |s|
  {
    if s == [] || !IsSpace(s[|s| - 1]) then s else RStrip(s[..|s| - 1])
  }

  function Strip(s: bytes): bytes { RStrip(LStrip(s)) }

  predicate Trimmed(s: bytes) { s == [] || (!IsSpace(s[0]) && !IsSpace(s[|s| - 1])) }

  predicate Blank(s: bytes) { forall i :: 0 <= i < |s| ==> IsSpace(s[i]) }

  lemma {:induction false} LStripCut(s: bytes)
    ensures LStrip(s) == s[|s| - |LStrip(s)|..] && Blank(s[..|s| - |LStrip(s)|])
    ensures LStrip(s) == [] || !IsSpace(LStrip(s)[0])
  {
    if s != [] && IsSpace(s[0]) {
      LStripCut(s[1..]);
      var k := |s| - |LStrip(s)|;
      assert s[1..][k - 1..] == s[k..];
      assert forall i :: 1 <= i < k ==> s[..k][i] == s[1..][..k - 1][i - 1];
    }
  }

  lemma {:induction false} RStripCut(s: bytes)
    ensures RStrip(s) == s[..|RStrip(s)|] && Blank(s[|RStrip(s)|..])
    ensures RStrip(s) == [] || !IsSpace(RStrip(s)[|RStrip(s)| - 1])
  {
    if s != [] && IsSpace(s[|s| - 1]) {
      var t := s[..|s| - 1];
      RStripCut(t);
      var k := |RStrip(s)|;
      assert t[..k] == s[..k];
      assert forall j :: 0 <= j < |t| - k ==> s[k..][j] == t[k..][j];
    }
  }

  /** What stripping leaves is a stretch of the text between white space. */
  lemma StripParts(s: bytes) returns (pre: bytes, post: bytes)
    ensures s == pre + Strip(s) + post && Blank(pre) && Blank(post)
  {
    var l := LStrip(s);
    var r := RStrip(l);
    LStripCut(s);
    RStripCut(l);
    hide LStrip, RStrip, Blank;
    pre, post := s[..|s| - |l|], l[|r|..];
    Cut(s, |s| - |l|);
    Cut(l, |r|);
    Assoc(pre, r, post);
  }

  /** What stripping leaves is a slice. */
  lemma StripSlice(s: bytes) returns (k: nat)
    ensures k + |Strip(s)| <= |s| && Strip(s) == s[k..k + |Strip(s)|]
  {
    var pre, post := StripParts(s);
    hide Strip, Blank;
    k := |pre|;
    assert (pre + Strip(s) + post)[k..k + |Strip(s)|] == Strip(s);
  }

  lemma StripIsTrimmed(s: bytes)
    ensures Trimmed(Strip(s))
  {
    var l := LStrip(s);
    LStripCut(s);
    RStripCut(l);
    hide LStrip, RStrip, Blank, IsSpace;
    if RStrip(l) != [] { assert RStrip(l)[0] == l[0]; }
  }

  lemma StripBlank(s: bytes)
    ensures Strip(s) == [] <==> Blank(s)
  {
    var pre, post := StripParts(s);
    StripIsTrimmed(s);
    hide Strip;
    var r := Strip(s);
    if r != [] { assert (pre + r + post)[|pre|] == r[0]; }
    else { BlankJoin(pre, post); }
  }

  lemma BlankJoin(a: bytes, b: bytes)
    requires Blank(a) && Blank(b)
    ensures Blank(a + b) && a + [] + b == a + b
  {}

  /** A token: not empty, and without white space. */
  predicate Token(s: bytes) { s != [] && forall i :: 0 <= i < |s| ==> !IsSpace(s[i]) }

  lemma StripTrimmed(s: bytes)
    requires Trimmed(s)
    ensures Strip(s) == s && Strip([' '] + s) == s
  {
    assert ([' '] + s)[1..] == s;
  }

  lemma StripAfterCut(s: bytes, t: bytes)
    requires Blank(t)
    ensures Strip(s + t) == Strip(s)
    decreases |t|
  {
    if t == [] { assert s + t == s; }
    else {
      var u := t[..|t| - 1];
      assert s + t == (s + u) + [t[|t| - 1]];
      StripDropLast(s + u, t[|t| - 1]);
      StripAfterCut(s, u);
    }
  }

  lemma {:induction false} StripDropLast(s: bytes, c: char)
    requires IsSpace(c)
    ensures Strip(s + [c]) == Strip(s)
    decreases |s|
  {
    if s == [] { assert Strip([c]) == [] by { assert Blank([c]); } }
    else if IsSpace(s[0]) {
      assert (s + [c])[1..] == s[1..] + [c];
      StripDropLast(s[1..], c);
    } else {
      assert (s + [c])[..|s|] == s;
    }
  }

  /** Length of the leading run of non-space bytes. */
  function TokenEnd(s: bytes): (k: nat)
    ensures k <= |s| && (forall i :: 0 <= i < k ==> !IsSpace(s[i]))
    ensures s != [] && !IsSpace(s[0]) ==> k > 0
    ensures k < |s| ==> IsSpace(s[k])
  {
    if s == [] || IsSpace(s[0]) then 0 else 1 + TokenEnd(s[1..])
  }

  /** Python's `s.split()`. */
  function Fields(s: bytes): (r: seq<bytes>)
    ensures forall i :: 0 <= i < |r| ==> Token(r[i])
    decreases |s|
  {
    if s == [] then []
    else if IsSpace(s[0]) then Fields(s[1..])
    else var k := TokenEnd(s); [s[..k]] + Fields(s[k..])
  }

  lemma FieldsCons(t: bytes, rest: bytes)
    requires Token(t) && (rest == [] || IsSpace(rest[0]))
    ensures Fields(t + rest) == [t] + Fields(rest)
  {
    var s := t + rest;
    var k := TokenEnd(s);
    assert forall i :: 0 <= i < |t| ==> s[i] == t[i];
    assert rest != [] ==> s[|t|] == rest[0];
    assert k == |t|;
    assert s[..k] == t && s[k..] == rest;
  }

  lemma FieldsSkip(s: bytes)
    ensures Fields([' '] + s) == Fields(s)
  {
    assert ([' '] + s)[1..] == s;
  }

  /** The three words of a start line. */
  lemma FieldsThree(a: bytes, b: bytes, c: bytes)
    requires Token(a) && Token(b) && Token(c)
    ensures Fields(a + [' '] + b + [' '] + c) == [a, b, c]
  {
    var bc := b + [' '] + c;
    assert a + [' '] + b + [' '] + c == a + [' '] + bc;
    assert Fields(bc) == [b, c] by { FieldsOne(c); FieldsPair(b, c); }
    FieldsPair(a, bc);
  }

  lemma FieldsOne(c: bytes)
    requires Token(c)
    ensures Fields(c) == [c]
  {
    assert c + [] == c;
    FieldsCons(c, []);
  }

  lemma FieldsPair(a: bytes, b: bytes)
    requires Token(a)
    ensures Fields(a + [' '] + b) == [a] + Fields(b)
  {
    assert a + [' '] + b == a + ([' '] + b);
    FieldsCons(a, [' '] + b);
    FieldsSkip(b);
  }

  // ------------------------------------------------------ stripping and pieces

  lemma StripLeading(pre: bytes, s: bytes)
    requires Blank(pre)
    ensures Strip(pre + s) == Strip(s)
    decreases |pre|
  {
    if pre == [] { assert pre + s == s; }
    else {
      assert (pre + s)[1..] == pre[1..] + s;
      assert LStrip(pre + s) == LStrip(pre[1..] + s);
      StripLeading(pre[1..], s);
    }
  }

  lemma FindInCore(pre: bytes, core: bytes, post: bytes, c: char)
    requires Blank(pre) && Blank(post) && !IsSpace(c)
    ensures Find(pre + core + post, [c]) == if c in core then |pre| + Find(core, [c]) else -1
    ensures c in core <==> Find(core, [c]) != -1
  {
    var s := pre + core + post;
    FindByte(s, c); FindByte(core, c);
    if c in core {
      var i := Find(core, [c]);
      assert s[..|pre| + i] == pre + core[..i];
      FindByteIs(s, c, |pre| + i);
    }
  }

  function FirstPiece(s: bytes, c: char): bytes {
    var i := Find(s, [c]);
    if i == -1 then s else s[..i]
  }

  lemma SplitFirst(s: bytes, c: char)
    ensures Split(s, [c])[0] == FirstPiece(s, c)
  {}

  lemma FirstPieceStrip(s: bytes, c: char)
    requires !IsSpace(c)
    ensures Strip(FirstPiece(Strip(s), c)) == Strip(FirstPiece(s, c))
  {
    hide Strip, Find, IsSpace;
    var pre, post := StripParts(s);
    var core := Strip(s);
    FindInCore(pre, core, post, c);
    StripIsTrimmed(s);
    StripTrimmed(core);
    if c in core {
      var i := Find(core, [c]);
      assert s[..|pre| + i] == pre + core[..i];
      StripLeading(pre, core[..i]);
    }
  }

  // ------------------------------------------------------------- lower case

  function LowerChar(c: char): char { if 'A' <= c <= 'Z' then (c as int + 32) as char else c }

  function Lower(s: bytes): (r: bytes)
    ensures |r| == |s| && forall i :: 0 <= i < |s| ==> r[i] == LowerChar(s[i])
  {
    seq(|s|, i requires 0 <= i < |s| => LowerChar(s[i]))
  }

  predicate IsLower(s: bytes) { Lower(s) == s }

  // ---------------------------------------------------------------- integers

  function DigitVal(c: char): (v: int)
    ensures -1 <= v < 36
  {
    if '0' <= c <= '9' then c as int - '0' as int
    else if 'a' <= c <= 'z' then c as int - 'a' as int + 10
    else if 'A' <= c <= 'Z' then c as int - 'A' as int + 10
    else -1
  }

  /** Digits of a base, single underscores allowed between two of them. */
  function DigitsValue(s: bytes, base: nat): Option<nat>
    requires 2 <= base <= 36
    decreases |s|
  {
    if s == [] then None
    else
      var d := DigitVal(s[|s| - 1]);
      if d < 0 || d >= base then None
      else if |s| == 1 then Some(d)
      else
        var front := if s[|s| - 2] == '_' then s[..|s| - 2] else s[..|s| - 1];
        match DigitsValue(front, base)
        case None => None
        case Some(v) => Some(v * base + d)
  }

  /** Python's `int(s, base)`; None where it raises ValueError. */
  function PyInt(s: bytes, base: nat): Option<int>
    requires base == 10 || base == 16
  {
    var t := Strip(s);
    var signed := t != [] && (t[0] == '+' || t[0] == '-');
    var u := if signed then t[1..] else t;
    var prefixed := base == 16 && |u| >= 2 && u[0] == '0' && (u[1] == 'x' || u[1] == 'X');
    var v := if !prefixed then u else if |u| > 2 && u[2] == '_' then u[3..] else u[2..];
    match DigitsValue(v, base)
    case None => None
    case Some(n) => var value: int := if signed && t[0] == '-' then 0 - n else n; Some(value)
  }

  function DigitChar(d: nat): char
    requires d < 10
  { ('0' as int + d) as char }

  /** Python's `str(n)` for n >= 0. */
  function Decimal(n: nat): (s: bytes)
    ensures s != [] && forall c <- s :: '0' <= c <= '9'
  {
    if n < 10 then [DigitChar(n)] else Decimal(n / 10) + [DigitChar(n % 10)]
  }

  lemma {:induction false} DecimalDigits(n: nat)
    ensures DigitsValue(Decimal(n), 10) == Some(n)
  {
    var s := Decimal(n);
    if n >= 10 {
      DecimalDigits(n / 10);
      assert s[..|s| - 1] == Decimal(n / 10);
      assert s[|s| - 2] in Decimal(n / 10);
    }
  }

  /** Writing a length and reading it back. */
  lemma DecimalRoundTrip(n: nat)
    ensures PyInt(Decimal(n), 10) == Some(n) && Trimmed(Decimal(n))
    ensures ',' !in Decimal(n) && '\n' !in Decimal(n)
  {
    var s := Decimal(n);
    assert s[0] in s && s[|s| - 1] in s;
    assert Strip(s) == s by { StripTrimmed(s); }
    assert DigitsValue(s, 10) == Some(n) by { DecimalDigits(n); }
  }
}
