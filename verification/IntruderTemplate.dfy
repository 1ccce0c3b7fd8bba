/** Intruder templates: literals and marked positions, building requests, percent-encoding. */
module IntruderTemplate {
  import opened Bytes
  import opened HttpMessage

  const MARKER: char := '\U{A7}'

  datatype TemplateError = Unbalanced

  /** `parts[0::2]` and `parts[1::2]`. */
  function Evens<T>(parts: seq<T>): seq<T> {
    if parts == [] then [] else if |parts| == 1 then parts else [parts[0]] + Evens(parts[2..])
  }

  function Odds<T>(parts: seq<T>): seq<T> {
    if |parts| < 2 then [] else [parts[1]] + Odds(parts[2..])
  }

  lemma TakeTwo<T>(x: T, y: T, rest: seq<T>)
    ensures var all := [x] + ([y] + rest);
      Evens(all) == [x] + Evens(rest) && Odds(all) == [y] + Odds(rest) && |all| == |rest| + 2
  {
    assert ([x] + ([y] + rest))[2..] == rest;
  }

  function ParsePositions(template: bytes): Result<(seq<bytes>, seq<bytes>), TemplateError> {
    var parts := Split(template, [MARKER]);
    if |parts| % 2 == 0 then Err(Unbalanced) else Ok((Evens(parts), Odds(parts)))
  }

  /** Literals and values in turn, the first literal first. */
  function Build(literals: seq<bytes>, values: seq<bytes>): bytes
    requires |values| < |literals|
  {
    if values == [] then literals[0] else literals[0] + values[0] + Build(literals[1..], values[1..])
  }

  method BuildRequest(literals: seq<bytes>, values: seq<bytes>) returns (raw: bytes)
    requires |values| < |literals|
    ensures raw == Build(literals, values)
  {
    raw := literals[0];
    for i := 0 to |values|
      invariant Build(literals, values) == raw + Build(literals[i..], values[i..])[|literals[i]|..]
    {
      BuildStep(literals[i..], values[i..]);
      assert literals[i..][1..] == literals[i + 1..] && values[i..][1..] == values[i + 1..];
      ghost var tail := Build(literals[i + 1..], values[i + 1..]);
      BuildStep(literals[i + 1..], values[i + 1..]);
      assert values[i] + tail == values[i] + literals[i + 1] + tail[|literals[i + 1]|..];
      Assoc(raw, values[i] + literals[i + 1], tail[|literals[i + 1]|..]);
      raw := raw + (values[i] + literals[i + 1]);
    }
    assert values[|values|..] == [];
  }

  lemma PrefixOfSum<T>(a: seq<T>, b: seq<T>)
    ensures a <= a + b && (a + b)[|a|..] == b
  {}

  lemma BuildUnfold(literals: seq<bytes>, values: seq<bytes>)
    requires |values| < |literals| && values != []
    ensures Build(literals, values) == literals[0] + values[0] + Build(literals[1..], values[1..])
  {}

  lemma BuildStep(literals: seq<bytes>, values: seq<bytes>)
    requires |values| < |literals|
    ensures var b := Build(literals, values);
      literals[0] <= b
      && b[|literals[0]|..] == if values == [] then [] else values[0] + Build(literals[1..], values[1..])
  {
    if values != [] {
      var tail := Build(literals[1..], values[1..]);
      hide Build;
      Assoc(literals[0], values[0], tail);
      PrefixOfSum(literals[0], values[0] + tail);
      assert Build(literals, values) == literals[0] + values[0] + tail by { BuildUnfold(literals, values); }
    }
  }

  /** A template's text from its parts. */
  function Render(literals: seq<bytes>, values: seq<bytes>): bytes
    requires |literals| == |values| + 1
  {
    if values == [] then literals[0]
    else literals[0] + [MARKER] + (values[0] + [MARKER] + Render(literals[1..], values[1..]))
  }

  predicate Plain(s: bytes) { MARKER !in s }

  predicate AllPlain(ss: seq<bytes>) { forall i :: 0 <= i < |ss| ==> Plain(ss[i]) }

  lemma SplitPlain(p: bytes, rest: bytes)
    requires Plain(p)
    ensures Split(p, [MARKER]) == [p]
    ensures Split(p + [MARKER] + rest, [MARKER]) == [p] + Split(rest, [MARKER])
  {
    FindByte(p, MARKER);
    SeparatorsUnbordered(MARKER);
    FindSeparator(p, [MARKER], rest);
    CutAt(p, [MARKER], rest);
  }

  lemma PlainTail(parts: seq<bytes>)
    requires AllPlain(parts) && parts != []
    ensures Plain(parts[0]) && AllPlain(parts[1..])
  {
    hide Plain;
    assert forall i :: 0 <= i < |parts| - 1 ==> parts[1..][i] == parts[i + 1];
  }

  lemma RenderStep(literals: seq<bytes>, values: seq<bytes>)
    requires |literals| == |values| + 1 && values != []
    ensures Render(literals, values)
         == literals[0] + [MARKER] + (values[0] + [MARKER] + Render(literals[1..], values[1..]))
  {}

  /** Parsing a rendered template gives back the parts it was rendered from. */
  lemma {:induction false} ParseRendered(literals: seq<bytes>, values: seq<bytes>)
    requires |literals| == |values| + 1 && AllPlain(literals) && AllPlain(values)
    ensures ParsePositions(Render(literals, values)) == Ok((literals, values))
    decreases |values|
  {
    if values == [] {
      assert literals == [literals[0]];
      SplitPlain(literals[0], []);
    } else {
      var l, v, rest := literals[0], values[0], Render(literals[1..], values[1..]);
      hide Render, Split, Plain, Evens, Odds;
      PlainTail(literals);
      PlainTail(values);
      ParseRendered(literals[1..], values[1..]);
      SplitPlain(l, v + [MARKER] + rest);
      SplitPlain(v, rest);
      TakeTwo(l, v, Split(rest, [MARKER]));
      Cons(literals);
      Cons(values);
      assert Render(literals, values) == l + [MARKER] + (v + [MARKER] + rest) by { RenderStep(literals, values); }
    }
  }

  // ---------------------------------------------------------- deleting markers

  /** `s.replace(MARKER, b"")`. */
  function Unmark(s: bytes): (r: bytes)
    ensures Plain(r)
  {
    if s == [] then [] else (if s[0] == MARKER then [] else [s[0]]) + Unmark(s[1..])
  }

  lemma {:induction false} UnmarkConcat(a: bytes, b: bytes)
    ensures Unmark(a + b) == Unmark(a) + Unmark(b)
  {
    if a == [] { assert a + b == b; }
    else { assert (a + b)[1..] == a[1..] + b; UnmarkConcat(a[1..], b); }
  }

  lemma {:induction false} UnmarkPlain(s: bytes)
    requires Plain(s)
    ensures Unmark(s) == s
  {
    if s != [] { UnmarkPlain(s[1..]); }
  }

  lemma JoinCons(p: bytes, parts: seq<bytes>)
    requires parts != []
    ensures Join([p] + parts, []) == p + Join(parts, [])
  {
    ConsParts(p, parts);
    assert p + [] + Join(parts, []) == p + Join(parts, []);
  }

  lemma {:induction false} UnmarkSplit(s: bytes)
    ensures Join(Split(s, [MARKER]), []) == Unmark(s)
    decreases |s|
  {
    FindByte(s, MARKER);
    var i := Find(s, [MARKER]);
    if i == -1 { UnmarkPlain(s); }
    else {
      var p, rest := s[..i], s[i + 1..];
      hide Unmark, Find, Join, Plain;
      assert s == p + [MARKER] + rest;
      UnmarkSplit(rest);
      UnmarkCut(p, rest);
      JoinCons(p, Split(rest, [MARKER]));
    }
  }

  lemma UnmarkStep(rest: bytes)
    ensures Unmark([MARKER] + rest) == Unmark(rest)
  {
    hide Plain;
    ConsParts(MARKER, rest);
  }

  lemma UnmarkCut(p: bytes, rest: bytes)
    requires Plain(p)
    ensures Unmark(p + [MARKER] + rest) == p + Unmark(rest)
  {
    hide Plain;
    Assoc(p, [MARKER], rest);
    UnmarkConcat(p, [MARKER] + rest);
    UnmarkPlain(p);
    UnmarkStep(rest);
  }

  lemma BuildCons(l: bytes, v: bytes, literals: seq<bytes>, values: seq<bytes>)
    requires |values| < |literals|
    ensures Build([l] + literals, [v] + values) == l + v + Build(literals, values)
  {
    ConsParts(l, literals);
    ConsParts(v, values);
  }

  lemma {:induction false} BuildParts(parts: seq<bytes>)
    requires |parts| % 2 == 1
    ensures |Evens(parts)| == |Odds(parts)| + 1
    ensures Build(Evens(parts), Odds(parts)) == Join(parts, [])
    decreases |parts|
  {
    if |parts| > 1 {
      var rest := parts[2..];
      BuildParts(rest);
      ConsParts(parts[0], Evens(rest));
      ConsParts(parts[1], Odds(rest));
      hide Build;
      assert Build(Evens(parts), Odds(parts)) == parts[0] + parts[1] + Build(Evens(rest), Odds(rest)) by {
        BuildCons(parts[0], parts[1], Evens(rest), Odds(rest));
      }
      hide Evens, Odds;
      Cons(parts);
      Cons(parts[1..]);
      assert parts[1..][1..] == rest;
      JoinCons(parts[0], parts[1..]);
      JoinCons(parts[1], rest);
      Assoc(parts[0], parts[1], Join(rest, []));
    }
  }

  /** Filling a template's positions with their own base values deletes the markers. */
  lemma BuildBases(template: bytes)
    ensures match ParsePositions(template)
      case Err(_) => |Split(template, [MARKER])| % 2 == 0
      case Ok(t) => |t.0| == |t.1| + 1 && Build(t.0, t.1) == Unmark(template)
  {
    var parts := Split(template, [MARKER]);
    if |parts| % 2 == 1 { BuildParts(parts); UnmarkSplit(template); }
  }

  // ---------------------------------------------------------- percent-encoding

  type byte = c: char | c as int < 256 witness 'a'

  predicate Unreserved(c: char) {
    'a' <= c <= 'z' || 'A' <= c <= 'Z' || '0' <= c <= '9' || c == '-' || c == '_' || c == '.' || c == '~'
  }

  function HexDigit(d: nat): (c: char)
    requires d < 16
    ensures Unreserved(c)
  { if d < 10 then (48 + d) as char else (55 + d) as char }

  function HexVal(c: char): nat {
    if c <= '9' then (if c < '0' then 0 else c as int - 48) else if c < 'A' then 0 else c as int - 55
  }

  function EncodeByte(b: byte): bytes {
    if Unreserved(b) then [b] else ['%', HexDigit(b as int / 16), HexDigit(b as int % 16)]
  }

  function UrlEncode(v: seq<byte>): bytes {
    if v == [] then [] else EncodeByte(v[0]) + UrlEncode(v[1..])
  }

  /** RFC 3986 section 2.1: a percent sign and two hexadecimal digits stand for one octet. */
  function UrlDecode(s: bytes): seq<int> {
    if s == [] then []
    else if s[0] == '%' && |s| >= 3 then [HexVal(s[1]) * 16 + HexVal(s[2])] + UrlDecode(s[3..])
    else [s[0] as int] + UrlDecode(s[1..])
  }

  function Codes(v: seq<byte>): seq<int> { if v == [] then [] else [v[0] as int] + Codes(v[1..]) }

  lemma {:induction false} DecodeEncoded(v: seq<byte>)
    ensures UrlDecode(UrlEncode(v)) == Codes(v)
  {
    if v != [] {
      DecodeEncoded(v[1..]);
      var e, tail := EncodeByte(v[0]), UrlEncode(v[1..]);
      if Unreserved(v[0]) { assert (e + tail)[1..] == tail && v[0] != '%'; }
      else { assert (e + tail)[3..] == tail; HexPair(v[0] as int); }
    }
  }

  lemma HexPair(n: nat)
    requires n < 256
    ensures HexVal(HexDigit(n / 16)) * 16 + HexVal(HexDigit(n % 16)) == n
  {}

  lemma {:induction false} CodesInjective(v: seq<byte>, w: seq<byte>)
    requires Codes(v) == Codes(w)
    ensures v == w
  {
    if v == [] { assert w == []; }
    else {
      assert w != [] && Codes(v)[0] == v[0] as int && Codes(w)[0] == w[0] as int;
      assert Codes(v)[1..] == Codes(v[1..]) && Codes(w)[1..] == Codes(w[1..]);
      CodesInjective(v[1..], w[1..]);
      assert v == [v[0]] + v[1..] && w == [w[0]] + w[1..];
    }
  }

  /** Two values that encode alike are the same value. */
  lemma UrlEncodeInjective(v: seq<byte>, w: seq<byte>)
    requires UrlEncode(v) == UrlEncode(w)
    ensures v == w
  {
    DecodeEncoded(v);
    DecodeEncoded(w);
    CodesInjective(v, w);
  }

  const HEX_DIGITS: string := "0123456789ABCDEF"

  /** How one byte is encoded: letters, digits and the four marks of RFC 3986 section 2.3 as themselves, any
      other as a percent sign and its two upper-case hexadecimal digits. */
  lemma EncodedAs(b: byte)
    ensures 'a' <= b <= 'z' || 'A' <= b <= 'Z' || '0' <= b <= '9' || b in ['-', '.', '_', '~'] ==> EncodeByte(b) == [b]
    ensures !('a' <= b <= 'z' || 'A' <= b <= 'Z' || '0' <= b <= '9' || b in ['-', '.', '_', '~']) ==>
      EncodeByte(b) == "%" + [HEX_DIGITS[b as int / 16], HEX_DIGITS[b as int % 16]]
  {
    HexTable(b as int / 16);
    HexTable(b as int % 16);
  }

  lemma HexTable(d: nat)
    requires d < 16
    ensures HexDigit(d) == HEX_DIGITS[d]
  {}

  predicate Encoded(c: char) { Unreserved(c) || c == '%' }

  predicate AllEncoded(s: bytes) { forall i :: 0 <= i < |s| ==> Encoded(s[i]) }

  lemma {:induction false} EncodeAlphabet(v: seq<byte>)
    ensures AllEncoded(UrlEncode(v))
  {
    if v != [] {
      EncodeAlphabet(v[1..]);
      assert AllEncoded(EncodeByte(v[0]));
    }
  }

  // ----------------------------------------------- distinct values, distinct bytes

  /** A literal holding a byte no encoded value can hold. */
  predicate Separates(l: bytes) { exists k :: 0 <= k < |l| && !Encoded(l[k]) }

  /** Index of the first byte outside the encoded alphabet. */
  function FirstForeign(s: bytes): (k: nat)
    requires Separates(s)
    ensures k < |s| && !Encoded(s[k]) && forall i :: 0 <= i < k ==> Encoded(s[i])
  {
    if !Encoded(s[0]) then 0
    else
      assert Separates(s[1..]) by { var k :| 0 <= k < |s| && !Encoded(s[k]); assert s[1..][k - 1] == s[k]; }
      1 + FirstForeign(s[1..])
  }

  lemma SameFirst(v: bytes, w: bytes, x: bytes, y: bytes, l: bytes)
    requires AllEncoded(v) && AllEncoded(w) && Separates(l) && l <= x && l <= y
    requires v + x == w + y
    ensures v == w && x == y
  {
    var k := FirstForeign(l);
    var s := v + x;
    assert forall i :: 0 <= i < k ==> x[i] == l[i] && y[i] == l[i];
    assert !Encoded(s[|v| + k]) && forall i :: 0 <= i < |v| + k ==> Encoded(s[i]);
    assert s[|w| + k] == y[k] == l[k];
    assert forall i :: 0 <= i < |w| + k ==> s[i] == if i < |w| then w[i] else y[i - |w|];
    assert |v| == |w|;
    assert v == s[..|v|] == w && x == s[|v|..] == y;
  }

  /** With a foreign byte between each two positions, the bytes built tell the values. */
  lemma {:induction false} BuildInjective(literals: seq<bytes>, v: seq<bytes>, w: seq<bytes>)
    requires |v| == |w| == |literals| - 1
    requires forall i :: 0 <= i < |v| ==> AllEncoded(v[i]) && AllEncoded(w[i])
    requires forall i :: 0 < i < |v| ==> Separates(literals[i])
    requires Build(literals, v) == Build(literals, w)
    ensures v == w
    decreases |v|
  {
    hide Build, AllEncoded, Encoded, Separates;
    if v != [] {
      var ls := literals[1..];
      var x, y := Build(ls, v[1..]), Build(ls, w[1..]);
      BuildStep(literals, v); BuildStep(literals, w);
      BuildStep(ls, v[1..]); BuildStep(ls, w[1..]);
      assert v[0] + x == w[0] + y;
      if |v| == 1 {
        assert v[0] == (v[0] + x)[..|v[0] + x| - |ls[0]|] == w[0];
      } else {
        SameFirst(v[0], w[0], x, y, ls[0]);
        BuildInjective(ls, v[1..], w[1..]);
      }
      assert v == [v[0]] + v[1..] && w == [w[0]] + w[1..];
    }
  }
}
