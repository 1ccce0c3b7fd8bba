/** Rewriting Content-Length in raw request bytes so that it matches the body. */
module IntruderLength {
  import opened Bytes
  import opened Ascii
  import opened Letters
  import opened HttpMessage
  import opened HttpReader

  predicate IsLengthLine(line: bytes) { "content-length:" <= Lower(line) }

  function LengthLine(n: nat): bytes { "Content-Length" + ": " + Decimal(n) }

  /** The first length line rewritten, later ones dropped, every other line kept. */
  function FixLines(lines: seq<bytes>, n: nat, found: bool): seq<bytes> {
    if lines == [] then []
    else if IsLengthLine(lines[0]) then (if found then [] else [LengthLine(n)]) + FixLines(lines[1..], n, true)
    else [lines[0]] + FixLines(lines[1..], n, found)
  }

  predicate HasLength(lines: seq<bytes>) { lines != [] && (IsLengthLine(lines[0]) || HasLength(lines[1..])) }

  function FixHead(lines: seq<bytes>, n: nat): seq<bytes> {
    FixLines(lines, n, false) + if !HasLength(lines) && n > 0 then [LengthLine(n)] else []
  }

  function HeadOfRaw(raw: bytes): (lines: seq<bytes>)
    requires Contains(raw, BLANK)
    ensures |lines| > 0
  { Split(raw[..Find(raw, BLANK)], CRLF) }

  function BodyOfRaw(raw: bytes): bytes
    requires Contains(raw, BLANK)
  { raw[Find(raw, BLANK) + 4..] }

  function Fixed(raw: bytes): bytes {
    if !Contains(raw, BLANK) then raw
    else Join(FixHead(HeadOfRaw(raw), |BodyOfRaw(raw)|), CRLF) + BLANK + BodyOfRaw(raw)
  }

  lemma FixCons(line: bytes, tail: seq<bytes>, n: nat, found: bool)
    ensures FixLines([line] + tail, n, found)
         == if !IsLengthLine(line) then [line] + FixLines(tail, n, found)
            else if found then FixLines(tail, n, true) else [LengthLine(n)] + FixLines(tail, n, true)
    ensures HasLength([line] + tail) == (IsLengthLine(line) || HasLength(tail))
  {
    assert ([line] + tail)[1..] == tail;
    assert [] + FixLines(tail, n, true) == FixLines(tail, n, true);
  }

  method FixContentLength(raw: bytes) returns (r: bytes)
    ensures r == Fixed(raw)
  {
    var sep := Find(raw, BLANK);
    if sep == -1 { return raw; }
    var head, body := raw[..sep], raw[sep + 4..];
    var lines := Split(head, CRLF);
    var out: seq<bytes>, found := [], false;
    for k := 0 to |lines|
      invariant FixLines(lines, |body|, false) == out + FixLines(lines[k..], |body|, found)
      invariant HasLength(lines) == (found || HasLength(lines[k..]))
    {
      assert lines[k..] == [lines[k]] + lines[k + 1..];
      FixCons(lines[k], lines[k + 1..], |body|, found);
      hide IsLengthLine, LengthLine, Split, Find, FixLines, HasLength;
      var line := lines[k];
      Assoc(out, [line], FixLines(lines[k + 1..], |body|, found));
      Assoc(out, [LengthLine(|body|)], FixLines(lines[k + 1..], |body|, true));
      if IsLengthLine(line) {
        if found { continue; }
        out := out + [LengthLine(|body|)];
        found := true;
      } else {
        out := out + [line];
      }
    }
    assert lines[|lines|..] == [] && out + [] == out;
    if !found && body != [] { out := out + [LengthLine(|body|)]; }
    assert out == FixHead(lines, |body|);
    r := Join(out, CRLF) + BLANK + body;
  }

  // ----------------------------------------------------- what is kept, and once

  function OtherLines(lines: seq<bytes>): seq<bytes> {
    if lines == [] then [] else (if IsLengthLine(lines[0]) then [] else [lines[0]]) + OtherLines(lines[1..])
  }

  function LengthLines(lines: seq<bytes>): seq<bytes> {
    if lines == [] then [] else (if IsLengthLine(lines[0]) then [lines[0]] else []) + LengthLines(lines[1..])
  }

  lemma LengthLineFacts(n: nat)
    ensures IsLengthLine(LengthLine(n)) && ClosedLine(LengthLine(n)) && LengthLine(n) != []
    ensures !Contains(LengthLine(n), CRLF)
  {
    var d, front := Decimal(n), "Content-Length" + ": ";
    DecimalRoundTrip(n);
    assert Lower(front + d)[..15] == "content-length:";
    assert d[|d| - 1] in d;
    NoLfNoCrlf(front + d);
  }

  lemma LengthLineField(n: nat)
    ensures var line := LengthLine(n);
      Find(line, ":") == 14 && line[..14] == "Content-Length" && Strip(line[15..]) == Decimal(n)
  {
    hide Decimal;
    var name, d := "Content-Length", Decimal(n);
    assert GoodName(name);
    HeaderLineParts(Field(name, d));
    assert HeaderLine(Field(name, d)) == LengthLine(n);
    DecimalRoundTrip(n);
    StripTrimmed(d);
  }

  lemma {:induction false} FixTwice(lines: seq<bytes>, n: nat)
    ensures FixLines(FixLines(lines, n, true), n, true) == FixLines(lines, n, true)
    ensures FixLines(FixLines(lines, n, false), n, false) == FixLines(lines, n, false)
    ensures FixLines(FixLines(lines, n, true), n, false) == FixLines(lines, n, true)
    ensures HasLength(FixLines(lines, n, false)) == HasLength(lines) && !HasLength(FixLines(lines, n, true))
  {
    if lines != [] {
      hide IsLengthLine, LengthLine, FixLines, HasLength;
      var l, tl := lines[0], lines[1..];
      assert lines == [l] + tl;
      LengthLineFacts(n);
      FixTwice(tl, n);
      forall found { FixCons(l, tl, n, found); }
      forall line, found, again { FixCons(line, FixLines(tl, n, found), n, again); }
    }
  }

  lemma {:induction false} FixSnoc(lines: seq<bytes>, last: bytes, n: nat)
    requires !HasLength(lines)
    ensures FixLines(lines + [last], n, false) == lines + FixLines([last], n, false)
    ensures HasLength(lines + [last]) == IsLengthLine(last)
  {
    hide IsLengthLine;
    if lines == [] { assert lines + [last] == [last]; }
    else { assert (lines + [last])[1..] == lines[1..] + [last]; FixSnoc(lines[1..], last, n); }
  }

  lemma {:induction false} FixNone(lines: seq<bytes>, n: nat, found: bool)
    requires !HasLength(lines)
    ensures FixLines(lines, n, found) == lines
  {
    if lines != [] { FixNone(lines[1..], n, found); }
  }

  lemma FixHeadTwice(lines: seq<bytes>, n: nat)
    ensures FixHead(FixHead(lines, n), n) == FixHead(lines, n)
  {
    FixTwice(lines, n);
    if !HasLength(lines) && n > 0 {
      FixNone(lines, n, false);
      LengthLineFacts(n);
      FixSnoc(lines, LengthLine(n), n);
      assert FixLines([LengthLine(n)], n, false) == [LengthLine(n)];
    } else {
      assert FixHead(lines, n) == FixLines(lines, n, false);
    }
  }

  /** Every other line is kept in order, and at most one length line is left: the right one. */
  lemma {:induction false} FixKeeps(lines: seq<bytes>, n: nat, found: bool)
    ensures OtherLines(FixLines(lines, n, found)) == OtherLines(lines)
    ensures LengthLines(FixLines(lines, n, found)) == if HasLength(lines) && !found then [LengthLine(n)] else []
  {
    if lines != [] {
      hide IsLengthLine, LengthLine, FixLines, HasLength, OtherLines, LengthLines;
      var l, tl := lines[0], lines[1..];
      assert lines == [l] + tl;
      LengthLineFacts(n);
      FixKeeps(tl, n, found);
      FixKeeps(tl, n, true);
      FixCons(l, tl, n, found);
      FilterCons(l, tl);
      FilterCons(l, FixLines(tl, n, found));
      FilterCons(LengthLine(n), FixLines(tl, n, true));
    }
  }

  lemma FilterCons(line: bytes, tail: seq<bytes>)
    ensures OtherLines([line] + tail) == if IsLengthLine(line) then OtherLines(tail) else [line] + OtherLines(tail)
    ensures LengthLines([line] + tail) == if IsLengthLine(line) then [line] + LengthLines(tail) else LengthLines(tail)
  {
    assert ([line] + tail)[1..] == tail;
    assert [] + OtherLines(tail) == OtherLines(tail) && [] + LengthLines(tail) == LengthLines(tail);
  }

  lemma {:induction false} FilterSnoc(lines: seq<bytes>, last: bytes)
    ensures OtherLines(lines + [last]) == OtherLines(lines) + if IsLengthLine(last) then [] else [last]
    ensures LengthLines(lines + [last]) == LengthLines(lines) + if IsLengthLine(last) then [last] else []
  {
    hide IsLengthLine;
    if lines == [] { assert lines + [last] == [last]; }
    else { assert (lines + [last])[1..] == lines[1..] + [last]; FilterSnoc(lines[1..], last); }
  }

  lemma FixHeadKeeps(lines: seq<bytes>, n: nat)
    ensures OtherLines(FixHead(lines, n)) == OtherLines(lines)
    ensures LengthLines(FixHead(lines, n)) == if HasLength(lines) || n > 0 then [LengthLine(n)] else []
  {
    FixKeeps(lines, n, false);
    LengthLineFacts(n);
    if !HasLength(lines) && n > 0 { FilterSnoc(FixLines(lines, n, false), LengthLine(n)); }
    else { assert FixLines(lines, n, false) + [] == FixLines(lines, n, false); }
  }

  // --------------------------------------------------------- where the head ends

  predicate CrlfFree(lines: seq<bytes>) { forall i :: 0 <= i < |lines| ==> !Contains(lines[i], CRLF) }

  predicate NoneEmpty(lines: seq<bytes>) { forall i :: 0 <= i < |lines| ==> lines[i] != [] }

  /** Lines a head can be split into: none but the first is empty. */
  predicate HeadShape(lines: seq<bytes>) { lines != [] && CrlfFree(lines) && NoneEmpty(lines[1..]) }

  lemma {:induction false} NoEmptyLine(head: bytes, rest: bytes)
    requires Find(head + BLANK + rest, BLANK) == |head|
    ensures NoneEmpty(Split(head, CRLF)[1..])
    decreases |head|
  {
    var i := Find(head, CRLF);
    if i != -1 {
      var tail := head[i + 2..];
      TailHead(head, rest, i);
      NoEmptyLine(tail, rest);
      var more := Split(tail, CRLF);
      assert Split(head, CRLF)[1..] == more;
      assert more[0] != [] by { FirstNotEmpty(tail); }
      assert more == [more[0]] + more[1..];
    }
  }

  lemma FirstNotEmpty(s: bytes)
    requires s != [] && !At(s, CRLF, 0)
    ensures Split(s, CRLF)[0] != []
  {}

  /** The head behind its first CRLF again ends at its first blank line, and is not at one. */
  lemma TailHead(head: bytes, rest: bytes, i: nat)
    requires Find(head + BLANK + rest, BLANK) == |head| && At(head, CRLF, i)
    ensures var tail := head[i + 2..];
      Find(tail + BLANK + rest, BLANK) == |tail| && tail != [] && !At(tail, CRLF, 0)
  {
    var s, tail := head + BLANK + rest, head[i + 2..];
    var t := tail + BLANK + rest;
    assert s[i + 2..] == t;
    assert At(t, BLANK, |tail|) by { CutAt(tail, BLANK, rest); }
    forall j | 0 <= j < |tail| ensures !At(t, BLANK, j) {
      assert !At(s, BLANK, i + 2 + j);
      assert t[j..j + 4] == s[i + 2 + j..i + 2 + j + 4];
    }
    assert s[i..i + 2] == head[i..i + 2];
    assert s[i + 2..i + 4] == t[..2];
    assert |tail| >= 2 ==> t[..2] == tail[0..2];
    assert tail == [] ==> t[..2] == BLANK[..2] == CRLF;
    AtBlank(s, i);
    assert !At(s, BLANK, i);
  }

  lemma RawShape(raw: bytes)
    requires Contains(raw, BLANK)
    ensures HeadShape(HeadOfRaw(raw)) && Join(HeadOfRaw(raw), CRLF) + BLANK + BodyOfRaw(raw) == raw
  {
    var i := Find(raw, BLANK);
    var head := raw[..i];
    assert raw == head + BLANK + raw[i + 4..];
    NoEmptyLine(head, raw[i + 4..]);
    SplitPieces(head, CRLF);
    JoinSplit(head, CRLF);
    var lines := Split(head, CRLF);
    forall k | 0 <= k < |lines| ensures !Contains(lines[k], CRLF) { assert lines[k] in lines; }
  }

  lemma ShapeCons(l: bytes, tl: seq<bytes>)
    ensures CrlfFree([l] + tl) <==> !Contains(l, CRLF) && CrlfFree(tl)
    ensures NoneEmpty([l] + tl) <==> l != [] && NoneEmpty(tl)
  {
    hide Contains;
    var all := [l] + tl;
    assert all[0] == l && forall i :: 0 <= i < |tl| ==> all[i + 1] == tl[i];
  }

  lemma {:induction false} FixShape(lines: seq<bytes>, n: nat, found: bool)
    requires CrlfFree(lines) && NoneEmpty(lines)
    ensures CrlfFree(FixLines(lines, n, found)) && NoneEmpty(FixLines(lines, n, found))
  {
    if lines != [] {
      hide IsLengthLine, LengthLine, Contains, FixLines, CrlfFree, NoneEmpty;
      var l, tl := lines[0], lines[1..];
      Cons(lines);
      ShapeCons(l, tl);
      LengthLineFacts(n);
      FixShape(tl, n, found);
      FixShape(tl, n, true);
      FixCons(l, tl, n, found);
      ShapeCons(l, FixLines(tl, n, found));
      ShapeCons(LengthLine(n), FixLines(tl, n, true));
    }
  }

  lemma FixHeadShape(lines: seq<bytes>, n: nat)
    requires HeadShape(lines)
    ensures HeadShape(FixHead(lines, n))
  {
    hide IsLengthLine, LengthLine, Contains, FixLines, HasLength;
    var l, tl := lines[0], lines[1..];
    assert lines == [l] + tl && CrlfFree(tl);
    LengthLineFacts(n);
    FixShape(tl, n, IsLengthLine(l));
    FixCons(l, tl, n, false);
    var first := if IsLengthLine(l) then LengthLine(n) else l;
    var tail := FixLines(tl, n, IsLengthLine(l)) + if !HasLength(lines) && n > 0 then [LengthLine(n)] else [];
    HeadShapeCons(first, tail);
    assert FixHead(lines, n) == [first] + tail;
  }

  lemma HeadShapeCons(first: bytes, tail: seq<bytes>)
    requires !Contains(first, CRLF) && CrlfFree(tail) && NoneEmpty(tail)
    ensures HeadShape([first] + tail)
  {
    hide Contains;
    assert ([first] + tail)[1..] == tail;
  }

  /** A head of that shape is found again, line by line, in front of any body. */
  lemma ShapeRead(lines: seq<bytes>, body: bytes)
    requires HeadShape(lines)
    ensures var raw := Join(lines, CRLF) + BLANK + body;
      Contains(raw, BLANK) && HeadOfRaw(raw) == lines && BodyOfRaw(raw) == body
      && HeadBody(raw) == (Join(lines, CRLF), body)
  {
    forall l | l in lines ensures !Contains(l, CRLF) { var i :| 0 <= i < |lines| && lines[i] == l; }
    forall i | 1 <= i < |lines| ensures lines[i] != [] { assert lines[i] == lines[1..][i - 1]; }
    FirstBlank(lines, body);
    CutAt(Join(lines, CRLF), BLANK, body);
    SeparatorsUnbordered('x');
    SplitJoin(lines, CRLF);
  }

  /** Rewriting keeps the body and every other line in order; exactly one length line, with
      the body's length, is left wherever there was one or there is a body. */
  lemma FixedKeeps(raw: bytes)
    requires Contains(raw, BLANK)
    ensures Contains(Fixed(raw), BLANK) && BodyOfRaw(Fixed(raw)) == BodyOfRaw(raw)
    ensures OtherLines(HeadOfRaw(Fixed(raw))) == OtherLines(HeadOfRaw(raw))
    ensures LengthLines(HeadOfRaw(Fixed(raw)))
         == if HasLength(HeadOfRaw(raw)) || BodyOfRaw(raw) != [] then [LengthLine(|BodyOfRaw(raw)|)] else []
  {
    var lines, body := HeadOfRaw(raw), BodyOfRaw(raw);
    RawShape(raw);
    FixHeadShape(lines, |body|);
    ShapeRead(FixHead(lines, |body|), body);
    FixHeadKeeps(lines, |body|);
  }

  /** The line begins with the field name and its colon, in any case. */
  predicate NamesLength(line: bytes) { StandsAt(line, "Content-Length:", 0) }

  lemma LengthNamed(line: bytes)
    ensures IsLengthLine(line) <==> NamesLength(line)
  {
    if |line| >= 15 {
      LowerSlice(line, 0, 15);
      LowerSame(line[0..15], "Content-Length:");
      assert Lower("Content-Length:") == "content-length:";
    }
    hide SameText;
  }

  predicate NoneNames(lines: seq<bytes>) { forall i :: 0 <= i < |lines| ==> !NamesLength(lines[i]) }

  /** The lines that do not name the length, in order. */
  function Unnamed(lines: seq<bytes>): seq<bytes> {
    if lines == [] then [] else
      Unnamed(lines[..|lines| - 1]) + if NamesLength(lines[|lines| - 1]) then [] else [lines[|lines| - 1]]
  }

  lemma {:induction false} NoneHas(lines: seq<bytes>)
    ensures HasLength(lines) <==> !NoneNames(lines)
  {
    hide NamesLength, IsLengthLine;
    if lines != [] {
      LengthNamed(lines[0]);
      NoneHas(lines[1..]);
      assert forall i :: 0 <= i < |lines| - 1 ==> lines[1..][i] == lines[i + 1];
      if NoneNames(lines[1..]) && !NamesLength(lines[0]) {
        forall i | 0 <= i < |lines| ensures !NamesLength(lines[i]) {
          if i > 0 { assert !NamesLength(lines[1..][i - 1]); }
        }
      }
    }
  }

  lemma {:induction false} FixRest(lines: seq<bytes>, n: nat)
    ensures FixLines(lines, n, true) == Unnamed(lines)
  {
    if lines != [] {
      var front, last := lines[..|lines| - 1], lines[|lines| - 1];
      FixRest(front, n);
      LengthNamed(last);
      hide NamesLength, IsLengthLine, LengthLine;
      FixAfter(front, [last], n);
      assert front + [last] == lines;
      FixCons(last, [], n, true);
      assert [last] + [] == [last];
    }
  }

  lemma {:induction false} FixAfter(a: seq<bytes>, b: seq<bytes>, n: nat)
    ensures FixLines(a + b, n, true) == FixLines(a, n, true) + FixLines(b, n, true)
  {
    hide IsLengthLine, LengthLine;
    if a == [] { assert a + b == b; }
    else {
      assert (a + b)[0] == a[0] && (a + b)[1..] == a[1..] + b;
      FixAfter(a[1..], b, n);
      Assoc(if IsLengthLine(a[0]) then [] else [a[0]], FixLines(a[1..], n, true), FixLines(b, n, true));
      assert [] + FixLines(a[1..], n, true) == FixLines(a[1..], n, true);
    }
  }

  lemma {:induction false} FixBefore(a: seq<bytes>, l: bytes, b: seq<bytes>, n: nat)
    requires NoneNames(a) && NamesLength(l)
    ensures FixLines(a + ([l] + b), n, false) == a + ([LengthLine(n)] + Unnamed(b))
  {
    hide NamesLength, IsLengthLine, LengthLine;
    if a == [] {
      LengthNamed(l);
      assert a + ([l] + b) == [l] + b && a + ([LengthLine(n)] + Unnamed(b)) == [LengthLine(n)] + Unnamed(b);
      FixCons(l, b, n, false);
      FixRest(b, n);
    } else {
      LengthNamed(a[0]);
      assert NoneNames(a[1..]);
      FixBefore(a[1..], l, b, n);
      Cons(a);
      Assoc([a[0]], a[1..], [l] + b);
      Assoc([a[0]], a[1..], [LengthLine(n)] + Unnamed(b));
      FixCons(a[0], a[1..] + ([l] + b), n, false);
    }
  }

  /** Where the length goes: in the place of the first line that names it, with later ones dropped; behind
      the last line if none does and there is a body; and without either nothing changes. */
  lemma FixedPlace(raw: bytes, a: seq<bytes>, l: bytes, b: seq<bytes>)
    requires Contains(raw, BLANK)
    ensures Contains(Fixed(raw), BLANK)
    ensures var lines, body := HeadOfRaw(raw), BodyOfRaw(raw);
      && (lines == a + ([l] + b) && NoneNames(a) && NamesLength(l) ==>
            HeadOfRaw(Fixed(raw)) == a + (["Content-Length: " + Decimal(|body|)] + Unnamed(b)))
      && (NoneNames(lines) && body != [] ==> HeadOfRaw(Fixed(raw)) == lines + ["Content-Length: " + Decimal(|body|)])
      && (NoneNames(lines) && body == [] ==> Fixed(raw) == raw)
  {
    var lines, n := HeadOfRaw(raw), |BodyOfRaw(raw)|;
    FixedHead(raw);
    RawShape(raw);
    LengthSpelt(n);
    hide HeadOfRaw, BodyOfRaw, Contains, HeadShape, Join, LengthLine, NamesLength, NoneNames, Decimal, FixHead, Unnamed;
    if NoneNames(lines) { HeadWithout(lines, n); }
    if lines == a + ([l] + b) && NoneNames(a) && NamesLength(l) { HeadWith(a, l, b, n); }
  }

  lemma LengthSpelt(n: nat)
    ensures LengthLine(n) == "Content-Length: " + Decimal(n)
  {
    hide Decimal;
  }

  lemma FixedHead(raw: bytes)
    requires Contains(raw, BLANK)
    ensures Contains(Fixed(raw), BLANK) && HeadOfRaw(Fixed(raw)) == FixHead(HeadOfRaw(raw), |BodyOfRaw(raw)|)
  {
    RawShape(raw);
    hide FixHead, HeadShape, HeadOfRaw, BodyOfRaw, Contains;
    FixHeadShape(HeadOfRaw(raw), |BodyOfRaw(raw)|);
    ShapeRead(FixHead(HeadOfRaw(raw), |BodyOfRaw(raw)|), BodyOfRaw(raw));
  }

  lemma HeadWithout(lines: seq<bytes>, n: nat)
    requires NoneNames(lines)
    ensures FixHead(lines, n) == if n > 0 then lines + [LengthLine(n)] else lines
  {
    NoneHas(lines);
    FixNone(lines, n, false);
    assert lines + [] == lines;
    hide LengthLine;
  }

  lemma HeadWith(a: seq<bytes>, l: bytes, b: seq<bytes>, n: nat)
    requires NoneNames(a) && NamesLength(l)
    ensures FixHead(a + ([l] + b), n) == a + ([LengthLine(n)] + Unnamed(b))
  {
    var lines := a + ([l] + b);
    hide LengthLine, NamesLength, Unnamed, FixLines, HasLength;
    NoneHas(lines);
    assert lines[|a|] == l;
    FixBefore(a, l, b, n);
    var fixed := a + ([LengthLine(n)] + Unnamed(b));
    assert fixed + [] == fixed;
  }

  /** Rewriting twice is rewriting once, on all bytes. */
  lemma FixedIdempotent(raw: bytes)
    ensures Fixed(Fixed(raw)) == Fixed(raw)
  {
    if Contains(raw, BLANK) {
      var lines, body := HeadOfRaw(raw), BodyOfRaw(raw);
      RawShape(raw);
      FixHeadShape(lines, |body|);
      ShapeRead(FixHead(lines, |body|), body);
      FixHeadTwice(lines, |body|);
    }
  }

  // ------------------------------------------------- what a reader then makes of it

  /** No bare line feed and no continuation line. */
  predicate Tidy(lines: seq<bytes>) {
    LfFreeLines(lines) && forall i :: 1 <= i < |lines| ==> !Folded(lines[i])
  }

  predicate HasColon(line: bytes) { Find(line, ":") > 0 }

  function FieldOf(line: bytes): Field
    requires HasColon(line)
  { var i := Find(line, ":"); Field(line[..i], Strip(line[i + 1..])) }

  predicate AllColons(lines: seq<bytes>) { forall i :: 0 <= i < |lines| ==> HasColon(lines[i]) }

  function FieldsOf(lines: seq<bytes>): Headers
    requires AllColons(lines)
  {
    if lines == [] then [] else assert AllColons(lines[1..]); [FieldOf(lines[0])] + FieldsOf(lines[1..])
  }

  predicate Unfolded(lines: seq<bytes>) { forall i :: 0 <= i < |lines| ==> lines[i] != [] && !Folded(lines[i]) }

  lemma AddOne(hs: Headers, line: bytes)
    requires line != [] && !Folded(line)
    ensures AddLine(hs, line) == if HasColon(line) then Ok(hs + [FieldOf(line)]) else Err(MalformedHeader)
  {
    hide Find, Strip, Folded;
  }

  /** Without continuation lines, each line is a field of its own. */
  lemma {:induction false} AddUnfolded(hs: Headers, lines: seq<bytes>)
    requires Unfolded(lines)
    ensures AddLines(hs, lines).Ok? <==> AllColons(lines)
    ensures AllColons(lines) ==> AddLines(hs, lines) == Ok(hs + FieldsOf(lines))
    decreases lines
  {
    if lines == [] { assert hs + [] == hs; }
    else {
      var l, tl := lines[0], lines[1..];
      hide HasColon, FieldOf, Unfolded, Folded, AddLine, AllColons, FieldsOf;
      Cons(lines);
      TidyCons(l, tl);
      AddOne(hs, l);
      ColonsCons(l, tl);
      if HasColon(l) {
        AddUnfolded(hs + [FieldOf(l)], tl);
        if AllColons(tl) { Assoc(hs, [FieldOf(l)], FieldsOf(tl)); }
      }
    }
  }

  lemma ColonsCons(l: bytes, tl: seq<bytes>)
    ensures AllColons([l] + tl) <==> HasColon(l) && AllColons(tl)
    ensures AllColons([l] + tl) ==> FieldsOf([l] + tl) == [FieldOf(l)] + FieldsOf(tl)
  {
    hide HasColon, FieldOf;
    var all := [l] + tl;
    assert all[1..] == tl && all[0] == l;
    assert forall i :: 0 <= i < |tl| ==> tl[i] == all[i + 1];
  }

  /** A length line is a field named Content-Length, and no other line is. */
  lemma LengthLineNamed(line: bytes)
    requires HasColon(line)
    ensures IsLengthLine(line) <==> Named(FieldOf(line), "content-length")
  {
    var i, name := Find(line, ":"), "content-length";
    FramingNames();
    if IsLengthLine(line) { LengthPrefix(line); }
    if Lower(line[..i]) == name {
      FindByte(line, ':');
      assert |line[..i]| == 14 && line[14] == ':';
      assert Lower(line)[..15] == Lower(line[..14]) + ":";
    }
  }

  lemma LengthPrefix(line: bytes)
    requires IsLengthLine(line)
    ensures Find(line, ":") == 14 && Lower(line[..14]) == "content-length"
  {
    var p := "content-length" + ":";
    assert p == "content-length:";
    assert forall k :: 0 <= k < 15 ==> Lower(line)[k] == p[k];
    assert Lower(line[..14]) == "content-length";
    assert forall k :: 0 <= k < 14 ==> line[k] != ':' by {
      forall k | 0 <= k < 14 ensures line[k] != ':' { assert "content-length"[k] != ':'; }
    }
    FindByteIs(line, ':', 14);
  }

  /** Fixing the lines keeps the transfer codings and leaves one length: the body's. */
  lemma {:induction false} FixGetAll(lines: seq<bytes>, n: nat, found: bool)
    requires AllColons(lines)
    ensures AllColons(FixLines(lines, n, found))
    ensures var hs := FieldsOf(FixLines(lines, n, found));
      && GetAll(hs, "transfer-encoding") == GetAll(FieldsOf(lines), "transfer-encoding")
      && GetAll(hs, "content-length") == if HasLength(lines) && !found then [Decimal(n)] else []
  {
    if lines != [] {
      var l, tl := lines[0], lines[1..];
      assert lines == [l] + tl;
      ColonsCons(l, tl);
      LengthLineNamed(l);
      LengthFieldOf(n);
      FixGetAll(tl, n, found);
      FixGetAll(tl, n, true);
      FixCons(l, tl, n, found);
      hide HasColon, FieldOf, IsLengthLine, LengthLine, FixLines, HasLength, FieldsOf, AllColons, GetAll, Named,
          Decimal;
      ColonsCons(l, FixLines(tl, n, found));
      ColonsCons(LengthLine(n), FixLines(tl, n, true));
      GetAllCons(FieldOf(l), FieldsOf(tl));
      GetAllCons(FieldOf(l), FieldsOf(FixLines(tl, n, found)));
      GetAllCons(FieldOf(LengthLine(n)), FieldsOf(FixLines(tl, n, true)));
    }
  }

  lemma LengthFieldOf(n: nat)
    ensures HasColon(LengthLine(n)) && FieldOf(LengthLine(n)) == Field("Content-Length", Decimal(n))
    ensures Named(Field("Content-Length", Decimal(n)), "content-length")
  {
    LengthLineField(n);
    FramingNames();
  }

  lemma GetAllCons(f: Field, hs: Headers)
    ensures GetAll([f] + hs, "content-length")
         == (if Named(f, "content-length") then [f.value] else []) + GetAll(hs, "content-length")
    ensures GetAll([f] + hs, "transfer-encoding")
         == (if Named(f, "transfer-encoding") then [f.value] else []) + GetAll(hs, "transfer-encoding")
    ensures !(Named(f, "content-length") && Named(f, "transfer-encoding"))
  {
    FramingNames();
    assert ([f] + hs)[1..] == hs;
  }

  lemma TidyCons(l: bytes, tl: seq<bytes>)
    ensures LfFreeLines([l] + tl) <==> LfFree(l) && LfFreeLines(tl)
    ensures Unfolded([l] + tl) <==> l != [] && !Folded(l) && Unfolded(tl)
  {
    hide LfFree, Folded;
    var all := [l] + tl;
    assert all[0] == l && forall i :: 0 <= i < |tl| ==> all[i + 1] == tl[i];
  }

  lemma {:induction false} FixTidy(lines: seq<bytes>, n: nat, found: bool)
    requires LfFreeLines(lines)
    ensures LfFreeLines(FixLines(lines, n, found))
    ensures Unfolded(lines) ==> Unfolded(FixLines(lines, n, found))
  {
    if lines != [] {
      LengthLineFacts(n);
      assert LfFree(LengthLine(n));
      hide IsLengthLine, LengthLine, FixLines, ClosedLine, LfFree, Folded, LfFreeLines, Unfolded;
      var l, tl := lines[0], lines[1..];
      Cons(lines);
      TidyCons(l, tl);
      LengthLineUnfolded(n);
      FixTidy(tl, n, found);
      FixTidy(tl, n, true);
      FixCons(l, tl, n, found);
      TidyCons(l, FixLines(tl, n, found));
      TidyCons(LengthLine(n), FixLines(tl, n, true));
    }
  }

  lemma LengthLineUnfolded(n: nat)
    ensures !Folded(LengthLine(n))
  {}

  /** The lines with a length line put at the end when there is none and a body needs one. */
  function Completed(lines: seq<bytes>, n: nat): seq<bytes> {
    if HasLength(lines) || n == 0 then lines else lines + [LengthLine(n)]
  }

  lemma FixHeadCompleted(lines: seq<bytes>, n: nat)
    ensures FixHead(lines, n) == FixLines(Completed(lines, n), n, false)
    ensures HasLength(Completed(lines, n)) == (HasLength(lines) || n > 0)
  {
    if HasLength(lines) || n == 0 { assert FixHead(lines, n) == FixLines(lines, n, false); }
    else {
      LengthLineFacts(n);
      FixNone(lines, n, false);
      FixSnoc(lines, LengthLine(n), n);
      FixCons(LengthLine(n), [], n, false);
      assert [LengthLine(n)] + [] == [LengthLine(n)];
    }
  }

  lemma SnocNothing(last: bytes)
    requires HasColon(last)
    ensures AllColons([]) && AllColons([] + [last]) && FieldsOf([] + [last]) == FieldsOf([]) + [FieldOf(last)]
  {
    hide HasColon, FieldOf;
    assert [] + [last] == [last] && [last][1..] == [];
  }

  lemma {:induction false} FieldsOfSnoc(lines: seq<bytes>, last: bytes)
    requires AllColons(lines) && HasColon(last)
    ensures AllColons(lines + [last]) && FieldsOf(lines + [last]) == FieldsOf(lines) + [FieldOf(last)]
  {
    hide HasColon, FieldOf, FieldsOf;
    if lines == [] { SnocNothing(last); }
    else {
      var l, tl := lines[0], lines[1..];
      assert AllColons(tl) && lines == [l] + tl;
      FieldsOfSnoc(tl, last);
      ColonsCons(l, tl);
      ColonsCons(l, tl + [last]);
      assert lines + [last] == [l] + (tl + [last]);
    }
  }

  /** The fields of a fixed head: transfer codings as before, at most one length. */
  lemma FixedFields(l: bytes, tl: seq<bytes>, n: nat)
    requires AllColons(tl)
    ensures var out := FixHead([l] + tl, n);
      && out != [] && AllColons(out[1..]) && out[0] == (if IsLengthLine(l) then LengthLine(n) else l)
      && GetAll(FieldsOf(out[1..]), "transfer-encoding") == GetAll(FieldsOf(tl), "transfer-encoding")
      && GetAll(FieldsOf(out[1..]), "content-length")
         == if !IsLengthLine(l) && (HasLength(tl) || n > 0) then [Decimal(n)] else []
  {
    hide GetAll, FieldsOf, AllColons, IsLengthLine, LengthLine, FixLines, HasLength, FixHead, Decimal;
    var lines := [l] + tl;
    FixCons(l, tl, n, false);
    FixHeadCompleted(lines, n);
    var more := if HasLength(lines) || n == 0 then tl else tl + [LengthLine(n)];
    assert Completed(lines, n) == [l] + more;
    FixCons(l, more, n, false);
    assert AllColons(more) && GetAll(FieldsOf(more), "transfer-encoding")
        == GetAll(FieldsOf(tl), "transfer-encoding") by {
      if more != tl { AppendedLength(tl, n); }
    }
    FixGetAll(more, n, IsLengthLine(l));
    assert FixHead(lines, n)[1..] == FixLines(more, n, IsLengthLine(l));
  }

  lemma AppendedLength(tl: seq<bytes>, n: nat)
    requires AllColons(tl)
    ensures AllColons(tl + [LengthLine(n)])
    ensures GetAll(FieldsOf(tl + [LengthLine(n)]), "transfer-encoding") == GetAll(FieldsOf(tl), "transfer-encoding")
  {
    var f := Field("Content-Length", Decimal(n));
    LengthFieldOf(n);
    FieldsOfSnoc(tl, LengthLine(n));
    GetAllConcat(FieldsOf(tl), [f], "transfer-encoding");
    GetAllCons(f, []);
    assert [f] + [] == [f];
  }

  // ------------------------------------------------------------- parsing heads

  lemma SeenFirst(lines: seq<bytes>)
    requires lines != []
    ensures Seen(lines)[1..] == Seen(lines[1..])
    ensures Seen(lines)[0] == if |lines| == 1 then CutCr(lines[0]) else lines[0]
  {
    Cons(lines);
    if |lines| > 1 { SeenCons(lines[0], lines[1..]); ConsParts(lines[0], Seen(lines[1..])); }
  }

  /** A CR at the end of a header line is white space around its value. */
  lemma CutField(line: bytes)
    ensures HasColon(CutCr(line)) <==> HasColon(line)
    ensures HasColon(line) ==> FieldOf(CutCr(line)) == FieldOf(line)
  {
    hide HasColon, FieldOf;
    if CutCr(line) != line {
      Cut(line, |line| - 1);
      assert line[|line| - 1..] == "\r";
      FieldBeforeCr(CutCr(line));
    }
  }

  lemma FieldBeforeCr(cut: bytes)
    ensures HasColon(cut) <==> HasColon(cut + "\r")
    ensures HasColon(cut) ==> FieldOf(cut) == FieldOf(cut + "\r")
  {
    ColonBefore(cut);
    hide Find, Strip;
    if HasColon(cut) {
      var i := Find(cut, ":");
      SlicesBefore(cut, i);
      assert Blank("\r");
      hide Blank;
      StripAfterCut(cut[i + 1..], "\r");
    }
  }

  lemma SlicesBefore(cut: bytes, i: nat)
    requires i < |cut|
    ensures (cut + "\r")[..i] == cut[..i] && (cut + "\r")[i + 1..] == cut[i + 1..] + "\r"
  {}

  lemma ColonBefore(cut: bytes)
    ensures Find(cut + "\r", ":") == Find(cut, ":")
    ensures Find(cut, ":") < |cut|
  {
    FindByte(cut, ':');
    FindByte(cut + "\r", ':');
    var i := Find(cut, ":");
    if i >= 0 {
      assert (cut + "\r")[..i] == cut[..i];
      FindByteIs(cut + "\r", ':', i);
    }
  }

  predicate StrayCr(lines: seq<bytes>) { lines != [] && lines[|lines| - 1] == "\r" }

  /** The header lines that are read: a last one of a CR alone is taken for an empty one. */
  function Shown(tl: seq<bytes>): seq<bytes> { if StrayCr(tl) then tl[..|tl| - 1] else tl }

  lemma {:induction false} AddLinesSnoc(hs: Headers, lines: seq<bytes>, last: bytes)
    ensures AddLines(hs, lines + [last])
         == match AddLines(hs, lines) case Err(e) => Err(e) case Ok(more) => AddLine(more, last)
    decreases |lines|
  {
    hide AddLine;
    if lines == [] { assert [] + [last] == [last] && [last][1..] == []; }
    else {
      assert (lines + [last])[0] == lines[0] && (lines + [last])[1..] == lines[1..] + [last];
      match AddLine(hs, lines[0]) {
        case Err(_) =>
        case Ok(more) => AddLinesSnoc(more, lines[1..], last);
      }
    }
  }

  lemma UnfoldedSnoc(lines: seq<bytes>)
    requires Unfolded(lines) && lines != []
    ensures var last := lines[|lines| - 1];
      Unfolded(lines[..|lines| - 1]) && last != [] && !Folded(last) && !Folded(CutCr(last))
      && (CutCr(last) == [] <==> last == "\r")
  {}

  lemma ColonsSnoc(lines: seq<bytes>, last: bytes)
    ensures AllColons(lines + [last]) <==> AllColons(lines) && HasColon(last)
  {
    hide HasColon;
    assert forall i :: 0 <= i < |lines| ==> (lines + [last])[i] == lines[i];
    assert (lines + [last])[|lines|] == last;
  }

  /** Header lines as the reader sees them are the fields of the lines it reads. */
  lemma SeenFields(tl: seq<bytes>)
    requires Unfolded(tl)
    ensures AddLines([], Seen(tl)).Ok? <==> AllColons(Shown(tl))
    ensures AllColons(Shown(tl)) ==> AddLines([], Seen(tl)) == Ok(FieldsOf(Shown(tl)))
  {
    if tl != [] {
      var n := |tl| - 1;
      var front, last := tl[..n], tl[n];
      assert tl == front + [last];
      UnfoldedSnoc(tl);
      AddUnfolded([], front);
      assert Seen(tl) == front + [CutCr(last)];
      hide HasColon, FieldOf, Unfolded, Folded, AddLines, AllColons, FieldsOf, CutCr, Seen;
      AddLinesSnoc([], front, CutCr(last));
      ColonsSnoc(front, last);
      CutField(last);
      if AllColons(front) {
        assert [] + FieldsOf(front) == FieldsOf(front);
        if last != "\r" {
          AddOne(FieldsOf(front), CutCr(last));
          if HasColon(last) { FieldsOfSnoc(front, last); }
        }
      }
    }
  }

  lemma StartLineCr(l: bytes)
    ensures Strip(CutCr(l)) == Strip(l) && Fields(CutCr(l)) == Fields(l)
  {
    if CutCr(l) != l {
      var cut := CutCr(l);
      Cut(l, |cut|);
      assert l[|cut|..] == "\r";
      StripAfterCut(cut, "\r");
      FieldsDropLast(cut, '\r');
    }
  }

  lemma {:induction false} FieldsDropLast(s: bytes, c: char)
    requires IsSpace(c)
    ensures Fields(s + [c]) == Fields(s)
    decreases |s|
  {
    var t := s + [c];
    if s == [] { assert t[1..] == []; }
    else if IsSpace(s[0]) {
      assert t[1..] == s[1..] + [c];
      FieldsDropLast(s[1..], c);
    } else {
      var k := TokenEnd(s);
      assert forall i :: 0 <= i < |s| ==> t[i] == s[i];
      assert t[k] == (if k < |s| then s[k] else c) && IsSpace(t[k]);
      hide IsSpace;
      assert TokenEnd(t) == k;
      assert t[..k] == s[..k] && t[k..] == s[k..] + [c];
      FieldsDropLast(s[k..], c);
    }
  }

  lemma ParseTidy(lines: seq<bytes>, body: bytes)
    requires lines != [] && LfFreeLines(lines) && Unfolded(lines[1..])
    ensures var p := ParseHead(Join(lines, CRLF), body); var shown := Shown(lines[1..]);
      && (p.Ok? <==> Strip(lines[0]) != [] && |Fields(lines[0])| >= 2 && AllColons(shown))
      && (p.Ok? ==> p.value.headers == FieldsOf(shown) && p.value.body == body)
  {
    JoinedLines(lines);
    SeenFirst(lines);
    SeenFields(lines[1..]);
    StartLineCr(lines[0]);
    hide AllColons, FieldsOf, Fields, Strip, HeadLines, Join, LfFreeLines, Unfolded, AddLines, Seen, Shown, CutCr;
  }

  lemma LengthLineParses(n: nat)
    ensures Strip(LengthLine(n)) != [] && |Fields(LengthLine(n))| >= 2
  {
    hide Decimal;
    var head := "Content-Length" + ":";
    DecimalRoundTrip(n);
    assert Token(head);
    assert LengthLine(n) == head + [' '] + Decimal(n);
    FieldsPair(head, Decimal(n));
    DecimalToken(n);
    FieldsOne(Decimal(n));
    assert !Blank(LengthLine(n)) by { assert LengthLine(n)[0] == 'C'; }
  }

  lemma DecimalToken(n: nat)
    ensures Token(Decimal(n))
  {
    forall i | 0 <= i < |Decimal(n)| ensures !IsSpace(Decimal(n)[i]) { assert Decimal(n)[i] in Decimal(n); }
  }

  lemma ShapeUnfolded(lines: seq<bytes>)
    requires Tidy(lines) && HeadShape(lines)
    ensures Unfolded(lines[1..])
  {}

  lemma FixHeadTidy(lines: seq<bytes>, n: nat)
    requires lines != [] && LfFreeLines(lines) && Unfolded(lines[1..])
    ensures FixHead(lines, n) != [] && LfFreeLines(FixHead(lines, n)) && Unfolded(FixHead(lines, n)[1..])
  {
    LengthLineFacts(n);
    LengthLineUnfolded(n);
    assert LfFree(LengthLine(n));
    hide IsLengthLine, LengthLine, FixLines, HasLength, ClosedLine, LfFree, Folded;
    var l, tl := lines[0], lines[1..];
    var more := if HasLength(lines) || n == 0 then tl else tl + [LengthLine(n)];
    assert LfFreeLines(more) && Unfolded(more) && Completed(lines, n) == [l] + more;
    FixHeadCompleted(lines, n);
    FixCons(l, more, n, false);
    FixTidy(more, n, IsLengthLine(l));
    assert FixHead(lines, n)[1..] == FixLines(more, n, IsLengthLine(l));
  }

  lemma StrayFacts(n: nat)
    ensures !IsLengthLine("\r") && !HasColon("\r") && LengthLine(n) != "\r"
  {
    FindByte("\r", ':');
    LengthLineFacts(n);
  }

  lemma NoStray(lines: seq<bytes>)
    requires AllColons(lines)
    ensures !StrayCr(lines) && Shown(lines) == lines
  {
    StrayFacts(0);
  }

  /** Behind a rewritten head a line that is no length line stays where it is. */
  lemma {:induction false} FixSnocOther(lines: seq<bytes>, last: bytes, n: nat, found: bool)
    requires !IsLengthLine(last)
    ensures FixLines(lines + [last], n, found) == FixLines(lines, n, found) + [last]
    ensures HasLength(lines + [last]) == HasLength(lines)
    decreases |lines|
  {
    hide IsLengthLine, LengthLine, FixLines, HasLength;
    if lines == [] { FixOne(last, n, found); }
    else {
      var l, tl := lines[0], lines[1..];
      Cons(lines);
      FixSnocOther(tl, last, n, found);
      FixSnocOther(tl, last, n, true);
      FixCons(l, tl, n, found);
      FixCons(l, tl + [last], n, found);
      Assoc([l], tl, [last]);
      Assoc([l], FixLines(tl, n, found), [last]);
      Assoc([LengthLine(n)], FixLines(tl, n, true), [last]);
    }
  }

  lemma FixOne(last: bytes, n: nat, found: bool)
    requires !IsLengthLine(last)
    ensures FixLines([] + [last], n, found) == FixLines([], n, found) + [last]
    ensures HasLength([] + [last]) == HasLength([])
  {
    FixCons(last, [], n, found);
    assert [] + [last] == [last] + [] == [last];
  }

  /** A stray CR on the last line is passed over as before unless a length line is put behind it. */
  predicate StillRead(lines: seq<bytes>, n: nat) { !StrayCr(lines) || HasLength(lines) || n == 0 }

  /** With the stray CR kept last, the head is rewritten as without it. */
  lemma FixStray(l: bytes, front: seq<bytes>, n: nat)
    requires HasLength([l] + (front + ["\r"])) || n == 0
    ensures HasLength(front + ["\r"]) == HasLength(front)
    ensures FixHead([l] + (front + ["\r"]), n) == FixHead([l] + front, n) + ["\r"]
  {
    StrayFacts(n);
    hide IsLengthLine, LengthLine, FixLines, HasLength;
    Assoc([l], front, ["\r"]);
    FixSnocOther([l] + front, "\r", n, false);
    FixSnocOther(front, "\r", n, false);
    var fixed := FixLines([l] + front, n, false);
    assert fixed + [] == fixed && (fixed + ["\r"]) + [] == fixed + ["\r"];
  }

  lemma AppendedHead(l: bytes, tl: seq<bytes>, n: nat)
    requires !HasLength([l] + tl) && n > 0
    ensures FixHead([l] + tl, n)[1..] == tl + [LengthLine(n)]
  {
    FixNone([l] + tl, n, false);
    hide FixLines, HasLength, LengthLine;
    assert ([l] + tl + [LengthLine(n)])[1..] == tl + [LengthLine(n)];
  }

  /** The header lines read off a rewritten head: readable exactly when no length line was put
      behind a stray CR, with the transfer codings they had and at most one length. */
  lemma FixedShown(l: bytes, tl: seq<bytes>, n: nat)
    requires AllColons(Shown(tl)) && l != "\r"
    ensures var lines := [l] + tl; var out := FixHead(lines, n);
      && out != [] && out[0] == (if IsLengthLine(l) then LengthLine(n) else l)
      && (AllColons(Shown(out[1..])) <==> StillRead(lines, n))
      && (StillRead(lines, n) ==>
            && GetAll(FieldsOf(Shown(out[1..])), "transfer-encoding")
                == GetAll(FieldsOf(Shown(tl)), "transfer-encoding")
            && GetAll(FieldsOf(Shown(out[1..])), "content-length")
               == if !IsLengthLine(l) && (HasLength(tl) || n > 0) then [Decimal(n)] else [])
  {
    var lines := [l] + tl;
    StrayFacts(n);
    assert StrayCr(lines) == StrayCr(tl);
    if !StrayCr(tl) {
      FixedFields(l, tl, n);
      hide GetAll, FieldsOf, IsLengthLine, LengthLine, HasLength, FixHead, Decimal, HasColon, AllColons;
      NoStray(FixHead(lines, n)[1..]);
    } else {
      var front := tl[..|tl| - 1];
      assert tl == front + ["\r"];
      FixedStray(l, front, n);
    }
  }

  lemma FixedStray(l: bytes, front: seq<bytes>, n: nat)
    requires AllColons(front)
    ensures var lines := [l] + (front + ["\r"]); var out := FixHead(lines, n);
      && out != [] && out[0] == (if IsLengthLine(l) then LengthLine(n) else l)
      && (AllColons(Shown(out[1..])) <==> HasLength(lines) || n == 0)
      && (HasLength(lines) || n == 0 ==>
            && GetAll(FieldsOf(Shown(out[1..])), "transfer-encoding") == GetAll(FieldsOf(front), "transfer-encoding")
            && GetAll(FieldsOf(Shown(out[1..])), "content-length")
               == if !IsLengthLine(l) && (HasLength(front + ["\r"]) || n > 0) then [Decimal(n)] else [])
  {
    hide GetAll, FieldsOf, IsLengthLine, LengthLine, HasLength, FixHead, FixLines, Decimal, HasColon;
    var tl := front + ["\r"];
    var lines := [l] + tl;
    if HasLength(lines) || n == 0 {
      FixStray(l, front, n);
      FixedFields(l, front, n);
      var kept := FixHead([l] + front, n);
      assert (kept + ["\r"])[1..] == kept[1..] + ["\r"];
      ShownStray(kept[1..]);
    } else {
      FirstKept(l, tl, n);
      AppendedHead(l, tl, n);
      StrayFacts(n);
      assert !StrayCr(tl + [LengthLine(n)]);
      assert (tl + [LengthLine(n)])[|front|] == "\r";
    }
  }

  lemma FirstKept(l: bytes, tl: seq<bytes>, n: nat)
    requires !HasLength([l] + tl)
    ensures FixHead([l] + tl, n) != [] && FixHead([l] + tl, n)[0] == l && !IsLengthLine(l)
  {
    FixNone([l] + tl, n, false);
    FixCons(l, tl, n, false);
    hide FixLines, HasLength, IsLengthLine, LengthLine;
    assert ([l] + tl)[0] == l && ([l] + tl + [LengthLine(n)])[0] == l;
  }

  lemma ShownStray(kept: seq<bytes>)
    ensures Shown(kept + ["\r"]) == kept
  {
    assert (kept + ["\r"])[..|kept|] == kept;
  }

  /** A tidy request that parses still parses after rewriting exactly when no length line was put
      behind a stray CR; it then has the same body and transfer codings and states the body's
      length, unless the request line itself reads as a length line. */
  lemma FixedParses(raw: bytes)
    requires Contains(raw, BLANK) && Tidy(HeadOfRaw(raw)) && ParseRequest(raw).Ok?
    ensures var q := ParseRequest(Fixed(raw)); var n := |BodyOfRaw(raw)|; var lines := HeadOfRaw(raw);
      && (q.Ok? <==> StillRead(lines, n))
      && (q.Ok? ==>
            && q.value.body == BodyOfRaw(raw)
            && GetAll(q.value.headers, "transfer-encoding")
                == GetAll(ParseRequest(raw).value.headers, "transfer-encoding")
            && GetAll(q.value.headers, "content-length")
               == if !IsLengthLine(lines[0]) && (HasLength(lines[1..]) || n > 0) then [Decimal(n)] else [])
  {
    hide GetAll, FieldsOf, AllColons, IsLengthLine, LengthLine, HasLength, FixHead, Decimal, Split, Find, Join;
    hide ParseHead, LfFreeLines, Unfolded, Fields, Strip, Shown, StillRead;
    var lines, body := HeadOfRaw(raw), BodyOfRaw(raw);
    var out := FixHead(lines, |body|);
    RawShape(raw);
    ShapeRead(lines, body);
    Cons(lines);
    ShapeUnfolded(lines);
    ParseTidy(lines, body);
    NotBlank(lines[0]);
    FixedShown(lines[0], lines[1..], |body|);
    FixHeadShape(lines, |body|);
    ShapeRead(out, body);
    FixHeadTidy(lines, |body|);
    ParseTidy(out, body);
    LengthLineParses(|body|);
  }

  lemma NotBlank(l: bytes)
    requires Strip(l) != []
    ensures l != "\r"
  {
    StripBlank(l);
  }

  /** A reader of a rewritten request takes exactly its body off the stream, whatever follows, if
      and only if no transfer coding says chunked and the body is empty, or it is not too large to
      be read, the request line does not read as a length line and no length line was put behind a
      stray CR. */
  lemma FixedReads(raw: bytes)
    requires Contains(raw, BLANK) && Tidy(HeadOfRaw(raw)) && ParseRequest(raw).Ok?
    ensures var q, body, lines := ParseRequest(Fixed(raw)), BodyOfRaw(raw), HeadOfRaw(raw);
      (q.Ok? && q.value.body == body && TakesBody(q.value.headers, body))
      <==> FramingOf(ParseRequest(raw).value.headers) != Chunked
           && (body == []
               || (|body| <= MAX_BODY && !IsLengthLine(lines[0])
                   && (HasLength(lines) || lines[|lines| - 1] != "\r")))
  {
    hide HeadOfRaw, BodyOfRaw, Fixed, IsLengthLine, Decimal, Tidy, ParseRequest, Contains, LengthOf, TakesBody,
        FramingOf;
    FixedParses(raw);
    var q, body := ParseRequest(Fixed(raw)), BodyOfRaw(raw);
    if q.Ok? { TakenExactly(q.value.headers, body, ParseRequest(raw).value.headers, IsLengthLine(HeadOfRaw(raw)[0])); }
  }

  /** The reader takes just the body off every stream that continues it. */
  ghost predicate TakesBody(hs: Headers, body: bytes) {
    forall rest :: BodyOf(body + rest, hs, RequestBody) == Got((body, false), rest)
  }

  lemma TakenExactly(hs: Headers, body: bytes, before: Headers, asLength: bool)
    requires GetAll(hs, "transfer-encoding") == GetAll(before, "transfer-encoding")
    requires GetAll(hs, "content-length") == [] || GetAll(hs, "content-length") == [Decimal(|body|)]
    requires body != [] ==> (GetAll(hs, "content-length") == [] <==> asLength)
    ensures TakesBody(hs, body) <==> FramingOf(before) != Chunked && (body == [] || (|body| <= MAX_BODY && !asLength))
  {
    LengthOfDecimal(|body|);
    hide GetAll, Decimal, LengthOf, SaysChunked;
    var f := FramingOf(hs);
    assert f == if FramingOf(before) == Chunked then Chunked
                else if GetAll(hs, "content-length") == [] then Unframed else LengthOf(Decimal(|body|));
    FramedExactly(body, hs, f);
  }

  lemma FramedExactly(body: bytes, hs: Headers, f: Framing)
    requires f == FramingOf(hs) && (f.Sized? ==> f.length == |body|)
    ensures TakesBody(hs, body) <==> f == Sized(|body|) || (body == [] && f == Unframed)
  {
    hide FramingOf;
    forall rest | f == Sized(|body|) || (body == [] && f == Unframed)
      ensures BodyOf(body + rest, hs, RequestBody) == Got((body, false), rest)
    {
      assert (body + rest)[..|body|] == body && (body + rest)[|body|..] == rest;
    }
    assert BodyOf(body + [], hs, RequestBody) == FramedBody(body + [], f, false);
  }

  // ------------------------------------------------------ where the reader is lost

  /** A template written out as lines and a body. */
  lemma TemplateParses(lines: seq<bytes>, body: bytes)
    requires lines != [] && LfFreeLines(lines) && NoneEmpty(lines) && Unfolded(lines[1..])
    ensures var raw := Join(lines, CRLF) + BLANK + body; var shown := Shown(lines[1..]);
      && Contains(raw, BLANK) && HeadOfRaw(raw) == lines && BodyOfRaw(raw) == body && Tidy(lines)
      && (ParseRequest(raw).Ok? <==> Strip(lines[0]) != [] && |Fields(lines[0])| >= 2 && AllColons(shown))
      && (ParseRequest(raw).Ok? ==> ParseRequest(raw).value.headers == FieldsOf(shown))
  {
    forall i | 0 <= i < |lines| ensures !Contains(lines[i], CRLF) { NoLfNoCrlf(lines[i]); }
    assert forall i :: 1 <= i < |lines| ==> lines[1..][i - 1] == lines[i];
    hide Contains, LfFree, Folded;
    ShapeRead(lines, body);
    ParseTidy(lines, body);
    hide AllColons, FieldsOf, Shown, Strip, Fields, Join;
  }

  const LENGTH_LINES: seq<bytes> := ["Content-Length: 5"]

  /** A request line that reads as a length line. */
  const LENGTH_TEMPLATE: bytes := Join(LENGTH_LINES, CRLF) + BLANK + "b"

  lemma LengthTemplate()
    ensures LENGTH_TEMPLATE == "Content-Length: 5\r\n\r\nb"
    ensures LfFreeLines(LENGTH_LINES) && NoneEmpty(LENGTH_LINES) && LENGTH_LINES[1..] == []
    ensures Decimal(5) == "5" && LengthLine(5) == LENGTH_LINES[0]
  {}

  /** It is rewritten, and nothing frames the body. */
  lemma LengthLineLost()
    ensures LENGTH_TEMPLATE == "Content-Length: 5\r\n\r\nb" && ParseRequest(LENGTH_TEMPLATE).Ok?
    ensures var q := ParseRequest(Fixed(LENGTH_TEMPLATE));
      q.Ok? && q.value.body == "b" && !TakesBody(q.value.headers, "b")
  {
    LengthTemplate();
    assert FramingOf([]) == Unframed && AllColons([]) && Shown([]) == [] && FieldsOf([]) == [] && Unfolded([]);
    hide HeadOfRaw, BodyOfRaw, Fixed, IsLengthLine, ParseRequest, TakesBody, Contains, Join, Decimal, LengthLine;
    hide FramingOf, Strip, Fields, LfFreeLines, NoneEmpty, Tidy, GetAll, Shown, FieldsOf, AllColons;
    LengthLineParses(5);
    LengthLineFacts(5);
    TemplateParses(LENGTH_LINES, "b");
    FixedParses(LENGTH_TEMPLATE);
    FixedReads(LENGTH_TEMPLATE);
  }

  const STRAY_LINES: seq<bytes> := ["A /", "\r"]

  /** A stray CR on the last line. */
  const STRAY_TEMPLATE: bytes := Join(STRAY_LINES, CRLF) + BLANK + "b"

  lemma StrayTemplate()
    ensures STRAY_TEMPLATE == "A /\r\n\r\r\n\r\nb"
    ensures LfFreeLines(STRAY_LINES) && NoneEmpty(STRAY_LINES) && STRAY_LINES[1..] == ["\r"] && Unfolded(["\r"])
    ensures StrayCr(STRAY_LINES)
  {}

  lemma StrayStart()
    ensures Strip("A /") != [] && |Fields("A /")| == 2 && !IsLengthLine("A /")
  {
    FieldsPair("A", "/");
    FieldsOne("/");
    StripBlank("A /");
    assert "A" + [' '] + "/" == "A /" && "A /"[0] == 'A';
  }

  /** The template parses, and the rewritten one does not. */
  lemma StrayLost()
    ensures STRAY_TEMPLATE == "A /\r\n\r\r\n\r\nb"
    ensures ParseRequest(STRAY_TEMPLATE).Ok? && ParseRequest(Fixed(STRAY_TEMPLATE)).Err?
  {
    StrayTemplate();
    StrayStart();
    StrayFacts(1);
    ShownStray([]);
    assert AllColons([]) && [] + ["\r"] == ["\r"];
    assert !HasLength(STRAY_LINES) by { assert STRAY_LINES[1..][1..] == []; }
    hide HeadOfRaw, BodyOfRaw, Fixed, IsLengthLine, ParseRequest, Contains, Join, HasLength, Strip, Fields, Shown;
    hide LfFreeLines, NoneEmpty, Tidy, GetAll, AllColons, Unfolded, HasColon, LengthLine, StrayCr;
    TemplateParses(STRAY_LINES, "b");
    FixedParses(STRAY_TEMPLATE);
  }
}
