/** Auto-marking: guessing the payload positions of a request. */
module IntruderMark {
  import opened Bytes
  import opened Ascii
  import opened HttpMessage
  import opened IntruderTemplate

  // -------------------------------------------------------------- marking pairs

  function Quoted(v: bytes): bytes { [MARKER] + v + [MARKER] }

  /** A `name=value` pair with its value marked; other pieces stay as they are. */
  function MarkPair(pair: bytes): bytes {
    var i := Find(pair, "=");
    if i != -1 && i + 1 < |pair| then pair[..i] + "=" + Quoted(pair[i + 1..]) else pair
  }

  /** The values marked in a pair: one or none. */
  function PairValues(pair: bytes): seq<bytes> {
    var i := Find(pair, "=");
    if i != -1 && i + 1 < |pair| then [pair[i + 1..]] else []
  }

  function MarkAll(pairs: seq<bytes>): (r: seq<bytes>)
    ensures |r| == |pairs|
  { if pairs == [] then [] else [MarkPair(pairs[0])] + MarkAll(pairs[1..]) }

  function AllValues(pairs: seq<bytes>): seq<bytes> {
    if pairs == [] then [] else PairValues(pairs[0]) + AllValues(pairs[1..])
  }

  function MarkBlob(blob: bytes, sep: bytes): bytes
    requires |sep| > 0
  { Join(MarkAll(Split(blob, sep)), sep) }

  method MarkPairs(blob: bytes, sep: bytes) returns (marked: bytes, count: nat)
    requires |sep| > 0
    ensures marked == MarkBlob(blob, sep) && count == |AllValues(Split(blob, sep))|
  {
    var pairs := Split(blob, sep);
    var out: seq<bytes> := [];
    count := 0;
    for k := 0 to |pairs|
      invariant MarkAll(pairs) == out + MarkAll(pairs[k..])
      invariant |AllValues(pairs)| == count + |AllValues(pairs[k..])|
    {
      MarkAllStep(pairs, k);
      hide MarkAll, AllValues, Find;
      var pair := pairs[k];
      Assoc(out, [MarkPair(pair)], MarkAll(pairs[k + 1..]));
      var i := Find(pair, "=");
      if i != -1 && pair[i + 1..] != [] {
        out := out + [pair[..i] + "=" + Quoted(pair[i + 1..])];
        count := count + 1;
      } else {
        out := out + [pair];
      }
    }
    assert pairs[|pairs|..] == [] && out + [] == out;
    marked := Join(out, sep);
  }

  lemma MarkAllStep(pairs: seq<bytes>, k: nat)
    requires k < |pairs|
    ensures MarkAll(pairs[k..]) == [MarkPair(pairs[k])] + MarkAll(pairs[k + 1..])
    ensures AllValues(pairs[k..]) == PairValues(pairs[k]) + AllValues(pairs[k + 1..])
  {
    assert pairs[k..][1..] == pairs[k + 1..];
  }

  // ------------------------------------------------------- balanced templates

  /** A template whose positions hold exactly these base values. */
  predicate Holds(s: bytes, bases: seq<bytes>) {
    ParsePositions(s).Ok? && ParsePositions(s).value.1 == bases
  }

  function Glue(p: seq<bytes>, q: seq<bytes>): seq<bytes>
    requires p != [] && q != []
  {
    p[..|p| - 1] + [p[|p| - 1] + q[0]] + q[1..]
  }

  lemma {:induction false} SplitConcat(a: bytes, b: bytes)
    ensures Split(a + b, [MARKER]) == Glue(Split(a, [MARKER]), Split(b, [MARKER]))
    decreases |a|
  {
    FindByte(a, MARKER);
    var i := Find(a, [MARKER]);
    if i == -1 { SplitPlainFirst(a, b); }
    else {
      var p, rest := a[..i], a[i + 1..];
      hide Find, Split, Glue, Plain;
      assert a == p + [MARKER] + rest;
      SplitPlain(p, rest);
      Assoc(p + [MARKER], rest, b);
      SplitPlain(p, rest + b);
      SplitConcat(rest, b);
      GlueCons(p, Split(rest, [MARKER]), Split(b, [MARKER]));
    }
  }

  lemma GlueCons(x: bytes, p: seq<bytes>, q: seq<bytes>)
    requires p != [] && q != []
    ensures [x] + Glue(p, q) == Glue([x] + p, q)
  {}

  lemma SplitPlainFirst(a: bytes, b: bytes)
    requires Plain(a)
    ensures Split(a + b, [MARKER]) == Glue([a], Split(b, [MARKER])) && Split(a, [MARKER]) == [a]
  {
    SplitPlain(a, []);
    FindByte(b, MARKER);
    hide Split, Find, Glue;
    var i := Find(b, [MARKER]);
    if i == -1 {
      SplitPlain(a + b, []);
      SplitPlain(b, []);
      GlueOne(a, b, []);
      assert [b] + [] == [b] && [a + b] + [] == [a + b];
    } else {
      SplitFirstAt(a, b, i);
    }
  }

  lemma SplitFirstAt(a: bytes, b: bytes, i: nat)
    requires Plain(a) && i < |b| && b[i] == MARKER && Plain(b[..i])
    ensures Split(a + b, [MARKER]) == Glue([a], Split(b, [MARKER]))
  {
    hide Split, Glue;
    var p, rest := b[..i], b[i + 1..];
    assert b == p + [MARKER] + rest;
    SplitPlain(p, rest);
    SplitAfter(a, p, rest);
    GlueOne(a, p, Split(rest, [MARKER]));
  }

  lemma SplitAfter(a: bytes, p: bytes, rest: bytes)
    requires Plain(a) && Plain(p)
    ensures Split(a + (p + [MARKER] + rest), [MARKER]) == [a + p] + Split(rest, [MARKER])
  {
    assert a + (p + [MARKER] + rest) == (a + p) + [MARKER] + rest;
    SplitPlain(a + p, rest);
  }

  lemma GlueOne(a: bytes, p: bytes, q: seq<bytes>)
    ensures Glue([a], [p] + q) == [a + p] + q
  {
    assert ([p] + q)[1..] == q;
  }

  lemma OddsFirst<T>(x: T, q: seq<T>)
    requires |q| > 0
    ensures Odds([x] + q[1..]) == Odds(q)
  {
    if |q| > 1 { assert ([x] + q[1..])[2..] == q[2..]; }
  }

  lemma {:induction false} OddsGlue(p: seq<bytes>, q: seq<bytes>)
    requires |p| % 2 == 1 && |q| > 0
    ensures Odds(Glue(p, q)) == Odds(p) + Odds(q)
    decreases |p|
  {
    if |p| == 1 {
      OddsFirst(p[0] + q[0], q);
      assert Glue(p, q) == [p[0] + q[0]] + q[1..] && [] + Odds(q) == Odds(q);
    } else {
      OddsGlue(p[2..], q);
      hide Glue, Odds;
      Cons(p);
      Cons(p[1..]);
      assert p[1..][1..] == p[2..];
      GlueCons(p[1], p[2..], q);
      GlueCons(p[0], p[1..], q);
      TakeTwo(p[0], p[1], Glue(p[2..], q));
      TakeTwo(p[0], p[1], p[2..]);
      Assoc([p[1]], Odds(p[2..]), Odds(q));
    }
  }

  /** Balanced texts put end to end are balanced, and their positions follow one another. */
  lemma HoldsConcat(a: bytes, x: seq<bytes>, b: bytes, y: seq<bytes>)
    requires Holds(a, x) && Holds(b, y)
    ensures Holds(a + b, x + y)
  {
    SplitConcat(a, b);
    OddsGlue(Split(a, [MARKER]), Split(b, [MARKER]));
  }

  lemma HoldsPlain(s: bytes)
    requires Plain(s)
    ensures Holds(s, [])
  {
    SplitPlain(s, []);
  }

  lemma HoldsQuoted(v: bytes)
    requires Plain(v)
    ensures Holds(Quoted(v), [v]) && Unmark(Quoted(v)) == v
  {
    assert Quoted(v) == [] + [MARKER] + (v + [MARKER] + []);
    SplitPlain([], v + [MARKER] + []);
    SplitPlain(v, []);
    SplitPlain([], []);
    TakeTwo([], v, [[]]);
    assert [v] + [] == [v];
    UnmarkCut([], v + [MARKER] + []);
    UnmarkCut(v, []);
  }

  /** A text `t` is `s` with the given positions marked in it. */
  predicate Marks(t: bytes, s: bytes, bases: seq<bytes>) { Holds(t, bases) && Unmark(t) == s }

  lemma MarksConcat(a: bytes, sa: bytes, x: seq<bytes>, b: bytes, sb: bytes, y: seq<bytes>)
    requires Marks(a, sa, x) && Marks(b, sb, y)
    ensures Marks(a + b, sa + sb, x + y)
  {
    HoldsConcat(a, x, b, y);
    UnmarkConcat(a, b);
  }

  lemma MarksPlain(s: bytes)
    requires Plain(s)
    ensures Marks(s, s, [])
  {
    HoldsPlain(s);
    UnmarkPlain(s);
  }

  lemma MarkPairMarks(pair: bytes)
    requires Plain(pair)
    ensures Marks(MarkPair(pair), pair, PairValues(pair))
  {
    FindByte(pair, '=');
    var i := Find(pair, "=");
    if i != -1 && i + 1 < |pair| {
      var v, front := pair[i + 1..], pair[..i] + "=";
      assert front + v == pair;
      HoldsQuoted(v);
      MarksPlain(front);
      MarksConcat(front, front, [], Quoted(v), v, [v]);
      assert [] + [v] == [v];
    } else { MarksPlain(pair); }
  }

  lemma {:induction false} MarkAllMarks(pairs: seq<bytes>, sep: bytes)
    requires pairs != [] && Plain(sep) && AllPlain(pairs)
    ensures Marks(Join(MarkAll(pairs), sep), Join(pairs, sep), AllValues(pairs))
  {
    MarkPairMarks(pairs[0]);
    assert PairValues(pairs[0]) + [] == PairValues(pairs[0]);
    if |pairs| == 1 {
      assert AllValues(pairs[1..]) == [];
    } else {
      hide Marks, MarkPair, PairValues;
      var m, tl := MarkPair(pairs[0]), pairs[1..];
      MarkAllMarks(tl, sep);
      MarksPlain(sep);
      MarksConcat(m, pairs[0], PairValues(pairs[0]), sep, sep, []);
      MarksConcat(m + sep, pairs[0] + sep, PairValues(pairs[0]), Join(MarkAll(tl), sep), Join(tl, sep), AllValues(tl));
      assert MarkAll(pairs)[1..] == MarkAll(tl);
    }
  }

  lemma {:induction false} SplitPlainPieces(s: bytes, pat: bytes)
    requires Plain(s) && |pat| > 0
    ensures AllPlain(Split(s, pat))
    decreases |s|
  {
    var i := Find(s, pat);
    if i != -1 { SplitPlainPieces(s[i + |pat|..], pat); }
  }

  lemma {:induction false} ValuesNonEmpty(pairs: seq<bytes>)
    ensures forall i :: 0 <= i < |AllValues(pairs)| ==> AllValues(pairs)[i] != []
  {
    if pairs != [] { ValuesNonEmpty(pairs[1..]); }
  }

  /** Marking a blob deletes to the blob, and its positions are the values counted. */
  lemma MarkBlobMarks(blob: bytes, sep: bytes)
    requires Plain(blob) && Plain(sep) && |sep| > 0
    ensures Marks(MarkBlob(blob, sep), blob, AllValues(Split(blob, sep)))
    ensures forall i :: 0 <= i < |AllValues(Split(blob, sep))| ==> AllValues(Split(blob, sep))[i] != []
  {
    SplitPlainPieces(blob, sep);
    MarkAllMarks(Split(blob, sep), sep);
    JoinSplit(blob, sep);
    ValuesNonEmpty(Split(blob, sep));
  }

  // ------------------------------------------------------------ whole requests

  predicate IsCookie(f: Field) { Lower(f.name) == "cookie" && f.value != [] }

  function MarkField(f: Field): Field { if IsCookie(f) then f.(value := MarkBlob(f.value, ";")) else f }

  function FieldValues(f: Field): seq<bytes> { if IsCookie(f) then AllValues(Split(f.value, ";")) else [] }

  function MarkFields(hs: Headers): (r: Headers)
    ensures |r| == |hs| && forall j :: 0 <= j < |hs| ==> r[j] == MarkField(hs[j])
  { if hs == [] then [] else [MarkField(hs[0])] + MarkFields(hs[1..]) }

  function FieldsValues(hs: Headers): seq<bytes> {
    if hs == [] then [] else FieldValues(hs[0]) + FieldsValues(hs[1..])
  }

  function MarkTarget(t: bytes): bytes {
    var i := Find(t, "?");
    if i == -1 then t else t[..i] + "?" + MarkBlob(t[i + 1..], "&")
  }

  function TargetValues(t: bytes): seq<bytes> {
    var i := Find(t, "?");
    if i == -1 then [] else AllValues(Split(t[i + 1..], "&"))
  }

  /** Whether the body is a form: the first Content-Type says so. */
  predicate IsForm(hs: Headers, body: bytes) {
    var ctype := GetHeader(hs, "content-type");
    body != [] && ctype.Some? && Contains(Lower(ctype.value), "x-www-form-urlencoded")
  }

  function MarkRequest(r: Request): Request {
    var hs := MarkFields(r.headers);
    r.(target := MarkTarget(r.target), headers := hs,
       body := if IsForm(hs, r.body) then MarkBlob(r.body, "&") else r.body)
  }

  /** The values marked, in the order they stand in the printed request. */
  function RequestValues(r: Request): seq<bytes> {
    TargetValues(r.target) + FieldsValues(r.headers)
    + if IsForm(MarkFields(r.headers), r.body) then AllValues(Split(r.body, "&")) else []
  }

  method MarkCookies(hs: Headers) returns (headers: Headers, total: nat)
    ensures headers == MarkFields(hs) && total == |FieldsValues(hs)|
  {
    headers, total := hs, 0;
    for i := 0 to |headers|
      invariant |headers| == |hs|
      invariant forall j :: 0 <= j < i ==> headers[j] == MarkField(hs[j])
      invariant forall j :: i <= j < |hs| ==> headers[j] == hs[j]
      invariant total + |FieldsValues(hs[i..])| == |FieldsValues(hs)|
    {
      FieldsValuesStep(hs, i);
      hide MarkFields, FieldsValues, Split, MarkBlob, AllValues;
      var f := headers[i];
      if Lower(f.name) == "cookie" && f.value != [] {
        var marked, n := MarkPairs(f.value, ";");
        headers := headers[i := Field(f.name, marked)];
        total := total + n;
      }
    }
    assert hs[|hs|..] == [];
  }

  method MarkPositions(raw: bytes, clear: bool) returns (r: Result<(bytes, nat), ParseError>)
    ensures clear ==> r == Ok((Unmark(raw), 0))
    ensures !clear ==> r == match ParseRequest(Unmark(raw))
      case Err(e) => Err(e)
      case Ok(req) => Ok((Raw(MarkRequest(req)), |RequestValues(req)|))
  {
    var stripped := Unmark(raw);
    if clear { return Ok((stripped, 0)); }
    var parsed := ParseRequest(stripped);
    if parsed.Err? { return Err(parsed.error); }
    var req, total := MarkParsed(parsed.value);
    r := Ok((Raw(req), total));
  }

  /** The part of MarkPositions after parsing. */
  method MarkParsed(r: Request) returns (req: Request, total: nat)
    ensures req == MarkRequest(r) && total == |RequestValues(r)|
  {
    hide Split, AllValues, MarkFields, FieldsValues, MarkBlob, Raw, Contains;
    var n, marked;
    req, total := r, 0;
    var q := Find(r.target, "?");
    if q != -1 {
      marked, n := MarkPairs(r.target[q + 1..], "&");
      req, total := req.(target := r.target[..q] + "?" + marked), total + n;
    }
    var headers;
    headers, n := MarkCookies(r.headers);
    req, total := req.(headers := headers), total + n;
    var ctype := GetHeader(headers, "content-type");
    if r.body != [] && ctype.Some? && Contains(Lower(ctype.value), "x-www-form-urlencoded") {
      marked, n := MarkPairs(r.body, "&");
      req, total := req.(body := marked), total + n;
    }
  }

  lemma FieldsValuesStep(hs: Headers, i: nat)
    requires i < |hs|
    ensures FieldsValues(hs[i..]) == FieldValues(hs[i]) + FieldsValues(hs[i + 1..])
  {
    assert hs[i..][1..] == hs[i + 1..];
  }

  // --------------------------------------------- requests without the marker byte

  predicate PlainField(f: Field) { Plain(f.name) && Plain(f.value) }

  predicate PlainFields(hs: Headers) { forall i :: 0 <= i < |hs| ==> PlainField(hs[i]) }

  predicate PlainRequest(r: Request) {
    Plain(r.verb) && Plain(r.target) && Plain(r.version) && PlainFields(r.headers) && Plain(r.body)
  }

  lemma {:induction false} FieldsPlain(s: bytes)
    requires Plain(s)
    ensures AllPlain(Fields(s))
    decreases |s|
  {
    if s != [] { FieldsPlain(if IsSpace(s[0]) then s[1..] else s[TokenEnd(s)..]); }
  }

  lemma {:induction false} CutAllPlain(lines: seq<bytes>)
    requires AllPlain(lines)
    ensures AllPlain(CutAll(lines))
  {
    if lines != [] { CutAllPlain(lines[1..]); }
  }

  lemma LinePlain(line: bytes)
    requires Plain(line)
    ensures Plain(Strip(line))
    ensures var i := Find(line, ":"); i >= 0 ==> PlainField(Field(line[..i], Strip(line[i + 1..])))
  {
    var k := StripSlice(line);
    var i := Find(line, ":");
    if i >= 0 { var l := StripSlice(line[i + 1..]); }
    hide Strip, Find;
  }

  lemma FoldPlain(f: Field, v: bytes)
    requires PlainField(f) && Plain(v)
    ensures PlainField(Field(f.name, f.value + " " + v))
  {}

  lemma ReplacePlain(hs: Headers, f: Field)
    requires PlainFields(hs) && PlainField(f) && hs != []
    ensures PlainFields(hs[|hs| - 1 := f])
  {
    hide PlainField;
  }

  lemma AppendPlain(hs: Headers, f: Field)
    requires PlainFields(hs) && PlainField(f)
    ensures PlainFields(hs + [f])
  {
    hide PlainField;
  }

  lemma AddLinePlain(hs: Headers, line: bytes)
    requires PlainFields(hs) && Plain(line) && AddLine(hs, line).Ok?
    ensures PlainFields(AddLine(hs, line).value)
  {
    LinePlain(line);
    hide Strip, Find, PlainField, Plain, Folded;
    if line == [] {}
    else if Folded(line) && hs != [] {
      FoldPlain(hs[|hs| - 1], Strip(line));
      ReplacePlain(hs, Field(hs[|hs| - 1].name, hs[|hs| - 1].value + " " + Strip(line)));
    } else { AppendPlain(hs, Field(line[..Find(line, ":")], Strip(line[Find(line, ":") + 1..]))); }
  }

  lemma {:induction false} AddLinesPlain(hs: Headers, lines: seq<bytes>)
    requires PlainFields(hs) && AllPlain(lines) && AddLines(hs, lines).Ok?
    ensures PlainFields(AddLines(hs, lines).value)
    decreases lines
  {
    hide PlainFields, AddLine;
    if lines != [] {
      assert forall i :: 0 <= i < |lines| - 1 ==> Plain(lines[1..][i]);
      AddLinePlain(hs, lines[0]);
      AddLinesPlain(AddLine(hs, lines[0]).value, lines[1..]);
    }
  }

  lemma ParsedPlain(raw: bytes)
    requires Plain(raw) && ParseRequest(raw).Ok?
    ensures PlainRequest(ParseRequest(raw).value)
  {
    var (head, body) := HeadBody(raw);
    assert Plain(head) && Plain(body);
    ParsedHeadPlain(head, body);
  }

  lemma ParsedHeadPlain(head: bytes, body: bytes)
    requires Plain(head) && Plain(body) && ParseHead(head, body).Ok?
    ensures PlainRequest(ParseHead(head, body).value)
  {
    hide Fields, AddLines, PlainFields, Split, Strip;
    var lines := HeadLines(head);
    SplitPlainPieces(head, "\n");
    CutAllPlain(Split(head, "\n"));
    FieldsPlain(lines[0]);
    assert PlainFields([]) by { EmptyPlain(); }
    assert AllPlain(lines[1..]);
    assert Plain("HTTP/1.1");
    AddLinesPlain([], lines[1..]);
  }

  lemma EmptyPlain()
    ensures PlainFields([])
  {}

  // ------------------------------------------------------------ the main result

  lemma MarkTargetMarks(t: bytes)
    requires Plain(t)
    ensures Marks(MarkTarget(t), t, TargetValues(t))
  {
    FindByte(t, '?');
    var i := Find(t, "?");
    if i == -1 { MarksPlain(t); }
    else {
      var front, query := t[..i] + "?", t[i + 1..];
      assert front + query == t;
      MarksPlain(front);
      MarkBlobMarks(query, "&");
      hide Marks, MarkBlob, AllValues, Split;
      MarksConcat(front, front, [], MarkBlob(query, "&"), query, TargetValues(t));
      assert [] + TargetValues(t) == TargetValues(t);
    }
  }

  lemma MarkFieldMarks(f: Field)
    requires PlainField(f)
    ensures Marks(HeaderLine(MarkField(f)), HeaderLine(f), FieldValues(f))
  {
    var front, v := f.name + ": ", MarkField(f).value;
    assert Plain(front);
    MarksPlain(front);
    if IsCookie(f) { MarkBlobMarks(f.value, ";"); } else { MarksPlain(f.value); }
    hide Marks, MarkBlob, AllValues, Split;
    MarksConcat(front, front, [], v, f.value, FieldValues(f));
    assert [] + FieldValues(f) == FieldValues(f);
  }

  lemma {:induction false} MarkFieldsMarks(hs: Headers)
    requires PlainFields(hs)
    ensures Marks(HeaderBytes(MarkFields(hs)), HeaderBytes(hs), FieldsValues(hs))
  {
    if hs == [] { MarksPlain([]); }
    else {
      hide Marks, MarkField, FieldValues, HeaderLine;
      var f, tl := hs[0], hs[1..];
      assert PlainFields(tl);
      MarkFieldMarks(f);
      MarkFieldsMarks(tl);
      MarksPlain(CRLF);
      MarksConcat(HeaderLine(MarkField(f)), HeaderLine(f), FieldValues(f), CRLF, CRLF, []);
      assert FieldValues(f) + [] == FieldValues(f);
      MarksConcat(HeaderLine(MarkField(f)) + CRLF, HeaderLine(f) + CRLF, FieldValues(f),
                  HeaderBytes(MarkFields(tl)), HeaderBytes(tl), FieldsValues(tl));
      assert MarkFields(hs)[1..] == MarkFields(tl);
    }
  }

  lemma MarksAround(a: bytes, t: bytes, s: bytes, x: seq<bytes>, b: bytes)
    requires Plain(a) && Plain(b) && Marks(t, s, x)
    ensures Marks(a + t + b, a + s + b, x)
  {
    MarksPlain(a); MarksPlain(b);
    MarksConcat(a, a, [], t, s, x);
    MarksConcat(a + t, a + s, [] + x, b, b, []);
    assert [] + x + [] == x;
  }

  lemma BodyMarks(r: Request)
    requires PlainRequest(r)
    ensures Marks(MarkRequest(r).body, r.body,
                  if IsForm(MarkFields(r.headers), r.body) then AllValues(Split(r.body, "&")) else [])
  {
    if IsForm(MarkFields(r.headers), r.body) { MarkBlobMarks(r.body, "&"); } else { MarksPlain(r.body); }
  }

  lemma StartMarks(r: Request)
    requires PlainRequest(r)
    ensures Marks(StartLine(MarkRequest(r)), StartLine(r), TargetValues(r.target))
  {
    var a, b := r.verb + " ", " " + r.version;
    MarkTargetMarks(r.target);
    assert Plain(a) && Plain(b);
    hide Marks, TargetValues;
    MarksAround(a, MarkTarget(r.target), r.target, TargetValues(r.target), b);
    assert StartLine(r) == a + r.target + b;
    assert StartLine(MarkRequest(r)) == a + MarkTarget(r.target) + b;
  }

  lemma RawMarks(r: Request)
    requires PlainRequest(r)
    ensures Marks(Raw(MarkRequest(r)), Raw(r), RequestValues(r))
  {
    var m := MarkRequest(r);
    var x, y := TargetValues(r.target), FieldsValues(r.headers);
    StartMarks(r);
    MarkFieldsMarks(r.headers);
    BodyMarks(r);
    MarksPlain(CRLF);
    hide Marks, TargetValues, FieldsValues, IsForm, MarkFields, HeaderBytes, StartLine, MarkBlob, MarkTarget;
    var start, start' := StartLine(r), StartLine(m);
    var hs, hs' := HeaderBytes(r.headers), HeaderBytes(m.headers);
    MarksConcat(start', start, x, CRLF, CRLF, []);
    assert x + [] == x;
    MarksConcat(start' + CRLF, start + CRLF, x, hs', hs, y);
    MarksConcat(start' + CRLF + hs', start + CRLF + hs, x + y, CRLF, CRLF, []);
    assert x + y + [] == x + y;
    MarksConcat(start' + CRLF + hs' + CRLF, start + CRLF + hs + CRLF, x + y, m.body, r.body,
                if IsForm(MarkFields(r.headers), r.body) then AllValues(Split(r.body, "&")) else []);
  }

  lemma RequestValuesNonEmpty(r: Request)
    ensures forall i :: 0 <= i < |RequestValues(r)| ==> RequestValues(r)[i] != []
  {
    ValuesNonEmpty(Split(r.body, "&"));
    FieldsValuesNonEmpty(r.headers);
    var i := Find(r.target, "?");
    if i != -1 { ValuesNonEmpty(Split(r.target[i + 1..], "&")); }
  }

  lemma {:induction false} FieldsValuesNonEmpty(hs: Headers)
    ensures forall i :: 0 <= i < |FieldsValues(hs)| ==> FieldsValues(hs)[i] != []
  {
    if hs != [] {
      FieldsValuesNonEmpty(hs[1..]);
      ValuesNonEmpty(Split(hs[0].value, ";"));
    }
  }

  /** Auto-marking any request that parses gives a balanced template with exactly the
      reported number of positions, all non-empty, and putting their own values in gives the
      request as printed: the original bytes exactly when those were in printed form. */
  lemma MarkingSound(raw: bytes)
    requires ParseRequest(Unmark(raw)).Ok?
    ensures var r := ParseRequest(Unmark(raw)).value;
      var marked := ParsePositions(Raw(MarkRequest(r)));
      && marked.Ok? && marked.value.1 == RequestValues(r) && |marked.value.0| == |RequestValues(r)| + 1
      && (forall i :: 0 <= i < |RequestValues(r)| ==> marked.value.1[i] != [])
      && Build(marked.value.0, marked.value.1) == Unmark(Raw(MarkRequest(r))) == Raw(r)
  {
    var r := ParseRequest(Unmark(raw)).value;
    ParsedPlain(Unmark(raw));
    RawMarks(r);
    BuildBases(Raw(MarkRequest(r)));
    RequestValuesNonEmpty(r);
  }

  /** Marking a printed request and filling in the marked values changes no byte of it. */
  lemma MarkingPrinted(r: Request)
    requires Printed(r) && Plain(Raw(r))
    ensures var marked := ParsePositions(Raw(MarkRequest(r)));
      marked.Ok? && |marked.value.0| == |marked.value.1| + 1 && Build(marked.value.0, marked.value.1) == Raw(r)
  {
    UnmarkPlain(Raw(r));
    ParsePrinted(r);
    MarkingSound(Raw(r));
  }
}
