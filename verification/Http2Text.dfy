/** The editable text form of an HTTP/2 request: printing and parsing.
    Pseudo-header fields are those of RFC 9113 section 8.3. */
module Http2Text {
  import opened Bytes
  import opened Ascii
  import opened HttpMessage

  datatype Http2Error = EmptyRequest | MalformedFirstLine | MalformedField | NoAuthority

  predicate IsPseudo(f: Field) { f.name != [] && f.name[0] == ':' }

  /** Value of the first field with exactly this name. */
  function Get(hs: Headers, name: bytes): Option<bytes> {
    if hs == [] then None else if hs[0].name == name then Some(hs[0].value) else Get(hs[1..], name)
  }

  function Pseudo(hs: Headers): Headers {
    if hs == [] then [] else (if IsPseudo(hs[0]) then [hs[0]] else []) + Pseudo(hs[1..])
  }

  function Regular(hs: Headers): Headers {
    if hs == [] then [] else (if IsPseudo(hs[0]) then [] else [hs[0]]) + Regular(hs[1..])
  }

  /** Python's `value or default`. */
  function Or(v: Option<bytes>, default: bytes): bytes {
    if v.Some? && v.value != [] then v.value else default
  }

  function Method(hs: Headers): bytes { Or(Get(Pseudo(hs), ":method"), "GET") }

  function Path(hs: Headers): bytes { Or(Get(Pseudo(hs), ":path"), "/") }

  lemma {:induction false} GetFirst(hs: Headers, name: bytes, k: nat)
    requires name != [] && name[0] == ':' && k <= |hs| && forall j :: 0 <= j < k ==> hs[j].name != name
    ensures Get(Pseudo(hs), name) == if k == |hs| then None else if hs[k].name == name then Some(hs[k].value)
        else Get(Pseudo(hs[k..]), name)
  {
    if k > 0 {
      var tl := hs[1..];
      assert forall j :: 0 <= j < k - 1 ==> tl[j] == hs[j + 1];
      GetFirst(tl, name, k - 1);
      assert tl[k - 1..] == hs[k..];
      if IsPseudo(hs[0]) { assert ([hs[0]] + Pseudo(tl))[1..] == Pseudo(tl); }
      else { assert [] + Pseudo(tl) == Pseudo(tl); }
    } else if hs != [] { assert ([hs[0]] + Pseudo(hs[1..]))[0] == hs[0]; assert hs[0..] == hs; }
  }

  /** The method and the path are the first fields of those names; without one, or with an empty one, they
      are GET and a slash. */
  lemma RequestLineMeans(hs: Headers, k: nat)
    requires k <= |hs|
    ensures (forall j :: 0 <= j < k ==> hs[j].name != ":method") ==>
      (k < |hs| && hs[k].name == ":method" && hs[k].value != "" ==> Method(hs) == hs[k].value)
      && (k == |hs| || (hs[k].name == ":method" && hs[k].value == "") ==> Method(hs) == "GET")
    ensures (forall j :: 0 <= j < k ==> hs[j].name != ":path") ==>
      (k < |hs| && hs[k].name == ":path" && hs[k].value != "" ==> Path(hs) == hs[k].value)
      && (k == |hs| || (hs[k].name == ":path" && hs[k].value == "") ==> Path(hs) == "/")
  {
    if forall j :: 0 <= j < k ==> hs[j].name != ":method" { GetFirst(hs, ":method", k); }
    if forall j :: 0 <= j < k ==> hs[j].name != ":path" { GetFirst(hs, ":path", k); }
    hide Pseudo, Get;
  }

  predicate OnFirstLine(name: bytes) { name == ":method" || name == ":path" }

  /** Pseudo-headers the first line does not show. */
  function Others(ps: Headers): Headers {
    if ps == [] then [] else (if OnFirstLine(ps[0].name) then [] else [ps[0]]) + Others(ps[1..])
  }

  // ---------------------------------------------------------------- printing

  function FirstLine(hs: Headers): bytes { Method(hs) + " " + Path(hs) + " " + "HTTP/2" }

  function Shown(hs: Headers): Headers { Others(Pseudo(hs)) + Regular(hs) }

  function ToText(hs: Headers, body: bytes): bytes {
    Join([FirstLine(hs)] + HeaderLines(Shown(hs)), CRLF) + BLANK + body
  }

  // ----------------------------------------------------------------- parsing

  function NonBlank(lines: seq<bytes>): seq<bytes> {
    if lines == [] then [] else (if Strip(lines[0]) == [] then [] else [lines[0]]) + NonBlank(lines[1..])
  }

  /** A dict assignment: in place when the key is there, at the end otherwise. */
  function Put(d: Headers, name: bytes, value: bytes): Headers {
    if d == [] then [Field(name, value)]
    else if d[0].name == name then [Field(name, value)] + d[1..]
    else [d[0]] + Put(d[1..], name, value)
  }

  function ReadField(line: bytes): Result<Field, Http2Error> {
    if line == [] then Err(MalformedField)
    else
      var i := FindFrom(line, ":", 1);
      if i == -1 then Err(MalformedField) else Ok(Field(Strip(line[..i]), Strip(line[i + 1..])))
  }

  function ReadFields(lines: seq<bytes>, pseudo: Headers, regular: Headers): Result<(Headers, Headers), Http2Error>
    decreases lines
  {
    if lines == [] then Ok((pseudo, regular))
    else match ReadField(lines[0])
      case Err(e) => Err(e)
      case Ok(f) =>
        if IsPseudo(f) then ReadFields(lines[1..], Put(pseudo, f.name, f.value), regular)
        else ReadFields(lines[1..], pseudo, regular + [f])
  }

  /** The field of this name in a dict, as a list of at most one. */
  function Pick(d: Headers, name: bytes): Headers {
    match Get(d, name)
    case None => []
    case Some(v) => [Field(name, v)]
  }

  predicate Known(name: bytes) {
    name == ":method" || name == ":scheme" || name == ":authority" || name == ":path"
  }

  function Unknown(d: Headers): Headers {
    if d == [] then [] else (if Known(d[0].name) then [] else [d[0]]) + Unknown(d[1..])
  }

  /** Pseudo-headers in the conventional order, unknown ones after them. */
  function InOrder(d: Headers): Headers {
    Pick(d, ":method") + Pick(d, ":scheme") + Pick(d, ":authority") + Pick(d, ":path") + Unknown(d)
  }

  function Assemble(pseudo: Headers, regular: Headers, body: bytes): Result<(Headers, bytes), Http2Error> {
    var hs := InOrder(pseudo) + regular;
    if Get(hs, ":authority") == None && Get(hs, "host") == None then Err(NoAuthority) else Ok((hs, body))
  }

  function FromLines(lines: seq<bytes>, body: bytes): Result<(Headers, bytes), Http2Error> {
    if lines == [] then Err(EmptyRequest)
    else
      var bits := Fields(lines[0]);
      if |bits| < 2 then Err(MalformedFirstLine)
      else match ReadFields(lines[1..], [Field(":method", bits[0]), Field(":path", bits[1])], [])
        case Err(e) => Err(e)
        case Ok(read) => Assemble(read.0, read.1, body)
  }

  function FromText(raw: bytes): Result<(Headers, bytes), Http2Error> {
    var (head, body) := HeadBody(raw);
    FromLines(NonBlank(HeadLines(head)), body)
  }

  method RequestFromText(raw: bytes) returns (r: Result<(Headers, bytes), Http2Error>)
    ensures r == FromText(raw)
  {
    var (head, body) := HeadBody(raw);
    var lines := NonBlank(HeadLines(head));
    if lines == [] { return Err(EmptyRequest); }
    var bits := Fields(lines[0]);
    if |bits| < 2 { return Err(MalformedFirstLine); }
    var pseudo: Headers := [Field(":method", bits[0]), Field(":path", bits[1])];
    var regular: Headers := [];
    ghost var all := ReadFields(lines[1..], pseudo, regular);
    for k := 1 to |lines|
      invariant all == ReadFields(lines[k..], pseudo, regular)
    {
      hide ReadField, Put;
      assert lines[k..][1..] == lines[k + 1..];
      var f := ReadField(lines[k]);
      if f.Err? { return Err(f.error); }
      if IsPseudo(f.value) { pseudo := Put(pseudo, f.value.name, f.value.value); }
      else { regular := regular + [f.value]; }
    }
    r := Assemble(pseudo, regular, body);
  }

  // -------------------------------------------------------------- round trip

  /** Fields that stand on a line of their own in the text form. */
  predicate GoodField(f: Field) {
    && f.name != [] && ':' !in f.name[1..] && Trimmed(f.name) && LfFree(f.name)
    && Trimmed(f.value) && LfFree(f.value)
  }

  predicate GoodFields(hs: Headers) { forall i :: 0 <= i < |hs| ==> GoodField(hs[i]) }

  predicate Distinct(ps: Headers) { forall i, j :: 0 <= i < j < |ps| ==> ps[i].name != ps[j].name }

  predicate Showable(hs: Headers) {
    && Token(Method(hs)) && Token(Path(hs))
    && GoodFields(Shown(hs)) && Distinct(Others(Pseudo(hs)))
  }

  /** The fields in canonical order: known pseudo-headers first, then unknown ones, then the rest. */
  function Canon(hs: Headers): Headers {
    var ps := Others(Pseudo(hs));
    [Field(":method", Method(hs))] + Pick(ps, ":scheme") + Pick(ps, ":authority")
    + [Field(":path", Path(hs))] + Unknown(ps) + Regular(hs)
  }

  lemma ReadPrintedField(f: Field)
    requires GoodField(f)
    ensures ReadField(HeaderLine(f)) == Ok(f) && Strip(HeaderLine(f)) != []
  {
    var line := HeaderLine(f);
    FindColon(f.name, " " + f.value);
    assert f.name + ":" + (" " + f.value) == line;
    CutAt(f.name, ":", " " + f.value);
    StripTrimmed(f.name);
    StripTrimmed(f.value);
    StripBlank(line);
    hide Strip;
    assert line[0] == f.name[0] && !IsSpace(f.name[0]);
  }

  lemma FindColon(name: bytes, rest: bytes)
    requires name != [] && ':' !in name[1..]
    ensures FindFrom(name + ":" + rest, ":", 1) == |name|
  {
    var s := name + ":" + rest;
    assert s[|name|..|name| + 1] == ":";
    assert At(s, ":", |name|);
    forall j | 1 <= j < |name| ensures !At(s, ":", j) {
      assert s[j..j + 1] == [s[j]] && s[j] == name[1..][j - 1];
    }
  }

  lemma {:induction false} NonBlankPrinted(lines: seq<bytes>)
    requires forall i :: 0 <= i < |lines| ==> Strip(lines[i]) != []
    ensures NonBlank(lines) == lines
  {
    hide Strip;
    if lines != [] { NonBlankPrinted(lines[1..]); }
  }

  lemma {:induction false} PutNew(d: Headers, f: Field)
    requires forall i :: 0 <= i < |d| ==> d[i].name != f.name
    ensures Put(d, f.name, f.value) == d + [f]
  {
    if d != [] { PutNew(d[1..], f); }
  }

  /** Reading the printed pseudo-headers, then the printed regular fields. */
  lemma {:induction false} ReadPseudo(ps: Headers, more: seq<bytes>, d: Headers)
    requires GoodFields(ps) && Distinct(d + ps) && forall i :: 0 <= i < |ps| ==> IsPseudo(ps[i])
    ensures ReadFields(HeaderLines(ps) + more, d, []) == ReadFields(more, d + ps, [])
    decreases |ps|
  {
    if ps == [] { assert HeaderLines(ps) + more == more && d + ps == d; }
    else {
      hide ReadFields, ReadField, GoodField, Strip, HeaderLine, Put;
      var f, tl := ps[0], ps[1..];
      ReadPrintedField(f);
      DistinctTail(d, ps);
      PutNew(d, f);
      ReadPseudo(tl, more, d + [f]);
      ReadStep(f, HeaderLines(tl) + more, d, []);
      Assoc([HeaderLine(f)], HeaderLines(tl), more);
    }
  }

  lemma DistinctTail(d: Headers, ps: Headers)
    requires ps != [] && Distinct(d + ps)
    ensures (d + [ps[0]]) + ps[1..] == d + ps
    ensures forall i :: 0 <= i < |d| ==> d[i].name != ps[0].name
  {
    assert (d + ps)[|d|] == ps[0];
    assert forall i :: 0 <= i < |d| ==> (d + ps)[i] == d[i];
  }

  lemma ReadStep(f: Field, lines: seq<bytes>, d: Headers, rs: Headers)
    requires ReadField(HeaderLine(f)) == Ok(f)
    ensures ReadFields([HeaderLine(f)] + lines, d, rs)
         == if IsPseudo(f) then ReadFields(lines, Put(d, f.name, f.value), rs) else ReadFields(lines, d, rs + [f])
  {
    assert ([HeaderLine(f)] + lines)[1..] == lines;
  }

  lemma {:induction false} ReadRegular(hs: Headers, d: Headers, rs: Headers)
    requires GoodFields(hs) && forall i :: 0 <= i < |hs| ==> !IsPseudo(hs[i])
    ensures ReadFields(HeaderLines(hs), d, rs) == Ok((d, rs + hs))
    decreases |hs|
  {
    if hs == [] { assert rs + hs == rs; }
    else {
      hide ReadFields, ReadField, GoodField, Strip, HeaderLine;
      var f, tl := hs[0], hs[1..];
      assert rs + hs == (rs + [f]) + tl by { Assoc(rs, [f], tl); }
      ReadPrintedField(f);
      ReadRegular(tl, d, rs + [f]);
      ReadStep(f, HeaderLines(tl), d, rs);
    }
  }

  lemma {:induction false} Parts(hs: Headers)
    ensures forall i :: 0 <= i < |Pseudo(hs)| ==> IsPseudo(Pseudo(hs)[i])
    ensures forall i :: 0 <= i < |Regular(hs)| ==> !IsPseudo(Regular(hs)[i])
  {
    if hs != [] { Parts(hs[1..]); }
  }

  lemma {:induction false} OthersParts(ps: Headers)
    requires forall i :: 0 <= i < |ps| ==> IsPseudo(ps[i])
    ensures forall i :: 0 <= i < |Others(ps)| ==> IsPseudo(Others(ps)[i]) && !OnFirstLine(Others(ps)[i].name)
  {
    if ps != [] { OthersParts(ps[1..]); }
  }

  lemma {:induction false} HeaderLinesConcat(a: Headers, b: Headers)
    ensures HeaderLines(a + b) == HeaderLines(a) + HeaderLines(b)
  {
    if a == [] { assert a + b == b; }
    else { assert (a + b)[1..] == a[1..] + b; HeaderLinesConcat(a[1..], b); }
  }

  /** What the dict holds after the first line and the printed pseudo-headers. */
  function FirstPseudo(hs: Headers): Headers { [Field(":method", Method(hs)), Field(":path", Path(hs))] }

  lemma ReadShown(hs: Headers, m: bytes, p: bytes)
    requires GoodFields(Shown(hs)) && Distinct(Others(Pseudo(hs)))
    ensures var d := [Field(":method", m), Field(":path", p)];
      ReadFields(HeaderLines(Shown(hs)), d, []) == Ok((d + Others(Pseudo(hs)), Regular(hs)))
  {
    hide ReadFields, GoodField, HeaderLines, Pseudo, Regular, Others;
    var ps, rs, d := Others(Pseudo(hs)), Regular(hs), [Field(":method", m), Field(":path", p)];
    Parts(hs);
    OthersParts(Pseudo(hs));
    GoodParts(ps, rs);
    DistinctAfter(d, ps);
    HeaderLinesConcat(ps, rs);
    ReadPseudo(ps, HeaderLines(rs), d);
    ReadRegular(rs, d + ps, []);
    assert [] + rs == rs;
  }

  lemma GoodParts(a: Headers, b: Headers)
    requires GoodFields(a + b)
    ensures GoodFields(a) && GoodFields(b)
  {
    hide GoodField;
    assert forall i :: 0 <= i < |a| ==> (a + b)[i] == a[i];
    assert forall i :: 0 <= i < |b| ==> (a + b)[|a| + i] == b[i];
  }

  lemma DistinctAfter(d: Headers, ps: Headers)
    requires |d| == 2 && d[0].name == ":method" && d[1].name == ":path"
    requires Distinct(ps) && forall i :: 0 <= i < |ps| ==> !OnFirstLine(ps[i].name)
    ensures Distinct(d + ps)
  {}

  /** Putting the dict in order gives the canonical order. */
  lemma InOrderCanon(hs: Headers)
    ensures InOrder(FirstPseudo(hs) + Others(Pseudo(hs))) + Regular(hs) == Canon(hs)
  {
    var ps := Others(Pseudo(hs));
    InOrderAfter(Method(hs), Path(hs), ps);
  }

  lemma GetCons(f: Field, hs: Headers, name: bytes)
    ensures Get([f] + hs, name) == if f.name == name then Some(f.value) else Get(hs, name)
    ensures Unknown([f] + hs) == (if Known(f.name) then [] else [f]) + Unknown(hs)
    ensures Others([f] + hs) == (if OnFirstLine(f.name) then [] else [f]) + Others(hs)
    ensures Pseudo([f] + hs) == (if IsPseudo(f) then [f] else []) + Pseudo(hs)
    ensures Regular([f] + hs) == (if IsPseudo(f) then [] else [f]) + Regular(hs)
  {
    assert ([f] + hs)[1..] == hs;
  }

  lemma InOrderAfter(m: bytes, p: bytes, ps: Headers)
    ensures InOrder([Field(":method", m), Field(":path", p)] + ps)
         == [Field(":method", m)] + Pick(ps, ":scheme") + Pick(ps, ":authority") + [Field(":path", p)] + Unknown(ps)
  {
    hide Get, Unknown;
    var d := [Field(":method", m), Field(":path", p)] + ps;
    DictAfter(m, p, ps, ":method"); DictAfter(m, p, ps, ":path");
    DictAfter(m, p, ps, ":scheme"); DictAfter(m, p, ps, ":authority");
    assert Pick(d, ":method") == [Field(":method", m)] && Pick(d, ":path") == [Field(":path", p)];
    assert Pick(d, ":scheme") == Pick(ps, ":scheme") && Pick(d, ":authority") == Pick(ps, ":authority");
  }

  lemma DictAfter(m: bytes, p: bytes, ps: Headers, name: bytes)
    ensures var d := [Field(":method", m), Field(":path", p)] + ps;
      && Unknown(d) == Unknown(ps)
      && Get(d, name) == if name == ":method" then Some(m) else if name == ":path" then Some(p) else Get(ps, name)
  {
    var a, b := Field(":method", m), Field(":path", p);
    hide Get, Unknown, Others, Pseudo, Regular;
    GetCons(b, ps, name);
    GetCons(a, [b] + ps, name);
    assert [a, b] + ps == [a] + ([b] + ps);
  }

  lemma TextHead(hs: Headers, body: bytes)
    requires Showable(hs)
    ensures var head := Join([FirstLine(hs)] + HeaderLines(Shown(hs)), CRLF);
      HeadBody(ToText(hs, body)) == (head, body)
      && NonBlank(HeadLines(head)) == [FirstLine(hs)] + HeaderLines(Shown(hs))
      && Fields(FirstLine(hs)) == [Method(hs), Path(hs), "HTTP/2"]
  {
    hide Method, Path, Shown, GoodField, HeaderLines, Strip, Fields, NonBlank, HeadLines;
    var r := Request(Method(hs), Path(hs), "HTTP/2", Shown(hs), body);
    assert Token("HTTP/2");
    StartLineFacts(r);
    var lines := [StartLine(r)] + HeaderLines(Shown(hs));
    GoodFieldLines(Shown(hs));
    PrintedHeadBody(StartLine(r), Shown(hs), body);
    PrintedLines(StartLine(r), Shown(hs));
    NonBlankPrinted(lines);
  }

  lemma GoodFieldLines(hs: Headers)
    requires GoodFields(hs)
    ensures LfFreeHeaders(hs) && (hs != [] ==> ClosedLine(HeaderLine(hs[|hs| - 1])))
    ensures forall i :: 0 <= i < |hs| ==> Strip(HeaderLines(hs)[i]) != []
  {
    hide Strip;
    forall i | 0 <= i < |hs| ensures Strip(HeaderLines(hs)[i]) != [] {
      assert GoodField(hs[i]);
      ReadPrintedField(hs[i]);
    }
    if hs != [] {
      var f := hs[|hs| - 1];
      assert GoodField(f);
      TrimmedCloses(f.name, f.value);
    }
  }

  /** Printing and parsing back keeps the body and the regular fields in order, whatever the
      body holds, and puts the pseudo-headers in canonical order. */
  lemma TextRoundTrip(hs: Headers, body: bytes)
    requires Showable(hs)
    ensures FromText(ToText(hs, body))
         == if Get(Canon(hs), ":authority") == None && Get(Canon(hs), "host") == None
            then Err(NoAuthority) else Ok((Canon(hs), body))
  {
    hide Method, Path, Shown, Canon, FirstLine, HeaderLines, Strip, Fields, NonBlank, HeadLines, ReadFields, InOrder,
         ToText, Get;
    TextHead(hs, body);
    ReadShown(hs, Method(hs), Path(hs));
    InOrderCanon(hs);
    assert ([FirstLine(hs)] + HeaderLines(Shown(hs)))[1..] == HeaderLines(Shown(hs));
  }

  /** On fields already in canonical order the round trip is the identity. */
  lemma CanonicalRoundTrip(m: bytes, s: bytes, a: bytes, p: bytes, regular: Headers, body: bytes)
    requires var hs := [Field(":method", m), Field(":scheme", s), Field(":authority", a), Field(":path", p)] + regular;
      Showable(hs) && m != [] && p != [] && forall i :: 0 <= i < |regular| ==> !IsPseudo(regular[i])
    ensures var hs := [Field(":method", m), Field(":scheme", s), Field(":authority", a), Field(":path", p)] + regular;
      FromText(ToText(hs, body)) == Ok((hs, body))
  {
    var hs := [Field(":method", m), Field(":scheme", s), Field(":authority", a), Field(":path", p)] + regular;
    TextRoundTrip(hs, body);
    CanonOfCanonical(m, s, a, p, regular);
  }

  lemma {:induction false} AllRegular(hs: Headers)
    requires forall i :: 0 <= i < |hs| ==> !IsPseudo(hs[i])
    ensures Pseudo(hs) == [] && Regular(hs) == hs
  {
    if hs != [] { AllRegular(hs[1..]); }
  }

  lemma FourSteps<T>(a: T, b: T, c: T, d: T)
    ensures [a] + [b, c, d] == [a, b, c, d] && [b] + [c, d] == [b, c, d] && [c] + [d] == [c, d]
    ensures [d] + [] == [d] && [b] + [c] == [b, c] && [c] + [] == [c]
  {}

  /** Among the four pseudo-headers of a request, the scheme and the authority print on lines of their own. */
  lemma FourOthers(m: bytes, s: bytes, a: bytes, p: bytes)
    ensures var fs, fa := Field(":scheme", s), Field(":authority", a);
      && Others([Field(":method", m), fs, fa, Field(":path", p)]) == [fs, fa] && Unknown([fs, fa]) == []
      && Get([fs, fa], ":scheme") == Some(s) && Get([fs, fa], ":authority") == Some(a)
  {
    var fm, fs, fa, fp := Field(":method", m), Field(":scheme", s), Field(":authority", a), Field(":path", p);
    var none: Headers := [];
    assert Others(none) == [] && Unknown(none) == [];
    hide Get, Others, Unknown, Pseudo, Regular, IsPseudo;
    GetCons(fm, [fs, fa, fp], ":scheme");
    GetCons(fs, [fa, fp], ":scheme");
    GetCons(fa, [fp], ":scheme");
    GetCons(fp, none, ":scheme");
    GetCons(fs, [fa], ":scheme");
    GetCons(fs, [fa], ":authority");
    GetCons(fa, none, ":authority");
    FourSteps(fm, fs, fa, fp);
  }

  lemma CanonOfCanonical(m: bytes, s: bytes, a: bytes, p: bytes, regular: Headers)
    requires m != [] && p != [] && forall i :: 0 <= i < |regular| ==> !IsPseudo(regular[i])
    ensures var hs := [Field(":method", m), Field(":scheme", s), Field(":authority", a), Field(":path", p)] + regular;
      Canon(hs) == hs && Get(hs, ":authority") == Some(a)
  {
    var fm, fs, fa, fp := Field(":method", m), Field(":scheme", s), Field(":authority", a), Field(":path", p);
    var hs := [fm, fs, fa, fp] + regular;
    FourPseudo(m, s, a, p, regular);
    FourOthers(m, s, a, p);
    hide Pseudo, Regular, Get, Others, Unknown, IsPseudo, Known, OnFirstLine;
    FourList(fm, fs, fa, fp, regular);
  }

  lemma FourList<T>(a: T, b: T, c: T, d: T, rest: seq<T>)
    ensures [a] + [b] + [c] + [d] + [] + rest == [a, b, c, d] + rest
  {}

  lemma FourPseudo(m: bytes, s: bytes, a: bytes, p: bytes, regular: Headers)
    requires forall i :: 0 <= i < |regular| ==> !IsPseudo(regular[i])
    ensures var four := [Field(":method", m), Field(":scheme", s), Field(":authority", a), Field(":path", p)];
      && Pseudo(four + regular) == four && Regular(four + regular) == regular
      && Get(four + regular, ":authority") == Get(four, ":authority") == Some(a)
      && Get(four, ":method") == Some(m) && Get(four, ":path") == Some(p)
  {
    var fm, fs, fa, fp := Field(":method", m), Field(":scheme", s), Field(":authority", a), Field(":path", p);
    AllRegular(regular);
    hide Get, Unknown, Others, Pseudo, Regular;
    FourCons(fm, fs, fa, fp, regular, ":method");
    FourCons(fm, fs, fa, fp, regular, ":path");
    FourCons(fm, fs, fa, fp, regular, ":authority");
    FourCons(fm, fs, fa, fp, [], ":method");
    FourCons(fm, fs, fa, fp, [], ":path");
    FourCons(fm, fs, fa, fp, [], ":authority");
    assert [fm, fs, fa, fp] + [] == [fm, fs, fa, fp];
  }

  lemma FourNested<T>(a: T, b: T, c: T, d: T, rest: seq<T>)
    ensures [a, b, c, d] + rest == [a] + ([b] + ([c] + ([d] + rest)))
  {}

  lemma FourCons(f0: Field, f1: Field, f2: Field, f3: Field, hs: Headers, name: bytes)
    requires IsPseudo(f0) && IsPseudo(f1) && IsPseudo(f2) && IsPseudo(f3)
    ensures var all := [f0, f1, f2, f3] + hs;
      && Pseudo(all) == [f0, f1, f2, f3] + Pseudo(hs) && Regular(all) == Regular(hs)
      && Get(all, name) == if f0.name == name then Some(f0.value) else if f1.name == name then Some(f1.value)
        else if f2.name == name then Some(f2.value) else if f3.name == name then Some(f3.value) else Get(hs, name)
  {
    hide Get, Unknown, Others, Pseudo, Regular, IsPseudo;
    GetCons(f3, hs, name);
    GetCons(f2, [f3] + hs, name);
    GetCons(f1, [f2] + ([f3] + hs), name);
    GetCons(f0, [f1] + ([f2] + ([f3] + hs)), name);
    FourNested(f0, f1, f2, f3, hs);
    FourNested(f0, f1, f2, f3, Pseudo(hs));
    assert [] + Regular(hs) == Regular(hs);
  }
}
