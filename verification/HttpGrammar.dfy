/** Requests as they may be written: tokens on the first line, and fields with continuation lines. */
module HttpGrammar {
  import opened Bytes
  import opened Ascii
  import opened HttpMessage

  /** A field and the continuation lines behind it. */
  datatype Written = Written(name: bytes, value: bytes, more: seq<bytes>)

  predicate ValidField(w: Written) {
    && w.name != [] && ':' !in w.name && !Folded(w.name) && LfFree(w.name) && LfFree(w.value)
    && forall i :: 0 <= i < |w.more| ==> Folded(w.more[i]) && LfFree(w.more[i])
  }

  predicate ValidFields(ws: seq<Written>) { forall i :: 0 <= i < |ws| ==> ValidField(ws[i]) }

  function FieldLines(w: Written): seq<bytes> { [w.name + ":" + w.value] + w.more }

  function AllLines(ws: seq<Written>): (r: seq<bytes>)
    ensures ws != [] ==> r != []
  {
    if ws == [] then [] else FieldLines(ws[0]) + AllLines(ws[1..])
  }

  /** What continuation lines add to a value. */
  function Continued(more: seq<bytes>): bytes {
    if more == [] then "" else Continued(more[..|more| - 1]) + " " + Strip(more[|more| - 1])
  }

  /** The fields meant: each value stripped, its continuation lines behind it. */
  function Meant(ws: seq<Written>): Headers {
    if ws == [] then [] else [Field(ws[0].name, Strip(ws[0].value) + Continued(ws[0].more))] + Meant(ws[1..])
  }

  lemma ColonCut(name: bytes, value: bytes)
    requires name != [] && ':' !in name
    ensures var line := name + ":" + value;
        Find(line, ":") == |name| && line[..|name|] == name && line[|name| + 1..] == value
  {
    var line := name + ":" + value;
    assert line[..|name|] == name;
    FindByteIs(line, ':', |name|);
  }

  lemma {:induction false} AddLinesConcat(hs: Headers, a: seq<bytes>, b: seq<bytes>)
    requires AddLines(hs, a).Ok?
    ensures AddLines(hs, a + b) == AddLines(AddLines(hs, a).value, b)
    decreases |a|
  {
    if a == [] { assert a + b == b; }
    else {
      assert (a + b)[0] == a[0] && (a + b)[1..] == a[1..] + b;
      hide AddLine;
      AddLinesConcat(AddLine(hs, a[0]).value, a[1..], b);
    }
  }

  /** Continuation lines go to the field before them. */
  lemma {:induction false} MoreRead(hs: Headers, f: Field, more: seq<bytes>)
    requires forall i :: 0 <= i < |more| ==> Folded(more[i])
    ensures AddLines(hs + [f], more) == Ok(hs + [Field(f.name, f.value + Continued(more))])
    decreases |more|
  {
    if more == [] { assert f.value + "" == f.value; }
    else {
      var front, last := more[..|more| - 1], more[|more| - 1];
      MoreRead(hs, f, front);
      var g := Field(f.name, f.value + Continued(front));
      AddLinesConcat(hs + [f], front, [last]);
      assert front + [last] == more;
      FoldedRead(hs, g, last);
      Assoc(f.value, Continued(front), " ");
      Assoc(f.value, Continued(front) + " ", Strip(last));
      hide AddLine, Strip, Folded;
      assert [last][1..] == [];
    }
  }

  lemma FoldedRead(hs: Headers, g: Field, line: bytes)
    requires Folded(line)
    ensures AddLine(hs + [g], line) == Ok(hs + [Field(g.name, g.value + " " + Strip(line))])
  {
    hide Strip;
    var h := Field(g.name, g.value + " " + Strip(line));
    assert (hs + [g])[|hs| := h] == hs + [h];
  }

  /** Fields written in any of these ways are read as what they mean. */
  lemma {:induction false} FieldsRead(hs: Headers, ws: seq<Written>)
    requires ValidFields(ws)
    ensures AddLines(hs, AllLines(ws)) == Ok(hs + Meant(ws))
    decreases |ws|
  {
    if ws == [] { assert hs + [] == hs; }
    else {
      var w := ws[0];
      assert ValidField(w) && ValidFields(ws[1..]);
      var f := Field(w.name, Strip(w.value));
      FirstRead(hs, w);
      MoreRead(hs, f, w.more);
      hide AddLine, Strip, Folded, ValidField, Continued;
      var line := w.name + ":" + w.value;
      AddLinesConcat(hs, [line], w.more);
      assert [line][1..] == [];
      AddLinesConcat(hs, FieldLines(w), AllLines(ws[1..]));
      var g := Field(w.name, Strip(w.value) + Continued(w.more));
      FieldsRead(hs + [g], ws[1..]);
      Assoc(hs, [g], Meant(ws[1..]));
    }
  }

  lemma FirstRead(hs: Headers, w: Written)
    requires ValidField(w)
    ensures AddLine(hs, w.name + ":" + w.value) == Ok(hs + [Field(w.name, Strip(w.value))])
  {
    ColonCut(w.name, w.value);
    hide Strip, Find;
  }

  /** A line that is neither empty, nor a continuation, nor a field is refused. */
  lemma NamelessRefused(hs: Headers, line: bytes)
    requires line != [] && !(Folded(line) && hs != []) && (':' !in line || line[0] == ':')
    ensures AddLine(hs, line) == Err(MalformedHeader)
  {
    FindByte(line, ':');
    if line[0] == ':' { assert At(line, ":", 0); }
  }

  predicate AllTokens(ts: seq<bytes>) { forall i :: 0 <= i < |ts| ==> Token(ts[i]) && LfFree(ts[i]) }

  /** Splitting at white space gives the tokens. */
  lemma {:induction false} TokensRead(ts: seq<bytes>)
    requires AllTokens(ts)
    ensures Fields(Join(ts, " ")) == ts && (Strip(Join(ts, " ")) == [] <==> ts == [])
    ensures ts != [] ==> ClosedLine(Join(ts, " ")) && Join(ts, " ") != []
    decreases |ts|
  {
    var line := Join(ts, " ");
    StripBlank(line);
    if ts != [] {
      assert Token(ts[0]) && AllTokens(ts[1..]);
      TokensRead(ts[1..]);
      TokenLfFree(ts[0]);
      hide Strip, Fields;
      if |ts| == 1 { FieldsOne(ts[0]); assert ts == [ts[0]]; }
      else {
        FieldsPair(ts[0], Join(ts[1..], " "));
        assert line == ts[0] + [' '] + Join(ts[1..], " ");
        Cons(ts);
      }
      assert line[0] == ts[0][0];
    }
  }

  function HeadText(ts: seq<bytes>, ws: seq<Written>): bytes { Join([Join(ts, " ")] + AllLines(ws), CRLF) }

  lemma {:induction false} LinesShape(ws: seq<Written>)
    requires ValidFields(ws)
    ensures LfFreeLines(AllLines(ws)) && forall i :: 0 <= i < |AllLines(ws)| ==> AllLines(ws)[i] != []
    decreases |ws|
  {
    if ws != [] {
      var w := ws[0];
      assert ValidField(w) && ValidFields(ws[1..]);
      LinesShape(ws[1..]);
      var lines := FieldLines(w);
      assert forall i :: 0 <= i < |lines| ==> LfFree(lines[i]) && lines[i] != [];
    }
  }

  /** Parsing a request: what the first line's tokens and the fields mean, or the error for too few tokens. */
  lemma RequestRead(ts: seq<bytes>, ws: seq<Written>, body: bytes)
    requires AllTokens(ts) && ValidFields(ws)
    requires ws != [] ==> var lines := AllLines(ws); ClosedLine(lines[|lines| - 1])
    ensures ParseRequest(HeadText(ts, ws) + BLANK + body)
         == if ts == [] then Err(EmptyRequestLine) else if |ts| == 1 then Err(MalformedRequestLine)
            else Ok(Request(ts[0], ts[1], if |ts| == 2 then "HTTP/1.1" else ts[2], Meant(ws), body))
  {
    hide Contains, Strip, Fields, AddLines, Meant, ValidFields, AllTokens, Join, HeadLines, AllLines, ClosedLine,
        LfFree;
    TokensRead(ts);
    LinesShape(ws);
    FieldsRead([], ws);
    assert [] + Meant(ws) == Meant(ws);
    var lines := [Join(ts, " ")] + AllLines(ws);
    EmptyClosed();
    NothingWritten();
    ClosedFree(lines[0]);
    assert lines[1..] == AllLines(ws);
    LinesDivided(lines, body);
  }

  lemma ClosedFree(line: bytes)
    requires ClosedLine(line)
    ensures LfFree(line)
  {}

  lemma NothingWritten()
    ensures Join([], " ") == [] && AllLines([]) == []
  {}

  lemma EmptyClosed()
    ensures ClosedLine([])
  {}

  /** Lines joined by CRLF before a blank line are the head's lines. */
  lemma LinesDivided(lines: seq<bytes>, body: bytes)
    requires lines != [] && LfFree(lines[0]) && LfFreeLines(lines[1..]) && ClosedLine(lines[|lines| - 1])
    requires forall i :: 0 <= i < |lines[1..]| ==> lines[1..][i] != []
    ensures var head := Join(lines, CRLF); HeadBody(head + BLANK + body) == (head, body) && HeadLines(head) == lines
  {
    assert forall i :: 1 <= i < |lines| ==> lines[i] == lines[1..][i - 1];
    assert LfFreeLines(lines);
    hide Join, HeadLines, Contains, ClosedLine;
    forall l | l in lines ensures !Contains(l, CRLF) {
      var i :| 0 <= i < |lines| && lines[i] == l;
      NoLfNoCrlf(l);
    }
    FirstBlank(lines, body);
    CutAt(Join(lines, CRLF), BLANK, body);
    HeadLinesOfJoin(lines);
    hide LfFree;
  }

  // --------------------------------------------------------------- bare line feeds

  /** Lines that are not empty, ended by bare line feeds, end at the first two line feeds. */
  lemma {:induction false} FirstBareBlank(lines: seq<bytes>, body: bytes)
    requires lines != [] && LfFreeLines(lines) && forall i :: 1 <= i < |lines| ==> lines[i] != []
    ensures Find(Join(lines, "\n") + "\n\n" + body, "\n\n") == |Join(lines, "\n")|
  {
    var l := lines[0];
    var head := Join(lines, "\n");
    var s := head + "\n\n" + body;
    if |lines| == 1 {
      assert s == l + "\n\n" + body;
      BareFirst(l, "\n" + body, s);
      assert s[|l|..|l| + 2] == "\n\n" && At(s, "\n\n", |l|);
    } else {
      var tl := lines[1..];
      assert LfFreeLines(tl) && forall i :: 1 <= i < |tl| ==> tl[i] != [];
      FirstBareBlank(tl, body);
      var t := Join(tl, "\n") + "\n\n" + body;
      assert s == l + "\n" + t;
      BareFirst(l, t, s);
      assert t[0] == lines[1][0] != '\n' by { assert LfFree(lines[1]); JoinStarts(tl); }
      BareShift(l, t, s);
    }
  }

  lemma JoinStarts(lines: seq<bytes>)
    requires lines != [] && lines[0] != []
    ensures Join(lines, "\n") != [] && Join(lines, "\n")[0] == lines[0][0]
  {}

  lemma BareFirst(l: bytes, t: bytes, s: bytes)
    requires LfFree(l) && s == l + "\n" + t
    ensures forall j :: 0 <= j < |l| ==> !At(s, "\n\n", j)
    ensures t != [] && t[0] != '\n' ==> !At(s, "\n\n", |l|)
  {
    forall j | 0 <= j < |l| ensures !At(s, "\n\n", j) {
      assert s[j] == l[j] != '\n';
      assert j + 2 <= |s| ==> s[j..j + 2][0] == s[j];
    }
    if t != [] && t[0] != '\n' {
      assert s[|l| + 1] == t[0];
      assert |l| + 2 <= |s| ==> s[|l|..|l| + 2][1] == s[|l| + 1];
    }
  }

  lemma BareShift(l: bytes, t: bytes, s: bytes)
    requires s == l + "\n" + t && Contains(t, "\n\n") && forall j :: 0 <= j <= |l| ==> !At(s, "\n\n", j)
    ensures Find(s, "\n\n") == |l| + 1 + Find(t, "\n\n")
  {
    var r := Find(t, "\n\n");
    var n := |l| + 1;
    forall j | 0 <= j && j + 2 <= |t| ensures At(s, "\n\n", n + j) == At(t, "\n\n", j) {
      assert s[n + j..n + j + 2] == t[j..j + 2];
    }
    forall j | 0 <= j < n + r ensures !At(s, "\n\n", j) {
      if j >= n { assert !At(t, "\n\n", j - n); }
    }
    assert At(s, "\n\n", n + r);
  }

  lemma {:induction false} BareLines(lines: seq<bytes>)
    requires lines != [] && forall i :: 0 <= i < |lines| ==> ClosedLine(lines[i])
    ensures HeadLines(Join(lines, "\n")) == lines
  {
    forall l | l in lines ensures !Contains(l, "\n") {
      var i :| 0 <= i < |lines| && lines[i] == l;
      FindByte(l, '\n');
    }
    SeparatorsUnbordered('\n');
    SplitJoin(lines, "\n");
    UncutAll(lines);
  }

  lemma {:induction false} UncutAll(lines: seq<bytes>)
    requires forall i :: 0 <= i < |lines| ==> ClosedLine(lines[i])
    ensures CutAll(lines) == lines
  {
    if lines != [] {
      assert ClosedLine(lines[0]);
      UncutAll(lines[1..]);
    }
  }

  /** The same request with bare line feeds for line ends: read alike where no CRLF blank line is about;
      and one without any blank line is all head. */
  lemma BareRead(ts: seq<bytes>, ws: seq<Written>, body: bytes)
    requires AllTokens(ts) && ts != [] && ValidFields(ws)
    requires forall i :: 0 <= i < |AllLines(ws)| ==> ClosedLine(AllLines(ws)[i])
    ensures var head := Join([Join(ts, " ")] + AllLines(ws), "\n");
      var meant := if |ts| == 1 then Err(MalformedRequestLine)
                   else Ok(Request(ts[0], ts[1], if |ts| == 2 then "HTTP/1.1" else ts[2], Meant(ws), body));
      && (!Contains(head + "\n\n" + body, BLANK) ==> ParseRequest(head + "\n\n" + body) == meant)
      && (body == [] && !Contains(head, BLANK) && !Contains(head, "\n\n") ==> ParseRequest(head) == meant)
  {
    hide Contains, Strip, Fields, AddLines, Meant, ValidFields, AllTokens, Join, HeadLines, AllLines;
    var lines := [Join(ts, " ")] + AllLines(ws);
    TokensRead(ts);
    LinesShape(ws);
    FieldsRead([], ws);
    assert [] + Meant(ws) == Meant(ws);
    assert LfFreeLines(lines) && forall i :: 0 <= i < |lines| ==> ClosedLine(lines[i]);
    hide ClosedLine;
    FirstBareBlank(lines, body);
    CutAt(Join(lines, "\n"), "\n\n", body);
    BareLines(lines);
    assert lines[1..] == AllLines(ws);
    hide LfFreeLines;
    BareHead(Join(lines, "\n"), body);
  }

  lemma BareHead(head: bytes, body: bytes)
    requires Find(head + "\n\n" + body, "\n\n") == |head|
    ensures !Contains(head + "\n\n" + body, BLANK) ==> HeadBody(head + "\n\n" + body) == (head, body)
    ensures !Contains(head, BLANK) && !Contains(head, "\n\n") ==> HeadBody(head) == (head, [])
  {
    CutAt(head, "\n\n", body);
  }
}
