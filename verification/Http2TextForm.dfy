/** Which HTTP/2 requests the text form gives back unchanged. */
module Http2TextForm {
  import opened Bytes
  import opened Ascii
  import opened HttpMessage
  import opened Http2Text

  /** A field as reading a line can give it; only its name may still be empty. */
  predicate Neat(f: Field) {
    && Trimmed(f.name) && LfFree(f.name) && Trimmed(f.value) && LfFree(f.value)
    && (f.name != [] ==> ':' !in f.name[1..])
  }

  predicate AllNeat(hs: Headers) { forall i :: 0 <= i < |hs| ==> Neat(hs[i]) }

  predicate AllPseudo(hs: Headers) { forall i :: 0 <= i < |hs| ==> IsPseudo(hs[i]) }

  predicate NonePseudo(hs: Headers) { forall i :: 0 <= i < |hs| ==> !IsPseudo(hs[i]) }

  /** What a dict of pseudo-headers holds while lines are read. */
  predicate Dict(d: Headers) { AllNeat(d) && AllPseudo(d) && Distinct(d) }

  /** A request in text form: fields that can be shown, in canonical order, with somewhere to go. */
  predicate InTextForm(hs: Headers) {
    && Showable(hs) && Canon(hs) == hs
    && !(Get(hs, ":authority") == None && Get(hs, "host") == None)
  }

  // ------------------------------------------------------------ what reading gives

  lemma SliceLfFree(s: bytes, a: nat, b: nat)
    requires LfFree(s) && a <= b <= |s|
    ensures LfFree(s[a..b])
  {}

  lemma StripLfFree(s: bytes)
    requires LfFree(s)
    ensures LfFree(Strip(s)) && Trimmed(Strip(s))
  {
    hide Strip;
    var k := StripSlice(s);
    StripIsTrimmed(s);
  }

  /** Only the first character of a name read from a line can be a colon. */
  lemma NameColons(line: bytes, i: nat)
    requires 0 < i <= |line| && forall j :: 1 <= j < i ==> line[j] != ':'
    ensures var name := Strip(line[..i]); name != [] ==> ':' !in name[1..]
    ensures line[0] == ':' ==> Strip(line[..i]) != [] && Strip(line[..i])[0] == ':'
  {
    hide Strip, Trimmed;
    var k := StripSlice(line[..i]);
    var name := Strip(line[..i]);
    forall j | 1 <= j < |name| ensures name[j] != ':' { assert name[j] == line[k + j]; }
    if line[0] == ':' {
      var pre, post := StripParts(line[..i]);
      ColonKept(pre, name, post, line[..i]);
    }
  }

  lemma ColonKept(pre: bytes, name: bytes, post: bytes, s: bytes)
    requires s == pre + name + post && s != [] && s[0] == ':' && Blank(pre) && Blank(post)
    ensures name != [] && name[0] == ':'
  {
    assert forall i :: 0 <= i < |pre| ==> s[i] == pre[i];
    assert forall i :: 0 <= i < |post| ==> s[|pre| + |name| + i] == post[i];
  }

  lemma NoColonBefore(line: bytes)
    requires line != []
    ensures var i := FindFrom(line, ":", 1);
      i != -1 ==> 1 <= i < |line| && forall j :: 1 <= j < i ==> line[j] != ':'
  {
    var i := FindFrom(line, ":", 1);
    if i != -1 {
      forall j | 1 <= j < i ensures line[j] != ':' {
        assert !At(line, ":", j);
        assert line[j..j + 1] == [line[j]];
      }
    }
  }

  lemma NeatRead(line: bytes)
    requires LfFree(line)
    ensures ReadField(line).Ok? ==> Neat(ReadField(line).value)
    ensures ReadField(line).Ok? && line[0] == ':' ==> IsPseudo(ReadField(line).value)
  {
    if ReadField(line).Ok? {
      var i := FindFrom(line, ":", 1);
      NoColonBefore(line);
      hide FindFrom, Strip, Trimmed, LfFree;
      SliceLfFree(line, 0, i);
      SliceLfFree(line, i + 1, |line|);
      StripLfFree(line[..i]);
      StripLfFree(line[i + 1..]);
      NameColons(line, i);
    }
  }

  predicate Absent(d: Headers, name: bytes) { forall i :: 0 <= i < |d| ==> d[i].name != name }

  lemma {:induction false} AbsentPut(d: Headers, name: bytes, value: bytes, other: bytes)
    requires Absent(d, other) && other != name
    ensures Absent(Put(d, name, value), other)
  {
    if d != [] && d[0].name != name {
      assert forall i :: 0 <= i < |d[1..]| ==> d[1..][i] == d[i + 1];
      AbsentPut(d[1..], name, value, other);
    }
  }

  lemma DictCons(f: Field, d: Headers)
    ensures Dict([f] + d) <==> Neat(f) && IsPseudo(f) && Dict(d) && Absent(d, f.name)
  {
    hide Neat, IsPseudo;
    var all := [f] + d;
    assert all[0] == f && forall i :: 0 <= i < |d| ==> all[i + 1] == d[i];
    if Dict(all) {
      forall i | 0 <= i < |d| ensures Neat(d[i]) && IsPseudo(d[i]) && d[i].name != f.name {
        assert Neat(all[i + 1]) && IsPseudo(all[i + 1]) && all[0].name != all[i + 1].name;
      }
      forall i, j | 0 <= i < j < |d| ensures d[i].name != d[j].name { assert all[i + 1].name != all[j + 1].name; }
    }
  }

  /** An assignment keeps the dict one. */
  lemma {:induction false} PutKeeps(d: Headers, f: Field)
    requires Dict(d) && Neat(f) && IsPseudo(f)
    ensures Dict(Put(d, f.name, f.value))
  {
    hide Dict, Absent, Neat, IsPseudo;
    if d == [] {
      assert Dict([]) && Absent([], f.name) by { EmptyDict(f.name); }
      assert [f] + [] == [f];
      DictCons(f, []);
    } else {
      Cons(d);
      DictCons(d[0], d[1..]);
      if d[0].name == f.name { DictCons(f, d[1..]); }
      else {
        PutKeeps(d[1..], f);
        AbsentPut(d[1..], f.name, f.value, d[0].name);
        DictCons(d[0], Put(d[1..], f.name, f.value));
      }
    }
  }

  lemma EmptyDict(name: bytes)
    ensures Dict([]) && Absent([], name)
  {}

  lemma {:induction false} PutGet(d: Headers, name: bytes, value: bytes, other: bytes)
    ensures Get(Put(d, name, value), other) == if other == name then Some(value) else Get(d, other)
  {
    if d != [] && d[0].name != name { PutGet(d[1..], name, value, other); }
  }

  lemma NeatSnoc(rs: Headers, f: Field)
    requires AllNeat(rs) && NonePseudo(rs) && Neat(f) && !IsPseudo(f)
    ensures AllNeat(rs + [f]) && NonePseudo(rs + [f])
  {
    hide Neat, IsPseudo;
  }

  /** What reading lines leaves in the dict and the list. */
  lemma {:induction false} ReadKeeps(lines: seq<bytes>, d: Headers, rs: Headers)
    requires Dict(d) && AllNeat(rs) && NonePseudo(rs) && LfFreeLines(lines)
    requires Get(d, ":method").Some? && Get(d, ":path").Some? && ReadFields(lines, d, rs).Ok?
    ensures var (pd, rg) := ReadFields(lines, d, rs).value;
      Dict(pd) && AllNeat(rg) && NonePseudo(rg) && Get(pd, ":method").Some? && Get(pd, ":path").Some?
    decreases lines
  {
    if lines != [] {
      assert LfFree(lines[0]) && LfFreeLines(lines[1..]);
      hide Dict, AllNeat, NonePseudo, Neat, IsPseudo, ReadField, Put, Get, LfFree, LfFreeLines;
      NeatRead(lines[0]);
      var f := ReadField(lines[0]).value;
      if IsPseudo(f) {
        PutKeeps(d, f);
        PutGet(d, f.name, f.value, ":method");
        PutGet(d, f.name, f.value, ":path");
        ReadKeeps(lines[1..], Put(d, f.name, f.value), rs);
      } else {
        NeatSnoc(rs, f);
        ReadKeeps(lines[1..], d, rs + [f]);
      }
    }
  }

  // ------------------------------------------------------------ putting in order

  lemma {:induction false} GetIn(d: Headers, name: bytes)
    ensures Get(d, name).None? <==> Absent(d, name)
    ensures Get(d, name).Some? ==> Field(name, Get(d, name).value) in d
  {
    if d != [] {
      assert forall i :: 0 <= i < |d[1..]| ==> d[1..][i] == d[i + 1];
      GetIn(d[1..], name);
      if Absent(d[1..], name) && d[0].name != name {
        forall i | 0 <= i < |d| ensures d[i].name != name { if i > 0 { assert d[1..][i - 1].name != name; } }
      }
    }
  }

  /** Fields chosen from a dict, in their order. */
  lemma {:induction false} UnknownDict(d: Headers, name: bytes)
    requires Dict(d)
    ensures Dict(Unknown(d)) && (Absent(d, name) || Known(name) ==> Absent(Unknown(d), name))
  {
    hide Dict, Absent, Known;
    if d == [] { EmptyDict(name); }
    else {
      Cons(d);
      DictCons(d[0], d[1..]);
      UnknownDict(d[1..], name);
      UnknownDict(d[1..], d[0].name);
      DictCons(d[0], Unknown(d[1..]));
      assert [] + Unknown(d[1..]) == Unknown(d[1..]);
      AbsentCons(d[0], d[1..], name);
      AbsentCons(d[0], Unknown(d[1..]), name);
    }
  }

  lemma AbsentCons(f: Field, d: Headers, name: bytes)
    ensures Absent([f] + d, name) <==> f.name != name && Absent(d, name)
  {
    var all := [f] + d;
    assert all[0] == f && forall i :: 0 <= i < |d| ==> all[i + 1] == d[i];
    if Absent(all, name) { forall i | 0 <= i < |d| ensures d[i].name != name { assert all[i + 1].name != name; } }
  }

  lemma {:induction false} OthersDict(d: Headers, name: bytes)
    requires Dict(d)
    ensures Dict(Others(d)) && (Absent(d, name) ==> Absent(Others(d), name))
  {
    hide Dict, Absent;
    if d == [] { EmptyDict(name); }
    else {
      Cons(d);
      DictCons(d[0], d[1..]);
      OthersDict(d[1..], name);
      OthersDict(d[1..], d[0].name);
      DictCons(d[0], Others(d[1..]));
      assert [] + Others(d[1..]) == Others(d[1..]);
      AbsentCons(d[0], d[1..], name);
      AbsentCons(d[0], Others(d[1..]), name);
    }
  }

  /** One known pseudo-header put before others. */
  lemma PickDict(d: Headers, name: bytes, rest: Headers)
    requires Dict(d) && Dict(rest) && Absent(rest, name)
    ensures Dict(Pick(d, name) + rest)
  {
    hide Dict, Absent, Get;
    GetIn(d, name);
    if Get(d, name).None? { assert Pick(d, name) + rest == rest; }
    else {
      var f := Field(name, Get(d, name).value);
      NeatMember(d, f);
      DictCons(f, rest);
    }
  }

  lemma PickAbsent(d: Headers, name: bytes, rest: Headers, other: bytes)
    requires other != name && Absent(rest, other)
    ensures Absent(Pick(d, name) + rest, other)
  {
    hide Absent, Get;
    if Get(d, name).None? { assert Pick(d, name) + rest == rest; }
    else { AbsentCons(Field(name, Get(d, name).value), rest, other); }
  }

  lemma PickGet(d: Headers, name: bytes, rest: Headers, other: bytes)
    requires Absent(rest, name)
    ensures Get(Pick(d, name) + rest, other) == if other == name then Get(d, name) else Get(rest, other)
  {
    hide Absent, Get;
    GetIn(rest, name);
    if Get(d, name).None? { assert Pick(d, name) + rest == rest; }
    else { GetCons(Field(name, Get(d, name).value), rest, other); }
  }

  lemma NeatMember(d: Headers, f: Field)
    requires Dict(d) && f in d
    ensures Neat(f) && IsPseudo(f)
  {
    hide Neat, IsPseudo;
    var i :| 0 <= i < |d| && d[i] == f;
  }

  /** The dict in order is a dict, with the same method and path. */
  lemma InOrderDict(d: Headers)
    requires Dict(d)
    ensures Dict(InOrder(d))
    ensures Get(InOrder(d), ":method") == Get(d, ":method") && Get(InOrder(d), ":path") == Get(d, ":path")
  {
    InOrderParts(d, ":method", ":scheme", ":authority", ":path");
    FiveParts(Pick(d, ":method"), Pick(d, ":scheme"), Pick(d, ":authority"), Pick(d, ":path"), Unknown(d));
    hide Dict, Get, Pick, Unknown;
  }

  lemma InOrderParts(d: Headers, m: bytes, s: bytes, a: bytes, p: bytes)
    requires Dict(d) && Known(m) && Known(s) && Known(a) && Known(p)
    requires m != s && m != a && m != p && s != a && s != p && a != p
    ensures var all := Pick(d, m) + (Pick(d, s) + (Pick(d, a) + (Pick(d, p) + Unknown(d))));
      Dict(all) && Get(all, m) == Get(d, m) && Get(all, p) == Get(d, p)
  {
    hide Dict, Absent, Get, Pick, Unknown, Known;
    var u := Unknown(d);
    var x := Pick(d, p) + u;
    var y := Pick(d, a) + x;
    var z := Pick(d, s) + y;
    UnknownDict(d, p); UnknownDict(d, a); UnknownDict(d, s); UnknownDict(d, m);
    PickDict(d, p, u); PickAbsent(d, p, u, a); PickAbsent(d, p, u, s); PickAbsent(d, p, u, m);
    PickDict(d, a, x); PickAbsent(d, a, x, s); PickAbsent(d, a, x, m);
    PickDict(d, s, y); PickAbsent(d, s, y, m);
    PickDict(d, m, z);
    PickGet(d, m, z, m); PickGet(d, m, z, p); PickGet(d, s, y, p); PickGet(d, a, x, p); PickGet(d, p, u, p);
  }

  lemma FiveParts<T>(a: seq<T>, b: seq<T>, c: seq<T>, d: seq<T>, e: seq<T>)
    ensures a + b + c + d + e == a + (b + (c + (d + e)))
  {}

  lemma {:induction false} Separated(ps: Headers, rs: Headers)
    requires AllPseudo(ps) && NonePseudo(rs)
    ensures Pseudo(ps + rs) == ps && Regular(ps + rs) == rs
  {
    hide IsPseudo;
    if ps == [] {
      assert ps + rs == rs;
      AllRegular(rs);
    } else {
      assert AllPseudo(ps[1..]);
      Separated(ps[1..], rs);
      Cons(ps);
      Assoc([ps[0]], ps[1..], rs);
      GetCons(ps[0], ps[1..] + rs, []);
    }
  }

  // ----------------------------------------------------- printing what was read

  /** Fields read from lines print to lines that are found again. */
  lemma NeatLine(f: Field)
    requires Neat(f)
    ensures ClosedLine(HeaderLine(f)) && Strip(HeaderLine(f)) != []
    ensures f.name == [] ==> HeaderLine(f)[0] == ':'
  {
    var line := HeaderLine(f);
    StripBlank(line);
    hide Strip;
    assert line[|f.name|] == ':';
    assert line[|line| - 1] == if f.value == [] then ' ' else f.value[|f.value| - 1];
  }

  lemma NeatLines(hs: Headers)
    requires AllNeat(hs)
    ensures LfFreeHeaders(hs) && (hs != [] ==> ClosedLine(HeaderLine(hs[|hs| - 1])))
    ensures forall i :: 0 <= i < |hs| ==> Strip(HeaderLines(hs)[i]) != []
    ensures LfFreeLines(HeaderLines(hs))
  {
    hide HeaderLine, Strip, Trimmed;
    forall i | 0 <= i < |hs|
      ensures ClosedLine(HeaderLine(hs[i])) && Strip(HeaderLine(hs[i])) != []
      ensures LfFree(hs[i].name) && LfFree(hs[i].value)
    {
      assert Neat(hs[i]);
      NeatLine(hs[i]);
    }
  }

  /** The text is divided where it was printed to. */
  lemma NeatText(hs: Headers, body: bytes)
    requires AllNeat(Shown(hs)) && LfFree(Method(hs)) && LfFree(Path(hs))
    ensures var (head, b) := HeadBody(ToText(hs, body));
      b == body && NonBlank(HeadLines(head)) == [FirstLine(hs)] + HeaderLines(Shown(hs))
  {
    hide Method, Path, Shown, Neat, HeaderLines, Strip, NonBlank, HeadLines, HeadBody;
    var first := FirstLine(hs);
    FirstLineClosed(Method(hs), Path(hs));
    NeatLines(Shown(hs));
    PrintedHeadBody(first, Shown(hs), body);
    SerialiseLines(first, Shown(hs), body);
    PrintedLines(first, Shown(hs));
    NonBlankPrinted([first] + HeaderLines(Shown(hs)));
  }

  lemma FirstLineClosed(m: bytes, p: bytes)
    requires LfFree(m) && LfFree(p)
    ensures var line := m + " " + p + " " + "HTTP/2"; ClosedLine(line) && Strip(line) != []
  {
    var line := m + " " + p + " " + "HTTP/2";
    StripBlank(line);
    hide Strip;
    assert line[|line| - 1] == '2' && !IsSpace('2');
    var front := m + " " + p + " ";
    assert LfFree(front) && LfFree("HTTP/2");
  }

  predicate Nameless(hs: Headers) { exists i :: 0 <= i < |hs| && hs[i].name == [] }

  /** A field without a name does not come back as one. */
  lemma {:induction false} NamesCounted(fs: Headers, d: Headers, rs: Headers)
    requires AllNeat(fs) && ReadFields(HeaderLines(fs), d, rs).Ok?
    ensures var rg := ReadFields(HeaderLines(fs), d, rs).value.1;
      |rg| <= |rs| + |Regular(fs)| && (Nameless(fs) ==> |rg| < |rs| + |Regular(fs)|)
    decreases |fs|
  {
    if fs != [] {
      var f, tl := fs[0], fs[1..];
      assert Neat(f) && AllNeat(tl);
      assert Nameless(fs) ==> f.name == [] || Nameless(tl) by { NamelessTail(fs); }
      Cons(HeaderLines(fs));
      hide Neat, ReadField, Nameless, HeaderLine, Put;
      var g := ReadField(HeaderLine(f)).value;
      ReadAgain(f);
      if IsPseudo(g) { NamesCounted(tl, Put(d, g.name, g.value), rs); }
      else { NamesCounted(tl, d, rs + [g]); }
    }
  }

  lemma NamelessTail(fs: Headers)
    requires fs != []
    ensures Nameless(fs) ==> fs[0].name == [] || Nameless(fs[1..])
  {
    if Nameless(fs) {
      var i :| 0 <= i < |fs| && fs[i].name == [];
      if i > 0 { assert fs[1..][i - 1].name == []; }
    }
  }

  /** A printed field with a name reads back as it was; one without reads as a pseudo-header, if at all. */
  lemma ReadAgain(f: Field)
    requires Neat(f)
    ensures f.name != [] ==> ReadField(HeaderLine(f)) == Ok(f)
    ensures f.name == [] && ReadField(HeaderLine(f)).Ok? ==> IsPseudo(ReadField(HeaderLine(f)).value)
  {
    if f.name != [] { ReadPrintedField(f); }
    else {
      NeatLine(f);
      NeatRead(HeaderLine(f));
    }
  }

  // ----------------------------------------------------------------- the theorem

  /** What can be said of any fields read from text. */
  predicate FromReading(hs: Headers) {
    && AllNeat(Shown(hs)) && Distinct(Others(Pseudo(hs)))
    && Get(Pseudo(hs), ":method").Some? && Get(Pseudo(hs), ":path").Some?
    && LfFree(Method(hs)) && LfFree(Path(hs))
  }

  lemma GetLfFree(d: Headers, name: bytes, default: bytes)
    requires Dict(d) && LfFree(default)
    ensures LfFree(Or(Get(d, name), default))
  {
    GetIn(d, name);
    if Get(d, name).Some? { NeatMember(d, Field(name, Get(d, name).value)); }
    hide Dict, Get;
  }

  lemma NeatConcat(a: Headers, b: Headers)
    requires AllNeat(a) && AllNeat(b)
    ensures AllNeat(a + b)
  {
    hide Neat;
  }

  lemma OrderedReading(pd: Headers, rg: Headers)
    requires Dict(pd) && AllNeat(rg) && NonePseudo(rg) && Get(pd, ":method").Some? && Get(pd, ":path").Some?
    ensures FromReading(InOrder(pd) + rg)
  {
    var ps := InOrder(pd);
    InOrderDict(pd);
    assert AllPseudo(ps);
    Separated(ps, rg);
    OthersDict(ps, []);
    assert AllNeat(Others(ps)) && Distinct(Others(ps));
    GetLfFree(ps, ":method", "GET");
    GetLfFree(ps, ":path", "/");
    hide AllNeat, Distinct, Get, Others, Pseudo, Regular, InOrder, Dict, LfFree;
    NeatConcat(Others(ps), rg);
  }

  lemma FirstDict(m: bytes, p: bytes)
    requires Token(m) && Token(p)
    ensures Dict([Field(":method", m), Field(":path", p)])
    ensures Get([Field(":method", m), Field(":path", p)], ":method") == Some(m)
    ensures Get([Field(":method", m), Field(":path", p)], ":path") == Some(p)
  {
    var a, b := Field(":method", m), Field(":path", p);
    NeatToken(a);
    NeatToken(b);
    EmptyDict(":path");
    EmptyDict(":method");
    hide Token, Neat, Dict, Absent, Get;
    assert [b] + [] == [b] && [a] + [b] == [a, b];
    DictCons(b, []);
    AbsentCons(b, [], ":method");
    DictCons(a, [b]);
    GetCons(a, [b], ":method");
    GetCons(a, [b], ":path");
    GetCons(b, [], ":path");
  }

  lemma NeatToken(f: Field)
    requires (f.name == ":method" || f.name == ":path") && Token(f.value)
    ensures Neat(f) && IsPseudo(f)
  {
    TokenLfFree(f.value);
  }

  lemma NonBlankLfFree(lines: seq<bytes>)
    requires LfFreeLines(lines)
    ensures LfFreeLines(NonBlank(lines))
  {
    if lines != [] {
      hide Strip;
      assert LfFree(lines[0]);
      assert forall i :: 0 <= i < |lines[1..]| ==> lines[1..][i] == lines[i + 1];
      NonBlankLfFree(lines[1..]);
    }
  }

  /** Any fields that text reads as. */
  lemma ReadingGives(raw: bytes)
    requires FromText(raw).Ok?
    ensures FromReading(FromText(raw).value.0)
  {
    var (head, body) := HeadBody(raw);
    forall i | 0 <= i < |HeadLines(head)| ensures LfFree(HeadLines(head)[i]) { HeadLinesLfFree(head, i); }
    NonBlankLfFree(HeadLines(head));
    var lines := NonBlank(HeadLines(head));
    var bits := Fields(lines[0]);
    assert Token(bits[0]) && Token(bits[1]) && LfFreeLines(lines[1..]);
    hide HeadBody, HeadLines, NonBlank, Fields, Token, LfFreeLines, ReadFields, InOrder, FromReading, Dict, Get;
    FirstDict(bits[0], bits[1]);
    ReadKeeps(lines[1..], [Field(":method", bits[0]), Field(":path", bits[1])], []);
    var read := ReadFields(lines[1..], [Field(":method", bits[0]), Field(":path", bits[1])], []).value;
    OrderedReading(read.0, read.1);
  }

  /** Fields that come back as they were can be shown. */
  lemma ReturnedShowable(hs: Headers, body: bytes)
    requires FromText(ToText(hs, body)) == Ok((hs, body))
    ensures Showable(hs)
  {
    ReadingGives(ToText(hs, body));
    NeatText(hs, body);
    var bits := Fields(FirstLine(hs));
    assert |bits| >= 2 && Token(bits[0]) && Token(bits[1]);
    assert ([FirstLine(hs)] + HeaderLines(Shown(hs)))[1..] == HeaderLines(Shown(hs));
    ReturnedNames(hs, bits[0], bits[1]);
  }

  lemma ReturnedNames(hs: Headers, m: bytes, p: bytes)
    requires FromReading(hs) && Token(m) && Token(p)
    requires var read := ReadFields(HeaderLines(Shown(hs)), [Field(":method", m), Field(":path", p)], []);
      read.Ok? && InOrder(read.value.0) + read.value.1 == hs
    ensures Showable(hs)
  {
    var d := [Field(":method", m), Field(":path", p)];
    var (pd, rg) := ReadFields(HeaderLines(Shown(hs)), d, []).value;
    AllNamed(hs, m, p);
    GoodNamed(Shown(hs));
    ReadShown(hs, m, p);
    DictAfter(m, p, Others(Pseudo(hs)), ":method");
    DictAfter(m, p, Others(Pseudo(hs)), ":path");
    hide ReadFields, Shown, HeaderLines, InOrder, Others, Pseudo, Regular, Get, GoodFields, Distinct, AllNeat, Dict;
    ReadParts(hs, m, p);
  }

  /** The dict and the list that were read are the pseudo-headers and the rest. */
  lemma ReadParts(hs: Headers, m: bytes, p: bytes)
    requires FromReading(hs) && Token(m) && Token(p)
    requires var read := ReadFields(HeaderLines(Shown(hs)), [Field(":method", m), Field(":path", p)], []);
      read.Ok? && InOrder(read.value.0) + read.value.1 == hs
    ensures var (pd, rg) := ReadFields(HeaderLines(Shown(hs)), [Field(":method", m), Field(":path", p)], []).value;
      && Pseudo(hs) == InOrder(pd) && Regular(hs) == rg && AllPseudo(Pseudo(hs)) && NonePseudo(rg)
      && Get(Pseudo(hs), ":method") == Get(pd, ":method") && Get(Pseudo(hs), ":path") == Get(pd, ":path")
  {
    var d := [Field(":method", m), Field(":path", p)];
    NeatLines(Shown(hs));
    FirstDict(m, p);
    hide ReadFields, Shown, HeaderLines, InOrder, Others, Pseudo, Regular, Get, Distinct, Method, Path, LfFree;
    var (pd, rg) := ReadFields(HeaderLines(Shown(hs)), d, []).value;
    ReadKeeps(HeaderLines(Shown(hs)), d, []);
    InOrderDict(pd);
    Separated(InOrder(pd), rg);
  }

  lemma AllNamed(hs: Headers, m: bytes, p: bytes)
    requires FromReading(hs) && Token(m) && Token(p)
    requires var read := ReadFields(HeaderLines(Shown(hs)), [Field(":method", m), Field(":path", p)], []);
      read.Ok? && InOrder(read.value.0) + read.value.1 == hs
    ensures !Nameless(Shown(hs))
  {
    ReadParts(hs, m, p);
    OthersParts(Pseudo(hs));
    Separated(Others(Pseudo(hs)), Regular(hs));
    hide ReadFields, HeaderLines, InOrder, Others, Pseudo, Regular, Get, Distinct, Method, Path, LfFree, Nameless;
    NamesCounted(Shown(hs), [Field(":method", m), Field(":path", p)], []);
  }

  lemma GoodNamed(hs: Headers)
    requires AllNeat(hs) && !Nameless(hs)
    ensures GoodFields(hs)
  {
    forall i | 0 <= i < |hs| ensures GoodField(hs[i]) { assert Neat(hs[i]) && hs[i].name != []; }
  }

  /** The text form gives a request back unchanged if and only if it is in text form. */
  lemma ReturnedExactly(hs: Headers, body: bytes)
    ensures FromText(ToText(hs, body)) == Ok((hs, body)) <==> InTextForm(hs)
  {
    if FromText(ToText(hs, body)) == Ok((hs, body)) { ReturnedShowable(hs, body); }
    hide Showable, FromText, ToText, Canon, Get;
    if Showable(hs) { TextRoundTrip(hs, body); }
  }

  // ------------------------------------------------- text as an operator writes it

  /** The value of the last field with this name, or the one given. */
  function Last(hs: Headers, name: bytes, otherwise: Option<bytes>): Option<bytes> {
    if hs == [] then otherwise
    else if hs[|hs| - 1].name == name then Some(hs[|hs| - 1].value)
    else Last(hs[..|hs| - 1], name, otherwise)
  }

  lemma {:induction false} ReadFieldsSnoc(lines: seq<bytes>, last: bytes, d: Headers, rs: Headers)
    requires ReadFields(lines, d, rs).Ok? && ReadField(last).Ok?
    ensures var (pd, rg) := ReadFields(lines, d, rs).value; var f := ReadField(last).value;
      ReadFields(lines + [last], d, rs)
      == Ok(if IsPseudo(f) then (Put(pd, f.name, f.value), rg) else (pd, rg + [f]))
    decreases lines
  {
    hide ReadField, Put, IsPseudo;
    if lines == [] { assert [] + [last] == [last] && [last][1..] == []; }
    else {
      assert (lines + [last])[0] == lines[0] && (lines + [last])[1..] == lines[1..] + [last];
      var f := ReadField(lines[0]).value;
      if IsPseudo(f) { ReadFieldsSnoc(lines[1..], last, Put(d, f.name, f.value), rs); }
      else { ReadFieldsSnoc(lines[1..], last, d, rs + [f]); }
    }
  }

  lemma RegularSnoc(hs: Headers, f: Field)
    ensures Regular(hs + [f]) == Regular(hs) + if IsPseudo(f) then [] else [f]
  {
    RegularConcat(hs, [f]);
    assert [f][1..] == [];
  }

  lemma {:induction false} RegularConcat(a: Headers, b: Headers)
    ensures Regular(a + b) == Regular(a) + Regular(b)
  {
    hide IsPseudo;
    if a == [] { assert a + b == b; }
    else {
      assert (a + b)[0] == a[0] && (a + b)[1..] == a[1..] + b;
      RegularConcat(a[1..], b);
    }
  }

  /** Printed fields in any order, pseudo-headers repeated or not: the regular ones are kept in order,
      and of each pseudo-header the last value counts. */
  lemma {:induction false} ReadAny(fs: Headers, d: Headers, name: bytes)
    requires GoodFields(fs) && (name == [] || name[0] == ':')
    ensures ReadFields(HeaderLines(fs), d, []).Ok?
    ensures var (pd, rg) := ReadFields(HeaderLines(fs), d, []).value;
      rg == Regular(fs) && Get(pd, name) == Last(fs, name, Get(d, name))
    decreases |fs|
  {
    if fs != [] {
      var n := |fs| - 1;
      var front, f := fs[..n], fs[n];
      assert GoodField(f) && GoodFields(front);
      ReadAny(front, d, name);
      ReadPrintedField(f);
      HeaderLinesConcat(front, [f]);
      assert fs == front + [f];
      assert HeaderLines([f]) == [HeaderLine(f)] by { assert [f][1..] == []; }
      ReadFieldsSnoc(HeaderLines(front), HeaderLine(f), d, []);
      RegularSnoc(front, f);
      var (pd, rg) := ReadFields(HeaderLines(front), d, []).value;
      PutGet(pd, f.name, f.value, name);
      assert rg + [] == rg;
      assert f.name == name && name != [] ==> IsPseudo(f);
      hide ReadFields, ReadField, Put, GoodField, HeaderLines, HeaderLine, Regular, Get;
    }
  }

  /** The text of a method, a path and any fields, read as an operator may have written it: an explicit
      :method or :path line overrides the first line, the last of repeated pseudo-headers counts, and
      the other fields are kept in order with the body; it is refused exactly when neither an authority
      nor a host is there. */
  lemma WrittenRead(m: bytes, p: bytes, fs: Headers, body: bytes, name: bytes)
    requires Token(m) && Token(p) && GoodFields(fs) && Known(name)
    ensures var r := FromText(Join([m + " " + p + " " + "HTTP/2"] + HeaderLines(fs), CRLF) + BLANK + body);
      var first := [Field(":method", m), Field(":path", p)];
      && (r.Ok? <==> Last(fs, ":authority", None).Some? || Get(Regular(fs), "host").Some?)
      && (r.Err? ==> r.error == NoAuthority)
      && (r.Ok? ==>
            r.value.1 == body && Regular(r.value.0) == Regular(fs)
            && Get(r.value.0, name) == Last(fs, name, Get(first, name)))
  {
    hide ReadFields, HeaderLines, Get, Regular, FromText, InOrder, GoodFields, Dict, Last, Token, Join;
    var d := [Field(":method", m), Field(":path", p)];
    ReadAny(fs, d, name);
    ReadAny(fs, d, ":authority");
    var (pd, rg) := ReadFields(HeaderLines(fs), d, []).value;
    WrittenText(m, p, fs, body);
    FirstDict(m, p);
    WrittenDict(fs, d);
    Ordered(pd, rg, name);
    Ordered(pd, rg, ":authority");
    NoAuthorityIn(d);
  }

  lemma NoAuthorityIn(d: Headers)
    requires |d| == 2 && d[0].name == ":method" && d[1].name == ":path"
    ensures Get(d, ":authority") == None
  {
    GetIn(d, ":authority");
  }

  lemma WrittenText(m: bytes, p: bytes, fs: Headers, body: bytes)
    requires Token(m) && Token(p) && GoodFields(fs)
    requires ReadFields(HeaderLines(fs), [Field(":method", m), Field(":path", p)], []).Ok?
    ensures var read := ReadFields(HeaderLines(fs), [Field(":method", m), Field(":path", p)], []).value;
      FromText(Join([m + " " + p + " " + "HTTP/2"] + HeaderLines(fs), CRLF) + BLANK + body)
      == Assemble(read.0, read.1, body)
  {
    var first := m + " " + p + " " + "HTTP/2";
    WrittenHead(m, p, fs, body);
    assert ([first] + HeaderLines(fs))[1..] == HeaderLines(fs);
    hide ReadFields, HeaderLines, Join, HeadBody, NonBlank, HeadLines, Fields, GoodFields, Assemble, Token;
  }

  lemma WrittenHead(m: bytes, p: bytes, fs: Headers, body: bytes)
    requires Token(m) && Token(p) && GoodFields(fs)
    ensures var first := m + " " + p + " " + "HTTP/2";
      var raw := Join([first] + HeaderLines(fs), CRLF) + BLANK + body;
      HeadBody(raw).1 == body && NonBlank(HeadLines(HeadBody(raw).0)) == [first] + HeaderLines(fs)
      && Fields(first) == [m, p, "HTTP/2"]
  {
    var first := m + " " + p + " " + "HTTP/2";
    TokenLfFree(m);
    TokenLfFree(p);
    FirstLineClosed(m, p);
    assert Token("HTTP/2");
    FieldsThree(m, p, "HTTP/2");
    GoodFieldLines(fs);
    hide GoodFields, HeaderLines, Strip, NonBlank, HeadLines, HeadBody, Fields, Token;
    PrintedHeadBody(first, fs, body);
    SerialiseLines(first, fs, body);
    PrintedLines(first, fs);
    NonBlankPrinted([first] + HeaderLines(fs));
  }

  lemma WrittenDict(fs: Headers, d: Headers)
    requires GoodFields(fs) && Dict(d) && Get(d, ":method").Some? && Get(d, ":path").Some?
    requires ReadFields(HeaderLines(fs), d, []).Ok?
    ensures var (pd, rg) := ReadFields(HeaderLines(fs), d, []).value; Dict(pd) && NonePseudo(rg)
  {
    forall i | 0 <= i < |fs| ensures Neat(fs[i]) { assert GoodField(fs[i]); }
    NeatLines(fs);
    hide GoodFields, HeaderLines, ReadFields, Dict, Get;
    ReadKeeps(HeaderLines(fs), d, []);
  }

  /** In order, the dict's known pseudo-headers keep their values and the other fields follow. */
  lemma Ordered(pd: Headers, rg: Headers, name: bytes)
    requires Dict(pd) && NonePseudo(rg) && Known(name)
    ensures Regular(InOrder(pd) + rg) == rg && Get(InOrder(pd) + rg, name) == Get(pd, name)
    ensures Get(InOrder(pd) + rg, "host") == Get(rg, "host")
  {
    InOrderDict(pd);
    InOrderKnown(pd, name);
    assert AllPseudo(InOrder(pd));
    Separated(InOrder(pd), rg);
    GetSplit(InOrder(pd), rg, name);
    GetSplit(InOrder(pd), rg, "host");
    GetIn(InOrder(pd), "host");
    GetIn(rg, name);
    NoPseudoHost(InOrder(pd), rg, name);
    hide InOrder, Regular, Get, Dict, Known;
  }

  lemma NoPseudoHost(ps: Headers, rs: Headers, name: bytes)
    requires AllPseudo(ps) && NonePseudo(rs) && Known(name)
    ensures Absent(ps, "host") && Absent(rs, name)
  {}

  lemma {:induction false} GetSplit(a: Headers, b: Headers, name: bytes)
    ensures Get(a + b, name) == if Get(a, name).Some? then Get(a, name) else Get(b, name)
  {
    if a == [] { assert a + b == b; }
    else {
      assert (a + b)[0] == a[0] && (a + b)[1..] == a[1..] + b;
      GetSplit(a[1..], b, name);
    }
  }

  lemma InOrderKnown(d: Headers, name: bytes)
    requires Dict(d) && Known(name)
    ensures Get(InOrder(d), name) == Get(d, name)
  {
    var u := Unknown(d);
    UnknownDict(d, ":method"); UnknownDict(d, ":scheme"); UnknownDict(d, ":authority"); UnknownDict(d, ":path");
    GetIn(u, name);
    hide Dict, Get, Unknown, Absent;
    GetSplit(Pick(d, ":method") + Pick(d, ":scheme") + Pick(d, ":authority") + Pick(d, ":path"), u, name);
    GetSplit(Pick(d, ":method") + Pick(d, ":scheme") + Pick(d, ":authority"), Pick(d, ":path"), name);
    GetSplit(Pick(d, ":method") + Pick(d, ":scheme"), Pick(d, ":authority"), name);
    GetSplit(Pick(d, ":method"), Pick(d, ":scheme"), name);
    PickIs(d, ":method", name); PickIs(d, ":scheme", name); PickIs(d, ":authority", name); PickIs(d, ":path", name);
    hide Pick;
  }

  lemma PickIs(d: Headers, name: bytes, other: bytes)
    ensures Get(Pick(d, name), other) == if other == name then Get(d, name) else None
  {
    if Get(d, name).Some? { assert Pick(d, name)[1..] == []; }
  }
}
