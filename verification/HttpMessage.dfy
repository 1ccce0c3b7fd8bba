/** HTTP/1.x messages as bytes: the header list and its edits, printing, parsing. */
module HttpMessage {
  import opened Bytes
  import opened Ascii
  import opened Letters

  const MAX_BODY: nat := 64 * 1024 * 1024

  datatype Field = Field(name: bytes, value: bytes)
  type Headers = seq<Field>

  datatype Request = Request(verb: bytes, target: bytes, version: bytes, headers: Headers, body: bytes)

  datatype ParseError = EmptyRequestLine | MalformedRequestLine | MalformedHeader

  datatype Result<+T, +E> = Ok(value: T) | Err(error: E)

  // ------------------------------------------------------------- header list

  predicate Named(f: Field, name: bytes) { Lower(f.name) == Lower(name) }

  /** Values of every field with the name, whatever its case. */
  function GetAll(hs: Headers, name: bytes): seq<bytes> {
    if hs == [] then [] else (if Named(hs[0], name) then [hs[0].value] else []) + GetAll(hs[1..], name)
  }

  function GetHeader(hs: Headers, name: bytes): Option<bytes> {
    var all := GetAll(hs, name);
    if all == [] then None else Some(all[0])
  }

  /** The first field of a name, compared without case. */
  predicate IsFirst(hs: Headers, name: bytes, k: int) {
    0 <= k < |hs| && SameText(hs[k].name, name) && forall j :: 0 <= j < k ==> !SameText(hs[j].name, name)
  }

  predicate NoField(hs: Headers, name: bytes) { forall j :: 0 <= j < |hs| ==> !SameText(hs[j].name, name) }

  /** Looking a name up finds the first field of it. */
  lemma {:induction false} GetHeaderFirst(hs: Headers, name: bytes) returns (k: int)
    ensures match GetHeader(hs, name)
      case None => NoField(hs, name)
      case Some(v) => IsFirst(hs, name, k) && hs[k].value == v
    ensures forall j :: IsFirst(hs, name, j) ==> GetHeader(hs, name) == Some(hs[j].value)
  {
    k := 0;
    if hs != [] {
      LowerSame(hs[0].name, name);
      hide SameText;
      var tl := hs[1..];
      assert forall j :: 0 <= j < |tl| ==> tl[j] == hs[j + 1];
      var i := GetHeaderFirst(tl, name);
      if !Named(hs[0], name) {
        k := i + 1;
        forall j | IsFirst(hs, name, j) ensures GetHeader(hs, name) == Some(hs[j].value) {
          assert IsFirst(tl, name, j - 1);
        }
      }
    }
  }

  /** The fields with another name, in order. */
  function Without(hs: Headers, name: bytes): Headers {
    if hs == [] then [] else (if Named(hs[0], name) then [] else [hs[0]]) + Without(hs[1..], name)
  }

  /** First field of the name gets the value in place, later ones go; appended when there is none. */
  function WithHeader(hs: Headers, name: bytes, value: bytes): Headers {
    if hs == [] then [Field(name, value)]
    else if Named(hs[0], name) then [hs[0].(value := value)] + Without(hs[1..], name)
    else [hs[0]] + WithHeader(hs[1..], name, value)
  }

  lemma GetAllCons(f: Field, hs: Headers, name: bytes)
    ensures GetAll([f] + hs, name) == (if Named(f, name) then [f.value] else []) + GetAll(hs, name)
  {
    hide Named;
    ConsParts(f, hs);
  }

  lemma {:induction false} GetAllConcat(a: Headers, b: Headers, name: bytes)
    ensures GetAll(a + b, name) == GetAll(a, name) + GetAll(b, name)
  {
    hide Named;
    if a == [] { assert a + b == b; }
    else {
      assert (a + b)[0] == a[0] && (a + b)[1..] == a[1..] + b;
      GetAllConcat(a[1..], b, name);
      Assoc(if Named(a[0], name) then [a[0].value] else [], GetAll(a[1..], name), GetAll(b, name));
    }
  }

  lemma {:induction false} WithoutConcat(a: Headers, b: Headers, name: bytes)
    ensures Without(a + b, name) == Without(a, name) + Without(b, name)
  {
    if a == [] { assert a + b == b; }
    else { assert (a + b)[1..] == a[1..] + b; WithoutConcat(a[1..], b, name); }
  }

  /** Removing a name leaves nothing of it and every other name as it was. */
  lemma {:induction false} WithoutGetAll(hs: Headers, name: bytes, other: bytes)
    ensures GetAll(Without(hs, name), other)
         == if Lower(other) == Lower(name) then [] else GetAll(hs, other)
  {
    if hs != [] {
      WithoutGetAll(hs[1..], name, other);
      GetAllConcat(if Named(hs[0], name) then [] else [hs[0]], Without(hs[1..], name), other);
    }
  }

  /** Setting a name leaves exactly one value of it and every other name as it was. */
  lemma {:induction false} WithHeaderGetAll(hs: Headers, name: bytes, value: bytes, other: bytes)
    ensures GetAll(WithHeader(hs, name, value), other)
         == if Lower(other) == Lower(name) then [value] else GetAll(hs, other)
    ensures Without(WithHeader(hs, name, value), name) == Without(hs, name)
  {
    if hs != [] {
      if Named(hs[0], name) {
        WithoutGetAll(hs[1..], name, other);
        WithoutTwice(hs[1..], name);
      } else { WithHeaderGetAll(hs[1..], name, value, other); }
    }
  }

  lemma {:induction false} WithoutTwice(hs: Headers, name: bytes)
    ensures Without(Without(hs, name), name) == Without(hs, name)
  {
    if hs != [] {
      WithoutTwice(hs[1..], name);
      WithoutConcat(if Named(hs[0], name) then [] else [hs[0]], Without(hs[1..], name), name);
    }
  }

  /** Removal leaves every field of another name, in order. */
  lemma WithoutPlace(a: Headers, f: Field, b: Headers, name: bytes)
    ensures Without([], name) == []
    ensures Without(a + [f] + b, name) == Without(a, name) + (if SameText(f.name, name) then [] else [f])
        + Without(b, name)
  {
    LowerSame(f.name, name);
    WithoutConcat(a + [f], b, name);
    WithoutConcat(a, [f], name);
    assert Without([f], name) == if Named(f, name) then [] else [f] by { assert [f][1..] == []; }
    hide Without, SameText, Lower;
  }

  /** Setting writes the first field of the name where it stands, drops later ones, and appends one where
      there is none. */
  lemma {:induction false} WithHeaderPlace(a: Headers, f: Field, b: Headers, name: bytes, value: bytes)
    requires NoField(a, name)
    ensures WithHeader(a, name, value) == a + [Field(name, value)]
    ensures SameText(f.name, name) ==>
      WithHeader(a + ([f] + b), name, value) == a + ([Field(f.name, value)] + Without(b, name))
  {
    hide SameText;
    LowerSame(f.name, name);
    if a == [] {
      assert a + [Field(name, value)] == [Field(name, value)];
      assert a + ([f] + b) == [f] + b && ([f] + b)[1..] == b;
      assert a + ([Field(f.name, value)] + Without(b, name)) == [Field(f.name, value)] + Without(b, name);
    } else {
      LowerSame(a[0].name, name);
      var tl := a[1..];
      assert !SameText(a[0].name, name) && forall j :: 0 <= j < |tl| ==> tl[j] == a[j + 1];
      WithHeaderPlace(tl, f, b, name, value);
      assert (a + ([f] + b))[0] == a[0] && (a + ([f] + b))[1..] == tl + ([f] + b);
      Cons(a);
      Assoc([a[0]], tl, [Field(name, value)]);
      Assoc([a[0]], tl, [Field(f.name, value)] + Without(b, name));
    }
  }

  /** What setting a field still has to write, once it has (`done`) or has not met the name. */
  function Left(hs: Headers, name: bytes, value: bytes, done: bool): Headers {
    if done then Without(hs, name) else WithHeader(hs, name, value)
  }

  lemma LeftStep(hs: Headers, i: nat, name: bytes, value: bytes, done: bool)
    requires i < |hs|
    ensures Left(hs[i..], name, value, done)
         == if !Named(hs[i], name) then [hs[i]] + Left(hs[i + 1..], name, value, done)
            else if done then Left(hs[i + 1..], name, value, true)
            else [hs[i].(value := value)] + Left(hs[i + 1..], name, value, true)
  {
    Next(hs, i);
    hide Named;
    assert [] + Without(hs[i + 1..], name) == Without(hs[i + 1..], name);
  }

  /** The list an exchange carries and edits in place. */
  class HeaderList {
    var items: Headers

    constructor (hs: Headers) ensures items == hs { items := hs; }

    method Get(name: bytes) returns (v: Option<bytes>)
      ensures v == GetHeader(items, name)
    {
      var i := 0;
      while i < |items|
        invariant 0 <= i <= |items|
        invariant GetAll(items, name) == GetAll(items[i..], name)
      {
        assert items[i..][1..] == items[i + 1..];
        if Named(items[i], name) { return Some(items[i].value); }
        i := i + 1;
      }
      v := None;
    }

    method Remove(name: bytes)
      modifies this
      ensures items == Without(old(items), name) && GetAll(items, name) == []
      ensures forall other :: Lower(other) != Lower(name) ==> GetAll(items, other) == GetAll(old(items), other)
    {
      var out: Headers := [];
      for i := 0 to |items|
        invariant items == old(items) && Without(items, name) == out + Without(items[i..], name)
      {
        hide Named, Without;
        LeftStep(items, i, name, [], true);
        if !Named(items[i], name) {
          Assoc(out, [items[i]], Without(items[i + 1..], name));
          out := out + [items[i]];
        }
      }
      assert items[|items|..] == [] && out + [] == out;
      forall other { WithoutGetAll(items, name, other); }
      items := out;
    }

    method Set(name: bytes, value: bytes)
      modifies this
      ensures items == WithHeader(old(items), name, value)
    {
      var out: Headers, done, i := [], false, 0;
      assert items[0..] == items;
      while i < |items|
        invariant 0 <= i <= |items| && items == old(items)
        invariant WithHeader(items, name, value) == out + Left(items[i..], name, value, done)
      {
        hide Left, Named, WithHeader;
        LeftStep(items, i, name, value, done);
        if Named(items[i], name) {
          if !done {
            Assoc(out, [items[i].(value := value)], Left(items[i + 1..], name, value, true));
            out := out + [items[i].(value := value)];
            done := true;
          }
        } else {
          Assoc(out, [items[i]], Left(items[i + 1..], name, value, done));
          out := out + [items[i]];
        }
        i := i + 1;
      }
      assert items[i..] == [];
      if !done { out := out + [Field(name, value)]; }
      items := out;
    }
  }

  // ---------------------------------------------------------------- printing

  function HeaderLine(f: Field): bytes { f.name + ": " + f.value }

  function HeaderBytes(hs: Headers): bytes {
    if hs == [] then [] else HeaderLine(hs[0]) + CRLF + HeaderBytes(hs[1..])
  }

  function Serialise(start: bytes, hs: Headers, body: bytes): bytes {
    start + CRLF + HeaderBytes(hs) + CRLF + body
  }

  function StartLine(r: Request): bytes { r.verb + " " + r.target + " " + r.version }

  function Raw(r: Request): bytes { Serialise(StartLine(r), r.headers, r.body) }

  function HeaderLines(hs: Headers): (lines: seq<bytes>)
    ensures |lines| == |hs| && forall i :: 0 <= i < |hs| ==> lines[i] == HeaderLine(hs[i])
  {
    if hs == [] then [] else [HeaderLine(hs[0])] + HeaderLines(hs[1..])
  }

  /** Printing is the lines of the head, joined, then the blank line and the body. */
  lemma {:induction false} SerialiseLines(start: bytes, hs: Headers, body: bytes)
    ensures Serialise(start, hs, body) == Join([start] + HeaderLines(hs), CRLF) + BLANK + body
    decreases |hs|
  {
    var lines := [start] + HeaderLines(hs);
    assert BLANK == CRLF + CRLF;
    if hs == [] {
      assert start + CRLF + [] + CRLF + body == start + BLANK + body;
    } else {
      var h := HeaderLine(hs[0]);
      SerialiseLines(h, hs[1..], body);
      assert lines[1..] == [h] + HeaderLines(hs[1..]);
      assert Serialise(start, hs, body) == start + CRLF + Serialise(h, hs[1..], body);
      assert Join(lines, CRLF) == start + CRLF + Join(lines[1..], CRLF);
    }
  }

  // ----------------------------------------------------------------- parsing

  function CutCr(line: bytes): bytes {
    if line != [] && line[|line| - 1] == '\r' then line[..|line| - 1] else line
  }

  function CutAll(lines: seq<bytes>): (r: seq<bytes>)
    ensures |r| == |lines|
  {
    if lines == [] then [] else [CutCr(lines[0])] + CutAll(lines[1..])
  }

  /** Lines ended by LF or CRLF. */
  function HeadLines(head: bytes): (r: seq<bytes>)
    ensures |r| > 0
  { CutAll(Split(head, "\n")) }

  predicate Folded(line: bytes) { line != [] && (line[0] == ' ' || line[0] == '\t') }

  /** One header line added to what has been read; a continuation goes to the last value. */
  function AddLine(hs: Headers, line: bytes): Result<Headers, ParseError> {
    if line == [] then Ok(hs)
    else if Folded(line) && hs != [] then
      var last := hs[|hs| - 1];
      Ok(hs[|hs| - 1 := Field(last.name, last.value + " " + Strip(line))])
    else
      var i := Find(line, ":");
      if i <= 0 then Err(MalformedHeader) else Ok(hs + [Field(line[..i], Strip(line[i + 1..]))])
  }

  function AddLines(hs: Headers, lines: seq<bytes>): Result<Headers, ParseError>
    decreases lines
  {
    if lines == [] then Ok(hs)
    else match AddLine(hs, lines[0])
      case Err(e) => Err(e)
      case Ok(more) => AddLines(more, lines[1..])
  }

  method ParseHeaders(lines: seq<bytes>) returns (r: Result<Headers, ParseError>)
    ensures r == AddLines([], lines)
  {
    var headers: Headers := [];
    for k := 0 to |lines|
      invariant AddLines([], lines) == AddLines(headers, lines[k..])
    {
      var ln := lines[k];
      assert lines[k..][1..] == lines[k + 1..];
      if ln == [] { continue; }
      if Folded(ln) && headers != [] {
        var last := headers[|headers| - 1];
        headers := headers[|headers| - 1 := Field(last.name, last.value + " " + Strip(ln))];
        continue;
      }
      var idx := Find(ln, ":");
      if idx <= 0 { return Err(MalformedHeader); }
      headers := headers + [Field(ln[..idx], Strip(ln[idx + 1..]))];
    }
    r := Ok(headers);
  }

  /** Head and body of a raw message: the first blank line divides them. */
  function HeadBody(raw: bytes): (bytes, bytes) {
    var i := Find(raw, BLANK);
    if i != -1 then (raw[..i], raw[i + 4..])
    else
      var j := Find(raw, "\n\n");
      if j != -1 then (raw[..j], raw[j + 2..]) else (raw, [])
  }

  function ParseHead(head: bytes, body: bytes): Result<Request, ParseError> {
    var lines := HeadLines(head);
    var bits := Fields(lines[0]);
    if Strip(lines[0]) == [] then Err(EmptyRequestLine)
    else if |bits| < 2 then Err(MalformedRequestLine)
    else match AddLines([], lines[1..])
      case Err(e) => Err(e)
      case Ok(hs) => Ok(Request(bits[0], bits[1], if |bits| > 2 then bits[2] else "HTTP/1.1", hs, body))
  }

  function ParseRequest(raw: bytes): Result<Request, ParseError> {
    var (head, body) := HeadBody(raw);
    ParseHead(head, body)
  }

  // ------------------------------------------------------------ round trip

  predicate LfFree(s: bytes) { '\n' !in s }

  predicate LfFreeHeaders(hs: Headers) {
    forall i :: 0 <= i < |hs| ==> LfFree(hs[i].name) && LfFree(hs[i].value)
  }

  predicate ClosedLine(line: bytes) { LfFree(line) && (line == [] || line[|line| - 1] != '\r') }

  predicate LfFreeLines(lines: seq<bytes>) { forall i :: 0 <= i < |lines| ==> LfFree(lines[i]) }

  /** The reader drops a CR at the end of the last line. */
  function Seen(lines: seq<bytes>): (r: seq<bytes>)
    ensures |r| == |lines|
  {
    if lines == [] then [] else lines[..|lines| - 1] + [CutCr(lines[|lines| - 1])]
  }

  lemma SeenCons(l: bytes, tl: seq<bytes>)
    requires tl != []
    ensures Seen([l] + tl) == [l] + Seen(tl)
  {
    assert ([l] + tl)[..|tl|] == [l] + tl[..|tl| - 1];
  }

  /** Lines joined by CRLF are read back, all but a CR at the end of the last one. */
  lemma {:induction false} JoinedLines(lines: seq<bytes>)
    requires lines != [] && LfFreeLines(lines)
    ensures HeadLines(Join(lines, CRLF)) == Seen(lines)
  {
    var l := lines[0];
    if |lines| == 1 {
      FindByte(l, '\n');
      assert Split(l, "\n") == [l] && lines == [l] && lines[..0] == [];
      assert CutAll([l]) == [CutCr(l)] + CutAll([]);
    } else {
      var tl := lines[1..];
      var rest := Join(tl, CRLF);
      Cons(lines);
      assert forall i :: 0 <= i < |tl| ==> tl[i] == lines[i + 1];
      JoinedLines(tl);
      SplitFirstLine(l, rest);
      hide LfFreeLines, Seen;
      SeenCons(l, tl);
      ConsParts(l + "\r", Split(rest, "\n"));
      assert CutCr(l + "\r") == l;
    }
  }

  lemma HeadLinesOfJoin(lines: seq<bytes>)
    requires |lines| > 0 && LfFreeLines(lines) && ClosedLine(lines[|lines| - 1])
    ensures HeadLines(Join(lines, CRLF)) == lines
  {
    JoinedLines(lines);
    hide HeadLines, Join, LfFreeLines;
    Cut(lines, |lines| - 1);
  }

  lemma SplitFirstLine(l: bytes, rest: bytes)
    requires LfFree(l)
    ensures Split(l + CRLF + rest, "\n") == [l + "\r"] + Split(rest, "\n")
  {
    var p := l + "\r";
    FindByte(p, '\n');
    SeparatorsUnbordered('\n');
    FindSeparator(p, "\n", rest);
    assert l + CRLF + rest == p + "\n" + rest;
    assert (p + "\n" + rest)[..|p|] == p && (p + "\n" + rest)[|p| + 1..] == rest;
  }

  /** A printed message divides where it was printed to, whatever the body holds. */
  lemma PrintedHeadBody(start: bytes, hs: Headers, body: bytes)
    requires LfFree(start) && LfFreeHeaders(hs)
    ensures var raw := Serialise(start, hs, body);
      var head := Join([start] + HeaderLines(hs), CRLF);
      raw == head + BLANK + body && Find(raw, BLANK) == |head| && HeadBody(raw) == (head, body)
  {
    var lines := [start] + HeaderLines(hs);
    SerialiseLines(start, hs, body);
    forall l | l in lines ensures !Contains(l, CRLF) {
      var i :| 0 <= i < |lines| && lines[i] == l;
      if i > 0 { assert l == HeaderLine(hs[i - 1]); }
      NoLfNoCrlf(l);
    }
    FirstBlank(lines, body);
    CutAt(Join(lines, CRLF), BLANK, body);
  }

  lemma CutAt(a: bytes, b: bytes, c: bytes)
    ensures (a + b + c)[..|a|] == a && (a + b + c)[|a|..|a| + |b|] == b && (a + b + c)[|a| + |b|..] == c
  {}

  lemma PrintedClosed(start: bytes, hs: Headers)
    requires ClosedLine(start) && LfFreeHeaders(hs)
    requires hs != [] ==> ClosedLine(HeaderLine(hs[|hs| - 1]))
    ensures var lines := [start] + HeaderLines(hs);
      (forall i :: 0 <= i < |lines| ==> LfFree(lines[i])) && ClosedLine(lines[|lines| - 1])
  {
    hide HeaderLine, HeaderLines;
    var lines := [start] + HeaderLines(hs);
    forall i | 0 <= i < |lines| ensures LfFree(lines[i]) {
      if i > 0 { LineLfFree(hs[i - 1]); }
    }
    hide LfFree;
  }

  /** A printed message's lines are the lines printed. */
  lemma PrintedLines(start: bytes, hs: Headers)
    requires ClosedLine(start) && LfFreeHeaders(hs)
    requires hs != [] ==> ClosedLine(HeaderLine(hs[|hs| - 1]))
    ensures HeadLines(Join([start] + HeaderLines(hs), CRLF)) == [start] + HeaderLines(hs)
  {
    hide HeaderLine, HeaderLines, HeadLines, Join, LfFree, ClosedLine;
    PrintedClosed(start, hs);
    HeadLinesOfJoin([start] + HeaderLines(hs));
  }

  lemma LineLfFree(f: Field)
    requires LfFree(f.name) && LfFree(f.value)
    ensures LfFree(HeaderLine(f))
  {}

  predicate GoodName(n: bytes) { n != [] && ':' !in n && LfFree(n) }

  predicate GoodValue(v: bytes) { Trimmed(v) && LfFree(v) }

  /** Fields that print to lines of their own; only the first name may start with white space. */
  predicate GoodHeaders(hs: Headers) {
    forall i :: 0 <= i < |hs| ==>
      GoodName(hs[i].name) && GoodValue(hs[i].value) && (i > 0 ==> !Folded(hs[i].name))
  }

  /** Requests in printed form. */
  predicate Printed(r: Request) {
    Token(r.verb) && Token(r.target) && Token(r.version) && GoodHeaders(r.headers)
  }

  lemma HeaderLineParts(f: Field)
    requires GoodName(f.name)
    ensures var line := HeaderLine(f); var i := Find(line, ":");
      i == |f.name| > 0 && line[..i] == f.name && Strip(line[i + 1..]) == Strip(f.value)
      && line != [] && Folded(line) == Folded(f.name)
  {
    hide Find, Strip, At, Contains;
    var line, rest := HeaderLine(f), " " + f.value;
    SeparatorsUnbordered(':');
    FindByte(f.name, ':');
    assert line == f.name + ":" + rest by { assert ": " + f.value == ":" + rest; }
    FindSeparator(f.name, ":", rest);
    CutAt(f.name, ":", rest);
    StripLead(f.value);
  }

  lemma StripLead(v: bytes)
    ensures Strip(" " + v) == Strip(v)
  {
    assert (" " + v)[1..] == v;
    assert LStrip(" " + v) == LStrip(v);
  }

  /** What parsing keeps of printed fields: the values without surrounding white space. */
  function StripValues(hs: Headers): (r: Headers)
    ensures |r| == |hs|
    ensures forall i :: 0 <= i < |hs| ==> r[i] == Field(hs[i].name, Strip(hs[i].value))
  {
    if hs == [] then [] else [Field(hs[0].name, Strip(hs[0].value))] + StripValues(hs[1..])
  }

  lemma AddPrintedLine(done: Headers, f: Field)
    requires GoodName(f.name) && (done != [] ==> !Folded(f.name))
    ensures AddLine(done, HeaderLine(f)) == Ok(done + [Field(f.name, Strip(f.value))])
  {
    HeaderLineParts(f);
  }

  lemma {:induction false} AddPrinted(done: Headers, hs: Headers)
    requires forall i :: 0 <= i < |hs| ==> GoodName(hs[i].name)
    requires forall i :: 0 <= i < |hs| && (i > 0 || done != []) ==> !Folded(hs[i].name)
    ensures AddLines(done, HeaderLines(hs)) == Ok(done + StripValues(hs))
    decreases |hs|
  {
    if hs == [] { assert done + StripValues(hs) == done; }
    else {
      var more := done + [Field(hs[0].name, Strip(hs[0].value))];
      Assoc(done, [Field(hs[0].name, Strip(hs[0].value))], StripValues(hs[1..]));
      AddPrintedLine(done, hs[0]);
      AddPrinted(more, hs[1..]);
      AddLinesStep(done, HeaderLine(hs[0]), HeaderLines(hs[1..]), more);
    }
  }

  lemma AddLinesStep(hs: Headers, line: bytes, lines: seq<bytes>, more: Headers)
    requires AddLine(hs, line) == Ok(more)
    ensures AddLines(hs, [line] + lines) == AddLines(more, lines)
  {
    assert ([line] + lines)[1..] == lines;
  }

  lemma {:induction false} TokenLfFree(t: bytes)
    requires Token(t)
    ensures ClosedLine(t)
  {}

  lemma StartLineFacts(r: Request)
    requires Token(r.verb) && Token(r.target) && Token(r.version)
    ensures ClosedLine(StartLine(r)) && Strip(StartLine(r)) != []
    ensures Fields(StartLine(r)) == [r.verb, r.target, r.version]
  {
    FieldsThree(r.verb, r.target, r.version);
    assert StartLine(r)[0] == r.verb[0];
    assert !Blank(StartLine(r));
    TokenLfFree(r.verb); TokenLfFree(r.target); TokenLfFree(r.version);
  }

  lemma GoodLastLine(hs: Headers)
    requires GoodHeaders(hs)
    ensures LfFreeHeaders(hs) && (hs != [] ==> ClosedLine(HeaderLine(hs[|hs| - 1])))
  {
    if hs != [] {
      var f := hs[|hs| - 1];
      assert LfFree(f.name) && LfFree(f.value) && Trimmed(f.value);
      assert forall i :: 0 <= i < |f.value| ==> HeaderLine(f)[|f.name| + 2 + i] == f.value[i];
    }
  }

  /** Requests that print to one line per field; values may carry outer white space. */
  predicate Printable(r: Request) {
    && Token(r.verb) && Token(r.target) && Token(r.version) && LfFreeHeaders(r.headers)
    && (forall i :: 0 <= i < |r.headers| ==> GoodName(r.headers[i].name))
    && (forall i :: 0 < i < |r.headers| ==> !Folded(r.headers[i].name))
    && (r.headers != [] ==> ClosedLine(HeaderLine(r.headers[|r.headers| - 1])))
  }

  /** Printing and parsing back loses nothing but white space around values. */
  lemma ParsePrintable(r: Request)
    requires Printable(r)
    ensures ParseRequest(Raw(r)) == Ok(r.(headers := StripValues(r.headers)))
  {
    hide Raw, ParseRequest, ParseHead, HeadLines, Fields, Strip, AddLines, StartLine, Join, HeaderLines;
    var start, hs := StartLine(r), r.headers;
    var head := Join([start] + HeaderLines(hs), CRLF);
    PrintableHead(r);
    StartLineFacts(r);
    AddPrinted([], hs);
    assert [] + StripValues(hs) == StripValues(hs);
    ParseHeadFrom(head, r.body, start, HeaderLines(hs), r.(headers := StripValues(hs)));
  }

  lemma PrintableHead(r: Request)
    requires Printable(r)
    ensures var head := Join([StartLine(r)] + HeaderLines(r.headers), CRLF);
      ParseRequest(Raw(r)) == ParseHead(head, r.body) && HeadLines(head) == [StartLine(r)] + HeaderLines(r.headers)
  {
    StartLineFacts(r);
    PrintedHeadBody(StartLine(r), r.headers, r.body);
    PrintedLines(StartLine(r), r.headers);
  }

  /** Printing a request in printed form and parsing it back is the identity. */
  lemma ParsePrinted(r: Request)
    requires Printed(r)
    ensures ParseRequest(Raw(r)) == Ok(r)
  {
    GoodLastLine(r.headers);
    ParsePrintable(r);
    StripGoodValues(r.headers);
  }

  lemma StripGoodValues(hs: Headers)
    requires GoodHeaders(hs)
    ensures StripValues(hs) == hs
  {
    forall i | 0 <= i < |hs| ensures StripValues(hs)[i] == hs[i] { StripTrimmed(hs[i].value); }
  }

  lemma ParseHeadFrom(head: bytes, body: bytes, start: bytes, lines: seq<bytes>, r: Request)
    requires HeadLines(head) == [start] + lines && Strip(start) != [] && body == r.body
    requires Fields(start) == [r.verb, r.target, r.version] && AddLines([], lines) == Ok(r.headers)
    ensures ParseHead(head, body) == Ok(r)
  {
    assert HeadLines(head)[1..] == lines;
  }

  // --------------------------------------------------- what parsing gives

  /** A field that prints to one line which parsing reads back as that field. */
  predicate WiredField(f: Field) {
    GoodName(f.name) && LfFree(f.value) && ClosedLine(HeaderLine(f))
  }

  predicate Wired(hs: Headers) {
    && (forall i :: 0 <= i < |hs| ==> WiredField(hs[i]))
    && (forall i :: 0 < i < |hs| ==> !Folded(hs[i].name))
  }

  lemma ValueCloses(name: bytes, value: bytes)
    requires LfFree(name) && LfFree(value)
    requires value != [] ==> value[|value| - 1] != '\r'
    ensures ClosedLine(HeaderLine(Field(name, value)))
  {
    var line := HeaderLine(Field(name, value));
    assert value != [] ==> line[|line| - 1] == value[|value| - 1];
    assert value == [] ==> line[|line| - 1] == ' ';
  }

  lemma TrimmedCloses(name: bytes, v: bytes)
    requires LfFree(name) && Trimmed(v) && LfFree(v)
    ensures ClosedLine(HeaderLine(Field(name, v)))
  {
    ValueCloses(name, v);
  }

  lemma StrippedLine(line: bytes)
    requires LfFree(line)
    ensures LfFree(Strip(line)) && Trimmed(Strip(line))
    ensures Strip(line) != [] ==> Strip(line)[|Strip(line)| - 1] != '\r'
  {
    var k := StripSlice(line);
    StripIsTrimmed(line);
    hide Strip;
  }

  lemma FieldWired(line: bytes)
    requires LfFree(line) && Find(line, ":") > 0
    ensures var i := Find(line, ":");
      WiredField(Field(line[..i], Strip(line[i + 1..]))) && Folded(line[..i]) == Folded(line)
  {
    FindByte(line, ':');
    StrippedLine(line[Find(line, ":") + 1..]);
    hide Strip;
    TrimmedCloses(line[..Find(line, ":")], Strip(line[Find(line, ":") + 1..]));
  }

  lemma FoldWired(last: Field, line: bytes)
    requires WiredField(last) && LfFree(line)
    ensures WiredField(Field(last.name, last.value + " " + Strip(line)))
  {
    StrippedLine(line);
    hide Strip;
    ValueCloses(last.name, last.value + " " + Strip(line));
  }

  lemma AddLineWired(hs: Headers, line: bytes)
    requires Wired(hs) && LfFree(line) && AddLine(hs, line).Ok?
    ensures Wired(AddLine(hs, line).value)
  {
    hide WiredField, Strip;
    if line != [] {
      if Folded(line) && hs != [] { FoldWired(hs[|hs| - 1], line); } else { FieldWired(line); }
    }
  }

  lemma {:induction false} AddLinesWired(hs: Headers, lines: seq<bytes>)
    requires Wired(hs) && (forall i :: 0 <= i < |lines| ==> LfFree(lines[i])) && AddLines(hs, lines).Ok?
    ensures Wired(AddLines(hs, lines).value)
    decreases lines
  {
    if lines != [] {
      AddLineWired(hs, lines[0]);
      AddLinesWired(AddLine(hs, lines[0]).value, lines[1..]);
    }
  }

  lemma {:induction false} CutAllAt(lines: seq<bytes>, i: nat)
    requires i < |lines|
    ensures CutAll(lines)[i] == CutCr(lines[i])
  {
    if i > 0 { CutAllAt(lines[1..], i - 1); }
  }

  lemma HeadLinesLfFree(head: bytes, i: nat)
    requires i < |HeadLines(head)|
    ensures LfFree(HeadLines(head)[i])
  {
    var parts := Split(head, "\n");
    SplitPieces(head, "\n");
    CutAllAt(parts, i);
    assert parts[i] in parts;
    FindByte(parts[i], '\n');
  }

  /** Every request parsing gives prints to one line per field. */
  lemma ParsedWired(raw: bytes)
    requires ParseRequest(raw).Ok?
    ensures var r := ParseRequest(raw).value;
      Token(r.verb) && Token(r.target) && Token(r.version) && Wired(r.headers)
  {
    hide Token, LfFree, Strip, AddLines, Fields, HeadLines, Wired;
    var head := HeadBody(raw).0;
    HeadWired(head);
    DefaultVersion();
    assert ParseRequest(raw) == ParseHead(head, HeadBody(raw).1);
  }

  lemma HeadWired(head: bytes)
    ensures forall i :: 0 <= i < |Fields(HeadLines(head)[0])| ==> Token(Fields(HeadLines(head)[0])[i])
    ensures var r := AddLines([], HeadLines(head)[1..]); r.Ok? ==> Wired(r.value)
  {
    hide HeadLines, Fields, AddLines, LfFree;
    var lines := HeadLines(head);
    forall i | 0 <= i < |lines| ensures LfFree(lines[i]) { HeadLinesLfFree(head, i); }
    if AddLines([], lines[1..]).Ok? { AddLinesWired([], lines[1..]); }
  }

  lemma DefaultVersion()
    ensures Token("HTTP/1.1")
  {}

  lemma WiredPrintable(r: Request)
    requires Token(r.verb) && Token(r.target) && Token(r.version) && Wired(r.headers)
    ensures Printable(r)
  {}

  /** Printing and parsing back is the identity on exactly the requests in printed form. */
  lemma PrintedExactly(r: Request)
    ensures ParseRequest(Raw(r)) == Ok(r) <==> Printed(r)
  {
    hide Raw, ParseRequest;
    if Printed(r) { ParsePrinted(r); }
    if ParseRequest(Raw(r)) == Ok(r) {
      ParsedWired(Raw(r));
      ParsePrintable(r);
      StrippedGood(r.headers);
    }
  }

  lemma StrippedGood(hs: Headers)
    requires Wired(hs) && StripValues(hs) == hs
    ensures GoodHeaders(hs)
  {
    assert forall i :: 0 <= i < |hs| ==> WiredField(hs[i]) && hs[i] == StripValues(hs)[i];
  }
}
