/** Reading messages off a byte stream: heads, chunked bodies, body framing.
    RFC 9112 sections 6.3 (message body length) and 7.1 (chunked transfer coding). */
module HttpReader {
  import opened Bytes
  import opened Ascii
  import opened Letters
  import opened Numerals
  import opened HttpMessage

  datatype ReadError = EarlyEof | BadChunkSize | BadLength | TooLarge | NegativeLength | CutHead

  datatype Read<+T> = Got(value: T, rest: bytes) | Failed(error: ReadError)

  /** An open stream: the bytes not read yet, up to end of file. */
  class StreamReader {
    var rest: bytes

    constructor (data: bytes) ensures rest == data { rest := data; }

    /** Through the first `sep`; without one, everything, and `ok` is false. */
    method ReadUntil(sep: bytes) returns (ok: bool, data: bytes)
      modifies this
      ensures ok == Contains(old(rest), sep)
      ensures ok ==> var n := Find(old(rest), sep) + |sep|; data == old(rest)[..n] && rest == old(rest)[n..]
      ensures !ok ==> data == old(rest) && rest == []
    {
      var i := Find(rest, sep);
      ok := i != -1;
      data := if ok then rest[..i + |sep|] else rest;
      rest := rest[|data|..];
    }

    method ReadExactly(n: nat) returns (ok: bool, data: bytes)
      modifies this
      ensures ok == (n <= |old(rest)|)
      ensures data == old(rest)[..if ok then n else |old(rest)|] && rest == old(rest)[|data|..]
    {
      ok := n <= |rest|;
      data := if ok then rest[..n] else rest;
      rest := rest[|data|..];
    }
  }

  // -------------------------------------------------------------------- head

  datatype HeadRead = Head(head: bytes) | CleanEof | BrokenHead

  function HeadOf(s: bytes): (HeadRead, bytes) {
    var i := Find(s, BLANK);
    if i != -1 then (Head(s[..i]), s[i + 4..])
    else if s == [] then (CleanEof, [])
    else
      var j := Find(s, "\n\n");
      (if j != -1 then Head(s[..j]) else BrokenHead, [])
  }

  method ReadHead(reader: StreamReader) returns (r: HeadRead)
    modifies reader
    ensures (r, reader.rest) == HeadOf(old(reader.rest))
  {
    var ok, data := reader.ReadUntil(BLANK);
    if ok {
      assert data[..|data| - 4] == old(reader.rest)[..|data| - 4];
      return Head(data[..|data| - 4]);
    }
    if data == [] { return CleanEof; }
    var idx := Find(data, "\n\n");
    if idx != -1 { return Head(data[..idx]); }
    r := BrokenHead;
  }

  /** The head of a stream, by what the stream holds: a blank line, or at the end of file an empty line
      of bare line feeds; nothing at all is a clean end, anything else a broken one. */
  lemma HeadShapes(head: bytes, rest: bytes)
    ensures HeadOf([]) == (CleanEof, [])
    ensures Find(head + BLANK, BLANK) == |head| ==> HeadOf(head + BLANK + rest) == (Head(head), rest)
    ensures !Contains(head + "\n\n" + rest, BLANK) && Find(head + "\n\n", "\n\n") == |head| ==>
      HeadOf(head + "\n\n" + rest) == (Head(head), [])
    ensures head != [] && !Contains(head, BLANK) && !Contains(head, "\n\n") ==> HeadOf(head) == (BrokenHead, [])
  {
    if Find(head + BLANK, BLANK) == |head| {
      FindKept(head + BLANK, rest, BLANK);
      CutAt(head, BLANK, rest);
    }
    if Find(head + "\n\n", "\n\n") == |head| {
      FindKept(head + "\n\n", rest, "\n\n");
      CutAt(head, "\n\n", rest);
    }
  }

  /** The first occurrence stays the first when bytes are appended. */
  lemma FindKept(s: bytes, tail: bytes, pat: bytes)
    requires Contains(s, pat)
    ensures Find(s + tail, pat) == Find(s, pat)
  {
    var r := Find(s, pat);
    assert (s + tail)[r..r + |pat|] == s[r..r + |pat|];
    assert At(s + tail, pat, r);
    forall j | 0 <= j < r ensures !At(s + tail, pat, j) {
      assert (s + tail)[j..j + |pat|] == s[j..j + |pat|];
      assert !At(s, pat, j);
    }
  }

  // ----------------------------------------------------------------- chunked

  /** The number a chunk's size line announces, extensions dropped. */
  function ChunkSize(line: bytes): Option<int> { PyInt(Split(Strip(line), ";")[0], 16) }

  /** Trailer lines up to and including the empty one. */
  function AfterTrailers(s: bytes): (r: Option<bytes>)
    ensures r.Some? ==> |r.value| <= |s|
    decreases |s|
  {
    var i := Find(s, CRLF);
    if i == -1 then None else if i == 0 then Some(s[2..]) else AfterTrailers(s[i + 2..])
  }

  function Dechunk(out: bytes, s: bytes): (r: Read<bytes>)
    ensures r.Got? ==> |r.rest| <= |s|
    decreases |s|, 0
  {
    var i := Find(s, CRLF);
    if i == -1 then Failed(EarlyEof) else OneChunk(out, s[..i + 2], s[i + 2..])
  }

  /** What follows a chunk's size line: its data and CRLF, or the trailers after the last one. */
  function OneChunk(out: bytes, line: bytes, rest: bytes): (r: Read<bytes>)
    ensures r.Got? ==> |r.rest| <= |rest|
    decreases |rest|, 1
  {
    match ChunkSize(line)
    case None => Failed(BadChunkSize)
    case Some(size) =>
      if size == 0 then
        match AfterTrailers(rest)
        case None => Failed(EarlyEof)
        case Some(after) => Got(out, after)
      else if |out| + size > MAX_BODY then Failed(TooLarge)
      else if size < 0 then Failed(NegativeLength)
      else if |rest| < size + 2 then Failed(EarlyEof)
      else Dechunk(out + rest[..size], rest[size + 2..])
  }

  lemma DechunkLine(out: bytes, s: bytes)
    ensures !Contains(s, CRLF) ==> Dechunk(out, s) == Failed(EarlyEof)
    ensures Contains(s, CRLF) ==>
      var i := Find(s, CRLF);
      0 <= i && i + 2 <= |s| && Dechunk(out, s) == OneChunk(out, s[..i + 2], s[i + 2..])
  {
    hide ChunkSize;
  }

  method SkipTrailers(reader: StreamReader) returns (ok: bool)
    modifies reader
    ensures ok == AfterTrailers(old(reader.rest)).Some?
    ensures ok ==> Some(reader.rest) == AfterTrailers(old(reader.rest))
  {
    while true
      invariant AfterTrailers(reader.rest) == AfterTrailers(old(reader.rest))
      decreases |reader.rest|
    {
      var got, trailer := reader.ReadUntil(CRLF);
      if !got { return false; }
      if trailer == CRLF { return true; }
    }
  }

  method ReadChunked(reader: StreamReader) returns (r: Read<bytes>)
    modifies reader
    ensures r == Dechunk([], old(reader.rest))
    ensures r.Got? ==> reader.rest == r.rest
  {
    var out: bytes := [];
    while true
      invariant Dechunk([], old(reader.rest)) == Dechunk(out, reader.rest)
      decreases |reader.rest|
    {
      hide Dechunk, Find, AfterTrailers, PyInt, Strip, Split;
      DechunkLine(out, reader.rest);
      var ok, line := reader.ReadUntil(CRLF);
      if !ok { return Failed(EarlyEof); }
      var token := Split(Strip(line), ";")[0];
      var parsed := PyInt(token, 16);
      if parsed.None? { return Failed(BadChunkSize); }
      var size := parsed.value;
      if size == 0 {
        ok := SkipTrailers(reader);
        if !ok { return Failed(EarlyEof); }
        return Got(out, reader.rest);
      }
      if |out| + size > MAX_BODY { return Failed(TooLarge); }
      if size < 0 { return Failed(NegativeLength); }
      var data, crlf;
      ok, data := reader.ReadExactly(size);
      if !ok { return Failed(EarlyEof); }
      ok, crlf := reader.ReadExactly(2);
      if !ok { return Failed(EarlyEof); }
      out := out + data;
    }
  }

  // -------------------------------------------------------------------- body

  /** What the headers say about the body's extent. */
  datatype Framing = Chunked | Sized(length: nat) | Unframed | Unreadable(error: ReadError)

  function LengthOf(value: bytes): Framing {
    match PyInt(Strip(Split(value, ",")[0]), 10)
    case None => Unreadable(BadLength)
    case Some(n) => if n < 0 || n > MAX_BODY then Unreadable(BadLength) else Sized(n)
  }

  predicate SaysChunked(te: bytes) { Contains(Lower(te), "chunked") }

  function FramingOf(hs: Headers): Framing {
    var te := GetHeader(hs, "transfer-encoding");
    if te.Some? && SaysChunked(te.value) then Chunked
    else match GetHeader(hs, "content-length")
      case None => Unframed
      case Some(cl) => LengthOf(cl)
  }

  /** A stated length: a decimal numeral, alone or before a comma. */
  datatype LengthText = LengthText(length: Numeral, more: bytes)

  ghost predicate SpellsLength(value: bytes, n: int) {
    exists l: LengthText ::
      ValidNumeral(l.length, 10) && NumeralValue(l.length, 10) == n && (l.more == "" || l.more[0] == ',')
      && NumeralText(l.length) + l.more == value
  }

  lemma LengthToken(value: bytes)
    ensures LengthOf(value) == match PyInt(FirstPiece(value, ','), 10)
      case None => Unreadable(BadLength)
      case Some(n) => if n < 0 || n > MAX_BODY then Unreadable(BadLength) else Sized(n)
  {
    var token := FirstPiece(value, ',');
    SplitFirst(value, ',');
    hide PyInt, Strip, Split, FirstPiece;
    StripIsTrimmed(token);
    StripTrimmed(Strip(token));
    PyIntStrip(Strip(token), token, 10);
  }

  /** A value states a length exactly when it spells one that is not too large. */
  lemma LengthExact(value: bytes, n: nat)
    ensures LengthOf(value) == Sized(n) <==> n <= MAX_BODY && SpellsLength(value, n)
  {
    var token := FirstPiece(value, ',');
    LengthToken(value);
    hide PyInt, NumeralText, NumeralValue, ValidNumeral, LengthOf, FirstPiece;
    if PyInt(token, 10) == Some(n) {
      var length := NumeralSpelt(token, 10);
      FirstPieceRest(value, ',');
      var l := LengthText(length, value[|token|..]);
      assert NumeralText(l.length) + l.more == value;
    }
    if SpellsLength(value, n) {
      var l: LengthText :|
        ValidNumeral(l.length, 10) && NumeralValue(l.length, 10) == n && (l.more == "" || l.more[0] == ',')
        && NumeralText(l.length) + l.more == value;
      NumeralChars(l.length, 10, ',');
      PieceBefore(NumeralText(l.length), l.more, ',');
      NumeralRead(l.length, 10);
    }
  }

  /** The first transfer coding field names the chunked coding, in any case. */
  predicate CodedChunked(hs: Headers) {
    exists k :: 0 <= k < |hs| && IsFirst(hs, "transfer-encoding", k) && Mentions(hs[k].value, "chunked")
  }

  /** The framing decision, in the fields' own terms: a chunked coding goes before any length, and the
      first length field counts. */
  lemma FramingMeans(hs: Headers, k: int, n: nat)
    ensures FramingOf(hs) == Chunked <==> CodedChunked(hs)
    ensures FramingOf(hs) == Unframed <==> !CodedChunked(hs) && NoField(hs, "content-length")
    ensures IsFirst(hs, "content-length", k) ==>
      (FramingOf(hs) == Sized(n) <==> !CodedChunked(hs) && n <= MAX_BODY && SpellsLength(hs[k].value, n))
  {
    var te := GetHeaderFirst(hs, "transfer-encoding");
    var cl := GetHeaderFirst(hs, "content-length");
    if 0 <= te < |hs| { MentionsLower(hs[te].value, "chunked"); }
    if IsFirst(hs, "content-length", k) { LengthExact(hs[k].value, n); }
    OnlyFirst(hs, te);
    hide LengthOf, SpellsLength, GetHeader, IsFirst, Mentions;
  }

  lemma OnlyFirst(hs: Headers, te: int)
    ensures IsFirst(hs, "transfer-encoding", te) ==> (CodedChunked(hs) <==> Mentions(hs[te].value, "chunked"))
    ensures NoField(hs, "transfer-encoding") ==> !CodedChunked(hs)
  {
    hide SameText, Mentions;
  }

  datatype Message = RequestBody | ResponseBody(status: Option<int>, verb: bytes)

  predicate Bodiless(kind: Message) {
    kind.ResponseBody? &&
    ((kind.status.Some? && (kind.status.value / 100 == 1 || kind.status.value == 204 || kind.status.value == 304))
     || Lower(kind.verb) == "head")
  }

  /** Body, whether it was chunked, and what is left of the stream. */
  function FramedBody(s: bytes, framing: Framing, isResponse: bool): (r: Read<(bytes, bool)>)
    ensures r.Got? ==> |r.rest| <= |s|
  {
    match framing
    case Chunked => (match Dechunk([], s)
      case Got(body, rest) => Got((body, true), rest)
      case Failed(e) => Failed(e))
    case Unreadable(e) => Failed(e)
    case Sized(n) => if n <= |s| then Got((s[..n], false), s[n..]) else Got((s, false), [])
    case Unframed => if isResponse then Got((s, false), []) else Got(([], false), s)
  }

  function BodyOf(s: bytes, hs: Headers, kind: Message): Read<(bytes, bool)> {
    if Bodiless(kind) then Got(([], false), s) else FramedBody(s, FramingOf(hs), kind.ResponseBody?)
  }

  method ReadBody(reader: StreamReader, headers: HeaderList, kind: Message) returns (r: Read<(bytes, bool)>)
    modifies reader
    ensures r == BodyOf(old(reader.rest), headers.items, kind)
    ensures r.Got? ==> reader.rest == r.rest
    ensures kind.ResponseBody? && (SameText(kind.verb, "HEAD")
              || exists s :: (100 <= s < 200 || s == 204 || s == 304) && kind.status == Some(s))
            ==> r == Got(([], false), old(reader.rest))
  {
    if kind.ResponseBody? { LowerSame(kind.verb, "HEAD"); }
    if kind.ResponseBody? {
      if kind.status.Some? && (kind.status.value / 100 == 1 || kind.status.value == 204 || kind.status.value == 304) {
        return Got(([], false), reader.rest);
      }
      if kind.verb != [] && Lower(kind.verb) == "head" { return Got(([], false), reader.rest); }
    }
    r := ReadFramed(reader, headers, kind.ResponseBody?);
  }

  /** The part of ReadBody after the responses that never carry a body. */
  method ReadFramed(reader: StreamReader, headers: HeaderList, isResponse: bool) returns (r: Read<(bytes, bool)>)
    modifies reader
    ensures r == FramedBody(old(reader.rest), FramingOf(headers.items), isResponse)
    ensures r.Got? ==> reader.rest == r.rest
  {
    ghost var s, framing := reader.rest, FramingOf(headers.items);
    var te := headers.Get("transfer-encoding");
    if te.Some? && te.value != [] && Contains(Lower(te.value), "chunked") {
      assert framing == Chunked;
      var c := ReadChunked(reader);
      if c.Failed? { return Failed(c.error); }
      return Got((c.value, true), reader.rest);
    }
    assert te.Some? && te.value == [] ==> !SaysChunked(te.value);
    var cl := headers.Get("content-length");
    if cl.Some? {
      assert framing == LengthOf(cl.value);
      var length := PyInt(Strip(Split(cl.value, ",")[0]), 10);
      if length.None? || length.value < 0 || length.value > MAX_BODY { return Failed(BadLength); }
      var ok, data := reader.ReadExactly(length.value);
      assert s[..|s|] == s;
      return Got((data, false), reader.rest);
    }
    assert framing == Unframed;
    if isResponse {
      var ok, data := reader.ReadExactly(|reader.rest|);
      assert s[..|s|] == s;
      return Got((data, false), reader.rest);
    }
    r := Got(([], false), reader.rest);
  }

  /** After de-chunking, an accurate length takes the place of the chunked framing. */
  function Normalised(hs: Headers, body: bytes, chunked: bool): Headers {
    if chunked then WithHeader(Without(hs, "transfer-encoding"), "Content-Length", Decimal(|body|)) else hs
  }

  method NormaliseFraming(headers: HeaderList, body: bytes, chunked: bool)
    modifies headers
    ensures headers.items == Normalised(old(headers.items), body, chunked)
  {
    if chunked {
      headers.Remove("transfer-encoding");
      headers.Set("Content-Length", Decimal(|body|));
    }
  }

  // ------------------------------------------------------- well-framed bodies

  /** One chunk: its size line, extensions included, and its data. */
  datatype Chunk = Chunk(sizeLine: bytes, data: bytes)

  predicate OneLine(line: bytes) { !Contains(line, CRLF) }

  /** A size line written out: a hexadecimal numeral, and an extension behind a semicolon. */
  datatype SizeLine = SizeLine(size: Numeral, extension: bytes)

  function SizeText(l: SizeLine): bytes { NumeralText(l.size) + l.extension }

  predicate ValidSize(l: SizeLine, n: int) {
    ValidNumeral(l.size, 16) && NumeralValue(l.size, 16) == n && (l.extension == "" || l.extension[0] == ';')
  }

  /** The line spells the size: hexadecimal digits of either case, leading zeros and any extension. */
  ghost predicate SpellsSize(line: bytes, n: int) { exists l: SizeLine :: ValidSize(l, n) && SizeText(l) == line }

  ghost predicate ValidChunk(c: Chunk) {
    OneLine(c.sizeLine) && c.data != [] && SpellsSize(c.sizeLine, |c.data|)
  }

  lemma PyIntStrip(s: bytes, t: bytes, base: nat)
    requires Strip(s) == Strip(t) && (base == 10 || base == 16)
    ensures PyInt(s, base) == PyInt(t, base)
  {
    hide Strip, DigitsValue;
  }

  /** The reader takes a size line for the number it spells, and takes nothing else for one. */
  lemma SizeExact(line: bytes, n: int)
    ensures ChunkSize(line) == Some(n) <==> SpellsSize(line, n)
  {
    var token := FirstPiece(line, ';');
    assert ChunkSize(line) == PyInt(token, 16) by {
      SplitFirst(Strip(line), ';');
      FirstPieceStrip(line, ';');
      PyIntStrip(FirstPiece(Strip(line), ';'), token, 16);
    }
    hide ChunkSize, PyInt, NumeralText, NumeralValue, ValidNumeral;
    if PyInt(token, 16) == Some(n) {
      var size := NumeralSpelt(token, 16);
      var l := SizeLine(size, line[|token|..]);
      FirstPieceRest(line, ';');
      assert ValidSize(l, n) && SizeText(l) == line;
    }
    if SpellsSize(line, n) {
      var l: SizeLine :| ValidSize(l, n) && SizeText(l) == line;
      NumeralChars(l.size, 16, ';');
      PieceBefore(NumeralText(l.size), l.extension, ';');
      NumeralRead(l.size, 16);
    }
  }

  lemma FirstPieceRest(s: bytes, c: char)
    ensures FirstPiece(s, c) <= s && (s[|FirstPiece(s, c)|..] == "" || s[|FirstPiece(s, c)|..][0] == c)
  {
    FindByte(s, c);
  }

  lemma PieceBefore(s: bytes, rest: bytes, c: char)
    requires c !in s && (rest == "" || rest[0] == c)
    ensures FirstPiece(s + rest, c) == s
  {
    FindByte(s + rest, c);
    if rest == "" { assert s + rest == s; }
    else {
      assert (s + rest)[..|s|] == s;
      FindByteIs(s + rest, c, |s|);
    }
  }

  function ChunkData(chunks: seq<Chunk>): bytes {
    if chunks == [] then [] else chunks[0].data + ChunkData(chunks[1..])
  }

  function ChunkWire(chunks: seq<Chunk>, tail: bytes): bytes {
    if chunks == [] then tail
    else chunks[0].sizeLine + CRLF + (chunks[0].data + CRLF + ChunkWire(chunks[1..], tail))
  }

  function TrailerWire(trailers: seq<bytes>, rest: bytes): bytes {
    if trailers == [] then CRLF + rest else trailers[0] + CRLF + TrailerWire(trailers[1..], rest)
  }

  lemma SizeLineRead(line: bytes, rest: bytes)
    requires OneLine(line)
    ensures var s := line + CRLF + rest; Find(s, CRLF) == |line| && s[|line| + 2..] == rest
    ensures ChunkSize((line + CRLF + rest)[..|line| + 2]) == ChunkSize(line)
  {
    SeparatorsUnbordered('x');
    FindSeparator(line, CRLF, rest);
    CutAt(line, CRLF, rest);
    assert (line + CRLF + rest)[..|line| + 2] == line + CRLF;
    StripAfterCut(line, CRLF);
  }

  lemma {:induction false} TrailersRead(trailers: seq<bytes>, rest: bytes)
    requires forall t <- trailers :: OneLine(t) && t != []
    ensures AfterTrailers(TrailerWire(trailers, rest)) == Some(rest)
  {
    if trailers == [] {
      assert [] + CRLF + rest == CRLF + rest;
      SizeLineRead([], rest);
    } else {
      var tail := TrailerWire(trailers[1..], rest);
      TrailersRead(trailers[1..], rest);
      SizeLineRead(trailers[0], tail);
    }
  }

  lemma DechunkStep(out: bytes, c: Chunk, more: bytes)
    requires ValidChunk(c) && |out| + |c.data| <= MAX_BODY
    ensures Dechunk(out, c.sizeLine + CRLF + (c.data + CRLF + more)) == Dechunk(out + c.data, more)
  {
    var rest := c.data + CRLF + more;
    SizeExact(c.sizeLine, |c.data|);
    hide SpellsSize, ChunkSize;
    SizeLineRead(c.sizeLine, rest);
    CutAt(c.data, CRLF, more);
  }

  /** The decoder recovers the data of any chunking, however the sizes are spelt, extensions and
      trailers included. */
  lemma {:induction false} DechunkWire(out: bytes, chunks: seq<Chunk>, last: bytes, trailers: seq<bytes>, rest: bytes)
    requires forall i :: 0 <= i < |chunks| ==> ValidChunk(chunks[i])
    requires OneLine(last) && SpellsSize(last, 0)
    requires forall t <- trailers :: OneLine(t) && t != []
    requires |out| + |ChunkData(chunks)| <= MAX_BODY
    ensures Dechunk(out, ChunkWire(chunks, last + CRLF + TrailerWire(trailers, rest)))
         == Got(out + ChunkData(chunks), rest)
    decreases |chunks|
  {
    if chunks == [] {
      assert out + ChunkData(chunks) == out;
      DechunkLast(out, last, trailers, rest);
    } else {
      var c, tail := chunks[0], last + CRLF + TrailerWire(trailers, rest);
      Assoc(out, c.data, ChunkData(chunks[1..]));
      DechunkWire(out + c.data, chunks[1..], last, trailers, rest);
      DechunkStep(out, c, ChunkWire(chunks[1..], tail));
    }
  }

  lemma DechunkLast(out: bytes, last: bytes, trailers: seq<bytes>, rest: bytes)
    requires OneLine(last) && SpellsSize(last, 0)
    requires forall t <- trailers :: OneLine(t) && t != []
    ensures Dechunk(out, last + CRLF + TrailerWire(trailers, rest)) == Got(out, rest)
  {
    SizeExact(last, 0);
    hide SpellsSize, ChunkSize;
    SizeLineRead(last, TrailerWire(trailers, rest));
    TrailersRead(trailers, rest);
  }

  /** What is refused of a chunked body: a stream that ends too soon, a line that spells no size, a body
      that grows too large and a negative size, the last two in this order. */
  lemma ChunksRefused(out: bytes, line: bytes, rest: bytes, n: int)
    requires OneLine(line)
    ensures Dechunk(out, line) == Failed(EarlyEof)
    ensures (forall k :: !SpellsSize(line, k)) ==> Dechunk(out, line + CRLF + rest) == Failed(BadChunkSize)
    ensures SpellsSize(line, n) && n != 0 && |out| + n > MAX_BODY ==> Dechunk(out, line + CRLF + rest) == Failed(TooLarge)
    ensures SpellsSize(line, n) && n < 0 && |out| + n <= MAX_BODY ==>
      Dechunk(out, line + CRLF + rest) == Failed(NegativeLength)
    ensures SpellsSize(line, n) && n > 0 && |out| + n <= MAX_BODY && |rest| < n + 2 ==>
      Dechunk(out, line + CRLF + rest) == Failed(EarlyEof)
  {
    hide SpellsSize, ChunkSize;
    DechunkLine(out, line);
    SizeLineRead(line, rest);
    DechunkLine(out, line + CRLF + rest);
    SizeExact(line, n);
    var size := ChunkSize(line);
    if size.Some? { SizeExact(line, size.value); }
  }

  /** Bodies at the end of file: a sized one that is cut off is what is left of it, a response without
      framing runs to the end, and a request without framing has none. */
  lemma EndedBodies(s: bytes, n: nat)
    ensures |s| < n ==> FramedBody(s, Sized(n), false) == FramedBody(s, Sized(n), true) == Got((s, false), [])
    ensures n <= |s| ==> FramedBody(s, Sized(n), false) == FramedBody(s, Sized(n), true) == Got((s[..n], false), s[n..])
    ensures FramedBody(s, Unframed, true) == Got((s, false), []) && FramedBody(s, Unframed, false) == Got(("", false), s)
  {}

  /** The length written by NormaliseFraming is the framing read back: one length field, no transfer
      coding, and every other field's values as they were. */
  lemma NormalisedFraming(hs: Headers, body: bytes)
    requires |body| <= MAX_BODY
    ensures FramingOf(Normalised(hs, body, true)) == Sized(|body|)
    ensures GetAll(Normalised(hs, body, true), "transfer-encoding") == []
    ensures GetAll(Normalised(hs, body, true), "content-length") == [Decimal(|body|)]
    ensures forall name :: !SameText(name, "transfer-encoding") && !SameText(name, "content-length") ==>
      GetAll(Normalised(hs, body, true), name) == GetAll(hs, name)
  {
    forall name | !SameText(name, "transfer-encoding") && !SameText(name, "content-length")
      ensures GetAll(Normalised(hs, body, true), name) == GetAll(hs, name)
    {
      FramingNames();
      LowerSame(name, "transfer-encoding");
      LowerSame(name, "content-length");
      WithHeaderGetAll(Without(hs, "transfer-encoding"), "Content-Length", Decimal(|body|), name);
      WithoutGetAll(hs, "transfer-encoding", name);
    }
    NormalisedFields(hs, Decimal(|body|));
    LengthOfDecimal(|body|);
  }

  lemma NormalisedFields(hs: Headers, length: bytes)
    ensures var h := WithHeader(Without(hs, "transfer-encoding"), "Content-Length", length);
      GetAll(h, "transfer-encoding") == [] && GetAll(h, "content-length") == [length]
  {
    var te, cl := "transfer-encoding", "Content-Length";
    FramingNames();
    WithoutGetAll(hs, te, te);
    WithHeaderGetAll(Without(hs, te), cl, length, te);
    WithHeaderGetAll(Without(hs, te), cl, length, "content-length");
  }

  lemma FramingNames()
    ensures Lower("content-length") == Lower("Content-Length") == "content-length"
    ensures Lower("transfer-encoding") == "transfer-encoding" != "content-length"
  {}

  lemma LengthOfDecimal(n: nat)
    ensures LengthOf(Decimal(n)) == if n <= MAX_BODY then Sized(n) else Unreadable(BadLength)
  {
    var d := Decimal(n);
    DecimalRoundTrip(n);
    FindByte(d, ',');
    assert Split(d, ",") == [d];
    StripTrimmed(d);
  }
}
