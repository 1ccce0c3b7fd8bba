/** The keep-alive loop: reading requests off one client connection, one after another. */
module ServeLoop {
  import opened Bytes
  import opened Ascii
  import opened Letters
  import opened HttpMessage
  import opened HttpReader

  /** What the loop depends on and cannot see: whether the k-th request names a target, and
      whether its exchange leaves the connection open. */
  datatype Env = Env(hasTarget: (nat, Request) -> bool, keepAlive: (nat, Request) -> bool)

  datatype Event = SaidContinue | SaidBadRequest | Exchanged(request: Request)

  /** Why the loop ended; `Uncaught` is an exception that leaves it. */
  datatype End = AtEof | MidHead | Malformed | Tunnel(connect: Request) | NoTarget | BadBody | Uncaught | Closed

  datatype Served = Served(log: seq<Event>, end: End, rest: bytes)

  datatype Step = Next(log: seq<Event>, rest: bytes) | Stop(log: seq<Event>, end: End, rest: bytes)

  predicate ExpectsContinue(r: Request) {
    var e := GetHeader(r.headers, "expect");
    e.Some? && Contains(Lower(e.value), "100-continue")
  }

  function Greeting(r: Request): seq<Event> { if ExpectsContinue(r) then [SaidContinue] else [] }

  function WithBody(r: Request, body: bytes, chunked: bool): Request {
    r.(body := body, headers := Normalised(r.headers, body, chunked))
  }

  /** Errors in a body end the loop; the exception for a negative chunk size is not among those caught. */
  function EndOf(error: ReadError): End { if error == NegativeLength then Uncaught else BadBody }

  predicate BrokenOff(end: End) { end == BadBody || end == Uncaught }

  /** One turn of the loop after a head has been parsed. */
  function ServeParsed(r: Request, s: bytes, k: nat, env: Env): (t: Step)
    ensures t.Next? ==> |t.rest| <= |s|
  {
    if Lower(r.verb) == "connect" then Stop([], Tunnel(r), s)
    else if !env.hasTarget(k, r) then Stop([SaidBadRequest], NoTarget, s)
    else match BodyOf(s, r.headers, RequestBody)
      case Failed(e) => Stop(Greeting(r), EndOf(e), [])
      case Got(got, rest) =>
        var done := WithBody(r, got.0, got.1);
        var log := Greeting(r) + [Exchanged(done)];
        if env.keepAlive(k, done) then Next(log, rest) else Stop(log, Closed, rest)
  }

  /** A request that says chunked and whose first chunk has a negative size ends the loop by that exception. */
  lemma NegativeChunk(r: Request, rest: bytes, k: nat, env: Env)
    requires FramingOf(r.headers) == Chunked && Lower(r.verb) != "connect" && env.hasTarget(k, r)
    ensures ServeParsed(r, "-1" + CRLF + rest, k, env) == Stop(Greeting(r), Uncaught, [])
  {
    hide FramingOf, Greeting;
    var line, s := "-1" + CRLF, "-1" + CRLF + rest;
    MinusOne();
    FindSeparator("-1", CRLF, rest);
    assert s[..4] == line;
    assert Dechunk([], s) == Failed(NegativeLength) by {
      hide ChunkSize;
      DechunkLine([], s);
    }
  }

  lemma MinusOne()
    ensures ChunkSize("-1" + CRLF) == Some(-1)
  {
    assert Strip("-1" + CRLF) == "-1" by { StripTrimmed("-1"); StripAfterCut("-1", CRLF); }
    FindByte("-1", ';');
    assert Split("-1", ";") == ["-1"];
    assert DigitsValue("1", 16) == Some(1) && "-1"[1..] == "1";
    StripTrimmed("-1");
    hide Strip, Split, DigitsValue;
  }

  function ServeStep(s: bytes, k: nat, env: Env): (t: Step)
    ensures t.Next? ==> |t.rest| < |s|
  {
    var (head, rest) := HeadOf(s);
    match head
    case CleanEof => Stop([], AtEof, [])
    case BrokenHead => Stop([], MidHead, [])
    case Head(h) =>
      match ParseRequest(h + BLANK)
      case Err(_) => Stop([SaidBadRequest], Malformed, rest)
      case Ok(r) => ServeParsed(r, rest, k, env)
  }

  /** The whole loop from the k-th request on. */
  function Serve(s: bytes, k: nat, env: Env): Served
    decreases |s|
  {
    match ServeStep(s, k, env)
    case Stop(log, end, rest) => Served(log, end, rest)
    case Next(log, rest) => Prepend(log, Serve(rest, k + 1, env))
  }

  function Prepend(log: seq<Event>, t: Served): Served { t.(log := log + t.log) }

  method ServeOne(reader: StreamReader, r: Request, k: nat, env: Env) returns (t: Step)
    modifies reader
    ensures t == ServeParsed(r, old(reader.rest), k, env)
    ensures t.Next? || !BrokenOff(t.end) ==> reader.rest == t.rest
  {
    if Lower(r.verb) == "connect" { return Stop([], Tunnel(r), reader.rest); }
    if !env.hasTarget(k, r) { return Stop([SaidBadRequest], NoTarget, reader.rest); }
    var headers := new HeaderList(r.headers);
    var expectation := headers.Get("expect");
    var log := [];
    if expectation.Some? && Contains(Lower(expectation.value), "100-continue") { log := [SaidContinue]; }
    var read := ReadBody(reader, headers, RequestBody);
    if read.Failed? { return Stop(log, EndOf(read.error), []); }
    NormaliseFraming(headers, read.value.0, read.value.1);
    var req := r.(body := read.value.0, headers := headers.items);
    log := log + [Exchanged(req)];
    t := if env.keepAlive(k, req) then Next(log, reader.rest) else Stop(log, Closed, reader.rest);
  }

  method ServeRequests(reader: StreamReader, env: Env) returns (log: seq<Event>, end: End)
    modifies reader
    ensures var served := Serve(old(reader.rest), 0, env);
      log == served.log && end == served.end && (!BrokenOff(end) ==> reader.rest == served.rest)
  {
    var k: nat := 0;
    log := [];
    while true
      invariant Serve(old(reader.rest), 0, env) == Prepend(log, Serve(reader.rest, k, env))
      decreases |reader.rest|
    {
      ghost var s := reader.rest;
      var head := ReadHead(reader);
      if head.BrokenHead? { return log, MidHead; }
      if head.CleanEof? { return log, AtEof; }
      var parsed := ParseRequest(head.head + BLANK);
      if parsed.Err? { return log + [SaidBadRequest], Malformed; }
      var step := ServeOne(reader, parsed.value, k, env);
      assert step == ServeStep(s, k, env);
      ServeUnfold(log, s, k, env);
      log := log + step.log;
      if step.Stop? { return log, step.end; }
      k := k + 1;
    }
  }

  lemma ServeUnfold(log: seq<Event>, s: bytes, k: nat, env: Env)
    ensures var step := ServeStep(s, k, env);
      step.Next? ==> Prepend(log, Serve(s, k, env)) == Prepend(log + step.log, Serve(step.rest, k + 1, env))
  {
    var step := ServeStep(s, k, env);
    if step.Next? { Assoc(log, step.log, Serve(step.rest, k + 1, env).log); }
  }

  // --------------------------------------------------- streams of messages

  /** A body as it is framed on the wire. */
  datatype WireBody =
    | Absent
    | Counted(data: bytes)
    | InChunks(chunks: seq<Chunk>, last: bytes, trailers: seq<bytes>)

  /** A request as sent: any head bytes before the blank line, then the framed body. */
  datatype WireMessage = WireMessage(head: bytes, body: WireBody)

  function BodyWire(b: WireBody, rest: bytes): bytes {
    match b
    case Absent => rest
    case Counted(data) => data + rest
    case InChunks(chunks, last, trailers) => ChunkWire(chunks, last + CRLF + TrailerWire(trailers, rest))
  }

  function BodyData(b: WireBody): bytes {
    match b
    case Absent => []
    case Counted(data) => data
    case InChunks(chunks, _, _) => ChunkData(chunks)
  }

  ghost predicate ValidBody(b: WireBody) {
    && |BodyData(b)| <= MAX_BODY
    && (b.InChunks? ==>
      && (forall i :: 0 <= i < |b.chunks| ==> ValidChunk(b.chunks[i]))
      && OneLine(b.last) && SpellsSize(b.last, 0)
      && (forall t <- b.trailers :: OneLine(t) && t != []))
  }

  /** The fields announce the body that follows them. */
  ghost predicate Announces(hs: Headers, b: WireBody) {
    match b
    case InChunks(_, _, _) => CodedChunked(hs)
    case Counted(data) =>
      !CodedChunked(hs)
      && exists k :: 0 <= k < |hs| && IsFirst(hs, "content-length", k) && SpellsLength(hs[k].value, |data|)
    case Absent => !CodedChunked(hs) && NoField(hs, "content-length")
  }

  lemma AnnouncedFraming(hs: Headers, b: WireBody)
    requires |BodyData(b)| <= MAX_BODY
    ensures Announces(hs, b) <==> Matches(FramingOf(hs), b)
  {
    hide FramingOf, CodedChunked, SpellsLength, IsFirst, NoField;
    var n := |BodyData(b)|;
    var k := GetHeaderFirst(hs, "content-length");
    FramingMeans(hs, k, n);
    if b.Counted? {
      forall j | 0 <= j < |hs| ensures IsFirst(hs, "content-length", j) ==>
        (FramingOf(hs) == Sized(n) <==> !CodedChunked(hs) && n <= MAX_BODY && SpellsLength(hs[j].value, n))
      {
        FramingMeans(hs, j, n);
      }
      assert NoField(hs, "content-length") || IsFirst(hs, "content-length", k);
      NotBoth(hs, "content-length");
    }
  }

  lemma NotBoth(hs: Headers, name: bytes)
    ensures NoField(hs, name) ==> forall k :: !IsFirst(hs, name, k)
    ensures forall k :: IsFirst(hs, name, k) ==> 0 <= k < |hs|
  {
    hide SameText;
  }

  predicate Matches(framing: Framing, b: WireBody) {
    match b
    case Absent => framing == Unframed
    case Counted(data) => framing == Sized(|data|)
    case InChunks(_, _, _) => framing == Chunked
  }

  /** The request a head parses to (an empty one when it does not parse). */
  function Parsed(m: WireMessage): Request {
    match ParseRequest(m.head + BLANK)
    case Ok(r) => r
    case Err(_) => Request([], [], [], [], [])
  }

  /** The head ends where it says, parses, and announces the body that follows. */
  ghost predicate WellFramed(m: WireMessage) {
    && Find(m.head + BLANK, BLANK) == |m.head|
    && ParseRequest(m.head + BLANK).Ok?
    && !SameText(Parsed(m).verb, "CONNECT")
    && Announces(Parsed(m).headers, m.body)
    && ValidBody(m.body)
  }

  /** The same in the reader's terms. */
  lemma FramedAsRead(m: WireMessage)
    ensures WellFramed(m) <==>
      && Find(m.head + BLANK, BLANK) == |m.head| && ParseRequest(m.head + BLANK).Ok?
      && Lower(Parsed(m).verb) != "connect" && Matches(FramingOf(Parsed(m).headers), m.body) && ValidBody(m.body)
  {
    LowerSame(Parsed(m).verb, "CONNECT");
    assert Lower("CONNECT") == "connect";
    if |BodyData(m.body)| <= MAX_BODY { AnnouncedFraming(Parsed(m).headers, m.body); }
    hide Announces, Matches, FramingOf, SameText, Parsed, ParseRequest;
  }

  /** The request the loop must hand on for a message. */
  function Delivered(m: WireMessage): Request {
    WithBody(Parsed(m), BodyData(m.body), m.body.InChunks?)
  }

  function Wire(m: WireMessage, rest: bytes): bytes { m.head + BLANK + BodyWire(m.body, rest) }

  function StreamOf(ms: seq<WireMessage>, rest: bytes): bytes {
    if ms == [] then rest else Wire(ms[0], StreamOf(ms[1..], rest))
  }

  /** The client asks to be told before it sends a body: the first Expect field names 100-continue. */
  predicate Asks(r: Request) {
    exists k :: 0 <= k < |r.headers| && IsFirst(r.headers, "expect", k) && Mentions(r.headers[k].value, "100-continue")
  }

  /** What the loop does for a message: a 100 first if it is asked for, then the exchange. */
  function MessageLog(m: WireMessage): seq<Event> {
    if Asks(Parsed(m)) then [SaidContinue, Exchanged(Delivered(m))] else [Exchanged(Delivered(m))]
  }

  lemma GreetingAsked(r: Request)
    ensures Greeting(r) == if Asks(r) then [SaidContinue] else []
  {
    var k := GetHeaderFirst(r.headers, "expect");
    if 0 <= k < |r.headers| { MentionsLower(r.headers[k].value, "100-continue"); }
    hide SameText, Mentions, GetHeader;
  }

  function LogOf(ms: seq<WireMessage>): seq<Event> {
    if ms == [] then [] else MessageLog(ms[0]) + LogOf(ms[1..])
  }

  /** A framed body is read back, and what follows it is left alone. */
  lemma BodyRead(framing: Framing, b: WireBody, rest: bytes)
    requires Matches(framing, b) && ValidBody(b)
    ensures FramedBody(BodyWire(b, rest), framing, false) == Got((BodyData(b), b.InChunks?), rest)
  {
    match b {
      case Absent =>
      case Counted(data) => CutAt([], data, rest); assert [] + data == data;
      case InChunks(chunks, last, trailers) => ChunksRead(chunks, last, trailers, rest);
    }
  }

  lemma ChunksRead(chunks: seq<Chunk>, last: bytes, trailers: seq<bytes>, rest: bytes)
    requires ValidBody(InChunks(chunks, last, trailers))
    ensures Dechunk([], ChunkWire(chunks, last + CRLF + TrailerWire(trailers, rest))) == Got(ChunkData(chunks), rest)
  {
    DechunkWire([], chunks, last, trailers, rest);
    assert [] + ChunkData(chunks) == ChunkData(chunks);
  }

  /** One turn of the loop takes exactly one message off the stream, whatever follows it. */
  lemma ServeMessage(m: WireMessage, rest: bytes, k: nat, env: Env)
    requires WellFramed(m) && env.hasTarget(k, Parsed(m))
    ensures ServeStep(Wire(m, rest), k, env)
         == if env.keepAlive(k, Delivered(m)) then Next(MessageLog(m), rest) else Stop(MessageLog(m), Closed, rest)
  {
    GreetingAsked(Parsed(m));
    FramedAsRead(m);
    hide Asks, WellFramed, FramedBody, FramingOf, Normalised, ParseRequest, HeadOf, Greeting, ValidBody, Matches,
        BodyWire, BodyData;
    HeadShapes(m.head, BodyWire(m.body, rest));
    BodyRead(FramingOf(Parsed(m).headers), m.body, rest);
  }

  /** A turn that ends the loop: a head that does not parse, and a request with no target, are answered
      with an error and their bodies left unread; CONNECT hands on the stream with nothing said; a body
      that cannot be read is given up after the 100 that was asked for. */
  lemma TurnEnds(head: bytes, rest: bytes, k: nat, env: Env)
    requires Find(head + BLANK, BLANK) == |head|
    ensures var turn := ServeStep(head + BLANK + rest, k, env);
      match ParseRequest(head + BLANK)
      case Err(_) => turn == Stop([SaidBadRequest], Malformed, rest)
      case Ok(r) =>
        && (SameText(r.verb, "CONNECT") ==> turn == Stop([], Tunnel(r), rest))
        && (!SameText(r.verb, "CONNECT") && !env.hasTarget(k, r) ==> turn == Stop([SaidBadRequest], NoTarget, rest))
        && (!SameText(r.verb, "CONNECT") && env.hasTarget(k, r) && BodyOf(rest, r.headers, RequestBody).Failed? ==>
              turn.Stop? && turn.log == (if Asks(r) then [SaidContinue] else [])
              && (turn.end == BadBody || turn.end == Uncaught))
  {
    hide ParseRequest, HeadOf, BodyOf, Asks, SameText, ServeParsed, Find;
    HeadShapes(head, rest);
    var parsed := ParseRequest(head + BLANK);
    if parsed.Ok? { ParsedEnds(parsed.value, rest, k, env); }
  }

  lemma ParsedEnds(r: Request, rest: bytes, k: nat, env: Env)
    ensures var turn := ServeParsed(r, rest, k, env);
      && (SameText(r.verb, "CONNECT") ==> turn == Stop([], Tunnel(r), rest))
      && (!SameText(r.verb, "CONNECT") && !env.hasTarget(k, r) ==> turn == Stop([SaidBadRequest], NoTarget, rest))
      && (!SameText(r.verb, "CONNECT") && env.hasTarget(k, r) && BodyOf(rest, r.headers, RequestBody).Failed? ==>
            turn.Stop? && turn.log == (if Asks(r) then [SaidContinue] else [])
            && (turn.end == BadBody || turn.end == Uncaught))
  {
    LowerSame(r.verb, "CONNECT");
    assert Lower("CONNECT") == "connect";
    GreetingAsked(r);
    hide BodyOf, Asks, Greeting, SameText, Lower;
  }

  /** At the end of file: nothing left is a clean end, and the middle of a head is not. */
  lemma StreamEnds(rest: bytes, k: nat, env: Env)
    ensures ServeStep([], k, env) == Stop([], AtEof, [])
    ensures rest != [] && !Contains(rest, BLANK) && !Contains(rest, "\n\n") ==>
        ServeStep(rest, k, env) == Stop([], MidHead, [])
  {
    HeadShapes(rest, []);
    hide HeadOf, Contains;
  }

  /** The n-th request is served and the connection stays open after it. */
  ghost predicate ServedOn(m: WireMessage, n: nat, env: Env) {
    WellFramed(m) && env.hasTarget(n, Parsed(m)) && env.keepAlive(n, Delivered(m))
  }

  ghost predicate Open(ms: seq<WireMessage>, k: nat, env: Env) {
    forall i :: 0 <= i < |ms| ==> ServedOn(ms[i], k + i, env)
  }

  /** A stream of well-framed messages is delivered message by message, chunked ones
      re-framed, and the loop goes on with exactly what follows the last of them. */
  lemma {:induction false} ServeStream(ms: seq<WireMessage>, rest: bytes, k: nat, env: Env)
    requires Open(ms, k, env)
    ensures Serve(StreamOf(ms, rest), k, env) == Prepend(LogOf(ms), Serve(rest, k + |ms|, env))
    decreases |ms|
  {
    hide ServedOn, MessageLog, Wire, Serve, Open;
    if ms == [] {
      EmptyPrepend(Serve(rest, k, env));
    } else {
      OpenTail(ms, k, env);
      ServeStream(ms[1..], rest, k + 1, env);
      ServeFirst(ms[0], StreamOf(ms[1..], rest), k, env);
      Assoc(MessageLog(ms[0]), LogOf(ms[1..]), Serve(rest, k + |ms|, env).log);
    }
  }

  lemma OpenTail(ms: seq<WireMessage>, k: nat, env: Env)
    requires ms != [] && Open(ms, k, env)
    ensures ServedOn(ms[0], k, env) && Open(ms[1..], k + 1, env)
  {
    hide ServedOn;
    assert ServedOn(ms[0], k + 0, env);
    forall i | 0 <= i < |ms| - 1 ensures ServedOn(ms[1..][i], k + 1 + i, env) {
      assert ServedOn(ms[i + 1], k + (i + 1), env);
    }
  }

  lemma ServeFirst(m: WireMessage, tail: bytes, k: nat, env: Env)
    requires ServedOn(m, k, env)
    ensures Serve(Wire(m, tail), k, env)
         == Prepend(MessageLog(m), Serve(tail, k + 1, env))
  {
    hide WellFramed, Wire, MessageLog;
    ServeMessage(m, tail, k, env);
  }

  lemma EmptyPrepend(t: Served)
    ensures Prepend([], t) == t
  {
    assert [] + t.log == t.log;
  }

  /** Run on nothing but well-framed messages, the loop delivers them all and stops at EOF. */
  lemma ServeWholeStream(ms: seq<WireMessage>, env: Env)
    requires Open(ms, 0, env)
    ensures Serve(StreamOf(ms, []), 0, env) == Served(LogOf(ms), AtEof, [])
  {
    ServeStream(ms, [], 0, env);
    assert LogOf(ms) + [] == LogOf(ms);
  }

  /** A delivered request is framed by its own headers: read again, it gives the same body
      and leaves what follows it alone. */
  lemma DeliveredReads(m: WireMessage, rest: bytes)
    requires WellFramed(m)
    ensures BodyOf(Delivered(m).body + rest, Delivered(m).headers, RequestBody) == Got((BodyData(m.body), false), rest)
  {
    var body := BodyData(m.body);
    FramedAsRead(m);
    assert (body + rest)[..|body|] == body && (body + rest)[|body|..] == rest;
    if m.body.InChunks? { NormalisedFraming(Parsed(m).headers, body); }
    else if m.body.Absent? { assert [] + rest == rest; }
  }
}
