# BRUP in Dafny

BRUP is an intercepting HTTP proxy. This project models its wire codecs, its Intruder engine, its
HTTP/2 body senders and the state machines around them, and proves what those parts are for.
`dafny verify dfyconfig.toml` checks everything.

How the parts are modelled:

- **Bytes** are strings, one character a byte (the latin-1 view). `Bytes` and `Ascii` hold Python's
  `find`, `split`, `join`, `strip`, `lower` and `int` on bytes, with the lemmas that say where the
  first separator of a joined text is. `Letters` (text alike but for case) and `Numerals` (every
  spelling of an integer) say what `lower` and `int` mean without using them.
- **HTTP/1.1** (`HttpMessage`, `HttpGrammar`, `HttpReader`, `ServeLoop`, `HeaderRules`): parsing and printing, the
  chunked decoder, the framing decision of RFC 9112 section 6.3, and the keep-alive loop over a byte
  stream. Loops and in-place edits are methods proved against functions; the theorems are about those
  functions. The loop's environment (target resolution, what an exchange answers) is a parameter. A
  stream is modelled as the bytes not read yet, up to the end of file.
- **HTTP/2 text and translation** (`Http2Text`, `Http2TextForm`, `Http2Translate`), with pseudo-headers as in RFC 9113
  section 8.3.
- **Intruder** (`IntruderTemplate`, `IntruderMark`, `IntruderMarkText`, `IntruderLength`,
  `IntruderPayloads`, `MixedRadix`, `IntruderJobs`, `IntruderRunner`): templates, auto-marking,
  Content-Length repair, payload generators, the four job orders, and the runner as interleaved steps of
  a producer, workers and the operator.
- **HTTP/2 body sending** (`FlowControl`, `H2Server`, `H2Client`): a step is what a task does between
  two await points; the h2 library is a ledger of windows that only WINDOW_UPDATE raises (RFC 9113
  sections 5.2 and 6.9).
- **Derived state** (`SiteTree`, `Sitemap`, `SiteView`, `Interceptor`, `InterceptRuns`, `InterceptFates`, `Config`,
  `Projects`): the sitemap is a class whose node table the methods grow; interceptor and project
  manager are classes whose methods are tied to functions of the old state.

Where the code turned out to do something other than its callers or its user interface expect, the code
is kept and the exact condition is proved:

- `count_jobs` counts 0 for a battering ram without positions, and reports the cap for a cluster bomb
  with a large set before an empty one; otherwise the count is exact (`CountExact`, `CountFails`).
- A request line that itself reads as a `Content-Length:` line is taken for the length line to rewrite,
  and nothing then frames the body; a length line put behind a last line that is a lone CR makes that
  line a nameless field, and the request no longer parses. Beside these two (`LengthLineLost`, `StrayLost`)
  only a transfer coding that says chunked, which the rewriting leaves, and a body too large to be read
  keep a reader from taking exactly the body (`FixedReads`).
- An HTTP/2 request without a body keeps a stated non-zero length when it is translated, and the reader
  takes that much of the next request for its body (`TranslatedBody`, `StatedLengthTaken`).
- The size shown for brute force is the number of values sent exactly when it is the cap of 250000, or is
  below the cap and the character set is given, without repetition, and some length is at least one
  (`ShownSizeExact`, `RepeatedCharacter`, `OverTheCap`); a number range over the cap is shown too large
  in the same way (`NumberValues`).
- A negative limit on requests is announced as the total, and the attack completes none (`FinishedTotal`,
  `NegativeLimit`).
- A negative chunk size ends the serving of a connection by an exception the loop does not catch
  (`NegativeChunk`).
- The text form of an HTTP/2 request gives it back unchanged if and only if its fields can be shown, are in
  canonical order and name an authority or host (`ReturnedExactly`).
- An attack paused over its last jobs ends without being shown as finished, and once resumed it is shown
  as running with nothing left to run (`FinishedWhen`, `NeverShownFinished`); every job is completed all
  the same (`SoundEnds`).
- Once an HTTP/2 connection is marked closed, a sender with bytes left ends its stream short of the body
  (`ShortEnd`, `ClosedTruncates`); on a connection not marked closed END_STREAM means the whole body.
- Joining rows of a filtered sitemap loses the flows of hidden siblings, and only those
  (`JoinedFiltered`, `HiddenSibling`).

## Model

| member | source | states |
|---|---|---|
| HttpMessage.HeaderList.Get | backend/brup/http_message.py:48-53 | the loop returns the first value of a name, compared without case |
| HttpMessage.HeaderList.Remove | backend/brup/http_message.py:61-63 | in place, no value of the name is left, and every other name has the values it had, in order |
| HttpMessage.HeaderList.Set | backend/brup/http_message.py:66-83 | in place: the first field of the name takes the value, later ones go, a missing one is appended |
| HttpMessage.WithoutGetAll | backend/brup/http_message.py:61-63 | removal leaves no value of the name and every other name's values as they were |
| HttpMessage.WithoutPlace | backend/brup/http_message.py:61-63 | field by field, removal drops exactly those of the name, compared letter by letter without case |
| HttpMessage.WithHeaderGetAll | backend/brup/http_message.py:66-83 | setting leaves exactly one value of the name and every other name's values as they were |
| HttpMessage.WithHeaderPlace | backend/brup/http_message.py:66-83 | the first field of the name is written where it stands, later ones dropped, a missing one appended |
| HttpMessage.GetHeaderFirst | backend/brup/http_message.py:48-53 | looking a name up finds the first field that is the name letter by letter without case, and nothing if none is |
| HttpMessage.ParseHeaders | backend/brup/http_message.py:31-45 | the parsing loop: continuation lines folded into the field before, a line without a name refused |
| HttpMessage.SerialiseLines | backend/brup/http_message.py:86-91 | printing is the lines joined by CRLF, a blank line and the body |
| HttpMessage.PrintedHeadBody | backend/brup/http_message.py:86-108 | a printed message divides where it was printed to, whatever bytes the body holds |
| HttpMessage.PrintedLines | backend/brup/http_message.py:25-28 | the lines of a printed head are the lines printed |
| HttpMessage.ParsePrintable | backend/brup/http_message.py:155-174 | parsing a printed request loses nothing but white space around values |
| HttpMessage.ParsePrinted | backend/brup/http_message.py:86-174 | parsing inverts printing on requests in printed form |
| HttpMessage.PrintedExactly | backend/brup/http_message.py:86-174 | and on no others: the round trip holds if and only if the request is in printed form |
| HttpMessage.ParsedWired | backend/brup/http_message.py:155-174 | whatever parses prints again to one line per field |
| HttpGrammar.RequestRead | backend/brup/http_message.py:155-174 | any request written as tokens and fields with continuation lines parses to what is meant: the version or its default, values stripped, continuations joined; too few tokens are the two errors |
| HttpGrammar.BareRead | backend/brup/http_message.py:25-28 | the same with bare line feeds, and for a head without a blank line |
| HttpGrammar.NamelessRefused | backend/brup/http_message.py:41-43 | a line that is no continuation and has no name is refused |
| HttpReader.StreamReader.ReadUntil | backend/brup/http_message.py:205-223 | the stream primitive: everything through the first separator, or all there is |
| Numerals.NumeralRead | backend/brup/http_message.py:230-234 | every spelling of an integer, with sign, prefix, digits of either case, underscores and white space, is read as its positional value |
| Numerals.NumeralSpelt | backend/brup/http_message.py:230-234 | and nothing else is read: whatever is accepted is such a spelling of the value |
| HttpReader.ReadHead | backend/brup/http_message.py:205-223 | the head before the first blank line, a clean end of file, or a broken head |
| HttpReader.HeadShapes | backend/brup/http_message.py:205-223 | the head by what the stream holds: a blank line, an empty line of bare line feeds at the end of file, nothing, or neither |
| HttpReader.ReadChunked | backend/brup/http_message.py:226-245 | the decoding loop computes the decoder's function, errors included, and leaves the rest unread |
| HttpReader.SizeExact | backend/brup/http_message.py:230-234 | a size line is taken for n exactly if it spells n in hexadecimal, alone or before a semicolon and any extension |
| HttpReader.ChunksRefused | backend/brup/http_message.py:228-245 | which chunked bodies are refused, and with which error |
| HttpReader.SkipTrailers | backend/brup/http_message.py:226-245 | trailers are read through the empty line |
| HttpReader.ReadBody | backend/brup/http_message.py:248-288 | body, whether it was chunked, and what is left of the stream, by the framing the headers state; responses to HEAD, and with status 1xx, 204 or 304, have none |
| HttpReader.ReadFramed | backend/brup/http_message.py:248-288 | the same after the cases that never carry a body |
| HttpReader.LengthExact | backend/brup/http_message.py:263-271 | a length field states n exactly if it spells n in decimal, alone or before a comma, and n is not too large |
| HttpReader.FramingMeans | backend/brup/http_message.py:259-271 | the framing decision in the fields' own terms: the first transfer coding that names chunked in any case, else the first length field, else none |
| HttpReader.EndedBodies | backend/brup/http_message.py:272-280 | bodies at the end of file: cut off, running to it, or none |
| HttpReader.NormaliseFraming | backend/brup/http_message.py:291-295 | in place: a decoded chunked body gets its length and loses its transfer coding |
| HttpReader.DechunkWire | backend/brup/http_message.py:226-245 | any chunking of any data, sizes spelt in any way int(token, 16) reads, with extensions and trailers, decodes to that data and leaves the rest alone |
| HttpReader.NormalisedFraming | backend/brup/http_message.py:291-295 | re-framed headers are read back as exactly that length, with no transfer coding and every other field as it was |
| ServeLoop.ServeOne | backend/brup/proxy/server.py:276-289 | one turn after parsing, against the step function |
| ServeLoop.TurnEnds | backend/brup/proxy/server.py:247-283 | turns that end the loop: an error answer for a head that does not parse or names no target, nothing said to CONNECT, a body given up after the 100 asked for |
| ServeLoop.StreamEnds | backend/brup/proxy/server.py:243-249 | a stream with nothing left ends cleanly, one in the middle of a head does not |
| ServeLoop.AnnouncedFraming | backend/brup/http_message.py:248-288 | fields announce a body, in their own terms, exactly when the reader frames it so |
| ServeLoop.NegativeChunk | backend/brup/proxy/server.py:278-281 | a negative chunk size raises what the loop does not catch |
| ServeLoop.ServeRequests | backend/brup/proxy/server.py:241-289 | the whole loop, its log, why it ended and what it left unread, against the loop's function |
| ServeLoop.BodyRead | backend/brup/http_message.py:248-288 | a body framed by its headers is read back and what follows is left alone |
| ServeLoop.ServeMessage | backend/brup/proxy/server.py:241-289 | one turn takes exactly one well-framed message off the stream, whatever follows it, with a 100 before it exactly when its first Expect field names 100-continue |
| ServeLoop.ServeStream | backend/brup/proxy/server.py:241-289 | a stream of messages whose fields announce their bodies (sized, bodiless, chunked in any way) is delivered message by message, chunked ones re-framed, each with its 100 if it asks, and the loop goes on with exactly what follows |
| ServeLoop.ServeWholeStream | backend/brup/proxy/server.py:241-289 | on nothing but such messages every one is delivered and every byte consumed |
| ServeLoop.DeliveredReads | backend/brup/http_message.py:291-295 | a delivered request is framed by its own headers for the next reader |
| HeaderRules.ValidateHeaderRules | backend/brup/config.py:43-65 | accepted exactly when every rule passes; otherwise the first offending rule's error |
| HeaderRules.RuleChecked | backend/brup/config.py:43-65 | why a rule is refused: no name, a name that is no token, a framing field in any case, a line break, in this order |
| HeaderRules.ApplyHeaderRules | backend/brup/http_message.py:330-356 | in place, the enabled rules for the target, in order; the count is the rules that fired, a removal only where there was something to remove |
| HeaderRules.RuleMeans | backend/brup/http_message.py:330-356 | what one rule does to every field, and when it counts |
| HeaderRules.RulesInOrder | backend/brup/http_message.py:330-356 | rules apply one after another in the order listed, and the counts add up |
| HeaderRules.TextStripMeans | backend/brup/http_message.py:340-340 | stripping a rule's name takes white space off both ends and nothing else |
| HeaderRules.RulesKeepFraming | backend/brup/http_message.py:330-356 | accepted rules leave all Content-Length and Transfer-Encoding values, and so the framing decision, unchanged |
| HeaderRules.StrippedFraming | backend/brup/http_message.py:248-288 | white space around values never changes the framing read |
| HeaderRules.ForwardedWellFramed | backend/brup/http_message.py:330-356 | whatever well-framed message comes in, what goes out after accepted rules is a well-framed message with the same body |
| Http2Text.RequestFromText | backend/brup/http2.py:82-116 | the parsing loop, against the reader's function |
| Http2Text.RequestLineMeans | backend/brup/http2.py:66-80 | the first line shows the first :method and :path, GET and a slash where there is none or an empty one |
| Http2Text.ReadPrintedField | backend/brup/http2.py:260-264 | a printed field line reads back as that field |
| Http2Text.TextRoundTrip | backend/brup/http2.py:66-116 | text of fields that can be shown (named, trimmed, no line feed, no colon inside a name, method and path without white space, no pseudo-header twice) reads back as the same body, the regular fields in order and the pseudo-headers in canonical order; it fails exactly when neither authority nor host is there |
| Http2TextForm.ReadingGives | backend/brup/http2.py:82-116 | whatever text reads as has trimmed fields on one line each, distinct pseudo-headers, a method and a path |
| Http2TextForm.WrittenRead | backend/brup/http2.py:82-116 | text as an operator may write it: an explicit :method or :path line overrides the first line, the last of repeated pseudo-headers counts, regular fields keep their order |
| Http2TextForm.ReturnedExactly | backend/brup/http2.py:66-116 | for all fields and bodies: printed and read back they are the same if and only if they can be shown, are in canonical order and have an authority or host |
| Http2Text.CanonicalRoundTrip | backend/brup/http2.py:66-116 | on canonical fields the round trip is the identity |
| Http2Translate.ToH1Request | backend/brup/http2.py:171-194 | the translating loop, against its function |
| Http2Translate.H1Means | backend/brup/http2.py:171-194 | name by name: the authority or else the first Host field as Host, the body's length, nothing of the connection's own, every other field's values |
| Http2Translate.ToH2Request | backend/brup/http2.py:209-223 | the loop back, against its function |
| Http2Translate.H2Means | backend/brup/http2.py:209-223 | four pseudo-headers, then lower-case fields, name by name those of the request without Host and the connection's own |
| Http2Translate.OriginMeans | backend/brup/http_message.py:125-131 | an absolute target of either scheme, in any case, gives its path or a slash |
| Http2Translate.OriginKept | backend/brup/http_message.py:125-131 | any other target is kept |
| Http2Translate.TranslatedFraming | backend/brup/http2.py:171-194 | how an HTTP/1.1 reader frames any translated request, one too large to be read included |
| Http2Translate.TranslatedBody | backend/brup/http2.py:171-194 | the reader recovers exactly the body if and only if it is not too large to be read, and there is one or no other length was stated |
| Http2Translate.StatedLengthTaken | backend/brup/http2.py:171-194 | a request that states a length without a body swallows the start of the next |
| Http2Translate.TranslationRoundTrip | backend/brup/http2.py:171-223 | canonical fields to HTTP/1.1 bytes, parsed and back, are the same fields and body |
| IntruderTemplate.BuildRequest | backend/brup/intruder.py:62-67 | the loop that interleaves literals and values |
| IntruderTemplate.ParseRendered | backend/brup/intruder.py:48-59 | parsing a rendered template gives its literals and bases |
| IntruderTemplate.BuildBases | backend/brup/intruder.py:48-67 | filling every position with its base deletes the markers; odd markers are refused |
| IntruderTemplate.UrlEncodeInjective | backend/brup/intruder.py:200-204 | two values that encode alike are the same value |
| IntruderTemplate.DecodeEncoded | backend/brup/intruder.py:200-204 | percent-decoding an encoded value gives its bytes back |
| IntruderTemplate.EncodedAs | backend/brup/intruder.py:200-204 | unreserved bytes stand for themselves, any other is a percent sign and two upper-case digits |
| IntruderTemplate.BuildInjective | backend/brup/intruder.py:62-67 | with a foreign byte between positions the bytes built tell the values |
| IntruderMark.MarkPairs | backend/brup/api/routes.py:753-763 | the marking loop and its count |
| IntruderMark.MarkCookies | backend/brup/api/routes.py:774-778 | the loop over cookie fields |
| IntruderMark.MarkPositions | backend/brup/api/routes.py:738-786 | both modes, and the parse error |
| IntruderMarkText.TargetMarks | backend/brup/api/routes.py:765-772 | of a target written piece by piece exactly the query's values that are not empty are marked |
| IntruderMarkText.CookieMarks | backend/brup/api/routes.py:774-778 | of a Cookie field the same, of any other field nothing |
| IntruderMarkText.BodyMarkedIf | backend/brup/api/routes.py:780-784 | of a body the same exactly if the first Content-Type names a form; the positions are those of query, cookies and body in this order |
| IntruderMarkText.BlobSpelt | backend/brup/api/routes.py:753-763 | every text is written in such pieces |
| IntruderMark.MarkBlobMarks | backend/brup/api/routes.py:753-763 | a marked blob deletes to the blob, its positions are the values counted, none empty |
| IntruderMark.MarkingSound | backend/brup/api/routes.py:738-786 | any parseable request is marked into a balanced template with exactly the reported positions, all non-empty, that rebuilds to the request as printed |
| IntruderMark.MarkingPrinted | backend/brup/api/routes.py:738-786 | for a printed request that is every byte of the original |
| IntruderLength.FixContentLength | backend/brup/intruder.py:70-93 | the rewriting loop, against its function, on all bytes |
| IntruderLength.FixedKeeps | backend/brup/intruder.py:70-93 | the body and every other line are kept in order; exactly one length line, the body's, is left wherever there was one or there is a body |
| IntruderLength.FixedPlace | backend/brup/intruder.py:70-93 | the length stands in the place of the first line that names it, later ones dropped, or behind the last line; without body and such a line nothing changes |
| IntruderLength.FixedIdempotent | backend/brup/intruder.py:70-93 | rewriting twice is rewriting once, on all bytes |
| IntruderLength.FixedParses | backend/brup/intruder.py:70-93 | a parseable request without bare LFs or folded lines still parses exactly when no length line was put behind a lone CR; it then has the same body, the transfer codings it had and the body's length, unless its request line was the length line |
| IntruderLength.FixedReads | backend/brup/intruder.py:70-93 | a reader takes exactly the body if and only if no transfer coding says chunked, and the body is empty, or it is not too large to be read, the request line does not read as a length line and the last line is no lone CR that a new length line was put behind |
| IntruderLength.LengthLineLost | backend/brup/intruder.py:70-93 | a template whose request line is rewritten and whose body is lost |
| IntruderLength.StrayLost | backend/brup/intruder.py:70-93 | a template that parses and, rewritten, does not |
| IntruderPayloads.NumberValues | backend/brup/intruder.py:128-146 | a range of either direction gives its arithmetic terms, as many as the range holds, up to the cap |
| IntruderPayloads.RangeMeans | backend/brup/intruder.py:128-146 | steps of the size given towards the end of the range, every term within it and the next one beyond |
| IntruderPayloads.ShownReads | backend/brup/intruder.py:142-144 | a number is shown as Python reads it |
| IntruderPayloads.BruteValues | backend/brup/intruder.py:147-157 | the first strings in length order, up to the cap |
| IntruderPayloads.DefaultCharset | backend/brup/intruder.py:148-148 | without a character set a, b and c are used |
| IntruderPayloads.BaseValues | backend/brup/intruder.py:127-163 | every kind of set, at most 250000 generated values |
| IntruderPayloads.LinesKept | backend/brup/intruder.py:158-163 | of a list exactly the lines that are not empty, in order |
| IntruderPayloads.BruteOrder | backend/brup/intruder.py:147-157 | strings of one length come in lexicographic order of their digits |
| IntruderPayloads.ShownSizeExact | frontend/src/components/PayloadSetEditor.tsx:17-24 | the size shown for brute force is the number of values sent if and only if it is the cap, or is below it and the character set is given, without repetition, and some length is at least one |
| IntruderPayloads.OverTheCap | frontend/src/components/PayloadSetEditor.tsx:17-24 | 524286 values shown where 250000 are sent |
| IntruderPayloads.RepeatedCharacter | frontend/src/components/PayloadSetEditor.tsx:17-24 | one value shown where two are sent |
| MixedRadix.ProductAt | backend/brup/intruder.py:282-291 | the product's rows are the combinations in the order of their mixed-radix numbers |
| MixedRadix.ComboDigit | backend/brup/intruder.py:282-291 | position k of combination i is digit k of i in the radix of the sizes |
| MixedRadix.ComboInjective | backend/brup/intruder.py:282-291 | without duplicates different numbers give different combinations |
| MixedRadix.DigitsOrdered | backend/brup/intruder.py:282-291 | later combinations have lexicographically later digits |
| IntruderJobs.SniperJobs | backend/brup/intruder.py:251-260 | job i sets position i div m to payload i mod m and no other |
| IntruderJobs.SniperMeans | backend/brup/intruder.py:251-260 | job i sends the bases with payload i mod m of the first set at position i div m |
| IntruderJobs.RamJobs | backend/brup/intruder.py:262-269 | job i sets every position to payload i |
| IntruderJobs.RamMeans | backend/brup/intruder.py:262-269 | job i sends payload i of the first set at every position |
| IntruderJobs.PitchforkJobs | backend/brup/intruder.py:271-280 | job i takes the i-th payload of each set, as long as all have one |
| IntruderJobs.PitchforkMeans | backend/brup/intruder.py:271-280 | job i sends payload i of each position's own set |
| IntruderJobs.PitchforkTotal | backend/brup/intruder.py:271-280 | there are, and are counted, as many jobs as the shortest set used has payloads, one set a position; none with too few sets |
| IntruderJobs.ClusterJobs | backend/brup/intruder.py:282-291 | job i is the combination numbered i |
| IntruderJobs.ClusterMeans | backend/brup/intruder.py:282-291 | job i sends at each position the payload of its own digit of i |
| IntruderJobs.GenerateJobs | backend/brup/intruder.py:235-291 | exactly the first jobs, as many as the limit allows, numbered from 0 |
| IntruderJobs.OtherTotals | backend/brup/intruder.py:251-291 | how many jobs the other attacks have |
| IntruderJobs.CountJobs | backend/brup/intruder.py:294-311 | the counting loop with its early cap |
| IntruderJobs.CountExact | backend/brup/intruder.py:294-311 | the count is the number of jobs, capped for cluster bomb, if and only if the stated condition holds |
| IntruderJobs.CountFails | backend/brup/intruder.py:294-311 | inputs where it does not |
| IntruderJobs.ClusterBombDistinct | backend/brup/intruder.py:282-291 | no two cluster-bomb jobs build the same request bytes |
| IntruderRunner.StepKeeps | backend/brup/intruder.py:468-507 | every step of producer, workers and operator keeps the runner's invariant |
| IntruderRunner.AtMostOnce | backend/brup/intruder.py:468-507 | in every interleaving each job is begun and completed at most once |
| IntruderRunner.FinishedComplete | backend/brup/intruder.py:494-500 | status finished means every job was begun and completed exactly once |
| IntruderRunner.LiveWorkers | backend/brup/intruder.py:472-492 | live workers equal sentinels queued plus sentinels unsent |
| IntruderRunner.NeverStuck | backend/brup/intruder.py:472-500 | a running attack always has a step of its own |
| IntruderRunner.OwnDecreases | backend/brup/intruder.py:472-500 | and each of them brings it nearer its end |
| IntruderRunner.UndisturbedFinishes | backend/brup/intruder.py:468-507 | left alone it ends within a bounded number of steps, finished, with every job completed |
| IntruderRunner.SoundEnds | backend/brup/intruder.py:468-507 | with any pauses and resumes in between, an attack nothing stops or breaks takes a bounded number of steps of its own; ended, it has completed every job; not ended, it can go on by itself unless paused |
| IntruderRunner.FinishedWhen | backend/brup/intruder.py:494-497 | such an attack is shown as finished if and only if its tasks ended while it was running |
| IntruderRunner.NeverShownFinished | backend/brup/intruder.py:591-610 | a run with every job completed that is over and stays shown as running |
| IntruderRunner.PauseHolds | backend/brup/intruder.py:486-486 | until the next resume or stop a pause lets no job begin but those of workers let through before it: a job taken off the queue while paused waits |
| IntruderRunner.StopHolds | backend/brup/intruder.py:612-624 | after a stop no job begins, the status stays stopped or failed, and nobody is left waiting at the gate |
| IntruderRunner.CancelEnds | backend/brup/intruder.py:612-638 | an attack stopped or deleted before its end can end in no other way than cancelled, is then shown as stopped, and can always get there |
| IntruderRunner.BrokenShown | backend/brup/intruder.py:498-504 | an attack that broke is never shown as finished |
| IntruderRunner.QueueBounded | backend/brup/intruder.py:470-470 | the queue holds at most four items a worker |
| IntruderRunner.AnnouncedMeans | backend/brup/intruder.py:425-425 | the total announced is the count or the limit, whichever is less |
| IntruderRunner.FinishedTotal | backend/brup/intruder.py:425-425 | a finished attack's count equals the total it announced if and only if that is not negative and there are that many jobs |
| IntruderRunner.NegativeLimit | backend/brup/intruder.py:425-425 | under a negative limit no job is completed in any run |
| H2Server.StepKeeps | backend/brup/proxy/h2_server.py:62-203 | every step of senders and reader keeps the connection's invariant |
| H2Server.StreamsSafe | backend/brup/proxy/h2_server.py:176-203 | in every interleaving a stream carries a prefix of its body, in frames within the limit, within its credit, and nothing after its end |
| H2Server.CreditConserved | backend/brup/proxy/h2_server.py:176-187 | all streams together stay within the connection's credit, and what is left of it is exact |
| H2Server.ConnectionGranted | backend/brup/proxy/h2_server.py:106-135 | the connection's credit is its first window and every increment received |
| H2Server.StreamGranted | backend/brup/proxy/h2_server.py:106-135 | a stream's is its first window and every increment received while it was open |
| H2Server.EndMeansWhole | backend/brup/proxy/h2_server.py:198-203 | on a connection not marked closed END_STREAM means the whole body |
| H2Server.DoneEnds | backend/brup/proxy/h2_server.py:198-203 | a sender done with a stream the peer has not reset has END_STREAM as its last frame |
| H2Server.DoneWhole | backend/brup/proxy/h2_server.py:176-203 | on a connection not marked closed such a stream carries its whole body and its end |
| H2Server.TimeOutResets | backend/brup/proxy/h2_server.py:190-197 | after a wait that timed out the stream gets no more data and no END_STREAM: it is reset unless the peer was first or the sender is broken off |
| H2Server.ResetSilences | backend/brup/proxy/h2_server.py:154-162 | from the peer's reset on a stream takes no more frames |
| H2Server.ClosedWhen | backend/brup/proxy/h2_server.py:95-135 | the connection is marked closed exactly from the peer's going away, a broken write or the reader's leaving on |
| H2Server.NoLostWakeUp | backend/brup/proxy/h2_server.py:84-93 | no sender sleeps on an open window unless an event that wakes it waits to be dispatched or the connection is going down, and none waits for an event already set |
| H2Server.OnlyCreditBlocks | backend/brup/proxy/h2_server.py:176-203 | no deadlock: when nothing can be done, every unfinished stream waits for credit |
| H2Server.ShortEnd | backend/brup/proxy/h2_server.py:178-203 | in every run, END_STREAM stands after less than the body exactly when an earlier loop test of the stream found the connection marked closed with bytes left and the stream, not reset by the peer, was ended after it |
| H2Server.ClosedTruncates | backend/brup/proxy/h2_server.py:132-135 | a run in which that happens |
| H2Client.StepKeeps | backend/brup/proxy/h2_client.py:70-150 | every step of sender and pump keeps the exchange's invariant |
| H2Client.BodySafe | backend/brup/proxy/h2_client.py:128-150 | a prefix of the body within both credits; END_STREAM means the whole body; the sender stops without END_STREAM and the whole body only when the exchange is over |
| H2Client.CreditGranted | backend/brup/proxy/h2_client.py:89-126 | both credits are what the peer granted, the stream is open until the peer resets it, and the exchange is over exactly when the pump has ended it |
| H2Client.ResetSilences | backend/brup/proxy/h2_client.py:107-110 | from the peer's reset on the stream takes no more frames |
| H2Client.OnlyCreditBlocks | backend/brup/proxy/h2_client.py:136-144 | the sender is stuck only on a shut window in an exchange still going on |
| SiteTree.WithKidForest | backend/brup/sitemap.py:39-53 | making a missing child keeps one node per path |
| SiteTree.ChildToward | backend/brup/sitemap.py:126-132 | below a node exactly one child leads to a path |
| SiteTree.BelowSplits | backend/brup/sitemap.py:69-74 | rows at or below a node are its own and its children's |
| Sitemap.SiteMap.Child | backend/brup/sitemap.py:39-53 | the child by name, made if the budget allows, and nothing else changed |
| Sitemap.SiteMap.HostNode | backend/brup/sitemap.py:110-119 | one host node per authority and scheme, outside the budget |
| Sitemap.SiteMap.Walk | backend/brup/sitemap.py:126-132 | down the segments to the path's node, or to the deepest one on it once the budget is spent; the map is marked truncated exactly when the path has no node |
| Sitemap.SiteMap.AddRow | backend/brup/sitemap.py:97-136 | a row is counted at the deepest node on its path, a root document without its node at none; truncated is set exactly when the row has no node, and what is made stands on the row's path |
| Sitemap.BuildSitemap | backend/brup/sitemap.py:82-142 | always: every row counted at the deepest node on its path, every listed row's host listed, nodes only on rows' paths, each node's sums exactly what is counted at and below it, totals that miss nothing but root documents; truncated exactly when some row has no node, and then with all 40000 path nodes spent; not truncated: every row counted at its own path |
| Sitemap.SegmentsMean | backend/brup/sitemap.py:121-121 | a path's segments are what stands between its slashes, doubled and trailing ones making none |
| Sitemap.FlowsMean | backend/brup/sitemap.py:57-57 | a row stands for its flows, for one when their number is missing or zero |
| Sitemap.FinaliseAgrees | backend/brup/sitemap.py:69-79 | the recursive sums equal the flat sums over rows |
| Sitemap.OnlyRootsLost | backend/brup/sitemap.py:121-136 | what the budget can lose is bounded by the root documents |
| Sitemap.EveryRowShown | backend/brup/sitemap.py:82-142 | a row's node, wherever the map has it, is in its host's tree |
| Sitemap.AnyOrder | backend/brup/sitemap.py:97-136 | the sums do not depend on the order of the rows |
| SiteView.FilterKeeps | frontend/src/views/Sitemap.tsx:60-69 | the filter keeps, in order, exactly the nodes that match or have a match above or below |
| SiteView.HitMeans | frontend/src/views/Sitemap.tsx:60-69 | a node matches when its name or path mentions the needle in any case |
| SiteView.PathJoined | backend/brup/sitemap.py:45-47 | a node's path is its segments, each behind a slash |
| SiteView.NameMeans | backend/brup/sitemap.py:110-119 | a host is named by its origin, any other node by its last segment |
| SiteView.CompressTree | frontend/src/views/Sitemap.tsx:40-58 | the loop over a run and the recursion below it |
| SiteView.RunChain | frontend/src/views/Sitemap.tsx:40-58 | a joined row is a run of directories nobody requested, each the only child, as far as it goes, labelled with their names |
| SiteView.CompressShows | frontend/src/views/Sitemap.tsx:40-58 | the rows show every node with flows of its own exactly once, in the tree's order |
| SiteView.JoinedCount | frontend/src/views/Sitemap.tsx:40-58 | a joined row counts the subtree of the first node of its run |
| SiteView.JoinedFiltered | frontend/src/views/Sitemap.tsx:268-274 | in a filtered tree it does so exactly when no sibling with flows is hidden along the run |
| SiteView.HiddenSibling | frontend/src/views/Sitemap.tsx:268-274 | a tree where one is |
| Interceptor.Interceptor.Hold | backend/brup/proxy/interceptor.py:68-107 | a held message joins the table under a new id with its project |
| Interceptor.Interceptor.Resolve | backend/brup/proxy/interceptor.py:109-113 | true exactly for a message still open, whose future then holds the decision and bytes |
| Interceptor.Interceptor.Forward | backend/brup/proxy/interceptor.py:115-117 | resolves the message of that id, with the operator's bytes or its own |
| Interceptor.Interceptor.Drop | backend/brup/proxy/interceptor.py:119-121 | resolves the message of that id, with its own bytes |
| Interceptor.Interceptor.ResolveAll | backend/brup/proxy/interceptor.py:123-127 | resolves every open message; the count is the messages this call resolved |
| Interceptor.Interceptor.Release | backend/brup/proxy/interceptor.py:103-107 | the waiting task takes its message off the table and the decision with it |
| InterceptRuns.StepKeeps | backend/brup/proxy/interceptor.py:68-127 | every step of exchanges and operator keeps the proxy's invariant |
| InterceptRuns.ReleasedOnce | backend/brup/proxy/interceptor.py:68-127 | in every interleaving a released message was resolved by exactly one successful call, with that call's decision and bytes, and released once |
| InterceptFates.RequestsGoOn | backend/brup/proxy/server.py:351-375 | a request not held goes on unchanged, a held one exactly if it was released with Forward and with the released bytes; one released with Drop is over, with nothing sent and nothing answered |
| InterceptFates.AnswersGiven | backend/brup/proxy/server.py:428-454 | the same for what the client is answered |
| InterceptFates.RowsTell | backend/brup/proxy/server.py:360-388 | a row marked dropped is of a request released with Drop, as it arrived; any other carries the bytes that went on; no exchange has two |
| InterceptFates.RowsMade | backend/brup/proxy/server.py:360-388 | rows are made exactly where logging asks for one |
| InterceptFates.SuccessBytes | backend/brup/proxy/interceptor.py:109-127 | every success comes of one call, with its decision and its edited bytes, or else those held |
| InterceptFates.CallLogs | backend/brup/proxy/interceptor.py:115-121 | a call on a message held and open takes effect, on any other none |
| InterceptFates.CallAllLogs | backend/brup/proxy/interceptor.py:123-127 | forwarding or dropping all decides every open message, in order, and leaves none open |
| InterceptFates.CancelledNever | backend/brup/proxy/interceptor.py:103-107 | a message whose task was cancelled before it could go on is never released |
| InterceptRuns.SuccessesReleased | backend/brup/proxy/interceptor.py:109-127 | successes reported are the messages released, those cancelled first and those about to go on |
| InterceptRuns.RowsKeepProject | backend/brup/proxy/server.py:338-391 | every history row carries the project active when its exchange arrived |
| InterceptRuns.ArrivalsGrow | backend/brup/proxy/server.py:521-570 | what an exchange arrived under is never rewritten |
| Config.MergeSettings | backend/brup/config.py:156-162 | the loop lays overridable keys over the system's settings |
| Config.MergeSound | backend/brup/config.py:156-162 | with clean overrides the merge always validates, system-only keys stay the system's and overrides take effect |
| Config.ListeningKept | backend/brup/config.py:136-153 | how the proxy listens and whether it must use the VPN is the system's whatever a project stores |
| Config.ValidateOverrides | backend/brup/config.py:165-184 | accepted exactly when every key may be overridden and every value given fits; nulls are dropped |
| Config.SettingsStore.Update | backend/brup/config.py:208-212 | a patch that does not validate changes nothing; one that does is a new settings object with the patch's values for its keys and the old ones for the others |
| Projects.ProjectManager.GetSettings | backend/brup/projects.py:102-116 | always the merge of the system's settings with the stored overrides of the active project |
| Projects.UpdateUnannounced | backend/brup/projects.py:102-116 | after a system update made behind the manager's back the next read is still the new merge |
| Projects.ProjectManager.Load | backend/brup/projects.py:53-67 | afterwards a stored project is active: the one wanted if it is still there, else the first |
| Projects.ProjectManager.SetActive | backend/brup/projects.py:69-83 | a project that is gone changes nothing |
| Projects.ProjectManager.Create | backend/brup/projects.py:140-158 | one project more, with another's overrides if one is named; the active one stays |
| Projects.ProjectManager.Keep | backend/brup/projects.py:160-171 | a temporary project made permanent; effective settings unchanged |
| Projects.ProjectManager.Activate | backend/brup/projects.py:173-177 | switching to a stored project |
| Projects.ProjectManager.Rename | backend/brup/projects.py:179-189 | one name changed; effective settings unchanged |
| Projects.ProjectManager.SetNotes | backend/brup/projects.py:191-195 | one project's notes changed; effective settings unchanged |
| Projects.ProjectManager.SetOverrides | backend/brup/projects.py:197-221 | the checked patch is stored, and the active project's settings follow at once |
| Projects.PatchMeans | backend/brup/projects.py:197-221 | after an accepted patch the overrides are the patch's values, nothing where it has a null, and the old ones for every other key |
| Projects.ProjectManager.Delete | backend/brup/projects.py:222-239 | never the only project; deleting the active one activates the oldest left |
| Projects.ProjectManager.UpdateSystem | backend/brup/projects.py:242-246 | a system change reaches the effective settings at once, except where overridden |

## Left out

- HttpReader.ReadHead: does not model the reader's buffer limit, so an over-long head is not refused; a stream is a sequence of bytes with an end of file.
- Timeouts, sockets and TLS.
- Python's limit of 4300 digits in `int`, and white space and digits outside ASCII: lengths and sizes are parsed for any number of ASCII digits.
- Responses: `parse_response`, `response_to_text`, `response_from_text`, `from_h1_response` and `strip_for_h2` would repeat the request side.
- Bodies cut off by the end of the file, or running to it, are read as the code reads them but are not self-delimiting, so stream theorems leave them out.
- IntruderLength.FixedReads: says nothing of heads with bare line feeds, folded lines or no blank line, which need not parse to the lines the rewriter sees; under a transfer coding that says chunked, which the rewriting leaves, it says only that the body is not taken byte for byte.
- IntruderPayloads.NumberValues: does not model fractional bounds and steps, where the terms depend on how floating point rounds.
- IntruderPayloads.BaseValues: does not model fractional steps or splitting a stored wordlist into lines; ranges are over integers.
- Payload rules (prefix, case, hashing, encoding) and grep matching, which are library calls on one value.
- The runner is a machine of steps on values rather than tasks on a heap, and sending a job, storing its result and persisting the attack are steps without content.
- The HTTP/2 senders are machines of steps on values. The h2 library is a ledger: window changes by SETTINGS, window overflow, header frames and bodies over the size limit are not modelled, and a broken connection is a step that may happen at any write.
- H2Client.BodySafe: does not model the wait for the response after the body.
- Sitemap.BuildSitemap: does not model the order in which hosts and children are sorted, nor methods, statuses, MIME types and last ids of nodes; URL splitting and scope matching are the row's `listed`, `origin` and `path`.
- `collectKeys` and the rest of the sitemap view, which only draw what is proved here.
- InterceptRuns.RowsKeepProject: does not model scope, a row's later updates, or errors on the way to the origin; that a request goes on, and whether a row is logged, are taken from the exchange.
- Config.MergeSettings: does not model pydantic's coercion of values; whether a value fits its field is a parameter.
- Projects.ProjectManager.Delete: does not model the flows, attacks and tabs deleted with a project; tables are sequences, and overlapping project operations are not modelled.
- Certificates, VPN control, the database, events and the HTTP API other than auto-marking.
