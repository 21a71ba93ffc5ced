# Verified core of a C++ web server

The repository is a web server with sessions, a template engine, a file cache, TLS, a worker pool and
an HTTP client. This project models the parts of it that carry state over many steps or that have to
agree with each other, and proves what they keep.

| file | part of the system |
|---|---|
| `Text.dfy` | first-occurrence search and concatenation facts |
| `Numbers.dfy`, `Chunked.dfy` | numbers as the client reads them; the chunked decoder as a machine over arbitrarily cut input |
| `HttpParsers.dfy` | status line and header field parsers, header printer |
| `ResponseReader.dfy`, `ResponseArrival.dfy` | the read loop of `Request::send`, and what a response becomes by it |
| `ServerResponse.dfy`, `ResponseRoundTrip.dfy` | the server's response printer, and the client reading it |
| `TemplateSyntax.dfy`, `TemplateRender.dfy`, `TemplateLines.dfy` | template parser, renderer and interpreter; lines, headers and loops in plain terms |
| `TemplateMerge.dfy`, `TemplateMeaning.dfy`, `TemplateFaithful.dfy` | in what order a tree is rendered, what the code renders, and when that is what was written |
| `TemplateInlining.dfy`, `TemplateEngine.dfy` | includes, and the class |
| `Base64.dfy`, `Tokens.dfy`, `Sessions.dfy` | both Base64 encoders and the decoder, the signed token, the session table |
| `RouteCompiler.dfy`, `RouteMatching.dfy` | route templates compiled to regular expressions, and matching |
| `RouteReading.dfy`, `RouteRoundTrip.dfy` | paths made from a template and read in one way only, conversion, and matching as the inverse of making a path |
| `RouteLimits.dfy`, `RouteTable.dfy` | where matching does not undo instantiation; the search for the first route |
| `LruCache.dfy` | the file cache |
| `TlsWrites.dfy`, `TlsOrder.dfy` | deferred writes against an adversarial `SSL_write`, and their order |
| `WorkerPool.dfy` | queue and workers as interleaved atomic steps |

Loops of the source are methods with invariants, objects it mutates are classes; each is proved
against a function, and the lemmas are about the functions. The peer, `SSL_write`, the expression
engine, `std::stof`, the digest and fresh ids are parameters, and every theorem holds for all of them.

## What the proofs show about the code

- Chunked decoding does not depend on how the network cuts the stream. It accepts two things section
  4.1 of RFC 7230 does not: an empty size line as the last chunk, and a body without its final CRLF,
  whose place anything may take. Sizes of 2^64 and more wrap.
- The header block must come with the first read; otherwise `send` returns an empty response. A
  header block without fields is refused, and so is a response with a status outside the server's table.
- Under Content-Length nothing is cut off: a read that goes beyond the body makes the body longer.
- A template without `elif` is rendered as if each `if` and `include` of an else-branch stood at the end
  of the then-branch, and its loops together behind as many of its lines as the then-branch has, or
  nowhere if that is beyond lines plus loops. This is the template as written if and only if every
  else-branch is lines and loops, the loops in that place. An `elif` reads past an empty vector.
- Session validation throws on a cookie that is not three parts, the empty one included, on a payload
  that is empty or not base64, on one without a string under "id", and on values to restore that are not
  all strings, although its comments promise a new session. Signing for an id that is not stored breaks the rule that keys are ids.
- A dot in a route with parameters matches any character but a line end. Two strings with no slash
  between them are not told apart, nor are a string or number and another with only digits between them. A
  route that is refused has still written its parameters up to the first that does not convert, if the
  path is an instance of it, into the map that the next routes are tried with.
- The file cache ignores its configured limit: it holds up to 1 MiB whatever the limit is. Replacing a
  cached file leaves a stale entry, and dropping that entry later makes the newer content unreachable
  while it is still charged for.
- TLS writes lose nothing, and the octets of one write stay in order; but a write made while another is
  pending can overtake it, and so can a flush with two buffers pending. Only writing when nothing is
  pending is safe against every `SSL_write`, buffers whose length is no positive `int` apart.
- Destroying the pool can only succeed if the queue still holds a task for each idle or busy worker.

## Model

| member | source | states |
|---|---|---|
| `Numbers.HexStringToUint` | src/HTTPRequest.hpp:994-1002 | the value of a hex numeral in either case modulo 2^64; it throws exactly if some character is no hex digit |
| `Numbers.StringToUint` | src/HTTPRequest.hpp:984-992 | the decimal twin, for Content-Length |
| `Numbers.DigitsExactly` | src/HTTPRequest.hpp:692-708 | the hex digits are those of "0123456789abcdef" and "0123456789ABCDEF" and no other characters |
| `Numbers.TablesCount` | src/HTTPRequest.hpp:692-708 | each digit of these tables counts its place |
| `Numbers.CaseDoesNotMatter` | src/HTTPRequest.hpp:994-1002 | a numeral has the same value whatever the case of its digits |
| `Numbers.ValueJoined` | src/HTTPRequest.hpp:984-1002 | places count: digits in front are worth the base once more for every digit behind |
| `Numbers.HexIsRead` | src/HTTPRequest.hpp:994-1002 | a printed number is read back modulo 2^64, with digits in either case |
| `Numbers.DecimalIsRead` | src/HTTPRequest.hpp:984-992 | the same for decimal numbers |
| `ChunkedDecoder.DrainLoop` | src/HTTPRequest.hpp:1263-1304 | the inner loop of `send` computes the machine function and terminates, because the buffer shrinks on every pass that continues |
| `ChunkedDecoder.DrainResume` | src/HTTPRequest.hpp:1263-1304 | starving anywhere (in a size line, inside data, inside a CRLF) and going on with more input equals having had all of it at once |
| `ChunkedDecoder.FeedAllIsOneFeed` | src/HTTPRequest.hpp:1201-1305 | any non-empty list of reads ends like one read of their concatenation |
| `ChunkedDecoder.SegmentationIndependence` | src/HTTPRequest.hpp:1201-1305 | two cuts of one stream end in the same outcome, body, left-over buffer, outstanding size and owed CRLF, from any machine state |
| `ChunkedDecoder.DrainWire` | src/HTTPRequest.hpp:1266-1304 | a list of chunks and a last size line are decoded to the chunks' concatenation, whatever follows |
| `ChunkedDecoder.DrainFinished` | src/HTTPRequest.hpp:1266-1304 | a stream the loop finishes on is a list of chunks, a last size line and a tail, which are read back |
| `ChunkedDecoder.DecodesExactly` | src/HTTPRequest.hpp:1266-1304 | the loop finishes with a body if and only if the stream is chunks carrying that body, a last size line, and anything |
| `ChunkedDecoder.DecodesRfcBodies` | src/HTTPRequest.hpp:1266-1304 | every body of section 4.1 of RFC 7230 (no extensions, no trailers, sizes below 2^64 in either case) is decoded, however it is cut |
| `ChunkedDecoder.LastChunkExactly` | src/HTTPRequest.hpp:1298-1302 | which size lines end the body: those of the RFC, and also the empty line |
| `ChunkedDecoder.WireIsPrefixFree` | src/HTTPRequest.hpp:1266-1304 | the coding is unambiguous: equal streams have equal chunks, last line and tail |
| `ChunkedDecoder.PrefixesKeepReading` | src/HTTPRequest.hpp:1266-1304 | a read that ends inside a well-formed body is never refused and never taken for the end |
| `ChunkedDecoder.EncodeRoundTrip` | src/HTTPRequest.hpp:1266-1304 | printing pieces as chunks, with sizes in lower or upper case, and decoding them under any cut gives their concatenation |
| `ChunkedDecoder.RejectsExactly` | src/HTTPRequest.hpp:1263-1304 | the loop throws if and only if the stream is chunks and then a size line that is not hex, or a chunk without its line end |
| `HttpParsers.Scan` | src/HTTPRequest.hpp:680-690 | the scanning loops stop at the first character outside their class |
| `HttpParsers.SpanIs` | src/HTTPRequest.hpp:680-690 | that position is characterised, both directions |
| `HttpParsers.ParseToken` | src/HTTPRequest.hpp:859-873 | the loop computes the longest token and throws on an empty one |
| `HttpParsers.ParseFieldValue` | src/HTTPRequest.hpp:875-891 | the value up to the first foreign character, trailing blanks removed |
| `HttpParsers.ParseFieldContent` | src/HTTPRequest.hpp:893-924 | lines of an obsolete fold are joined by one space, and a line end that is not a fold ends the value |
| `HttpParsers.ParseHeaderField` | src/HTTPRequest.hpp:926-949 | name, colon, blanks, value and CRLF, or an exception |
| `HttpParsers.ParseVersion` | src/HTTPRequest.hpp:797-828 | HTTP/ digit . digit, or an exception |
| `HttpParsers.ParseStatusCode` | src/HTTPRequest.hpp:830-844 | exactly three digits are accepted and the 16-bit wrap-around never shows; any other count throws |
| `HttpParsers.ParseStatusLine` | src/HTTPRequest.hpp:952-982 | version, code, reason and CRLF, or an exception |
| `HttpParsers.EncodeHeaderFields` | src/HTTPRequest.hpp:1011-1031 | prints every field on a line, or throws exactly if a name or value has a forbidden character |
| `HttpParsers.HeaderRoundTrip` | src/HTTPRequest.hpp:875-949 | parsing what the printer printed consumes it exactly and returns the list, names lower-cased and values stripped; no line end is taken for a fold |
| `HttpParsers.CanonicalIsStable` | src/HTTPRequest.hpp:926-949 | a parsed field printed and parsed again does not change |
| `HttpParsers.ClassesExactly` | src/HTTPRequest.hpp:610-677 | the token and field characters, listed |
| `HttpParsers.LowerExactly` | src/HTTPRequest.hpp:926-949 | capital letters of a name become small ones, and nothing else changes |
| `HttpParsers.StripExactly` | src/HTTPRequest.hpp:875-891 | stripping takes the blanks at both ends off and nothing else |
| `HttpParsers.FoldsAreJoined` | src/HTTPRequest.hpp:893-924 | a value folded over lines reads as its lines, blanks behind them trimmed, joined by one space |
| `HttpParsers.FoldedFieldReads` | src/HTTPRequest.hpp:926-949 | a field with any blanks behind its colon and any folds: its name in lower case and that value |
| `HttpParsers.StatusLineExactly` | src/HTTPRequest.hpp:952-982 | a status line is read if and only if it is one, character by character, and each number from its place |
| `ResponseReader.ReadHead` | src/HTTPRequest.hpp:1218-1258 | status line, fields to the end of the block and the framing they ask for, or an exception |
| `ResponseReader.FrameExactly` | src/HTTPRequest.hpp:1234-1248 | a list of fields gives a framing if and only if every Transfer-Encoding is chunked and every Content-Length decimal; the body is chunked exactly if there is a coding, and the last length counts |
| `ResponseReader.RecvFirst` | src/HTTPRequest.hpp:1210-1258 | the first read: without the end of the header block `send` returns at once |
| `ResponseReader.RecvRest` | src/HTTPRequest.hpp:1256-1315 | the part of the body that came with the header |
| `ResponseReader.RecvMore` | src/HTTPRequest.hpp:1260-1315 | any later read |
| `ResponseReader.Send` | src/HTTPRequest.hpp:1201-1318 | the read loop over every list of reads, closed connection included, computes the reader machine |
| `ResponseReader.ChunkedCutsExactly` | src/HTTPRequest.hpp:1201-1305 | for a chunked response every cut gives the result of one single read if and only if the first read holds the whole header block |
| `ResponseReader.PiecesAreCollected` | src/HTTPRequest.hpp:1306-1314 | under Content-Length the body is the reads up to the first that reaches the length |
| `ResponseReader.ContentLengthExactly` | src/HTTPRequest.hpp:1306-1314 | exactly the announced octets are returned if and only if a read ends where the body ends |
| `ResponseArrival.HeaderMustComeFirst` | src/HTTPRequest.hpp:1213-1219 | a first read without the end of the header block gives an empty response |
| `ResponseArrival.LengthArrives` | src/HTTPRequest.hpp:1201-1318 | a response with a Content-Length, from any server: status, fields and the whole body under every cut behind the header block |
| `ResponseArrival.ChunksArrive` | src/HTTPRequest.hpp:1201-1318 | the same for chunks: the body is their data |
| `ResponseArrival.BadChunksThrow` | src/HTTPRequest.hpp:1263-1304 | a malformed chunk is an exception under every cut |
| `ResponseArrival.ClosingDelivers` | src/HTTPRequest.hpp:1201-1318 | without chunks, and with no length or a longer one, nothing is returned until the peer closes, and then all octets behind the header block are |
| `ResponseArrival.UntilClosedExactly` | src/HTTPRequest.hpp:1201-1210 | a read of length zero ends the response, and nothing behind it is read |
| `StringMap.PutKeeps` | src/response.cpp:49-59 | a write to the ordered header map keeps it sorted, sets its key and no other |
| `StringMap.LessExactly` | src/response.cpp:49-59 | the order of the map is that of the first character that differs, a string before what it begins |
| `ServerResponse.ReasonsOfSuccess` | src/response.cpp:7-27 | the reason phrases of the 2xx and 3xx codes in the table |
| `ServerResponse.ReasonsOfErrors` | src/response.cpp:7-27 | the reason phrases of the 4xx and 5xx codes in the table |
| `ServerResponse.KnownCodes` | src/response.cpp:7-27 | there are no others |
| `ServerResponse.FinalHeadersExactly` | src/response.cpp:47-56 | Content-Length, Content-Type and Server are completed, the type only if there is none, and every other entry is printed as the handler set it |
| `ServerResponse.FileHeadersExactly` | src/response.cpp:56-56 | a file response is printed with every header as it was set, and the server |
| `ServerResponse.CookiesReadBack` | src/response.cpp:62-67 | the cookies can be read off the printed line again, if no name has a = and no value a ; |
| `ResponseRoundTrip.FileToClient` | src/response.cpp:34-38 | for a file below 2 GiB the client gets the status, the headers with the type and length and all others that were set, and exactly the file, however it is cut behind the header block |
| `ResponseRoundTrip.FileLengthExactly` | src/response.cpp:34-38 | the true length is announced if and only if the file is below 2 GiB: the parameter is an `int` |
| `ServerResponse.Response.GenerateResponse` | src/response.cpp:41-70 | the text is status, final headers in key order, cookies and message, and the header field holds the final headers |
| `ResponseArrival.BlockEnds` | src/HTTPRequest.hpp:1213-1219 | the client finds the end of the header where the printer put it, even if the message holds CR LF CR LF |
| `ResponseRoundTrip.StatusLineParses` | src/response.cpp:7-27 | every status line of the table parses back to its code and reason |
| `ResponseRoundTrip.FinalHeadersAreHonest` | src/response.cpp:47-56 | however the handler filled the map, short of a false length that the code leaves standing, one true Content-Length is printed and no Transfer-Encoding |
| `ResponseRoundTrip.HonestFrame` | src/HTTPRequest.hpp:1226-1254 | the client takes the length from such headers |
| `ResponseArrival.HeadParsesExactly` | src/HTTPRequest.hpp:1221-1258 | printed fields behind a status line that parses are accepted if and only if there is at least one and they give a framing |
| `ResponseArrival.MessageArrives` | src/HTTPRequest.hpp:1306-1314 | a body that is as long as announced arrives whole under every cut |
| `ResponseRoundTrip.ServerToClient` | src/response.cpp:41-70 | the client's result for the server's text is the status, the fields and exactly the message, however it is cut behind the header block; among the fields are each the handler set, its type or text/html, the true length, the server and the cookies |
| `ResponseRoundTrip.UnknownStatusIsRefused` | src/response.cpp:31-32 | a status outside the table is printed as an empty line, which the client refuses |
| `TemplateSyntax.ParsePrinted` | src/jinjaTemplating/templating.cpp:142-232 | parsing the lines of a template fills the block as specified, in then- and else-branches, and goes on behind it |
| `TemplateSyntax.KidsExactly` | src/jinjaTemplating/templating.cpp:168-196 | the children of a branch, loop or file are the right ones exactly for good templates |
| `TemplateSyntax.ElseExactly` | src/jinjaTemplating/templating.cpp:178-196 | when the children of an else-branch are the right ones |
| `TemplateSyntax.ElifIsUndefined` | src/jinjaTemplating/templating.cpp:197-206 | a template with an `elif` always makes the parser read the last element of an empty vector |
| `TemplateSyntax.ParsesToItsTree` | src/jinjaTemplating/templating.cpp:142-232 | parsing a printed template gives back its tree if and only if the template is good |
| `TemplateLines.LineExactly` | src/jinjaTemplating/templating.cpp:234-305 | a line is rendered if and only if every expression in it has a value, and then to its texts and values in their order |
| `TemplateLines.TextBlockRenders` | src/jinjaTemplating/templating.cpp:306-348 | lines of text are rendered in order, each with a line end |
| `TemplateLines.HeaderSplits` | src/jinjaTemplating/templating.cpp:397-398 | a loop header is cut at its first in |
| `TemplateLines.PlanExactly` | src/jinjaTemplating/templating.cpp:400-465 | which headers are ranges, arrays, strings or objects, and which are exceptions |
| `TemplateLines.LoopRunsRounds` | src/jinjaTemplating/templating.cpp:406-451 | a loop prints one round after the other, for each value in order, a range from its first number to the one before its last |
| `TemplateLines.IfAlone` | src/jinjaTemplating/templating.cpp:350-391 | which branch of a condition is meant |
| `TemplateLines.LinesInOrder` | src/jinjaTemplating/templating.cpp:306-348 | two lines print in their order |
| `TemplateLines.FailuresThrow` | src/jinjaTemplating/templating.cpp:234-465 | a line, a loop header or a file that fails is an exception |
| `TemplateLines.MarksExactly` | src/jinjaTemplating/templating.cpp:197-220 | a mark where it does not belong is an exception, the mark that ends a block ends it, and so does an elif or else behind an else |
| `TemplateLines.IfBlockExactly` | src/jinjaTemplating/templating.cpp:350-391 | which branch of a parsed if block is rendered; an elif that does not hold is an exception |
| `TemplateMerge.ParseKeepsOrder` | src/jinjaTemplating/templating.cpp:168-196 | in every tree parsed from any lines the places of the children do not decrease and are at most the number of lines |
| `TemplateMerge.VisitsAreMerge` | src/jinjaTemplating/templating.cpp:306-348 | for every block with ordered children the loops visit each line once and each child below lines plus children once, in the order of the places; a child at or beyond that place is lost, and no other |
| `TemplateMerge.EveryParseMerges` | src/jinjaTemplating/templating.cpp:142-348 | whatever lines a file holds, if it parses, every line and every child of it is visited exactly once, in order |
| `TemplateMerge.RenderVisits` | src/jinjaTemplating/templating.cpp:306-348 | the nested loops of `__Render` render what they visit |
| `TemplateMeaning.InterpretAppend` | src/jinjaTemplating/templating.cpp:306-348 | a template in front of another means one after the other |
| `TemplateMeaning.TreeRenders` | src/jinjaTemplating/templating.cpp:306-391 | rendering the tree the parser builds is interpreting the template with the statements of its else-branches moved |
| `TemplateMeaning.LoopRenders` | src/jinjaTemplating/templating.cpp:393-465 | the three kinds of loops agree with the interpreter, which variables stay set included |
| `TemplateMeaning.RenderedAs` | src/jinjaTemplating/templating.cpp:142-465 | what the code renders for every template without `elif`, on every site of such files: an `if` or `include` of an else-branch runs at the end of the then-branch, and its loops run together behind as many of its lines as the then-branch has, or not at all |
| `TemplateMeaning.ElifIsUndetermined` | src/jinjaTemplating/templating.cpp:197-206 | rendering a template with an `elif` is undefined, which is kept apart from an exception |
| `TemplateFaithful.FaithfulExactly` | src/jinjaTemplating/templating.cpp:178-196 | the statements stay where they are written if and only if every else-branch is lines and loops, the loops together behind as many lines as the then-branch has |
| `TemplateFaithful.GoodIsFaithful` | src/jinjaTemplating/templating.cpp:178-196 | a template whose tree is the right one is rendered as written |
| `TemplateFaithful.RenderingIsInterpreting` | src/jinjaTemplating/templating.cpp:142-465 | on a site of such files parser and renderer together compute the meaning of the lines: output, environment and failure |
| `TemplateInlining.InlineMeansTheSame` | src/jinjaTemplating/templating.cpp:328-333 | a template means the same as its inlined form, which needs no file |
| `TemplateInlining.AcyclicFits` | src/jinjaTemplating/templating.cpp:168-181 | in an acyclic include graph the nesting is bounded |
| `TemplateInlining.IncludingIsInlining` | src/jinjaTemplating/templating.cpp:328-333 | rendering with includes equals rendering the lines with the included lines spliced in, at any depth |
| `TemplateInlining.IfInElseIsLost` | src/jinjaTemplating/templating.cpp:182-187 | an `if` in an else-branch is rendered as nothing although it should be rendered |
| `TemplateEngine.RootReadsAll` | src/jinjaTemplating/templating.cpp:217-218 | only an `if` or `for` block stops before the end of its file |
| `TemplateEngine.FitsIsLoadable` | src/jinjaTemplating/templating.cpp:168-181 | a site whose includes nest finitely can be loaded |
| `TemplateEngine.Templating.constructor` | src/jinjaTemplating/templating.cpp:92-106 | starts with a valid, empty cache |
| `TemplateEngine.Templating.BlockParser` | src/jinjaTemplating/templating.cpp:142-232 | the parser loop computes the parse function and fills the cache with what the lines include |
| `TemplateEngine.Templating.ReadNested` | src/jinjaTemplating/templating.cpp:182-196 | a nested block is parsed from the same stream and attached where the code attaches it |
| `TemplateEngine.Templating.ReadMark` | src/jinjaTemplating/templating.cpp:197-220 | `elif`, `else`, `endif`, `endfor` and unknown statements |
| `TemplateEngine.Templating.LoadInclude` | src/jinjaTemplating/templating.cpp:168-181 | an included file is parsed and cached, or cannot be loaded |
| `TemplateEngine.Templating.FindChildren` | src/jinjaTemplating/templating.cpp:128-139 | the indices of the children of a line, all of them, in order |
| `TemplateEngine.Templating.Render` | src/jinjaTemplating/templating.cpp:306-348 | the two nested loops compute the render function |
| `TemplateEngine.Templating.RenderChildBlock` | src/jinjaTemplating/templating.cpp:318-338 | dispatch on the kind of child, includes looked up in the cache |
| `TemplateEngine.Templating.RenderIfBlock` | src/jinjaTemplating/templating.cpp:350-391 | the then-branch, else the first sub-block |
| `TemplateEngine.Templating.RenderForBlock` | src/jinjaTemplating/templating.cpp:393-465 | range, array, string and object loops |
| `TemplateEngine.Templating.RenderString` | src/jinjaTemplating/templating.cpp:142-465 | for every site and template without `elif` that fits, the lines render to the interpretation of the template as the code moves its statements, and to that of the template itself if nothing moves |
| `Base64.EncodeRound` | src/tools/base64.cpp:133-156 | one turn of the encoder emits the group of the next three octets |
| `Base64.Base64Encode` | src/tools/base64.cpp:111-160 | the loop computes the encoding, both alphabets |
| `Base64.EncodeStreaming` | src/HTTPRequest.hpp:1035-1078 | the streaming encoder of the HTTP client computes the same encoding |
| `Base64.DecodeRound` | src/tools/base64.cpp:193-238 | one turn of the decoder, its exceptions included |
| `Base64.Base64Decode` | src/tools/base64.cpp:163-241 | the loop computes the decoding or throws |
| `Base64.RoundTrip` | src/tools/base64.cpp:111-241 | decoding an encoding gives the octets back, both alphabets |
| `Base64.EncodedLength` | src/tools/base64.cpp:113-113 | the length is (n + 2) / 3 * 4 |
| `Base64.EncodesExactly` | src/tools/base64.cpp:111-241 | a text is the encoding of some octets if and only if it is in the grammar of RFC 4648, stated by its alphabets and paddings, and decodes to them |
| `Base64.EncodingRegroupsBits` | src/tools/base64.cpp:111-160 | every character of an encoding: the entry of the alphabet of section 4 or 5 of RFC 4648 at the six bits of the octets there, or the padding, octet 61 or 46 |
| `Base64.ReadsBothAlphabets` | src/tools/base64.cpp:55-71 | the decoder reads the characters of both alphabets as their places, and nothing else |
| `Base64.AlphabetDoesNotMatter` | src/tools/base64.cpp:163-241 | texts that mix the two alphabets and the two paddings decode alike |
| `Base64.UriRoundTrip` | src/tools/url_encoding.hpp:14-26 | the unpadded form has no dot, and padded again with `=` it decodes to the octets |
| `Base64.UriIsFront` | src/tools/url_encoding.hpp:14-26 | the unpadded form is the encoding without its padding, (4n + 2) / 3 characters |
| `Base64.RepadExactly` | src/session.hpp:64-66 | what is put back is equals signs, up to the next multiple of four |
| `Tokens.SplitString` | src/session.hpp:13-25 | the loop computes the parts between dots, none behind a final dot |
| `Tokens.SplitJoin3` | src/session.hpp:13-25 | three dotless parts joined by dots split into exactly these |
| `Tokens.VerifiesExactly` | src/tools/idGenerator.hpp:120-134 | for a digest that is never empty: a text verifies if and only if it is two dotless parts signed under the key, with nothing or further parts behind |
| `Tokens.TokenRoundTrip` | src/tools/idGenerator.hpp:103-134 | a generated token verifies under its key, its middle part padded again decodes to the payload, and it splits into three parts if and only if the digest is not empty |
| `Tokens.OpensToData` | src/session.hpp:97-120 | the payload read back from a token is the one put in |
| `Tokens.TokenShape` | src/tools/idGenerator.hpp:103-118 | a token from scratch: the header that names HS512, the payload and the digest of both with the key behind them, in the URL form with dots between |
| `Tokens.TokenLength` | src/tools/idGenerator.hpp:103-118 | its length |
| `Sessions.SessionsManager.GenerateNewSession` | src/session.hpp:215-221 | a new session keeps every key the id of its session if and only if the id is not empty |
| `Sessions.SessionsManager.UpdateSession` | src/session.hpp:155-158 | storing a session keeps every key the id of its session if and only if its values do not contradict its id |
| `Sessions.SessionsManager.ValidateSessionCookie` | src/session.hpp:161-197 | the table and the answer are those of the specification, exceptions included, and keys stay ids |
| `Sessions.SessionsManager.GenerateJWT` | src/session.hpp:224-227 | the token of the session, which is inserted if it is missing; keys stay ids if and only if it was not, or the fresh id is the key |
| `Sessions.ValidateKeepsKeys` | src/session.hpp:161-197 | validating any cookie keeps every key equal to its session's id |
| `Sessions.EditsKeepProper` | src/session.hpp:37-51 | handlers that do not write under "id" leave the session its id |
| `Sessions.RunKeepsKeys` | src/session.hpp:155-227 | over every run of allowed calls, handlers' writes to copies of sessions included, every key is its session's id |
| `Sessions.IssueKeepsKeysExactly` | src/session.hpp:224-227 | signing keeps that invariant if and only if the id is stored |
| `Sessions.TokenClaims` | src/session.hpp:58-120 | reading a session's own token gives its id and values |
| `Sessions.CookieStaysValid` | src/session.hpp:161-227 | a cookie signed for a stored session validates to a session of that id after any run of calls, erasures included: to the stored one, or to one restored from the cookie |
| `Sessions.SessionSurvives` | src/session.hpp:155-227 | a stored session is unchanged after any run of calls that leave it alone |
| `Sessions.ValidateGivesClaimedOrNew` | src/session.hpp:161-197 | validation throws if and only if the cookie is not three parts, its payload is empty or not base64, it has no string under "id", or a session of other values would have to be restored; otherwise it hands out the session a verified cookie claims, and a new one for any other cookie |
| `Sessions.EmptyCookieThrows` | src/session.hpp:162-170 | the empty cookie throws, although a new session is promised for it |
| `Sessions.BadSignatureErases` | src/session.hpp:176-193 | a cookie that claims a session and does not verify erases it, and a new and empty one is handed out |
| `Sessions.NoIdGivesNew` | src/session.hpp:173-174 | a cookie with an empty id gives a new and empty session, and nothing else changes |
| `Sessions.EditExactly` | src/session.hpp:37-39 | adding keeps a value that is there, modifying replaces it, removing takes it away |
| `Sessions.ObjectExactly` | src/session.hpp:58-68 | what is printed for a session: its values, and its id under id |
| `Sessions.WriteComesBack` | src/session.hpp:37-197 | what a handler writes comes back with the cookie of its response, even if the table has lost the session |
| `RouteCompiler.ScanExactly` | src/tools/complementary_server_functions.hpp:29-34 | a route reads as a list of pieces if and only if it is that list's text: valid routes are well-formed templates, read uniquely |
| `RouteCompiler.IteratesParams` | src/tools/complementary_server_functions.hpp:53-66 | the regex iterator visits exactly the parameters, in order |
| `RouteCompiler.RewriteSubstitutes` | src/tools/complementary_server_functions.hpp:60-97 | replacing the first occurrence of each match equals substituting all parameters at once; types and names stay in step, repeated parameters included |
| `RouteCompiler.RewriteLoop` | src/tools/complementary_server_functions.hpp:56-97 | the in-place loop computes these replacements |
| `RouteCompiler.RouteContainsParams` | src/tools/complementary_server_functions.hpp:36-99 | the exception, the plain route and the compiled route with its two lists |
| `RouteCompiler.CharactersExactly` | src/tools/complementary_server_functions.hpp:29-34 | the characters of a route, listed |
| `RouteCompiler.GroupsExactly` | src/tools/complementary_server_functions.hpp:69-88 | the group of each type, as text; an unknown type, or none, is a string |
| `RouteMatching.AnchoredParses` | src/tools/complementary_server_functions.hpp:98-98 | the rewritten text is, as a regular expression, the pieces of the template between anchors |
| `RouteMatching.PlainParses` | src/tools/complementary_server_functions.hpp:46-51 | a route without parameters is a regular expression of its characters |
| `RouteMatching.MatchExactly` | src/tools/complementary_server_functions.hpp:105-109 | the matcher finds a way to match whenever there is one, and of all ways the greediest from the left |
| `RouteReading.TypedExactly` | src/tools/complementary_server_functions.hpp:69-88 | what each group takes: digits; digits, a dot and digits; one of four words; anything without a slash |
| `RouteReading.DerivesExactly` | src/tools/complementary_server_functions.hpp:69-88 | without dots the ways to match a path are the ways to make it from well-typed values |
| `RouteReading.OneWay` | src/tools/complementary_server_functions.hpp:69-88 | with recognisable parameter ends there is at most one way |
| `RouteReading.ReadsOneWay` | src/tools/complementary_server_functions.hpp:69-98 | without dots, and if no two parameters run into each other, a path is made in at most one way: read from the left, and behind a string up to the next slash from the right |
| `RouteReading.DelimitedIsReadable` | src/tools/complementary_server_functions.hpp:69-98 | parameters that all stop by themselves do not run into each other |
| `RouteRoundTrip.MatchPathWithRoute` | src/tools/complementary_server_functions.hpp:101-150 | the loop over the captures writes the parameters one by one and stops at the first that does not convert |
| `RouteRoundTrip.BindsExactly` | src/tools/complementary_server_functions.hpp:119-149 | matching succeeds if and only if every capture converts |
| `RouteRoundTrip.BindBinds` | src/tools/complementary_server_functions.hpp:119-149 | with distinct names each name ends up with its own converted capture |
| `RouteRoundTrip.PrintedConverts` | src/tools/complementary_server_functions.hpp:125-142 | a printed number, truth value or string fits its parameter and converts back to what was printed |
| `RouteRoundTrip.ConvertFailsExactly` | src/tools/complementary_server_functions.hpp:119-149 | conversion fails if and only if a number does not fit an int or std::stof throws |
| `RouteRoundTrip.PrintedValuesBind` | src/tools/complementary_server_functions.hpp:36-150 | values printed into a readable route with distinct names come back under their names, and other keys are untouched |
| `RouteRoundTrip.BindKeepsOthers` | src/tools/complementary_server_functions.hpp:119-149 | other keys of the map are untouched |
| `RouteRoundTrip.FailureLeavesBindings` | src/tools/complementary_server_functions.hpp:143-146 | a failed conversion leaves the earlier parameters in the caller's map |
| `RouteRoundTrip.InstanceBindsItsValues` | src/tools/complementary_server_functions.hpp:36-150 | values put into a route come back as its captures, in order |
| `RouteRoundTrip.AcceptsExactlyInstances` | src/tools/complementary_server_functions.hpp:36-150 | a path is accepted if and only if it is the route with well-typed, convertible values put in |
| `RouteRoundTrip.StaticRouteIsLiteral` | src/tools/complementary_server_functions.hpp:105-106 | a route without parameters and dots matches its own text and nothing else |
| `RouteLimits.DotsAreWildcards` | src/tools/complementary_server_functions.hpp:46-51 | a compiled route accepts nothing but its instances if and only if it has no dot |
| `RouteLimits.DotMatches` | src/tools/complementary_server_functions.hpp:46-51 | a dot stands for any one character but a line feed or a carriage return |
| `RouteLimits.ValuesComeBackExactly` | src/tools/complementary_server_functions.hpp:85-98 | values put into a route do not all come back if two strings have no slash between them, or a string or number and then a string or number have only digits between them; without dots, and without a number and a bool side by side, they all come back if and only if there is no such pair |
| `RouteTable.RouteMatcher` | src/server_handler.cpp:15-33 | the loop over the routes computes the first match with one map for all |
| `RouteTable.TakesExactly` | src/server_handler.cpp:15-33 | a route without parameters takes its own text, dots and all; a readable one with parameters takes the paths that are it with convertible values |
| `RouteTable.FirstMatchExactly` | src/server_handler.cpp:15-33 | the answer is the first route that takes the path by itself, or none; the map holds what every route tried has written, the refused ones included |
| `RouteTable.HandlerSees` | src/server_handler.cpp:15-33 | the route found has its own parameters with its own values, and another name is bound if and only if it was before or a refused route wrote it |
| `RouteTable.OwnWritesExactly` | src/tools/complementary_server_functions.hpp:101-150 | a route writes a parameter if and only if the path is an instance of it whose values convert up to that parameter, whether it takes the path or not |
| `RouteTable.LeavesTraceExactly` | src/tools/complementary_server_functions.hpp:119-149 | a route leaves something in the map if and only if the path is an instance of it whose first value converts |
| `RouteTable.HandlerSeesExactly` | src/server_handler.cpp:15-33 | a name is bound for the handler if and only if it was before, or the path is an instance of the route found or of an earlier one whose values convert up to that name |
| `LruCache.EvictValid` | src/server.hpp:181-187 | eviction never asks an empty list, never underflows, makes room and drops no entry too many |
| `LruCache.EvictTable` | src/server.hpp:181-187 | the map loses exactly the paths of the dropped entries |
| `LruCache.PutValid` | src/server.hpp:161-195 | `put` keeps the invariant and never throws |
| `LruCache.RunValid` | src/server.hpp:161-209 | over every run of puts and gets nothing fails, and the size is the sum over the list and at most 1 MiB |
| `LruCache.GetReturnsLatest` | src/server.hpp:168-209 | `get` answers nothing or the content of the latest admitted `put`, stale entries or not |
| `LruCache.AnswersExactly` | src/server.hpp:168-209 | `get` answers if and only if there was an admitted `put` of the key and no entry of it, stale or not, was dropped since; the answer is the latest content |
| `LruCache.PutThenGet` | src/server.hpp:161-209 | anything of 1 to 1048575 octets that was just put is answered next |
| `LruCache.TooLargeIsIgnored` | src/server.hpp:161-166 | an empty content, and one of 1 MiB or more, leaves the cache as it is |
| `LruCache.StaysCleanExactly` | src/server.hpp:168-195 | a `put` leaves a stale entry if and only if it replaces a cached file and both contents fit |
| `LruCache.StaleEvictionLosesKey` | src/server.hpp:182-187 | dropping a stale entry makes its key unanswerable, while a newer entry of it stays in the list exactly if there was one |
| `LruCache.CachesMostRecentlyUsed` | src/server.hpp:161-209 | if no cached key is put again, the cache holds exactly the most recently used files, in order |
| `LruCache.LimitHoldsExactly` | src/server.hpp:156-188 | the configured limit bounds the cache over every run if and only if it is 1 MiB or more: it is never looked at |
| `LruCache.LRUCache.constructor` | src/server.hpp:160-160 | an empty cache that keeps the invariant; the limit is stored, and no method changes it |
| `LruCache.LRUCache.IsInCache` | src/server.hpp:211-214 | whether `get` would answer |
| `LruCache.LRUCache.PutFile` | src/server.hpp:161-195 | the method computes `Put` |
| `LruCache.LRUCache.BringToFront` | src/server.hpp:168-179 | the splice, and that the exception is unreachable |
| `LruCache.LRUCache.MakeRoom` | src/server.hpp:181-188 | the eviction loop computes `Evict` |
| `LruCache.LRUCache.GetFile` | src/server.hpp:196-210 | the method computes `Get` |
| `TlsWrites.WriteCuts` | src/TLSserver.cpp:86-140 | a write takes a prefix of the buffer and keeps the rest as the last pending buffer, or fails and closes |
| `TlsWrites.TakenExactly` | src/TLSserver.cpp:94-99 | any part of a buffer that fits an int can be taken; nothing is when the call asks again or fails |
| `TlsWrites.ReplayCuts` | src/TLSserver.cpp:284-306 | a flush round cuts every pending buffer in two, fronts taken and rests pending in the order of the buffers |
| `TlsWrites.CutsConserve` | src/TLSserver.cpp:284-306 | fronts and rests together are the octets of the buffers |
| `TlsWrites.NothingIsLost` | src/TLSserver.cpp:86-140 | over every run without an error, octets taken and owed are the octets submitted, each as often |
| `TlsOrder.EachWriteIsKept` | src/TLSserver.cpp:86-140 | of each single write, the octets taken followed by those owed are the octets it submitted, in order, however writes overtake each other |
| `TlsOrder.PersistingKeepsOrder` | src/TLSserver.cpp:284-306 | if nothing is taken behind the first unfinished buffer, the stream keeps its order |
| `TlsOrder.OrderOfRound` | src/TLSserver.cpp:284-306 | with distinguishable octets a round takes a prefix of what is queued if and only if it persists |
| `TlsOrder.WantingPersists` | src/TLSserver.cpp:284-306 | if `SSL_write`, once it has asked to be called again, does so for the rest of the round, the round persists |
| `TlsOrder.WantingKeepsOrder` | src/TLSserver.cpp:284-321 | then a flush leaves octets taken followed by octets owed as they were, whatever happens in later rounds |
| `TlsOrder.InOrderExactly` | src/TLSserver.cpp:86-140 | over every run, what was taken is a prefix of what was submitted if and only if every step was orderly |
| `TlsOrder.PatienceKeepsOrder` | src/TLSserver.cpp:86-140 | an application that writes only when nothing is pending has at most one buffer pending, and octets taken followed by octets owed are what it submitted |
| `TlsOrder.SafeExactly` | src/TLSserver.cpp:86-140 | the next step keeps the order under every further behaviour of `SSL_write` if and only if it is a write with nothing pending, or a flush with nothing to offer behind the first buffer, buffers whose length is no positive `int` apart |
| `TlsOrder.LaterWriteOvertakes` | src/TLSserver.cpp:107-118 | a write that had to wait is overtaken by the next one |
| `TlsWrites.RunRelays` | src/TLSserver.cpp:244-282 | the socket has been given the produced ciphertext in order, except what is in the BIO |
| `TlsOrder.QuietMeansDone` | src/TLSserver.cpp:308-312 | a connection that needs no flush has handed over everything |
| `TlsOrder.ErrorsClose` | src/TLSserver.cpp:119-130 | a write that comes upon an error closes the connection |
| `TlsOrder.ClosedStaysQuiet` | src/TLSserver.cpp:88-91 | a closed connection takes and sends nothing more |
| `TlsOrder.FlushGetsThrough` | src/TLSserver.cpp:284-321 | once SSL_write accepts again, in whatever pieces, one flush takes all that was pending, in order, and leaves nothing to flush |
| `TlsWrites.TlsConnection.FlushSslBuffer` | src/TLSserver.cpp:244-282 | the BIO is emptied onto the socket in pieces of at most 1 MiB |
| `TlsWrites.TlsConnection.AsyncWriteData` | src/TLSserver.cpp:86-140 | the write loop computes `AsyncWrite` |
| `TlsWrites.TlsConnection.FlushPending` | src/TLSserver.cpp:284-306 | the swap and the replay compute `Flush` |
| `TlsWrites.TlsConnection.MaybeFlushNow` | src/TLSserver.cpp:308-321 | the guarded flush |
| `WorkerPool.NextSafe` | src/server_workers.hpp:22-81 | every atomic step keeps FIFO order and the balance of tasks |
| `WorkerPool.EveryInterleaving` | src/server_workers.hpp:22-81 | over every interleaving: first in first out, each popped task held, started or thrown away exactly once, at most one thrown away per worker and only after `stop` |
| `WorkerPool.RunBalance` | src/server_workers.hpp:66-67 | once stopped, tasks and workers that must pop again are used up together |
| `WorkerPool.JoinsExactly` | src/server_workers.hpp:73-81 | without further pushes the destructor's joins all return under every schedule if and only if the queue holds a task for every worker that must pop again, and otherwise under none |
| `WorkerPool.TaskQueue.PopTask` | src/server_workers.hpp:29-37 | the oldest task is removed |
| `WorkerPool.Pool.constructor` | src/server_workers.hpp:58-71 | all workers wait, nothing is stopped |
| `WorkerPool.Pool.Submit` | src/server_workers.hpp:22-27 | refines the push step |
| `WorkerPool.Pool.WorkerPop` | src/server_workers.hpp:65-66 | refines the pop step |
| `WorkerPool.Pool.WorkerCheck` | src/server_workers.hpp:67-68 | refines the look at `stop` |
| `WorkerPool.Pool.WorkerFinish` | src/server_workers.hpp:68-69 | refines the end of a task |
| `WorkerPool.Pool.SetStop` | src/server_workers.hpp:73-75 | refines the destructor's first step |

## Left out

- Sockets, event loop, timers, TLS handshakes and reads, compression, the database, the curl wrapper, logging and HTML error pages: foreign calls or mere output; what they deliver enters as parameters at most.
- `parseUri`, the request printer `encodeHtml` and `src/httpMethods.cpp`: parsing by first occurrence of one character and substring plumbing, which would add easy members.
- The classification of template lines by regular expressions, and the splitting of a line into expressions: a line is a token, a text line is a list of texts and expressions, and an expression is evaluated by the engine parameter; that `urlfor` records paths is not modelled.
- TemplateEngine.Templating.constructor: the cache file that is read when `storeCache` is set is not part of this model, so the cache starts empty.
- TemplateEngine.Templating.RenderString: includes nest at most `depth` deep, a bound that stands for the call stack; every acyclic site has one, by `TemplateInlining.AcyclicFits`. Files do not change while they are rendered, and the cache file on disk and its time stamps are not part of this model.
- TemplateMeaning.LoopRenders: the order in which a JSON object is traversed is whatever the engine parameter says.
- TemplateInlining.IncludingIsInlining: stated for else-branches that hold only text, because splicing lines into a then-branch moves the place where a loop in the else-branch would be accepted.
- ResponseReader.Send: that `reserve` may run out of memory for a huge Content-Length is not modelled; the status of a response without a header block is indeterminate in the source and `None` here.
- ResponseRoundTrip.ServerToClient: the printed text is exactly what arrives; that the peer closes afterwards is not needed.
- ResponseRoundTrip.FileToClient: stated below 2 GiB, where the size fits the `int` parameter, by `ResponseRoundTrip.FileLengthExactly`; reading and compressing the file are not part of this model.
- Base64.Base64Encode: positions are unbounded, the source's 32-bit position overflows at 4 GiB of input; line breaks, the PEM and MIME variants and the removal of line feeds are not modelled.
- Tokens.TokenRoundTrip: the digest is an arbitrary function; SHA-512 itself is not modelled.
- Sessions.TokenClaims: JSON text is an abstract pair of printing and parsing assumed inverse on string maps.
- Sessions.RunKeepsKeys: ids are not empty, handlers do not write the key "id" (`operator[]` is a write here), and tokens are issued for stored sessions; the logout route does the opposite, which is what `Sessions.IssueKeepsKeysExactly` is about.
- RouteMatching.Match: a group tries its texts from the longest to the shortest, which for the four groups in use is the order of a backtracking ECMAScript matcher; nothing is said about its running time or about `std::regex` errors outside the routes' texts.
- RouteLimits.ValuesComeBackExactly: not decided for routes with a dot, or with a number and then a bool with only digits between them (behind a string: a bool and then a number), unless two other parameters collide.
- RouteRoundTrip.MatchPathWithRoute: `std::stof` is a parameter that may throw.
- LruCache.LRUCache.PutFile: one thread at a time; the source does not lock.
- TlsWrites.Step: an error or a socket event closes the connection at once; the flush that `close` itself makes while `SSL_shutdown` is unfinished, and ciphertext from reads and the handshake, are not modelled.
- WorkerPool.EveryInterleaving: the flag `stop` is read and written atomically, and tasks do not throw. No liveness is claimed; the missing wake-up shows in `WorkerPool.JoinsExactly`.
