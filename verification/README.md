# Turnguard core, modelled in Dafny

A model of the seven parts of turnguard's core (`internal/core`) whose behaviour is
hardest to see from the code, with proofs of what they keep. Loops over mutable
state are methods, proved against the recursive function or relation that says what
the loop is for; the theorems are lemmas about those functions. Concurrent parts
are step relations, and their theorems are about every reachable state of every run.

* **JavaScript tokens and the proof-of-work call** (`JsToken`, `JsPrinted`, `JsEdges`,
  `CallArgs`, `JsNumber`, `PowExtract`, `PowVerdict`, `PowInvariance`, `PowText`, `PowWrapped`, `PowBodies`,
  `HtmlUnescape`). The promise of
  `jstoken.go` is that extraction depends on the structure of a script and not on how it
  is spelled. `JsPrinted` defines all spellings of a token list and proves the lexer round
  trip, and `JsEdges` reads regular expressions, templates with substitutions and unfinished tokens;
  `CallArgs` shows that the backward and the forward bracket scan agree; `PowText` puts them together for
  the only call of a script, and `PowWrapped` for the script the source describes, the call of a wrapped
  function expression, by its spelling alone;
  `PowBodies` extends that to the scripts of a page. Two findings: a
  seed whose text contains "pow", "timeout" or "seed" in any case is taken for a marker and
  lost, and two numbers from 1 to 16 make the difficulty depend on the order of the arguments.
  Both come with the exact condition and an input.
* **Wire formats** (`Dns`, `Protobuf`, `TurnCreds`, `TurnMessages`). RFC 1035 queries and responses; the
  protobuf scanner and the credential walk built on it. Findings: `buildDNSQuery` encodes
  empty and over-long labels, which put the parser out of step (`Dns.QuestionSkipExact`),
  and the keys of `wbDedup` collide exactly for URLs of which one goes on with a bar where the
  other ends (`TurnCreds.KeysCollideExactly`).
* **Packet wrap** (`Wrap`, `WrapConcurrent`). The AEAD is a pair of functions with
  Open(Seal(p)) = p. The three counters are separate atomic additions: nonces stay
  distinct under any interleaving, but a packet's sequence number and nonce counter may
  be out of step unless one writer runs at a time (`WrapConcurrent.SequentialPackets`).
* **Credential cache** (`AuthErrors`, `CredentialCache`, `CredentialRuns`). Each lock operation, lookup,
  fetch and store is a step; clear-alls, auth errors, cancellation and the clock happen
  in between. Lookup of the cache and creation under the write lock are separate steps.
  `CredentialRuns` follows every result back to the fetch it came from.
* **Packet hub** (`Hub`, `HubBuffers`, `HubRuns`). Cyclic dispatch, and packet buffers that move
  between pool, hub, stream queues and TX workers. The scan over the streams is modelled
  one stream at a time while others become ready. As in the source, `ready` is never
  cleared, so a stream whose worker is down still accepts packets. `HubRuns` says what becomes of each packet.
* **Slider captcha** (`SliderTiles`, `SliderCuts`, `SliderImage`, `SliderRender`,
  `SliderRank`, `SliderSeams`). Rendering is an action of swap lists exactly when the image divides evenly
  into tiles; otherwise swapping two tiles twice loses pixels.
* **Host lists and their file** (`Hosts`, `DnsPersist`). Merging, metrics, choice of the
  best address, load and save. Findings, each with its exact condition: a domain known by its
  metrics alone is not saved; the test whether a merge brought anything new fails for lists with
  repetitions; metric keys collide for domains of which one goes on with a colon.

`Wrappers`, `Bytes`, `Rounding`, `OrderedSets` and `Separated` hold what several parts share.
`internal/dns/resolver.go` and
`internal/wrap/wrap.go` are copies of the files under `internal/core` and are modelled once.
JavaScript text is a `string` whose characters stand for bytes. Random bytes, times, fetch
results, DNS answers and the AEAD are parameters or nondeterministic steps.

Where code and comment differ the model follows the code: a template literal with a
substitution keeps its closing brace and the text around it (`jstoken.go:221-223` speaks of
literals without one); an escaped backtick in a template is dropped; the operator `/=` of
the list is never reached; `selectBestIP` returns an address with score 0 and reaches its
"all blacklisted" branch only for scores of -1 or less or an empty address.

## Model
| member | source | states |
|---|---|---|
| JsToken.LexJS | internal/core/jstoken.go:75-388 | The loop as a whole returns the token list of the recursive lexer the theorems are about, on every input; RoundTrip and the rows below say what that list is, from byte sets written out in JsPrinted |
| JsToken.Round | internal/core/jstoken.go:101-387 | One round of the loop: skipped bytes, or one token and where the next round starts |
| JsToken.ScanString | internal/core/jstoken.go:134-219 | A quoted string: its value with every escape resolved, its end, and tolerance of a missing closing quote |
| JsPrinted.EscapePiece | internal/core/jstoken.go:148-210 | Every well-formed escape is read as the bytes it denotes and consumed exactly |
| JsToken.ScanUnicodeEscape | internal/core/jstoken.go:175-203 | Four hexadecimal digits or a braced code point below 0x110000 as UTF-8, otherwise the letter u |
| JsToken.ScanTemplate | internal/core/jstoken.go:221-259 | A template literal: nesting of substitutions, an escaped backtick dropped, the text that is kept |
| JsToken.ScanNumber | internal/core/jstoken.go:262-312 | End of a number in any base, with fraction, exponent, underscores and BigInt suffix |
| JsToken.ScanRegex | internal/core/jstoken.go:326-360 | End of a regular expression literal with classes and flags, or none |
| JsToken.ScanSlash | internal/core/jstoken.go:325-366 | A slash is a regular expression where the last token allows one and one ends on the line, otherwise division |
| JsToken.ScanBlockComment | internal/core/jstoken.go:117-128 | End of a block comment, the end of input if it is open |
| JsToken.MatchOp | internal/core/jstoken.go:368-380 | First operator of the list that stands at a position |
| JsPrinted.LongestOperator | internal/core/jstoken.go:57-61 | The order of the list makes the first match the longest one |
| JsPrinted.LexPrinted | internal/core/jstoken.go:75-388 | Standing before any printed token list, the lexer reads exactly its tokens and goes on behind it |
| JsPrinted.RoundTrip | internal/core/jstoken.go:75-388 | Lexing any spelling of a token list (quote style, escapes, number base, white space and comments) gives that list; the six white space bytes, digits and name bytes are literal sets |
| JsPrinted.SpacedRoundTrip | internal/core/jstoken.go:75-388 | Any list of tokens with white space or a comment between them is recovered, with no condition on neighbours |
| JsPrinted.GapSeparates | internal/core/jstoken.go:101-131 | White space or a comment keeps any two printed tokens apart |
| JsPrinted.EscapedReadBack | internal/core/jstoken.go:133-219 | Every byte string has a spelling in either quote from which the lexer reads it back |
| JsPrinted.TokensArePlaced | internal/core/jstoken.go:75-388 | On every input positions strictly increase, and tokens other than strings and templates are source text at their position |
| JsPrinted.SubstitutionLeavesBrace | internal/core/jstoken.go:221-259 | A template with a substitution keeps the closing brace in its text, unlike its comment says, unless nothing is kept after it |
| JsEdges.RuneReadBack | internal/core/jstoken.go:175-203 | Every code point is written as its shortest UTF-8 sequence, surrogates and too large ones as that of U+FFFD |
| JsEdges.EscapeWithoutDigits | internal/core/jstoken.go:175-203 | An escape x or u without its digits stands for the letter |
| JsEdges.BracesWithoutCodePoint | internal/core/jstoken.go:187-203 | A braced escape that is not closed, or from 0x110000 on, is the letter u |
| JsEdges.OpenString | internal/core/jstoken.go:134-219 | A string without its closing quote that meets a line end: its value, and that it ends there |
| JsEdges.OpenComment | internal/core/jstoken.go:117-128 | A block comment that is never closed runs to the end of input |
| JsEdges.RegexRead | internal/core/jstoken.go:326-360 | A regular expression ends at the first slash that is neither escaped nor in a class, and takes its flags |
| JsEdges.OpenRegex | internal/core/jstoken.go:326-360 | One that meets a line end or the end of input is none |
| JsEdges.RegexToken | internal/core/jstoken.go:325-366 | After tokens that allow one it is one token, after others its first slash is a division |
| JsEdges.RegexAfter | internal/core/jstoken.go:65-69 | Exactly which tokens a regular expression may follow |
| JsEdges.PunctExactly | internal/core/jstoken.go:57-61 | Punctuation is the longest of 32 operators that stands there, or one byte |
| JsEdges.TemplateRead | internal/core/jstoken.go:221-259 | A template with substitutions: balanced code, with any escapes, is passed over, and of each substitution only its closing brace is kept |
| JsEdges.ExponentNeedsDigit | internal/core/jstoken.go:290-305 | Without a digit in its exponent a number ends before the letter |
| JsEdges.BaseWithoutDigits | internal/core/jstoken.go:265-285 | After a base letter a number needs no digits |
| JsNumber.ParseJSNumber | internal/core/pow_extract.go:324-371 | The value of a number text in any base, none when the source reports an error |
| JsNumber.IntegerSpelling | internal/core/pow_extract.go:324-371 | Every spelling of an integer is read as that integer below 2^63 and rejected from there on |
| JsNumber.BaseDoesNotMatter | internal/core/pow_extract.go:324-371 | Two spellings below 2^63 in any bases are read alike exactly when they denote the same integer |
| JsNumber.NegativeSpelling | internal/core/pow_extract.go:324-371 | With a minus sign in front an integer is read as the negative one |
| JsNumber.FloatSpelling | internal/core/pow_extract.go:324-371 | A numeral with a fraction or an exponent goes to the float reader, without underscores |
| CallArgs.FindEnclosingCallOpen | internal/core/pow_extract.go:238-267 | The backward walk finds the parenthesis of the call directly around a token, or none |
| CallArgs.ParseCallArgs | internal/core/pow_extract.go:272-320 | The list closes exactly where brackets first balance with no separator or statement keyword before, and is split at the top-level commas |
| CallArgs.EnclosesUnique | internal/core/pow_extract.go:238-267 | A token is directly inside one bracket only |
| CallArgs.ClosesUnique | internal/core/pow_extract.go:272-320 | A list closes at one place only |
| CallArgs.EnclosingCallExactly | internal/core/pow_extract.go:238-267 | The innermost bracket decides: it opens a call exactly when it is a parenthesis behind a name, a parenthesis or a brace |
| CallArgs.StatementRefused | internal/core/pow_extract.go:300-318 | A list with a top-level semicolon, or an argument that starts with a statement keyword, is no argument list |
| CallArgs.NestedIsPlain | internal/core/pow_extract.go:286-320 | Whatever stands balanced inside brackets of any of the three kinds is one argument |
| CallArgs.SuffixBalanceIsPrefixBalance | internal/core/pow_extract.go:238-320 | Where depth returns to zero, balanced seen from the end is balanced seen from the start |
| CallArgs.ScansAgree | internal/core/pow_extract.go:238-320 | The backward scan finds the call exactly when the forward scan meets the token at depth 0; the token is then one element of one argument |
| PowInvariance.ScansAgreeOnScript | internal/core/pow_extract.go:238-320 | On the tokens of a script no other argument and no other place holds that token |
| CallArgs.TokenPlace | internal/core/pow_extract.go:272-320 | Every token that is no top-level comma is at its computed place in the argument list |
| CallArgs.PlaceToken | internal/core/pow_extract.go:272-320 | Every element of every argument is a token between the parentheses, at that place |
| CallArgs.ArgsJoinToSource | internal/core/pow_extract.go:272-320 | Joining the arguments with the top-level commas gives back the tokens between the parentheses |
| CallArgs.PlainArgsRecovered | internal/core/pow_extract.go:272-320 | Any argument list other than a single empty one, of balanced arguments without separators or keywords in front, is recovered unchanged |
| PowExtract.CollectArgs | internal/core/pow_extract.go:149-187 | Sorting of the arguments into strings, array and difficulty; refusal of foreign arguments and of a second array |
| PowExtract.SplitTexts | internal/core/pow_extract.go:189-202 | The first marker-like string and all seed-shaped ones |
| PowExtract.CountKnown | internal/core/pow_extract.go:204-210 | How many array elements are known component names |
| PowExtract.JudgeArgs | internal/core/pow_extract.go:143-231 | The verdict on an argument list in either mode |
| PowExtract.ClassifyCallAround | internal/core/pow_extract.go:137-232 | The verdict on the call around or at a token |
| PowExtract.ScanCandidates | internal/core/pow_extract.go:108-123 | The first candidate token of a pass whose call is accepted |
| PowExtract.ExtractPowFromBodies | internal/core/pow_extract.go:105-127 | The extraction over all bodies, labelled with origin and pass; which body decides is PowBodies.FirstBodyDecides and NothingExactly |
| PowBodies.FirstBodyDecides | internal/core/pow_extract.go:105-127 | The first body whose tokens give a seed decides, whatever follows it |
| PowBodies.NothingExactly | internal/core/pow_extract.go:105-127 | Nothing is found exactly when no body gives a seed |
| PowBodies.PageOfBodies | internal/core/pow_extract.go:105-127 | So a page yields what its first fruitful body yields by itself |
| PowBodies.SecondBody | internal/core/pow_extract.go:105-127 | An empty script and then the call: the seed of the second body is found |
| PowVerdict.JudgeExactly | internal/core/pow_extract.go:143-231 | On which terms a call is accepted, argument by argument, and its seed and source |
| PowVerdict.JudgeFirsts | internal/core/pow_extract.go:165-202 | Difficulty and marker are those of the first argument that has one |
| PowVerdict.MarkerLikeExactly | internal/core/pow_extract.go:191-194 | A text of any bytes is marker-like exactly when pow, timeout or seed stands in it in any case, a dotted capital I counting as an i |
| PowVerdict.SeedShapeExactly | internal/core/pow_extract.go:195-201 | A seed has 6 to 64 letters, digits, underscores or hyphens |
| PowVerdict.KnownCountExactly | internal/core/pow_extract.go:204-210 | Every array element that is one of 30 known names counts, repetitions too |
| PowInvariance.OrderDoesNotMatter | internal/core/pow_extract.go:137-232 | Reordering the arguments keeps acceptance and seed, and the difficulty when only one value is in range |
| PowInvariance.DifficultyOrderExact | internal/core/pow_extract.go:165-170 | The difficulty is independent of the order exactly when all numbers in range are equal |
| PowText.TwoNumbers | internal/core/pow_extract.go:165-170 | Of two numbers in an accepted call the first is the difficulty |
| PowText.OrderChangesDifficulty | internal/core/pow_extract.go:165-170 | Two accepted calls with the same arguments and different difficulties |
| PowInvariance.LiteralInCall | internal/core/pow_extract.go:238-267 | In a call of simple arguments a literal is found by the backward walk exactly when it is at top level, not inside the array |
| PowInvariance.MarkerVerdict | internal/core/pow_extract.go:137-232 | The verdict at a candidate marker inside such a call |
| PowInvariance.MarkerCallFound | internal/core/pow_extract.go:105-127 | An accepted marker call is what the marker pass returns if the tokens before it are passed over |
| PowInvariance.OneCallScript | internal/core/pow_extract.go:105-127 | What both passes make of a token list in which the candidates outside one such call, if any, are rejected |
| PowText.SpelledCallIsCall | internal/core/pow_extract.go:137-185 | Any text of a call is lexed, located and split into the arguments that were written |
| PowText.MarkerCallExtracted | internal/core/pow_extract.go:105-232 | From text to seed: the extraction of a spelled marker call is the verdict on its arguments |
| PowText.RepresentationIndependent | internal/core/pow_extract.go:105-371 | Two scripts that spell the same arguments, in any order, with any quotes, spacing and number bases, yield the same seed and difficulty |
| PowText.OneCallExtracted | internal/core/pow_extract.go:105-232 | The same for the only accepted call of a script, with or without the exact marker |
| PowText.OneCallIndependent | internal/core/pow_extract.go:105-232 | Two scripts whose only calls have the same arguments yield the same seed and difficulty, with or without the marker |
| PowText.SeedCallVerdict | internal/core/pow_extract.go:149-231 | The verdict on seed, difficulty, marker and array in any order, accepted exactly when one of the two strings can be the seed |
| PowText.SeedFoundExactly | internal/core/pow_extract.go:105-232 | The seed of the only call of a script is found exactly when it is seed-shaped and not marker-like and the marker is the exact one, or cannot be a seed and four components are known; if neither string or both could be the seed, nothing is extracted |
| PowWrapped.OneArgumentPassed | internal/core/pow_extract.go:137-147 | A parenthesis without top-level commas is passed over |
| PowWrapped.NamesPassed | internal/core/pow_extract.go:161-186 | A parameter list is passed over |
| PowWrapped.HeadPassed | internal/core/pow_extract.go:105-186 | Neither parenthesis of a wrapped function expression is taken for the call |
| PowWrapped.HeadIsWrapped | internal/core/jstoken.go:75-388 | The tokens read from a spelled head are those of a wrapped function expression with a balanced body |
| PowWrapped.PrintedCallStands | internal/core/jstoken.go:75-388 | In the text that prints some items and a call, the lexer reaches the call with the items read |
| PowWrapped.WrappedOnlyCall | internal/core/pow_extract.go:105-232 | The call of a wrapped function expression is the only call of its script |
| PowWrapped.WrappedSeedFoundExactly | internal/core/pow_extract.go:105-232 | The exact condition for the seed of such a script, with anything passed over before, in the body and after it |
| PowWrapped.SeedScriptExactly | internal/core/pow_extract.go:105-371 | By spelling alone: the same for any quotes, escapes, number bases, white space and comments, and any order of the arguments |
| PowWrapped.SeedScriptsAgree | internal/core/pow_extract.go:105-371 | Two such scripts with the same arguments give the same seed and difficulty, with or without the exact marker |
| PowWrapped.SeedLost | internal/core/pow_extract.go:191-202 | Of the script of one plain marker call nothing is extracted when its seed-shaped seed contains pow |
| PowWrapped.PlainScriptExtracted | internal/core/pow_extract.go:105-232 | The seed of that script is found exactly when it is a seed |
| HtmlUnescape.HtmlUnescapeForPow | internal/core/pow_extract.go:375-385 | One left-to-right pass over the six entities |
| HtmlUnescape.UnescapeEscaped | internal/core/pow_extract.go:375-385 | Unescaping any escaping of a text gives the text |
| HtmlUnescape.UnchangedExactly | internal/core/pow_extract.go:375-385 | The pass changes nothing exactly when none of the six entities, written out in Denotes, occurs |
| Dns.SkipLabels | internal/core/resolver.go:413-422 | End of the question section |
| Dns.SkipName | internal/core/resolver.go:426-440 | End of an answer name, with compression pointers |
| Dns.CheckHeader | internal/core/resolver.go:391-411 | Which responses are refused by their header, and why |
| Dns.HeaderExactly | internal/core/resolver.go:391-411 | At byte level and in order: too short, no response, error code, no answers; nothing else is refused by the header |
| Dns.CollectAddresses | internal/core/resolver.go:732-771 | The answer loop: distinct addresses of the A records in order |
| Dns.ParseDNSResponseAll | internal/core/resolver.go:699-778 | The list parser, total on all byte strings |
| Dns.ParseDNSResponse | internal/core/resolver.go:390-466 | The single-answer parser fails on the same inputs with the same error and otherwise returns the first address of the list parser |
| Dns.DecodesResponse | internal/core/resolver.go:699-778 | A response with the one question and any well-formed answers is decoded to the A records, first occurrences in order, also when the header announces more answers than there are |
| Dns.BuildDNSQuery | internal/core/resolver.go:359-387 | Read back field by field: identifier, flags 0x0100, one question and no records, then the labels of the domain, type 1 and class 1 |
| Dns.QueryRead | internal/core/resolver.go:359-387 | The same of the function the theorems use |
| Dns.LabelsExactly | internal/core/resolver.go:372-377 | The labels of the query are the only ones without dots that spell the domain, with or without a final dot |
| Dns.DottedNameLabels | internal/core/resolver.go:372-377 | The builder splits a dotted name, with or without the final dot, into its labels |
| Dns.AnswersToBuiltQuery | internal/core/resolver.go:359-387 | A response to the built query is decoded to its A records |
| Dns.QuestionSkipExact | internal/core/resolver.go:413-422 | The question skip lands behind the built question exactly when all labels have 1 to 63 bytes, unless a label is so long that its length byte wraps to that of a short one |
| Dns.LongLabelMayPass | internal/core/resolver.go:375 | For a label that wraps it depends on its bytes: one of 258 bytes that is skipped exactly |
| Dns.EmptyNameLost | internal/core/resolver.go:359-387 | A response to the query for the empty name whose A record the parser does not find |
| Protobuf.PbVar | internal/core/wb.go:314-325 | The varint at an offset modulo 2^64 and where it ends, also when it is cut off or too long |
| Protobuf.VarintRoundTrip | internal/core/wb.go:314-325 | Every 64-bit value is decoded from its varint, which is consumed exactly |
| Protobuf.VarExactly | internal/core/wb.go:314-325 | Any bytes: the value of up to ten groups modulo 2^64, minimal or not; 0 when cut off or longer; and where it ends |
| Protobuf.EndCheckIsLengthCheck | internal/core/wb.go:342-347 | The end test with its signed wrap-around holds exactly for lengths that fit |
| Protobuf.ReadLength | internal/core/wb.go:342-347 | A length-delimited payload is accepted exactly when it lies within the data |
| Protobuf.ReadField | internal/core/wb.go:329-356 | One field: its kind, its payload and where the next begins |
| Protobuf.PbAll | internal/core/wb.go:328-358 | The scan as a whole collects the slices of one field number |
| Protobuf.SlicesDisjoint | internal/core/wb.go:328-358 | On every input the slices are in bounds, in order and disjoint |
| Protobuf.PayloadsOfEncoded | internal/core/wb.go:328-358 | Scanning an encoded message with nothing to find behind it finds its length-delimited fields in order |
| Protobuf.MessageRoundTrip | internal/core/wb.go:328-358 | For every message and field number: exactly the payloads of that field, in order |
| Protobuf.ScanEndsEarly | internal/core/wb.go:328-358 | Another wire type or a length beyond the data ends the scan, which keeps what it found before |
| TurnCreds.BlockHit | internal/core/wb.go:389-397 | Whether a block has a turn or stun URL |
| TurnCreds.TurnUrlExactly | internal/core/wb.go:392-393 | The URLs that start with turn or stun, byte by byte |
| TurnCreds.SiblingCreds | internal/core/wb.go:405-413 | The sibling loop skips the matching block alone, by the address of its first byte |
| TurnCreds.ScanBlocks | internal/core/wb.go:388-416 | The first matching block of an inner message, then its siblings |
| TurnCreds.PbICE | internal/core/wb.go:369-427 | The walk over the outer message stops at the first match |
| TurnCreds.CredentialsConserved | internal/core/wb.go:400-415 | The result holds every URL of every same-numbered block once with its own login: matching block first, the rest in order |
| TurnCreds.IceOfEncoded | internal/core/wb.go:369-427 | On an encoded message the walk sees that message's fields |
| TurnCreds.BlocksOfEncoded | internal/core/wb.go:387-388 | On an encoded inner message it sees that message's blocks |
| TurnMessages.BlockRead | internal/core/wb.go:389-402 | An encoded block is read back as its URLs with the first username and the first password, if any |
| TurnMessages.ResponseRead | internal/core/wb.go:369-427 | From bytes to credentials: a response encoded on all three levels gives the first inner message with a TURN or STUN server, that server first and its siblings in order |
| TurnCreds.WbDedup | internal/core/wb.go:430-440 | The first credential of every key stays, in order |
| TurnCreds.OneCredPerKey | internal/core/wb.go:430-440 | The kept keys are the distinct keys in order |
| TurnCreds.FirstStays | internal/core/wb.go:430-440 | Exactly the credentials stay that no earlier one shares its key with |
| TurnCreds.KeyExact | internal/core/wb.go:434 | Unless one URL goes on with a bar where the other ends, keys are equal exactly when URL and username are |
| TurnCreds.KeysCollideExactly | internal/core/wb.go:434 | Two URLs can share a key for different credentials exactly when one goes on with a bar where the other ends |
| TurnCreds.NoLoginLost | internal/core/wb.go:430-440 | Without such a pair every URL keeps every username |
| TurnCreds.LoginLost | internal/core/wb.go:430-440 | For every such pair there are two credentials of which the second is dropped |
| TurnCreds.KeyCollision | internal/core/wb.go:430-440 | Two different credentials with one key, and the list that remains of them |
| Wrap.WrapConn.constructor | internal/core/wrap.go:69-91 | Initial counters and identifiers are the random bytes but for the direction bits |
| Wrap.WrapConn.WrapInto | internal/core/wrap.go:99-127 | The packet written, what it leaves untouched, and the three counters; a short buffer moves nothing |
| Wrap.WrapConn.UnwrapPacket | internal/core/wrap.go:129-146 | The plaintext when the packet opens and fits, otherwise nothing goes to the buffer; it is decrypted in place of the ciphertext |
| Wrap.NewWrapConn | internal/core/wrap.go:60-92 | Only 32-byte keys give a connection, set up from the random bytes |
| Wrap.WriteTo | internal/core/wrap.go:199-212 | What goes out on the relay with and without a wrapper |
| Wrap.ReadFrom | internal/core/wrap.go:183-197 | A datagram is cut to the buffer and opened |
| Wrap.Transfer | internal/core/wrap.go:183-212 | What one end writes the other reads, with or without a wrapper |
| Wrap.PacketLayout | internal/core/wrap.go:99-127 | Where header fields, nonce and ciphertext lie; 40 bytes more than the payload |
| Wrap.PacketRead | internal/core/wrap.go:99-127 | A packet read back: version 2, payload type 111, sequence number, timestamp, source, session, counter, and the payload |
| Wrap.WrapRoundTrip | internal/core/wrap.go:99-146 | Any connection with the same key recovers the payload |
| Wrap.AcceptedWireIsUnique | internal/core/wrap.go:129-146 | Under one header and nonce no other bytes open to the same payload |
| Wrap.BigEndianRoundTrip | internal/core/wrap.go:109-121 | Counters are written so that they can be read back |
| Wrap.MostSignificantFirst | internal/core/wrap.go:109-121 | Of a number on the wire the first byte counts most |
| Wrap.DirectionsDisjoint | internal/core/wrap.go:77-83 | Client and server nonces never meet |
| Wrap.NonceInjective | internal/core/wrap.go:117-122 | Nonces of a connection are equal exactly when the counters are |
| Wrap.SequenceNumbers | internal/core/wrap.go:109 | Wire sequence numbers count modulo 2^16 also across the 32-bit wrap |
| Wrap.TimestampPeriod | internal/core/wrap.go:111 | Timestamps repeat exactly every 2^26 packets |
| WrapConcurrent.CountersConsecutive | internal/core/wrap.go:99-127 | Under any interleaving of concurrent writers the nonce counters issued are consecutive |
| WrapConcurrent.NoncesDistinct | internal/core/wrap.go:117-122 | So nonces are distinct for up to 2^64 packets |
| WrapConcurrent.NumbersConserved | internal/core/wrap.go:109 | Every sequence number drawn belongs to one packet or call in flight |
| WrapConcurrent.InStepExactly | internal/core/wrap.go:109-121 | A packet is in step exactly when as many calls drew a sequence number before it as packets precede it, modulo 2^16; SequentialPackets gives the condition a caller can meet |
| WrapConcurrent.SequentialPackets | internal/core/wrap.go:99-127 | With one writer at a time packet k carries the k-th sequence number, timestamp and nonce counter |
| WrapConcurrent.CountersCanCross | internal/core/wrap.go:109-121 | With two writers the counters can cross |
| AuthErrors.StreamCredentialsCache.Invalidate | internal/core/credentials.go:127-137 | Credentials and error state are cleared |
| AuthErrors.StreamCredentialsCache.HandleAuthError | internal/core/credentials.go:100-124 | True exactly on every third error of a chain with gaps of at most 10 s; the stored count stays in 0..2 |
| AuthErrors.ChainExtends | internal/core/credentials.go:106-112 | A chain goes on exactly when the gap is at most 10 s |
| CredentialCache.RunKeeps | internal/core/credentials.go:62-206 | Every interleaving of callers, auth errors, clear-alls and the clock keeps the protocol invariant |
| CredentialCache.OneFetchAtATime | internal/core/credentials.go:156-160 | At most one fetch runs |
| CredentialCache.ResultsAreRight | internal/core/credentials.go:164-205 | A result was fetched for the same link by the same group, less than 540 s after it was stored, and after the last clear-all before the lookup; that it carries the fetched triple is CredentialRuns.ResultsAreFetched |
| CredentialCache.OneCachePerGroup | internal/core/credentials.go:62-86 | The second look under the write lock leaves one cache per group between clear-alls |
| CredentialCache.ClearAllIsABarrier | internal/core/credentials.go:140-147 | A call that looks up after a clear-all never gets credentials whose fetch began before it |
| CredentialCache.NoDeadlock | internal/core/credentials.go:156-205 | While some call is unfinished some thread can step |
| CredentialCache.StepsRunOut | internal/core/credentials.go:164-205 | Every thread step brings its call nearer to its end and nothing takes it back |
| CredentialCache.CallsEnd | internal/core/credentials.go:164-205 | A run has no more thread steps than its calls need |
| CredentialRuns.ResultsAreFetched | internal/core/credentials.go:164-205 | Every result carries the triple, link, group and generation of an earlier fetch that one thread began, ended with this triple and stored for 540 s |
| CredentialRuns.FetchedAfterClearAll | internal/core/credentials.go:140-205 | For a call that looks up after a clear-all, all three happened after it |
| CredentialRuns.HitExactly | internal/core/credentials.go:173-182 | A look at the cache is a hit exactly when it holds unexpired credentials for the link |
| CredentialRuns.StoredInCache | internal/core/credentials.go:194-204 | What is stored is in the group's own cache afterwards and is what the call returns |
| CredentialRuns.InvalidatedCache | internal/core/credentials.go:127-137 | An invalidation leaves its cache without credentials |
| CredentialRuns.ErrorsOwnGroup | internal/core/credentials.go:100-104 | An auth error counts against the cache of its own group |
| CredentialRuns.FetchThenHit | internal/core/credentials.go:164-205 | A run in which one call fetches triple 7 and another finds it |
| Hub.PickStream | internal/core/turn_client.go:547-552 | The first ready stream going round from the counter, none exactly when none is ready |
| Hub.Dispatcher.Dispatch | internal/core/turn_client.go:537-556 | Per packet the counter moves on by one and the nearest ready stream from there is chosen |
| Hub.PickIsNearest | internal/core/turn_client.go:547-552 | That is the ready stream nearest going forward |
| Hub.OneReceiver | internal/core/turn_client.go:547-552 | There is one such stream |
| Hub.TurnAdvances | internal/core/turn_client.go:547 | A packet advances the counter by one, modulo the number of streams |
| Hub.ReceivesExactly | internal/core/turn_client.go:547-552 | A stream gets a packet exactly when the counter stands on its stretch of places |
| Hub.HasPrevious | internal/core/turn_client.go:538-552 | Every ready stream has a previous ready stream, itself when it is alone |
| Hub.ExactShares | internal/core/turn_client.go:538-552 | Over a round with a fixed ready set a stream gets its cyclic distance from the previous ready stream |
| Hub.OneEach | internal/core/turn_client.go:538-552 | With all streams ready, one packet each |
| Hub.OffersAddUp | internal/core/turn_client.go:538-552 | The shares add up to the packets |
| HubBuffers.RunKeeps | internal/core/turn_client.go:537-565 | Every interleaving of hub, pool and TX workers keeps the ownership and order invariant |
| HubBuffers.BuffersInOnePlace | internal/core/turn_client.go:541-562 | Each buffer made is in exactly one of pool, collector, hub, queues and workers |
| HubBuffers.QueuedBuffersAreApart | internal/core/turn_client.go:558-562 | Queued packets never share a buffer with each other, the pool or a worker |
| HubBuffers.PacketsEndOnce | internal/core/turn_client.go:546-563 | Each packet read is in the hub's hand, dropped once, or handed once to one stream; which of the two is HubRuns.DroppedOnlyIfFull and OfferedIsQueued |
| HubBuffers.OneStreamPerPacket | internal/core/turn_client.go:546-563 | No packet is given to two streams, or given and dropped |
| HubBuffers.StreamsKeepOrder | internal/core/turn_client.go:390-415 | Queues hold at most 512; workers finish packets in acceptance order; only ready streams accept |
| HubBuffers.OfferedToNearest | internal/core/turn_client.go:547-552 | The stream offered a packet is ready and no further on than any that was ready when the scan began |
| HubBuffers.UnofferedOnlyIfNoneReady | internal/core/turn_client.go:553-556 | A packet is dropped unoffered only if no stream was ready when its scan began |
| HubRuns.HeldWasRead | internal/core/turn_client.go:541-548 | Every packet the hub holds was read by it, with its number, when the counter moved on, and its record of readiness is of that moment |
| HubRuns.DroppedOnlyIfFull | internal/core/turn_client.go:553-563 | A packet is dropped only if no stream was ready when it was read, or the ready stream it was offered to held 512 |
| HubRuns.OfferedIsQueued | internal/core/turn_client.go:557-563 | A packet offered to a stream with fewer than 512 becomes the last of its queue and nothing is dropped; otherwise it is dropped and its buffer is back in the pool |
| HubRuns.AcceptedWasOffered | internal/core/turn_client.go:557-563 | A stream accepts only the packet on offer to it, when it is ready and has room |
| HubRuns.WorkerFinishes | internal/core/turn_client.go:390-415 | A worker records the outcome, gives its buffer back and ends if the packet was not sent |
| HubRuns.HubNeverStuck | internal/core/turn_client.go:537-565 | Until it stops, the hub can always move on by itself |
| HubRuns.PacketIsSent | internal/core/turn_client.go:537-565 | A run in which one packet is queued and sent and its buffer returns to the pool |
| SliderTiles.BuildSliderTileMapping | internal/core/slider_captcha.go:761-785 | The map of the swap list, or which of the three errors, the first bad swap included |
| SliderTiles.SwapExchanges | internal/core/slider_captcha.go:781 | A swap exchanges two entries, leaves the others and loses none |
| SliderTiles.MappingConcat | internal/core/slider_captcha.go:776-784 | Appending swap lists composes their maps |
| SliderTiles.ReverseUndoes | internal/core/slider_captcha.go:776-784 | Replaying the swaps backwards restores the identity |
| SliderTiles.MappingIsBijection | internal/core/slider_captcha.go:761-785 | Every swap list builds a bijection, inverted by the reversed list |
| SliderTiles.BuildSliderActiveSteps | internal/core/slider_captcha.go:748-759 | The first k swaps, all when there are fewer |
| SliderTiles.CandidateSwapsOnce | internal/core/slider_captcha.go:748-759 | Each candidate makes one more swap than the one before |
| SliderCuts.WhichUnique | internal/core/slider_captcha.go:892-895 | The cuts partition a side for any size and grid |
| SliderCuts.Scaled | internal/core/slider_captcha.go:909-912 | Scaling stays inside the source piece and is the identity between equal pieces |
| SliderCuts.ScaledExactly | internal/core/slider_captcha.go:911-912 | The scaled pixel is the quotient rounded down |
| SliderCuts.CutExactly | internal/core/slider_captcha.go:892-895 | So is the start of a piece |
| SliderImage.SliderTileRect | internal/core/slider_captcha.go:888-898 | A tile of the grid has the width and height of its column and row; other numbers give ordered rectangles |
| SliderImage.TileRectExactly | internal/core/slider_captcha.go:888-898 | The four sides of every tile number, also below 0, with every division truncated towards zero |
| SliderImage.TilesPartition | internal/core/slider_captcha.go:888-898 | The tile rectangles lie in the image and hold each pixel exactly once |
| SliderImage.Canvas.Set | internal/core/slider_captcha.go:913 | One pixel changes, none outside the bounds |
| SliderImage.CopyScaledTile | internal/core/slider_captcha.go:900-917 | The destination tile shows the scaled source tile, all other pixels stay, and nothing happens for empty tiles |
| SliderRender.RenderSliderCandidate | internal/core/slider_captcha.go:832-851 | The canvas shows the rendered image; refusals of bad grids and map lengths |
| SliderRender.RenderedTile | internal/core/slider_captcha.go:842-848 | Pixel by pixel, tile t of a rendering is the scaled tile its map names |
| SliderRender.RenderIdentity | internal/core/slider_captcha.go:832-851 | The identity map changes nothing for any size and grid |
| SliderRender.RendersCompose | internal/core/slider_captcha.go:832-851 | With even tiles rendering p then q is rendering p after q |
| SliderRender.ActsExactly | internal/core/slider_captcha.go:832-917 | Rendering is an action of swap lists, for all images of given bounds, exactly when both sides divide by the grid or the image is empty |
| SliderRender.SwappedTwiceLoses | internal/core/slider_captcha.go:900-917 | Swapping a tile with a smaller one twice loses a pixel |
| SliderRender.CandidateRestores | internal/core/slider_captcha.go:787-821 | A candidate restores the image scrambled by its reversed swaps |
| SliderRank.ScoreRenderedSliderImage | internal/core/slider_captcha.go:853-886 | The sum of colour jumps over all seams |
| SliderRank.ZeroScoreExactly | internal/core/slider_captcha.go:853-886 | The score is 0 exactly when no seam shows |
| SliderSeams.ScoreAlongCuts | internal/core/slider_captcha.go:853-886 | For any sizes the score is the sum over red, green and blue of the differences along the cuts, each cut from border to border, each pixel once |
| SliderRank.ScoreSliderCandidate | internal/core/slider_captcha.go:823-830 | The score of the rendered image, or the refusal |
| SliderRank.SortSorts | internal/core/slider_captcha.go:813-818 | Sorting orders by score, then index, and keeps the candidates |
| SliderRank.RankingUnique | internal/core/slider_captcha.go:813-818 | There is only one such order, whatever sorts |
| SliderRank.RankSliderCandidates | internal/core/slider_captcha.go:787-821 | All candidates with the scores of their renderings in order, smaller scores first and of equal ones fewer swaps, or which error |
| SliderRank.TrySliderCaptchaCandidates | internal/core/slider_captcha.go:1016-1051 | The first decisive answer within the attempts decides, and no further candidate is asked |
| SliderRank.OneVerdict | internal/core/slider_captcha.go:1016-1051 | Every answer goes on or ends the tries, in one way |
| OrderedSets.DedupIsDedup | internal/core/vk_hosts.go:213-229 | The seen-map loop keeps the first occurrence of every element in order |
| Hosts.MergeUnique | internal/core/vk_hosts.go:213-229 | Merging is deduplication of the concatenation |
| Hosts.MergeAssociative | internal/core/vk_hosts.go:213-229 | Merging is associative |
| Hosts.GrowsExactly | internal/core/vk_hosts.go:140-149 | A duplicate-free list grows exactly when a merge brings something new |
| Hosts.GrowthTestExactly | internal/core/vk_hosts.go:140-149 | The growth test is right for all answers exactly when the old list has no repetition |
| Hosts.GrowthMissed | internal/core/vk_hosts.go:140-149 | A list for which it is wrong |
| Hosts.KeysDiffer | internal/core/vk_hosts.go:94-96 | Unless one domain goes on with a colon where the other ends, metric keys tell addresses apart |
| Hosts.KeysCollideExactly | internal/core/vk_hosts.go:94-96 | Two domains can have a key in common exactly in that case |
| Hosts.KeysMayCollide | internal/core/vk_hosts.go:94-96 | Two addresses with one key |
| Hosts.VkHosts.AllIPs | internal/core/vk_hosts.go:99-124 | Known addresses, those from DNS first, without duplicates |
| Hosts.VkHosts.SelectBestIP | internal/core/vk_hosts.go:169-210 | The earliest address of maximal score above -1, and the two fallbacks |
| Hosts.BestIsUnique | internal/core/vk_hosts.go:175-196 | There is one best address |
| Hosts.BestExactly | internal/core/vk_hosts.go:175-196 | There is one exactly when some score is above -1 |
| Hosts.OrdinaryScores | internal/core/vk_hosts.go:67-76 | Without negative round-trip times every score is above -1 |
| Hosts.ScoreExactly | internal/core/vk_hosts.go:67-76 | When a score is 0, when infinite, and its value otherwise |
| Hosts.UnknownExactly | internal/core/vk_hosts.go:184-189 | An address without a metric scores like one that answers every other time, after 200 ms |
| Hosts.FirstOfGreatest | internal/core/vk_hosts.go:175-196 | Among finite scores the best address is the first of the greatest, if that is above -1 |
| Hosts.FirstInfinite | internal/core/vk_hosts.go:175-196 | An infinite score wins, the first if there are several |
| Hosts.VkHosts.Resolve | internal/core/vk_hosts.go:132-166 | Lists, DNS state and dirty mark after a resolution, and the address selected from the new lists |
| Hosts.VkHosts.UpdateDynamic | internal/core/vk_hosts.go:232-242 | A non-empty answer replaces the list |
| Hosts.VkHosts.RecordSuccess | internal/core/vk_hosts.go:244-268 | The metrics after one success |
| Hosts.VkHosts.RecordFailure | internal/core/vk_hosts.go:271-285 | The metrics after one failure |
| Hosts.ReplayCounts | internal/core/vk_hosts.go:244-285 | Over any run: tries and successes are counted, failures since the last success, and FailCount is at most TotalTries - TotalOK |
| Hosts.ReplayRtt | internal/core/vk_hosts.go:260-265 | The smoothed time lies between the least and greatest recorded, once there is a success |
| Hosts.ReplayLast | internal/core/vk_hosts.go:255-265 | The last success is when an address was last seen and counts three tenths in its time, rounded towards zero; the first all of it |
| Hosts.MetricsAreApart | internal/core/vk_hosts.go:244-285 | Over any run of many addresses a metric is made by its own records alone, if no other domain is ambiguous with its own |
| Hosts.MetricsApartExactly | internal/core/vk_hosts.go:244-285 | Records of one domain never make a metric of another exactly when the two are not ambiguous |
| DnsPersist.Caches.Load | internal/core/dns_cache_persist.go:71-145 | What a load changes in the four maps, whatever the order of domains, and what leaves them alone |
| DnsPersist.LoadTwice | internal/core/dns_cache_persist.go:95-124 | Loading a file twice leaves the address lists as loading it once, for files of any size |
| DnsPersist.MergedTwice | internal/core/dns_cache_persist.go:101-106 | Merging and capping again changes nothing |
| DnsPersist.MergedExactly | internal/core/dns_cache_persist.go:101-106 | Old addresses before new ones, each once, at most 30 |
| DnsPersist.SavedExactly | internal/core/dns_cache_persist.go:202-215 | What is saved of a metric: whole milliseconds towards zero, whole seconds, the rest as it is |
| DnsPersist.RestoredExactly | internal/core/dns_cache_persist.go:126-137 | What is restored of it; a time that was not read counts as now |
| DnsPersist.Caches.Collect | internal/core/dns_cache_persist.go:159-243 | What save writes: which domains, addresses and metrics; addresses found by their metric come last |
| DnsPersist.RestartLists | internal/core/dns_cache_persist.go:71-243 | Saving and loading into empty maps restores the saved addresses up to 30 |
| DnsPersist.RestartMetrics | internal/core/dns_cache_persist.go:71-243 | And exactly the metrics that were saved, rounded to the millisecond and the second, if no domain of the file is ambiguous with this one |
| DnsPersist.ScoreSurvivesExactly | internal/core/dns_cache_persist.go:126-137 | A restart keeps a score exactly when it rests on the success rate alone, or there are few failures, or rounding does not carry the last answer over the hour |
| DnsPersist.MetricSavedExactly | internal/core/dns_cache_persist.go:174-215 | The metric of an address is saved exactly when its domain is in one of the other maps |
| DnsPersist.MetricsOnlyLost | internal/core/dns_cache_persist.go:174-215 | A domain known by a metric alone, of which nothing is saved |
| DnsPersist.RecordingConsistent | internal/core/vk_hosts.go:244-285 | Recording for a domain that is not ambiguous with this one keeps its metrics under the keys of their addresses |
| DnsPersist.LoadingConsistent | internal/core/dns_cache_persist.go:126-137 | So does loading |

## Left out
- HubBuffers: sessions, DTLS and TURN set-up, the receiving side and the peer address; a worker may start and stop at any time between packets.
- Hub: no streams at all, where the source divides by zero.
- CredentialCache: auth errors that race on the two error counters; the count is left open there and exact for sequential errors in AuthErrors. The group of a stream is given, not computed from streamsPerCred, which the proxy may change at start.
- AuthErrors.StreamCredentialsCache.HandleAuthError: states the burst for sequential calls, because concurrent ones interleave single atomic operations on the count.
- Wrap.WrapConn.UnwrapPacket: does not state what is left of a ciphertext that does not open; takes two different arrays, as its caller does.
- Wrap: the internals of ChaCha20-Poly1305, key generation and decoding.
- PowExtract: the regular expression that cuts scripts out of the page, and the retry over the unescaped page.
- JsNumber.ParseJSNumber: takes the library's float reader as a parameter.
- JsPrinted.RoundTrip: prints templates without substitutions, and no regular expressions or slashes; these are read one by one in JsEdges.
- Dns: sockets, server order and caches of the resolver; addresses are four bytes, not their dotted text.
- Dns.QuestionSkipExact: not for labels of more than 256 bytes whose length byte wraps to 1..63, where it depends on the bytes of the label (Dns.LongLabelMayPass); a DNS name has at most 255.
- TurnCreds: HTTP and WebSocket traffic around the credential walk.
- Protobuf: messages of 2^63 bytes and more.
- SliderImage: image decoding and colour models; a colour is its four channels, and pixels outside an image are blank as in the source's own canvas. Integers are unbounded.
- SliderRank: the library's stable sort is stood in for by an insertion; RankingUnique shows that the result is the same for any sort.
- SliderRank.TrySliderCaptchaCandidates: the server's answers are a function of the candidate.
- Hosts: floating point, so success rates and smoothed times are exact before truncation; a total of zero tries, which only a damaged file can bring about, gives the rate 0 instead of an infinity. A metric is a value, so the sharing of metric objects with a running save is not modelled. The collector that probes addresses is a caller of these operations.
- DnsPersist: file access, JSON and the text form of times, the saver's timer and its stop; load and save are atomic, where the source takes its locks map by map.
- DnsPersist.LoadTwice: about the address lists; metrics without a time get the time of the load.
- Captcha sessions, telemetry, cursor paths, browser profiles, token chains, the user interface, configuration, updates and the import of settings.
