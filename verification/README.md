# e6irc: what its protocol and client code keeps

A Dafny 4.11 model of the parts of e6irc whose correctness is hardest to see by
reading: the native client's connection machine, the codec of the link between
the core and its edges, the history windows and the ring that caches them, and
the web client's timeline, naming and schema state.

The server of the native client is an arbitrary sequence of lines throughout, and
any read or write may fail. Classes hold what the source updates in place and are proved against
functions on values; the theorems are about those functions, over every input,
every run or every reachable state.

- `Octets`, `Wire`, `WireBuffers`: the payload primitives of `e6irc-link`, over
  a recursive shape that stands for any frame built from them.
- `LinkFrames` (with `CoreFrames`), `FrameWriter`: frames with a length word,
  streams of them, and the writer that patches the length in place.
- `History`, `HotRing`, `RingOverRecord`: `CHATHISTORY` windows over a record,
  the ring that holds its newest part, and when the two agree.
- `Casemap`, `Glob`: case mappings, the glob table and the shipped matcher.
- `CapabilityLedger`, `Base64`, `SaslChunks`, `SaslRegistration`, `Liveness`,
  `JoinHistory`, `UnreadPaging`: the native client.
- `Timeline`, `LoadEarlier`, `Rekey`, `Composer`: the web client's state.
- `JsonIdentity`, `ApiSchema`, `ApiReader`: reading API responses.

Where a promise does not hold of the code as it is, the model keeps the code and
proves exactly when it does hold:

- A hot ring started again over a record that already has rows is the newest part
  of it, and answers for it, only while its rows are placed after those
  (`RingOverRecord.NewestPartIff`, `RingAnswersForRecord`;
  `RingOverRecord.AHoleIsPossible` is an instance where a row arrives late).
- A capability that is both metadata and wished for is handed out twice for one
  offer, waited on twice, and after one verdict both enabled and waited on
  (`CapabilityLedger.RepeatIsHandedTwice`, `EnabledAndWaiting`,
  `NoRequestLoopIff`, `SettlingIff`).
- A `Welcome` that names no stream or more than 256, or a prefix longer than its
  address, is written and then refused (`CoreFrames.WelcomeRoundTripIff`,
  `SomeAreRefused`).
- An `AUTHENTICATE` payload whose last line is a lone `+` is not read back
  (`SaslChunks.RoundTripIff`); base64 never is one.
- Pieces of a split message fit every budget from seven bytes on, and not below
  (`Composer.AlwaysFitsIff`).
- A later piece of a split message that begins with a slash, or for `/me`, `/msg`
  and `/notice` with a blank, is read by the composer as something else, and
  such cuts are made (`Composer.AllReadBackIff`, `SlashIsCutOff`,
  `BlankIsCutOff`).
- A row trimmed while earlier history is being fetched is missing afterwards
  (`LoadEarlier.AnsweredAfterLines`, `GapIsReached`), exactly when more rows came
  than there was room for.
- A number too large for one is identified by the text of null, so both cannot be
  unique items of one list; it matters only where a schema names such a number
  (`JsonIdentity.IdentityIsIdentity`, `ApiSchema.UniqueIsDifferent`,
  `InfinityIsTakenForNull`).

`dafny verify dfyconfig.toml` checks the project.

## Model

| member | source | states |
|---|---|---|
| `Wire.RoundTrip` | crates/e6irc-link/src/wire.rs:38-250 | for every shape and every value the writer takes and the reader admits, decoding its bytes followed by any others gives the value and leaves exactly the others |
| `Wire.RoundTripAll` | crates/e6irc-link/src/wire.rs:102-121 | the same for the entries of a list |
| `Wire.Canonical` | crates/e6irc-link/src/wire.rs:1-5 | any bytes that decode are exactly the encoding of what they decode to, followed by the bytes left over: no second spelling of any value is accepted |
| `Wire.CanonicalAll` | crates/e6irc-link/src/wire.rs:224-239 | the same for the entries of a list, of which as many are read as were asked for |
| `Wire.PrefixFree` | crates/e6irc-link/src/wire.rs:38-121 | of any two values the writer writes for one shape, whether or not a reader admits them, an encoding that begins the other's is the other's: encodings are injective and prefix-free |
| `Wire.EncodedApart` | crates/e6irc-link/src/wire.rs:38-121 | written encodings of one shape, each followed by anything, are equal only if the values and what follows are |
| `Wire.EncodedAllApart` | crates/e6irc-link/src/wire.rs:102-121 | the same for as many list entries |
| `Wire.WholeIsEncoded` | crates/e6irc-link/src/wire.rs:241-250 | a whole payload is accepted as a value if and only if the reader admits the value and the payload is its encoding, so a byte left over is always refused |
| `Wire.WrittenIsRefused` | crates/e6irc-link/src/core_frames.rs:163-185 | a value the writer's types take and the reader does not admit (a number out of range, a prefix longer than its address) is written and then refused as invalid, for the first field at fault, in any shape, as soon as that field is there and whatever follows it |
| `Wire.WrittenAllIsRefused` | crates/e6irc-link/src/core_frames.rs:177-188 | the same for the entries of a list |
| `Wire.CutIsTruncated` | crates/e6irc-link/src/wire.rs:127-250 | every written encoding cut before its end, or before the end of its first field at fault, fails as truncated and as nothing else |
| `Wire.CutVerdict` | crates/e6irc-link/src/wire.rs:127-250 | the exact verdict on every strict prefix of every written encoding: truncated up to the end of the first field at fault, that fault from there on; truncated throughout when the reader admits the value |
| `Wire.CutAllIsTruncated` | crates/e6irc-link/src/wire.rs:224-239 | the same for the entries of a list |
| `Wire.BoundsAgree` | crates/e6irc-link/src/wire.rs:38-54 | the writer refuses exactly the values whose bytes the reader's bounds refuse, with the same field, length and bound; otherwise both accept and agree |
| `Wire.BoundsAgreeAll` | crates/e6irc-link/src/wire.rs:102-121 | the same for the entries of a list |
| `Wire.LaxTypes` | crates/e6irc-link/src/wire.rs:163-178 | the unbounded twin of a shape, used to say what the reader would have been given, takes the same values |
| `Wire.NoLonger` | crates/e6irc-link/src/wire.rs:38-121 | every encoding is within a maximum computed from its shape alone |
| `Wire.NoLongerAll` | crates/e6irc-link/src/wire.rs:101-121 | the entries of a list are within their number times the entry's maximum |
| `Wire.Layout` | crates/e6irc-link/src/wire.rs:16-122 | every written value as its bytes: numbers as wide as they are with the greatest byte first, one byte for a flag and for whether an optional value is there, an arm behind its number, an address behind 4 or 6, bytes behind a count of four bytes and entries behind one of two |
| `Wire.Take` | crates/e6irc-link/src/wire.rs:128-133 | taking bytes splits what there is, and fails as truncated exactly when there is less |
| `WireBuffers.Writer.Put` | crates/e6irc-link/src/wire.rs:16-122 | the writer appends exactly the encoding of a value to the buffer, or reports the encoder's error |
| `WireBuffers.Writer.PutWord` | crates/e6irc-link/src/wire.rs:17-31 | appends a big-endian integer |
| `WireBuffers.Writer.PutBytes` | crates/e6irc-link/src/wire.rs:38-54 | appends a four-byte length and the bytes, or refuses bytes over the bound and leaves the buffer as it was |
| `WireBuffers.Writer.PutAddress` | crates/e6irc-link/src/wire.rs:83-94 | appends an address behind its family's tag |
| `WireBuffers.Writer.PutOptional` | crates/e6irc-link/src/wire.rs:66-81 | appends a tagged optional value |
| `WireBuffers.Writer.PutChoice` | crates/e6irc-link/src/edge_frames.rs:185-274 | appends a tagged alternative |
| `WireBuffers.Writer.PutListing` | crates/e6irc-link/src/wire.rs:102-121 | appends a two-byte count and the entries, or refuses a list over the bound |
| `WireBuffers.Writer.PutAll` | crates/e6irc-link/src/wire.rs:117-119 | appends the entries in a loop, stopping at the first error |
| `WireBuffers.Reader.Get` | crates/e6irc-link/src/wire.rs:127-239 | the reader takes exactly what decoding takes off the front, with the decoder's value or error |
| `WireBuffers.Reader.GetAll` | crates/e6irc-link/src/wire.rs:224-239 | the entries of a list in a loop, stopping at the first error |
| `WireBuffers.Reader.Next` | crates/e6irc-link/src/wire.rs:128-133 | takes bytes, or fails and takes none |
| `WireBuffers.Reader.NextByte` | crates/e6irc-link/src/wire.rs:135-138 | takes one byte |
| `WireBuffers.Reader.NextWord` | crates/e6irc-link/src/wire.rs:140-153 | takes a big-endian integer |
| `WireBuffers.Reader.NextBytes` | crates/e6irc-link/src/wire.rs:163-178 | takes length-prefixed bytes within the bound |
| `WireBuffers.Reader.NextAddress` | crates/e6irc-link/src/wire.rs:201-217 | takes a tagged address |
| `WireBuffers.Reader.Finish` | crates/e6irc-link/src/wire.rs:241-250 | accepts exactly an empty rest, and names how many bytes are left otherwise |
| `Octets.WordSurvives` | crates/e6irc-link/src/wire.rs:21-31 | a big-endian integer of any width reads back |
| `Octets.BytesSurvive` | crates/e6irc-link/src/wire.rs:140-153 | any bytes are the big-endian form of the integer they read as |
| `Octets.DigitOf` | crates/e6irc-link/src/wire.rs:21-31 | byte by byte: the greatest first, each the digit of its power of 256 |
| `Octets.Utf8Iff` | crates/e6irc-link/src/wire.rs:180-190 | bytes are taken as text if and only if they are the encodings, by arithmetic on code points, of some sequence of scalar values, with no surrogate among them |
| `LinkFrames.FrameRoundTrip` | crates/e6irc-link/src/lib.rs:389-439 | a frame the reader admits, followed by anything, is read back alone and the rest is left; a frame it does not admit is refused |
| `LinkFrames.PartIsAwaited` | crates/e6irc-link/src/lib.rs:413-430 | every strict part of a frame is awaited and never refused |
| `LinkFrames.FrameCanonical` | crates/e6irc-link/src/lib.rs:416-439 | a frame that is read is one the reader admits and an encoder writes, byte for byte |
| `LinkFrames.CutsDoNotMatter` | crates/e6irc-link/src/lib.rs:413-439 | over any bytes at all: decoding what has arrived and then what follows gives the same frames, rest and error as decoding everything at once |
| `LinkFrames.StreamCut` | crates/e6irc-link/src/lib.rs:413-439 | a stream of admitted frames cut anywhere is read to the last whole one, with the part of the next kept |
| `LinkFrames.FrameLayout` | crates/e6irc-link/src/lib.rs:389-411 | every written frame as its bytes: four that count the rest, one for the kind, eight for the session, and the payload |
| `CoreFrames.TableIsLawful` | crates/e6irc-link/src/core_frames.rs:98-237 | frames whose payloads are written and read by any table of shapes, the core's among them, have all of the properties above |
| `CoreFrames.NotAdmitted` | crates/e6irc-link/src/core_frames.rs:163-237 | a frame that is written and not admitted is refused for the first field at fault |
| `CoreFrames.WelcomeRoundTripIff` | crates/e6irc-link/src/core_frames.rs:115-217 | a `Welcome` that is written is read back if and only if it names 1 to 256 streams and no proxy prefix is longer than its address; otherwise it is refused for the first of these it fails |
| `CoreFrames.SomeAreRefused` | crates/e6irc-link/src/core_frames.rs:173-188 | a `Welcome` with no stream, or whose only proxy range is 10.0.0.0/40, is written and then refused |
| `CoreFrames.WelcomeIsWritten` | crates/e6irc-link/src/core_frames.rs:115-148 | a `Welcome` with at most 1024 proxies is always written |
| `CoreFrames.WelcomeBytes` | crates/e6irc-link/src/core_frames.rs:115-148 | a `Welcome` as its bytes, field by field in the order they are written |
| `CoreFrames.OthersAreAdmitted` | crates/e6irc-link/src/core_frames.rs:149-237 | every other core frame that is written is read back |
| `CoreFrames.CoreKindsAreSound` | crates/e6irc-link/src/core_frames.rs:10-28 | every payload of the core's table is well formed and fits a frame at its longest |
| `CoreFrames.CoreFramesFit` | crates/e6irc-link/src/lib.rs:400-407 | no core frame is refused for its whole length: whatever its fields' bounds admit fits a frame |
| `FrameWriter.AppendFrame` | crates/e6irc-link/src/lib.rs:388-411 | a frame is appended with its length written over a placeholder, and on an error the buffer is as it was |
| `FrameWriter.AppendBody` | crates/e6irc-link/src/lib.rs:389-398 | header and payload behind the placeholder, taken back when the payload is refused |
| `FrameWriter.Seal` | crates/e6irc-link/src/lib.rs:399-410 | the length is patched in place, or an over-long frame is taken back |
| `FrameWriter.EncodeIsFinished` | crates/e6irc-link/src/lib.rs:389-411 | the in-place writer and the frame codec agree |
| `History.PlacesAreOrdered` | crates/e6ircd/src/core/mod.rs:2336-2352 | places in the record are strictly and totally ordered, a bare time before every row stamped with it |
| `History.BeforeTransitive` | crates/e6ircd/src/core/mod.rs:2344-2352 | the order is transitive |
| `History.Find` | fuzz/fuzz_targets/chathistory_window.rs:38 | finds the row of an identifier, or there is none |
| `History.RingIsPage` | crates/e6ircd/src/core/handler/history.rs:634-776 | on a sorted ring, the ring's own arithmetic cuts every one of the windows the record's definition cuts from the same rows |
| `History.BoundsAgree` | crates/e6ircd/src/core/handler/history.rs:634-776 | the ring's bounds, found by partition, are the record's, found by counting |
| `History.CoveredIsExact` | crates/e6ircd/src/core/handler/history.rs:634-776 | every window a ring that is a suffix of the sorted record claims to cover is exactly the whole record's window, for all six requests, all selectors and limits |
| `History.SuffixAnswers` | fuzz/fuzz_targets/chathistory_window.rs:34-114 | cutting a window from such a suffix equals cutting it from the whole record |
| `History.PageIs` | fuzz/fuzz_targets/chathistory_window.rs:34-114 | what each window of a sorted record is, row by row: of the rows after (or before) what is named, by time or by identifier, the newest or the oldest that the limit lets through; half of it on each side of a place; between two places, those next to the first named |
| `History.NoPageIff` | fuzz/fuzz_targets/chathistory_window.rs:34-114 | there is no window exactly when it needs a place that nothing in the record names |
| `HotRing.HistoryRing.Push` | crates/e6ircd/src/core/hot_history.rs:209-240 | after any push the rows held are the newest part of everything given, in order, within the count and byte bounds, with byte count and per-scope maxima equal to a recount; a row is taken in unless it is placed before what was shed, and no row is shed that would have fitted |
| `HotRing.HistoryRing.SlotFor` | crates/e6ircd/src/core/hot_history.rs:219-223 | the place found from the newest end keeps the order |
| `HotRing.HistoryRing.TakeIn` | crates/e6ircd/src/core/hot_history.rs:224-226 | a row takes its place among everything given |
| `HotRing.HistoryRing.ShedOldest` | crates/e6ircd/src/core/hot_history.rs:230-237 | the oldest row leaves the ring, the others stay, and nothing given is forgotten by the account of it |
| `HotRing.InsertCounts` | crates/e6ircd/src/core/hot_history.rs:122-133 | adding a row adds its bytes and updates each scope's newest exactly as a recount would |
| `HotRing.ShedCounts` | crates/e6ircd/src/core/hot_history.rs:128-133 | dropping the oldest row of an ordered ring updates each scope's newest exactly as a recount would |
| `HotRing.ShedAtOnce` | crates/e6ircd/src/core/hot_history.rs:211-218 | a row placed before what was shed belongs before every row held, so ignoring it keeps the ring the newest part |
| `HotRing.TakenIn` | crates/e6ircd/src/core/hot_history.rs:219-226 | a row placed after what was shed goes where the search puts it, in the ring and in everything given alike |
| `HotRing.NewestIff` | crates/e6ircd/src/core/hot_history.rs:122-133 | a scope's newest time is that of a row its reader is sent, and none it is sent is later; there is none exactly when it is sent nothing |
| `HotRing.InsertHolds` | crates/e6ircd/src/core/hot_history.rs:219-226 | taking a row in adds exactly that row |
| `RingOverRecord.NewestPartIff` | crates/e6ircd/src/core/state.rs:5912-5920 | a ring started over a record that already has rows is its newest part if and only if every row it holds is placed after those |
| `RingOverRecord.RingAnswersForRecord` | crates/e6ircd/src/core/handler/history.rs:634-776 | every window such a ring covers is the record's if and only if every row it holds is placed after the rows there were before it |
| `RingOverRecord.MissedAfterOldest` | crates/e6ircd/src/core/handler/history.rs:634-776 | otherwise the request for everything after the ring's oldest row is covered, and lacks a row of the record |
| `RingOverRecord.AHoleIsPossible` | crates/e6ircd/src/core/hot_history.rs:209-240 | without it the ring can cover a window with a page the record would not give: a concrete ring, record and request |
| `RingOverRecord.OrderIsUnique` | crates/e6ircd/src/core/mod.rs:2336-2352 | the rows of a record determine its order |
| `Glob.Reference` | fuzz/fuzz_targets/mask_matching.rs:28-43 | the in-place table ends with its first cell true exactly when the text splits into one piece per pattern byte |
| `Glob.FillRow` | fuzz/fuzz_targets/mask_matching.rs:32-41 | one row, filled from its end, holds the answer for every suffix of the text |
| `Glob.FillCell` | fuzz/fuzz_targets/mask_matching.rs:33-40 | one cell, filled from its neighbours, the others untouched |
| `Glob.FitsIsMatches` | fuzz/fuzz_targets/mask_matching.rs:21-27 | the step-by-step meaning and the splitting into pieces are the same, for all patterns and texts |
| `Glob.Matcher` | crates/e6irc-proto/src/mask.rs:33-60 | the iterative matcher with one remembered star gives exactly that answer, so it agrees with the table everywhere |
| `Glob.RestIsStars` | crates/e6irc-proto/src/mask.rs:55-60 | at the end of the text a match is what is left being stars only |
| `Glob.EarliestWillDo` | crates/e6irc-proto/src/mask.rs:33-60 | the reason it may forget earlier stars: under a star the earliest match of what follows is as good as any |
| `Glob.MaskMatcher` | crates/e6irc-proto/src/mask.rs:9-31 | a mask is decided by folding both sides and matching, under every case mapping |
| `Glob.FoldedIsMask` | crates/e6irc-proto/src/mask.rs:9-31 | which is matching up to case: piece by piece, each literal equal to its byte's fold |
| `Casemap.FinerFold` | web/src/irc-state.js:36-50 | folding is idempotent, and no mapping joins names `rfc1459` keeps apart |
| `Casemap.LowerAlikeIff` | web/src/irc-state.js:36-50 | under each mapping two characters fold alike if and only if they are the same or an upper and lower case pair of that mapping |
| `Casemap.SameNameIff` | web/src/irc-state.js:36-50 | and two names if and only if they are as long and their characters do, one by one |
| `CapabilityLedger.Connection.Record` | crates/e6irc-client/src/lib.rs:317-334 | a list's offers are folded in up to the first that would pass 256, and whether all were |
| `CapabilityLedger.OverflowsIff` | crates/e6irc-client/src/lib.rs:317-334 | a list is refused exactly when table and list together name more than 256; otherwise all it names is recorded |
| `CapabilityLedger.Connection.Answer` | crates/e6irc-client/src/lib.rs:1483-1504 | a verdict settles exactly the names still waiting for one |
| `CapabilityLedger.Connection.Observe` | crates/e6irc-client/src/lib.rs:1464-1506 | one server `CAP` line, of any kind; what every run of them leaves is `EnabledIff`, `RefusedIff`, `WaitingIs` and `OfferedStep` |
| `CapabilityLedger.Connection.CapabilitiesToRequest` | crates/e6irc-client/src/lib.rs:1555-1569 | hands out what is wanted, offered, and neither enabled, refused nor asked for, and remembers it as asked |
| `CapabilityLedger.Connection.Settle` | crates/e6irc-client/src/lib.rs:1596-1612 | reads a line as the verdict on one outstanding request |
| `CapabilityLedger.Connection.RequestWhenOffered` | crates/e6irc-client/src/lib.rs:1574-1578 | adds a wish once |
| `CapabilityLedger.NoRequestLoop` | crates/e6irc-client/src/lib.rs:1464-1569 | over any run of server lines and requests, with any refusals, a capability is handed out no more often than it was open at the start plus the `CAP NEW` lines naming it |
| `CapabilityLedger.NoRequestLoopIff` | crates/e6irc-client/src/lib.rs:1555-1569 | starting afresh, that bound holds over every run that wishes for nothing beyond some names if and only if neither the optional list nor those names repeat metadata |
| `CapabilityLedger.RepeatIsHandedTwice` | crates/e6irc-client/src/lib.rs:1555-1569 | with a repeated name, one offer is handed out twice at once and then waited on twice |
| `CapabilityLedger.RunKeeps` | crates/e6irc-client/src/lib.rs:317-360 | in every run, whatever the server says and the program wishes for, only names it asked for are enabled or waited on, and the table of offers is within 256 |
| `CapabilityLedger.StepKeeps` | crates/e6irc-client/src/lib.rs:1464-1506 | each step keeps that |
| `CapabilityLedger.SettlingIff` | crates/e6irc-client/src/lib.rs:1464-1569 | starting afresh, over every run that wishes for nothing beyond some names, no name is both enabled and waited on and none is waited on twice, if and only if neither the optional list nor those names repeat metadata |
| `CapabilityLedger.EnabledAndWaiting` | crates/e6irc-client/src/lib.rs:1483-1504 | a name waited on twice is enabled by one verdict and still waited on |
| `CapabilityLedger.Repeating` | crates/e6irc-client/src/lib.rs:1555-1578 | where metadata may be wished for, a run that ends with a name waited on twice |
| `CapabilityLedger.StepSettles` | crates/e6irc-client/src/lib.rs:1464-1569 | with wishes that repeat nothing each step keeps every name from being waited on twice or when enabled |
| `CapabilityLedger.RequireSettles` | crates/e6irc-client/src/lib.rs:2280-2340 | and so does requiring capabilities that overlap an outstanding request |
| `CapabilityLedger.EnabledIff` | crates/e6irc-client/src/lib.rs:1464-1506 | over every run, from its events: a capability is enabled at the end if and only if it was at the start or was granted (by an `ACK` while waited on, or by one that answers a requirement it is part of) and no `CAP DEL` has named it since |
| `CapabilityLedger.RefusedIff` | crates/e6irc-client/src/lib.rs:1464-1612 | over every run: a refusal stands at the end if and only if it did at the start or was given, and no `CAP NEW` has offered the bare name since |
| `CapabilityLedger.WaitingIs` | crates/e6irc-client/src/lib.rs:1483-1569 | over every run: a name is waited on as often as it was handed out, less the verdicts that named it |
| `CapabilityLedger.HandedIff` | crates/e6irc-client/src/lib.rs:1555-1569 | how often each name is handed out: as often as it is wished for when it is offered and neither enabled, waited on nor refused, `labeled-response` only while `batch` is enabled |
| `CapabilityLedger.OfferedStep` | crates/e6irc-client/src/lib.rs:1464-1482 | an offer stands after a step if and only if a `CAP NEW` recorded it or it stood before and no `CAP DEL` names it |
| `CapabilityLedger.RecordedValues` | crates/e6irc-client/src/lib.rs:317-334 | recording a list that fits gives each name the value given last, and leaves every other as it was |
| `CapabilityLedger.RecordedStops` | crates/e6irc-client/src/lib.rs:317-334 | recording one that does not is recording it up to the first offer too many |
| `CapabilityLedger.TokenParts` | crates/e6irc-client/src/lib.rs:317-334 | a token is its name and, behind the first equals sign, its value |
| `Base64.DecodeEncode` | crates/e6irc-proto/src/base64.rs:11-89 | decoding an encoding gives the bytes back |
| `Base64.EncodeDecode` | crates/e6irc-proto/src/base64.rs:47-89 | any text that decodes is the encoding of what it decodes to: padding and unused bits included |
| `Base64.EncodedInFours` | crates/e6irc-proto/src/base64.rs:22-43 | an encoding's length is a multiple of four |
| `Base64.GroupBits` | crates/e6irc-proto/src/base64.rs:22-43 | the symbols of a group, bit by bit: six bits each from the first on, padded where there is no byte |
| `Base64.GroupsInTurn` | crates/e6irc-proto/src/base64.rs:22-43 | groups of three bytes are encoded in turn |
| `Base64.ShortVectors` | crates/e6irc-proto/src/base64.rs:11-43 | the test vectors of section 10 of RFC 4648 for one, two and three bytes |
| `Base64.LastSymbols` | crates/e6irc-proto/src/base64.rs:11-43 | the last two symbols of the alphabet |
| `Base64.EncodeBytes` | crates/e6irc-proto/src/base64.rs:22-43 | the encoding loop |
| `Base64.DecodeText` | crates/e6irc-proto/src/base64.rs:47-89 | the decoding loop, with every refusal |
| `SaslChunks.SendPayload` | crates/e6irc-client/src/lib.rs:2002-2019 | the lines of a payload, or none when it is over the limit |
| `SaslChunks.ReadChallenge` | crates/e6irc-client/src/lib.rs:1649-1682 | reads one challenge line by line |
| `SaslChunks.ChunksSurvive` | crates/e6irc-client/src/lib.rs:1649-1675 | what reading the sent lines gives, for every payload and whatever follows: the payload and the place after its last line, except that a last line of a lone `+` is lost |
| `SaslChunks.RoundTripIff` | crates/e6irc-client/src/lib.rs:1649-1675 | the payload comes back if and only if its last line is not a lone `+` |
| `SaslChunks.CredentialsArrive` | crates/e6irc-client/src/lib.rs:2002-2019 | base64 is never such a payload, so what one side encodes the other decodes, for empty and exact-multiple lengths too |
| `SaslRegistration.Registration.RegisterSasl` | crates/e6irc-client/src/lib.rs:1795-1873 | against any server and any failures of reads and writes: over cleartext to another machine, without consent, nothing is sent; the trace is lawful; the first offer is best by the listings heard before the first request (no named mechanism is stronger, and it is itself named whenever a password mechanism is, `PLAIN` otherwise); a second before the nickname follows only `PLAIN` offered for want of a list, when a 908 then named one without `PLAIN`, and is best by that; later ones are, in order, those weaker than it that were offered by then; so they are at most four; what is sent of a credential is the beginning of this account's own, for SCRAM the client's answer to the challenge heard after its first message; at most two nicknames are sent; the table of capabilities is within 256; negotiation is not ended after a rejection of the credential; success means the whole credential was sent, for SCRAM that the one challenge heard between its last line and the confirmation is a verified server proof, that a 903 was heard after that (for SCRAM after the confirmation), negotiation ended, a 001 gave the nickname returned, and no final refusal was heard at all |
| `SaslRegistration.Registration.constructor` | crates/e6irc-client/src/lib.rs:268-302 | a connection refuses credentials exactly when it is neither TLS nor loopback and its user did not consent |
| `SaslRegistration.Registration.Authenticate` | crates/e6irc-client/src/lib.rs:1828-1873 | the exchange loop keeps the trace lawful, goes on only with the mechanisms that are weaker and offered, in order, falls back only before a credential, and succeeds only as above |
| `SaslRegistration.Registration.FirstOffer` | crates/e6irc-client/src/lib.rs:1805-1820 | the first offer is best by the table, as above; a second follows only `PLAIN` to a server that had named none and then named a list without it, and is best by that list; refused as not offered with one offer made, the server had named mechanisms or nothing better is named since |
| `SaslRegistration.Registration.OfferLearned` | crates/e6irc-client/src/lib.rs:1808-1820 | after `PLAIN` for want of a list: the strongest of the list named since, unless that is `PLAIN` again |
| `SaslRegistration.Registration.LogIn` | crates/e6irc-client/src/lib.rs:1803-1873 | from the first offer to the welcome |
| `SaslRegistration.Registration.Attempt` | crates/e6irc-client/src/lib.rs:1839-1857 | one mechanism to its end, refused before its credential or registered |
| `SaslRegistration.Registration.FallBack` | crates/e6irc-client/src/lib.rs:1858-1871 | one mechanism is given up and the next offered, if it could be written |
| `SaslRegistration.Registration.Exchange` | crates/e6irc-client/src/lib.rs:1841-1857 | one mechanism's messages: refused without a credential, or the account's own credential sent whole, and for SCRAM the server's proof heard |
| `SaslRegistration.Registration.ScramExchange` | crates/e6irc-client/src/lib.rs:1923-1970 | a refusal before the proof leaves no credential sent; success is a mutual exchange in the lines of the trace |
| `SaslRegistration.Registration.ScramOpening` | crates/e6irc-client/src/lib.rs:1933-1949 | the lines of the client's first message, the one challenge heard since, and the client's answer to exactly that challenge |
| `SaslRegistration.Registration.ScramProof` | crates/e6irc-client/src/lib.rs:1950-1969 | the proof's lines, complete on success and the beginning of them on a failed write; success means the challenge heard after the last of them proved the server |
| `SaslRegistration.Registration.ScramVerify` | crates/e6irc-client/src/lib.rs:1952-1968 | nothing is confirmed unless the one challenge heard meanwhile is a verified server proof |
| `SaslRegistration.Registration.SendCredential` | crates/e6irc-client/src/lib.rs:2002-2019 | all the lines of the credential, contiguous, for the mechanism offered last, or the first of them when a write fails, and nothing else |
| `SaslRegistration.Registration.SendOpening` | crates/e6irc-client/src/lib.rs:2002-2019 | the lines of a payload that proves nothing, in order, with nothing heard between |
| `SaslRegistration.Registration.OfferMechanism` | crates/e6irc-client/src/lib.rs:1915-1918 | one more offer, if it could be written; the list of mechanisms is then the one a 908 named last since; success is an empty challenge heard since, and an offer is refused as not offered only when the list is without it |
| `SaslRegistration.Registration.AbortSasl` | crates/e6irc-client/src/lib.rs:1879-1905 | success is a 906 heard last; nothing is sent that the watch forbids |
| `SaslRegistration.Registration.ReadChallenge` | crates/e6irc-client/src/lib.rs:1649-1682 | what is returned decodes the reassembly of exactly the `AUTHENTICATE` lines heard meanwhile, their lengths counted in bytes; nothing is sent but answers to pings and one alternative nickname |
| `SaslRegistration.Registration.GatherChallenge` | crates/e6irc-client/src/lib.rs:1652-1673 | the lines of one challenge put together, to the line that ends it |
| `SaslRegistration.EndedIsDone` | crates/e6irc-client/src/lib.rs:1649-1675 | gathering line by line is the reassembly of `SaslChunks` |
| `SaslRegistration.Registration.ReceiveSasl` | crates/e6irc-client/src/lib.rs:1684-1690 | the next message, a 903 being the confirmation of an exchange that left nothing more to send |
| `SaslRegistration.Registration.SaslTerminalError` | crates/e6irc-client/src/lib.rs:1700-1733 | which lines end the exchange and as what, a 904 being a verdict on the password only when the mechanism is offered; none of the rejecting numerics is passed over; a 908 rewrites the mechanisms |
| `SaslRegistration.Registration.FinishSaslThenWelcome` | crates/e6irc-client/src/lib.rs:1739-1754 | negotiation is ended once, after a 903 heard in this wait and not before it, and the nickname is the 001's |
| `SaslRegistration.Registration.AwaitWelcome` | crates/e6irc-client/src/lib.rs:1759-1777 | success is a 001 heard last, and its nickname |
| `SaslRegistration.Registration.BeginCap` | crates/e6irc-client/src/lib.rs:1319-1376 | discovery ends with the last listing, with a reply that there is no negotiation, or in silence; the table is then exactly what the listings heard named, folded in order, within its bound |
| `SaslRegistration.Registration.DiscoverMore` | crates/e6irc-client/src/lib.rs:1331-1376 | one line of discovery keeps the table what the listings named |
| `SaslRegistration.Registration.TakeListing` | crates/e6irc-client/src/lib.rs:1366-1372 | one listing is folded in; an error exactly when it names too many, else whether it was the last |
| `SaslRegistration.Registration.NegotiateSaslCap` | crates/e6irc-client/src/lib.rs:1383-1417 | success means the server offered `sasl` with an acceptable mechanism and granted it |
| `SaslRegistration.Registration.RequestCapabilities` | crates/e6irc-client/src/lib.rs:1616-1632 | granted names are enabled, refused ones remembered, and the table of offers unchanged |
| `SaslRegistration.Registration.RequestMetadataCapabilities` | crates/e6irc-client/src/lib.rs:1422-1447 | every metadata name and wish that was offered is then granted or refused, but for the one that waits for its prerequisite, and nothing else that authentication depends on changed |
| `SaslRegistration.Registration.RefusedWhileRegistering` | crates/e6irc-client/src/lib.rs:2142-2159 | which refusals end the registration; the nicknames sent plus the one still allowed never grow |
| `SaslRegistration.Registration.SendIdentity` | crates/e6irc-client/src/lib.rs:2177-2195 | the two lines of an identity of two words, and nothing otherwise |
| `SaslRegistration.NoOfferAfterCredential` | crates/e6irc-client/src/lib.rs:1822-1827 | in a lawful trace no mechanism is offered after any line of a credential |
| `SaslRegistration.CredentialIsOneStep` | crates/e6irc-client/src/lib.rs:1839-1857 | between two lines of the credential nothing else is sent or heard |
| `SaslRegistration.ConfirmedAfterProof` | crates/e6irc-client/src/lib.rs:1950-1969 | in a lawful trace the challenge that was confirmed was heard after the credential's last line and before the confirmation |
| `SaslRegistration.EndFollowsSuccess` | crates/e6irc-client/src/lib.rs:1735-1754 | `CAP END` follows a 903 that follows a credential, for SCRAM with the confirmation of the server's proof between them |
| `SaslRegistration.CredentialFor` | crates/e6irc-client/src/lib.rs:1839-1857 | a credential is for the mechanism offered last |
| `SaslRegistration.WholeMeans` | crates/e6irc-client/src/lib.rs:1739-1752 | a verdict is awaited only once the credential was sent and, for SCRAM, the server's proof confirmed |
| `SaslRegistration.AtMostFour` | crates/e6irc-client/src/lib.rs:1805-1838 | offers in order are at most four |
| `SaslRegistration.WeakerWeakens` | crates/e6irc-client/src/lib.rs:1828-1838 | the fallbacks of any mechanism weaken step by step |
| `SaslRegistration.StrongestIff` | crates/e6irc-client/src/lib.rs:384-412 | a mechanism is best by a table (as strong as every one named and itself named, or `PLAIN` when none is or no list is known) if and only if it is the one chosen |
| `SaslRegistration.WeakerIff` | crates/e6irc-client/src/lib.rs:1828-1838 | a mechanism is among the fallbacks if and only if it is weaker and offered |
| `SaslRegistration.OfferedIff` | crates/e6irc-client/src/lib.rs:361-382 | one is offered if and only if no list is known or its name is an entry of it |
| `SaslRegistration.EntriesApart` | crates/e6irc-client/src/lib.rs:366-371 | the entries of a list are the stretches between its commas |
| `SaslRegistration.WordsApart` | crates/e6irc-client/src/lib.rs:317-345 | the words of a list are the stretches between its blanks, none empty |
| `SaslRegistration.NoRejectionBeforeEnd` | crates/e6irc-client/src/lib.rs:1700-1754 | between any line of the credential and `CAP END` no rejecting numeric was heard |
| `SaslRegistration.UnrefusedIff` | crates/e6irc-client/src/lib.rs:2142-2159 | what it is to have heard no final refusal, reply by reply |
| `SaslRegistration.PlainIsRead` | crates/e6irc-client/src/lib.rs:1841-1850 | the plain message, read from zero to zero, names nobody to act as, the account and the password |
| `Liveness.GoneAfterTwoWindows` | crates/e6irc-client/src/liveness.rs:63-95 | over every run with abandoned reads in between, the server is declared gone only when two full windows have passed since it was last heard, with exactly one probe sent, a window after that and a window before the end |
| `Liveness.RunStands` | crates/e6irc-client/src/liveness.rs:105-171 | what every step keeps: the deadline is a window after the last hearing or the one probe |
| `Liveness.CaughtWithinTwoWindows` | crates/e6irc-client/src/liveness.rs:11-24 | for every run of reads and of local turns that abandon them: nothing happens later than two windows after the server was last heard, nor is the next deadline later; and the lapse that declares it gone is at exactly two |
| `Liveness.RunIsOnTime` | crates/e6irc-client/src/liveness.rs:74-95 | the deadline is one window after the last hearing, or two with the probe between, and never passes unnoticed |
| `Liveness.Keepalive.Bound` | crates/e6irc-client/src/liveness.rs:79-82 | a bounded read beside local input ends with the line, the turn or the deadline, whichever is first, and leaves the watch as it was |
| `Liveness.Resumed` | crates/e6irc-client/src/liveness.rs:161-171 | reading may be left off and gone on with anywhere: deadline, probe and answers are those of one uninterrupted run |
| `Liveness.PingsAreAnswered` | crates/e6irc-client/src/liveness.rs:105-156 | over every run each ping is answered with its own token, in order, and nothing else is |
| `Liveness.QuestionsAreOwn` | crates/e6irc-client/src/liveness.rs:87-95 | and whatever is asked carries the client's own token |
| `Liveness.Keepalive.OnHeard` | crates/e6irc-client/src/liveness.rs:74-77 | hearing the server |
| `Liveness.Keepalive.OnSilent` | crates/e6irc-client/src/liveness.rs:87-95 | a silent window: probe, then gone |
| `Liveness.Keepalive.Settle` | crates/e6irc-client/src/liveness.rs:105-156 | one read settled, with the line it is answered by, or a failure when that cannot be written |
| `Liveness.Keepalive.NextLine` | crates/e6irc-client/src/liveness.rs:161-170 | reads until there is a line, a close or an error, as the run of those reads, with exactly the lines that answer them sent |
| `JoinHistory.JoinHolds` | crates/e6irc-client/src/lib.rs:2404-2645 | whatever the server sends, a join that catches up from a marker holds at most eleven bursts of 4096 and `maxLines` events; one without a marker, or for the latest lines, two bursts and the lines it asked for |
| `JoinHistory.CaughtUpHolds` | crates/e6irc-client/src/lib.rs:2496-2553 | because the sizes asked for sum to at most `maxLines`, however many lines a page really had and however the server changes its limit |
| `JoinHistory.PageHolds` | crates/e6irc-client/src/lib.rs:2594-2645 | one page never passes its own limit |
| `JoinHistory.BurstHolds` | crates/e6irc-client/src/lib.rs:2435-2473 | nor does the join burst |
| `JoinHistory.LatestHolds` | crates/e6irc-client/src/lib.rs:2556-2581 | nor the latest page |
| `JoinHistory.JoinGrows` | crates/e6irc-client/src/lib.rs:2430-2581 | whatever the server sends, the events a join returns begin with those it held and have every history line it counted among them, in order |
| `JoinHistory.CaughtUpGrows` | crates/e6irc-client/src/lib.rs:2496-2553 | the same of catching up from any page on |
| `JoinHistory.PageGrows` | crates/e6irc-client/src/lib.rs:2594-2645 | the same of one page |
| `JoinHistory.JoinLegs` | crates/e6irc-client/src/lib.rs:2430-2554 | whatever the server sends, the lines a join from a marker sends, pongs aside, are the `JOIN` and then one `AFTER` page after another: the first from the marker, each other from the last place the page before it named, which was as long as was asked; each within the page size and what is left of `maxLines`; and `AllUnread` is said if and only if the last page was shorter than was asked and nothing was refused |
| `JoinHistory.CatchUpLegs` | crates/e6irc-client/src/lib.rs:2496-2553 | the same of catching up from any page on |
| `JoinHistory.BurstReads` | crates/e6irc-client/src/lib.rs:2435-2473 | a burst that ends well is read to the first end of names for the channel, with no refusal in it; all of it but pings is held, in order; and the marker is the one the last `MARKREAD` for the channel gives |
| `JoinHistory.JoinAnswers` | crates/e6irc-client/src/lib.rs:2404-2428 | until a write fails, every ping read during a join is answered with its own token, in order, and nothing else is |
| `JoinHistory.Connection.NextJoinEvent` | crates/e6irc-client/src/lib.rs:2404-2428 | the next message of the exchange, pings answered or the failed write reported, and unreadable lines reported in place |
| `JoinHistory.Connection.AwaitJoined` | crates/e6irc-client/src/lib.rs:2438-2473 | the burst up to the end of names, with its refusals and the read marker |
| `JoinHistory.Connection.HistoryPage` | crates/e6irc-client/src/lib.rs:2587-2645 | one batch as read, among any other lines |
| `JoinHistory.Connection.LatestPage` | crates/e6irc-client/src/lib.rs:2558-2581 | the latest lines, within the server's limit |
| `JoinHistory.Connection.CatchUp` | crates/e6irc-client/src/lib.rs:2496-2553 | the paging loop and its five ways to end; what it asks for and when it says that all is loaded is `CatchUpLegs` |
| `JoinHistory.Connection.JoinAndReplay` | crates/e6irc-client/src/lib.rs:2430-2554 | the whole join |
| `UnreadPaging.UnreadIsExact` | crates/e6irc-client/src/lib.rs:2493-2553 | against a server that answers each request the join really sent, from a fixed record with distinct ids and with no more lines than its declared limit, among any other lines: the lines loaded, which are among the events returned after the join burst, are the oldest unread ones, in order and without gap or repeat, as many as unread, `maxLines` and ten pages allow; unread are, in a sorted record, exactly the rows stamped after the marker; and the outcome is `AllUnread` exactly when fewer are unread than both bounds |
| `UnreadPaging.PagesLoad` | crates/e6irc-client/src/lib.rs:2499-2553 | the same from any page on |
| `UnreadPaging.StopsAt` | crates/e6irc-client/src/lib.rs:2496-2515 | loading page by page stops where the bounds say |
| `UnreadPaging.ServedPage` | crates/e6irc-client/src/lib.rs:2603-2644 | a batch of rows among any other lines is read as exactly those rows, its last row naming where to go on |
| `UnreadPaging.AnswersHold` | crates/e6irc-client/src/lib.rs:2513-2546 | with distinct identifiers, a server that answers what it is asked sends the pages that are needed: each request names the place the page before it ended at |
| `UnreadPaging.AfterGives` | fuzz/fuzz_targets/chathistory_window.rs:76-93 | asking for what comes after a place the record knows gives the rows from there |
| `UnreadPaging.LatestIsExact` | crates/e6irc-client/src/lib.rs:2556-2581 | against such a server a join for the latest lines, or without a marker, loads the newest of the record, as many as it wants and the limit allows |
| `UnreadPaging.LinesAre` | crates/e6irc-client/src/lib.rs:2650 | the lines of full pages are their number times their size |
| `Timeline.PrependHistory` | web/src/irc-state.js:562-576 | the loop keeps the rows read backwards with a growing set of identities, and caps the oldest |
| `Timeline.KeptAreSurvivors` | web/src/irc-state.js:562-576 | which are, in order, exactly the rows that have no identity or one that no live row and no later row has |
| `Timeline.NoIdentityTwice` | web/src/irc-state.js:559-561 | no identity is kept twice or beside a live row of the same identity |
| `Timeline.AllStay` | web/src/irc-state.js:559-561 | where nothing repeats, nothing is dropped |
| `Timeline.NewestIsTheEnd` | web/src/irc-state.js:575 | the cap leaves the end of the rows, as long as it lets it be |
| `Timeline.SeamKeysMatchIff` | web/src/irc-state.js:578-585 | rows of our own match at the seam if and only if kind and text are the same, others if and only if the lines they came from are |
| `Timeline.LongestOverlap` | web/src/irc-state.js:595-608 | the overlap found is one, and no longer one exists |
| `Timeline.Keys` | web/src/irc-state.js:594 | the seam keys of the live rows, in order |
| `Timeline.MergeTimeline` | web/src/irc-state.js:593-610 | the result is the newest rows of: the history without its longest overlap, less the rows a later or live row repeats, followed by the live rows unchanged |
| `LoadEarlier.Page.OnLine` | web/src/main.js:1034-1061 | a line makes at most one row, with the cursor before it as its floor; the cap falls on the oldest row; and the rows stay those of every ring line since the oldest row's |
| `LoadEarlier.AppendRow` | web/src/main.js:1055-1061 | a row appended and the oldest dropped when that is one too many |
| `LoadEarlier.Page.OnSnapshot` | web/src/main.js:1649-1653 | a replay's end moves the cursor to the last line |
| `LoadEarlier.Page.OnReplay` | web/src/main.js:1526-1535 | a restarted ring empties the conversation |
| `LoadEarlier.Page.Through` | web/src/irc-state.js:612-622 | before the oldest row, or up to the cursor when there is none; and a position is only given when every row of the lines after it, and no other, is shown |
| `LoadEarlier.Page.OnHistory` | web/src/main.js:2721-2790 | whatever lines through the position the server still holds: put before the rows they give every message from the first of them on exactly once and in order, up to the cap, when no row was dropped meanwhile, and everything but the dropped rows otherwise |
| `LoadEarlier.NothingTwice` | web/src/main.js:2733-2740 | with distinct identities, history up to a line and the rows of the lines after it are everything once |
| `LoadEarlier.GapIff` | web/src/main.js:2721-2790 | history and the rows shown are everything if and only if no row of a line after the position is gone |
| `LoadEarlier.GoneAfterLine` | web/src/main.js:1034-1061 | a line that comes while history is fetched adds its row, and what the cap then drops is gone |
| `LoadEarlier.AnsweredAfterLines` | web/src/main.js:2721-2790 | any lines between the question and its answer: the page is then everything if and only if its rows and those the lines made are at most 500, and otherwise lacks exactly as many as are over |
| `LoadEarlier.LoadEarlier` | web/src/main.js:2721-2790 | the same from the question on, asked where the oldest row's floor or the cursor says |
| `LoadEarlier.LoseAll` | web/src/main.js:1034-1061 | while lines come in, the rows shown and those lost are together the rows there were and those made, and nothing is lost that there was room for |
| `LoadEarlier.GapIsReached` | web/src/main.js:2721-2790 | pages reached from the start by lines alone that lack any number of rows |
| `LoadEarlier.Advanced` | web/src/main.js:1059-1061 | after one more row and one dropped, the rows are again those of every line from some line on |
| `Rekey.RekeyBuffers` | web/src/irc-state.js:104-125 | re-keys the buffer objects in place and returns the pairs merged |
| `Rekey.TakeBuffer` | web/src/irc-state.js:107-123 | one buffer, merged into the one that has its new key or renamed, the others untouched |
| `Rekey.TakeInto` | web/src/irc-state.js:108-117 | a buffer merged into the one at its new key, the others untouched |
| `Rekey.TakeAnew` | web/src/irc-state.js:118-122 | a buffer renamed, the others untouched |
| `Rekey.Buffer.TakeIn` | web/src/irc-state.js:110-116 | lines appended, counts added, members set under their folds; what a whole re-keying leaves of them is `RekeyedByName` |
| `Rekey.Buffer.Rename` | web/src/irc-state.js:118-122 | the new key, and members under their folds |
| `Rekey.Buffer.SetAll` | web/src/irc-state.js:119-120 | members set one by one, a later one replacing an earlier of the same fold |
| `Rekey.RekeyedIsCanonical` | web/src/irc-state.js:100-125 | afterwards every buffer is under the fold of its display, the server's under its own key, no two under one, and members under the folds of their names, once each |
| `Rekey.RekeyedConserves` | web/src/irc-state.js:100-125 | lines are kept as a multiset, unread and mention totals exactly, and survivors plus merges are the buffers there were |
| `Rekey.RekeyedByName` | web/src/irc-state.js:100-125 | the buffer at each key afterwards is made of exactly the buffers whose new key that is: the first one's display, their lines in order, their counts added, and for each fold the member set last |
| `Rekey.MembersSurvive` | web/src/irc-state.js:110-122 | a folded name is a member of the buffer at a key afterwards if and only if a buffer with that new key had a member of that fold |
| `Rekey.RefoldedSets` | web/src/irc-state.js:119-120 | setting members under their folds keeps, for each fold, the one set last |
| `Rekey.RekeyingTwice` | web/src/irc-state.js:100-125 | a second pass changes nothing and merges nothing |
| `Rekey.LeavingRfc1459NeverMerges` | web/src/irc-state.js:36-50 | buffers keyed under `rfc1459` never merge under another mapping |
| `Rekey.NothingMerges` | web/src/irc-state.js:108-117 | buffers whose new keys differ are never merged |
| `Composer.SplitUtf8` | web/src/irc-state.js:525-543 | the loop makes exactly the pieces of the definition |
| `Composer.PiecesAreTheText` | web/src/irc-state.js:520-543 | for every text and budget the pieces put together are the text, and none is empty |
| `Composer.PiecesFit` | web/src/irc-state.js:520-543 | for every text and every budget of at least seven bytes every piece fits, despite the cut counted in UTF-16 units |
| `Composer.AlwaysFitsIff` | web/src/irc-state.js:520-543 | seven is exact: below it some text has a piece over the budget |
| `Composer.TooSmall` | web/src/irc-state.js:531-537 | such a text for each smaller budget |
| `Composer.ComposerRequests` | web/src/irc-state.js:549-557 | a message goes as typed when it fits one line or no line could hold any of it, else as one request for each piece of its body; and the requests are all read as those pieces if and only if no piece but the first begins with a slash (plain text) or a blank (the other forms) |
| `Composer.PiecesAreRelayed` | web/src/irc-state.js:549-557 | the pieces make up the body, none is empty, and with a budget of at least seven each is within it; what that means of the line others get is `LinesFit` |
| `Composer.LinesFit` | web/src/irc-state.js:504-557 | the line others get for a piece, built as a text from its source, command, target and body, `/me` wrapped as an action, is within 510 bytes whenever user and host are within their reserved sizes and the nick is the known one or of the customary length |
| `Composer.WholeIff` | web/src/irc-state.js:549-557 | a message goes as typed if and only if its line would be within 510 bytes behind the longest such source, or no byte of it would be |
| `Composer.CutIff` | web/src/irc-state.js:531-533 | a piece is cut right after its last space if any space is in its second half, and at its end otherwise |
| `Composer.SizesAreEncoded` | web/src/irc-state.js:511-530 | sizes are those of the encodings: bytes of UTF-8, units of UTF-16 |
| `Composer.AllReadBackIff` | web/src/irc-state.js:468-557 | the requests of a message are all read as its pieces if and only if no piece after the first begins so |
| `Composer.SlashIsCutOff` | web/src/irc-state.js:525-557 | to every target with a budget of four there is a plain text whose second piece begins with a slash, so that its request is a command |
| `Composer.BlankIsCutOff` | web/src/irc-state.js:525-557 | and in the other forms one whose second piece begins with a blank, which its request loses |
| `Composer.RequestsFor` | web/src/irc-state.js:552-556 | one request, or one for each piece |
| `Composer.ReadsBackIff` | web/src/irc-state.js:468-497 | a piece's request is read back as that piece to that target if and only if the piece does not begin with a slash (plain text) or a blank (the other forms) |
| `Composer.TargetIsAWord` | web/src/irc-state.js:483-490 | the target of an addressed form is one non-empty word |
| `JsonIdentity.IdentityIsIdentity` | web/src/api-contract.js:154-160 | two values have one identity text if and only if they print alike, an infinity printing as null, whatever order their fields came in; values with no infinity, if and only if they are equal |
| `JsonIdentity.CodePointsOfText` | web/src/api-contract.js:181-187 | a text of so many characters, in UTF-16, has so many code points |
| `JsonIdentity.IdentityApart` | web/src/api-contract.js:154-160 | identity texts of values with no infinity are prefix-free behind anything that can follow a value |
| `JsonIdentity.QuotedApart` | web/src/api-contract.js:157 | quoting a string is injective and self-delimiting, for every sequence of UTF-16 units, paired surrogates and lone ones |
| `JsonIdentity.UniqueByIdentity` | web/src/api-contract.js:199-201 | the set-size test for unique items is exactly that no two items print alike; for items with no infinity, that no two are equal |
| `JsonIdentity.KeysAscend` | web/src/api-contract.js:157 | keys are enumerated from the lowest up by UTF-16 unit, none twice |
| `ApiSchema.ReadsExactly` | web/src/api-contract.js:162-225 | for every schema and value: the value is returned unchanged when the schema accepts it, and refused when it does not |
| `ApiSchema.ReadTwice` | web/src/api-contract.js:162-225 | what is read is what was sent, and reading it again gives it again |
| `ApiSchema.UniqueIsDifferent` | web/src/api-contract.js:194-203 | where no schema names an infinity, a list is accepted if and only if it and its items fit and no two that must differ are equal |
| `ApiSchema.AcceptedIsFinite` | web/src/api-contract.js:143-152 | what such a schema accepts has no infinity in it |
| `ApiSchema.InfinityIsTakenForNull` | web/src/api-contract.js:154-160 | where one does, null and a number too large for one, each accepted, are refused as repeats of each other |
| `ApiSchema.OneAccepts` | web/src/api-contract.js:165-176 | one branch reading the value is one branch accepting it and no other |
| `ApiSchema.ObjectIsAccepted` | web/src/api-contract.js:207-225 | an object is accepted if and only if its type is said, it has every required field, and every field it has is accepted by the schema it is named with or the one for the rest |
| `ApiSchema.ListIsAccepted` | web/src/api-contract.js:196-204 | a list: its type, both bounds on its length, no two items that print alike where that is said, and every item accepted |
| `ApiSchema.TextIsAccepted` | web/src/api-contract.js:181-190 | a text: its type and value, both bounds on its code points, and the pattern |
| `ApiSchema.NumberIsAccepted` | web/src/api-contract.js:191-195 | a number: a type that takes it, its value, and both bounds |
| `ApiSchema.SimpleIsAccepted` | web/src/api-contract.js:177-180 | null and the truth values: type and value alone |
| `ApiReader.Parse` | web/src/api-contract.js:162-225 | the recursive reader computes exactly that reading |
| `ApiReader.ParseObject` | web/src/api-contract.js:209-224 | named fields, then the rest, into a new object |
| `ApiReader.ParseItems` | web/src/api-contract.js:202-203 | items one by one, stopping at the first refused |
| `ApiReader.ParseBranches` | web/src/api-contract.js:165-173 | what the branches read, of those that read it |
| `ApiReader.HaveUniqueTexts` | web/src/api-contract.js:199-201 | the number of different texts against the number of items |
| `ApiReader.Validate` | web/src/api-contract.js:81-141 | a schema is usable exactly when it and every schema in it keep the rules |
| `ApiReader.ValidateFields` | web/src/api-contract.js:136-140 | the schemas of an object's fields |
| `ApiReader.IdentityOf` | web/src/api-contract.js:154-160 | builds the identity text |
| `ApiReader.SortedKeys` | web/src/api-contract.js:157 | sorts keys by repeatedly taking the least |

## Left out

- Sockets, TLS, timers and tasks: reads are a sequence of lines, failures and silences, and time is a number given with each read.
- SCRAM computations and SASLprep: the client's messages and the signature's verdict are parameters of `SaslRegistration`; what is proved holds for any.
- The bearer-token and unauthenticated registrations: they share every wait with the password registration and add no exchange of their own.
- What a failed registration reports after the server went away, and diagnostics' wording: errors are kinds.
- Network naming rules and server times in `JoinHistory`: given as functions; following `CAP` lines while joining is the ledger's and is modelled there.
- The edge's own frames: `CoreFrames` builds the core's table of payloads as one instance of the general result.
- IPv6 flow labels and scopes of socket addresses: the writer carries neither.
- Forgetting accounts and evicting rings of `hot_history.rs`: they remove whole rings or rebuild one.
- `History.CoveredIsExact`: requires distinct identifiers and the ring's order, as the record's primary key and the ring's own invariant provide.
- `UnreadPaging.UnreadIsExact`: the server answers every request; refused and unanswered pages and failed writes are covered by `JoinHistory` alone.
- `LoadEarlier.Page.OnHistory`: no local echoes, renames or merges between asking and being answered; history the server cannot bound is `Timeline.MergeTimeline`.
- Rendering, unread counting and notifications of the web client.
- `ApiSchema.ReadsExactly`: objects are finite maps, so names every object inherits are not fields; a number that is not an infinity is what it prints as, so zero and minus zero are one.
- Regular expressions and number parsing of schemas: given as functions.
- Schemas that are not records of the keywords' own types: the first checks on raw JSON refuse them before anything modelled here.
- The daemon's core, the bouncer, the terminal client and everything under `tools/`.
