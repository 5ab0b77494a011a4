# Proofs about the Go toolkit

A Dafny model of the parts of the toolkit whose behaviour is hard to see from the code, with
proofs of what they promise. `dafny verify dfyconfig.toml` checks everything.

A Go `string` or `[]byte` is a `string` here, one `char` per byte; event strings are read by Unicode
character. A Go map iteration visits its keys in an arbitrary order. A panic is an outcome, and a recovered panic loses what the code
loses.

**Wildcard masks** (`Strings`, `Masks`). `Glob` says recursively what a mask means. The greedy
matcher, which remembers one star only, decides exactly that relation: between two stars the
text has been placed as far left as it goes, so the earlier star can be forgotten. Its main loop
is counted and bounded. The four fast paths, the in-place scan of a mask list with its early
return, and the deprecated matcher are all related to the same relation; the deprecated one
reads a mask that way exactly when it has no star between two other bytes. The comment on the list
matcher says spaces are ignored; the code trims them at the ends of a mask only, and the two agree
exactly on masks with no space left inside (`SpacesIgnoredIff`).

**Log queries** (`LogFormat`, `LogChunks`, `LogScan`, `LogQuery`, `LogWriter`, `LogWritten`,
`Calendar`). `Select` is the naive query: every line, parsed, filtered, in order. The engine cuts
files into chunks, skips chunks by a time range, jumps by substring search, and stops at a global
limit; on well-formed files (`FileOk`) none of that shows. Over files that the encoder wrote the
query gives back the records that were written (`WriteAndQuery`). Where a promise fails the exact condition is
proved:
- chunks tile a file exactly when the last inner cut falls inside the data (`TilesIff`); lines
  that are not too long guarantee it (`ShortLinesFit`), and a large file without a newline breaks it
  (`EndlessLineNeverFits`);
- a chunk that reaches past the data yields nothing, and so do all behind it: the engine sees a file
  up to `Reached`, which is all of it exactly as `ReachedIff` says, always below three times
  `DATA_SIZE` bytes, and not for the files of `LostBehindLongLine`;
- in message mode a hit after the last newline makes the next search slice past the chunk; the
  recovered panic loses all results of the chunk unless the limit came first (`ChunkExactly`,
  `RunsOffIff`, and `HitOnLastLineLosesAll` and `LostOnNewYear` for inputs); the empty pattern always
  ends like that (`EmptyPatternLosesAll`);
- a printed entry parses back exactly when its time, level and message have no tab
  (`PrintedParsesIff`).

The comment on `Filters` (`log/encoder/text_query.go:50`) promises a substring test for
"message"; the code compares exactly (lines 352-356) and the model follows it: the two keep the
same entries exactly without such a filter (`FiltersAsDocumentedIff`). The header comment
(line 4) says the index of "time" decides the time column; the code demands index 0 (line 95).

**JSON-RPC server** (`RpcPool`, `RpcCodec`, `RpcProtocol`, `RpcSteps`, `RpcTheorems`). Any number
of connections, each with a reader loop and handler goroutines, share two intrusive free lists.
One event is one critical section, or code on objects its goroutine owns; a run is any sequence
of events. One invariant ties together the heap, the free lists, object ownership, the `pending`
maps, the sending locks and the output; every step keeps it. From it follow the id echo that
section 5 of the JSON-RPC 2.0 Specification asks for, at most one answer per request,
conservation of requests, safe recycling and freedom from deadlock. A handler error with an empty
text is sent as a success, because a response says "no error" by an empty text:
`AnswersCarryTheirIds` states exactly when an error member is written, and `EmptyErrorIsResult`
is a run in which it is not. The critical sections themselves are also proved as methods on linked objects.

**Observable** (`Observables`, `ObservableObject`, `ObservableRuns`). The loop that deletes from a
list while ranging over it is proved equal to `Sweep`, for every list. It removes what it should exactly when no two
equal functions stand side by side (`SweepIff`), and panics exactly when the last function is
removed and stood earlier too (`RangePanics`); pairwise distinct functions exclude both, and then
a trigger whose callbacks leave the registry alone does what it should (`TriggerMeaning`). Over all
interleavings, re-entrant calls included, a record registered by `Once` is called at most once.

**Encryption at rest** (`Secrets`). PKCS#7 padding (section 6.3 of RFC 5652), CBC chaining
(section 6.2 of NIST SP 800-38A) and the IV in front, over any block function that can be
inverted. The unpadding code looks at one byte of the padding; `PadOfUnpadIff` says which whole
blocks survive the way back. On whole blocks it cannot slice in front of the data.

**Colours** (`Colors`). Codes, names and the two maps that `init` fills in an arbitrary order.
A number from 2^63 on prints, but does not read back. The trimming of "0x" never happens, because
the text was upper-cased before (`HexPrefixRefused`), although the comment beside it says that the
hexadecimal prefix is dropped. What the table of names must satisfy is `PaletteOk`: names of
letters, different even without case. Codes may repeat, as those of Aqua and Cyan do.

## Model

| member | source | states |
|---|---|---|
| Masks.StarMeaning | utils/utils.go:139-143 | a star matches exactly the values some suffix of which matches the rest of the mask |
| Masks.LiteralMeaning | utils/utils.go:144-147 | star-free text must be read off the front of the value, and the rest of the mask decides the rest |
| Masks.ForgetEarlierStar | utils/utils.go:139-152 | once the text between two stars is placed, forgetting the earlier star neither loses nor adds a match |
| Masks.MeetStar | utils/utils.go:139-143 | recording a new star keeps the invariant that the answer for the rest is the answer for the whole |
| Masks.Mismatch | utils/utils.go:148-156 | at a mismatch no match begins at the backtrack position, so moving it one byte loses nothing; without a star there is no match at all |
| Masks.Finish | utils/utils.go:159-164 | with the value used up the mask matches exactly when only stars are left |
| Masks.MatchIterative | utils/utils.go:130-165 | the greedy matcher returns true exactly when the glob relation holds, and its main loop runs at most (len(value)+1)(len(expr)+1) turns |
| Masks.StarsAtTheEnds | utils/utils.go:111-123 | with stars at the ends only, a mask means equality, prefix, suffix or substring |
| Masks.MatchSingle | utils/utils.go:98-128 | every fast path and the fallback give the answer of the glob relation; empty arguments never match |
| Masks.TrimToken | utils/utils.go:66-73 | the two index loops cut exactly the spaces at both ends |
| Masks.CheckToken | utils/utils.go:75-91 | one token is an include hit or an exclude hit as the rule for masks says |
| Masks.Match | utils/utils.go:51-96 | the in-place scan decides: some include mask matches and no exclude mask does, over the list split at commas |
| Masks.ExcludeAdded | utils/utils.go:81-85 | appending a '!' mask to any list takes away exactly the values the mask behind the '!' matches |
| Masks.IncludeAdded | utils/utils.go:86-91 | appending an include mask adds exactly the values it matches, but none that an exclude mask of the list names |
| Masks.OneMaskList | utils/utils.go:53-95 | a list of one include mask means that mask, of one exclude mask nothing; empty arguments never match |
| Masks.MatchDependsOnMaskSet | utils/utils.go:41-44 | two lists with the same set of trimmed masks give the same answer, so order, repetition and padding do not count |
| Masks.TrimPadding | utils/utils.go:66-73 | padding a mask with spaces on either side does not change what is left of it after trimming |
| Masks.TrimSpacesMeaning | utils/utils.go:66-73 | trimming takes away spaces at the two ends and nothing else |
| Masks.SpacesIgnoredIff | utils/utils.go:41-45 | ignoring the spaces of a mask, as documented, gives the code's answer on every value exactly when all its spaces stand at its ends |
| Masks.InnerSpaceCounts | utils/utils.go:66-79 | an input on which they differ: ab and the mask a b |
| Masks.Any | utils/utils.go:174-216 | the deprecated matcher accepts exactly when one comma part hits under its own reading of a mask |
| Masks.LegacyAdded | utils/utils.go:178-213 | appending a mask to a deprecated list adds the values it matches, appending its negation adds all others |
| Masks.LegacyMeansGlob | utils/utils.go:189-206 | a deprecated mask means the glob mask that is left when the stars between other bytes are dropped |
| Masks.LegacyMaskAgrees | utils/utils.go:189-206 | for a mask without inner stars that reading is the glob relation; LegacyMaskAgreesIff adds that no other mask has this |
| Masks.LegacyAgrees | utils/utils.go:172-216 | on non-empty values and lists without '!', padding and inner stars both matchers agree |
| Masks.LegacyMaskAgreesIff | utils/utils.go:189-206 | the deprecated reading of a mask is the glob relation on every non-empty value exactly when no star stands between two other bytes |
| Masks.GlobSum | utils/utils.go:133-165 | values matched one after the other are matched by the masks one after the other |
| Masks.InnerStarDiffers | utils/utils.go:193-203 | an input of the failing kind: axb and the mask a*b |
| Strings.JoinOfSplit | utils/utils.go:178 | splitting at a separator loses nothing |
| Strings.SplitOfJoin | utils/utils.go:178 | splitting joined separator-free pieces gives the pieces back |
| Strings.SplitSum | utils/utils.go:178 | a separator between two texts keeps their pieces apart |
| Strings.PiecesLackSeparator | log/encoder/text_query.go:317 | no piece of a split holds the separator, of however many bytes it is |
| Strings.ContainsIff | log/encoder/text_query.go:345 | a text contains another exactly when it is that text with something before and behind |
| LogFormat.FieldMeaning | log/encoder/text_query.go:321-328 | a field holds the part at the last position its name stands at |
| LogFormat.ParseLineMeaning | log/encoder/text_query.go:316-330 | a line of separator-free parts is refused exactly when there are fewer parts than names, or no names; otherwise the fields are the names, each with its part |
| LogFormat.LinesSplit | log/encoder/text_query.go:294-302 | the lines of a stretch are the lines before and after any line start in it |
| LogFormat.NotKept | log/encoder/text_query.go:345-347 | a line without the wanted text is never kept |
| LogFormat.OnlyTime | log/encoder/text_query.go:333-341 | a request without filters keeps exactly the entries without a time and those whose first 24 bytes of time decode to one between the bounds |
| LogFormat.LevelAdded | log/encoder/text_query.go:342-344 | a wanted level keeps the entries of exactly that level |
| LogFormat.MessageAdded | log/encoder/text_query.go:345-347 | a wanted message keeps the entries whose message has it somewhere |
| LogFormat.FilterAdded | log/encoder/text_query.go:348-357 | one more filter, on any field, keeps the entries with exactly its value there, an absent field counting as empty |
| LogFormat.BoundMeaning | log/encoder/text_query.go:251-252 | a bound is the time its first 24 bytes decode to, blanks around the text apart, or the zero time |
| LogFormat.SepMeaning | log/encoder/text_query.go:78-81 | the separator is a tab unless the request names one |
| LogFormat.SelectMeaning | log/encoder/text_query.go:305-310 | the naive query takes, in order, the lines that parse into an entry that passes, and no others |
| LogFormat.TakeMeaning | log/encoder/text_query.go:268 | the limit takes the first so many entries, or all if there are fewer |
| LogFormat.FiltersAsDocumentedIff | log/encoder/text_query.go:348-357 | for a request whose filters leave the time alone and do not contradict its level, code and documentation keep the same entries exactly when there is no filter on the message |
| LogFormat.MessageFilterIsExact | log/encoder/text_query.go:348-357 | a filter and an entry on which they differ |
| LogChunks.FindCut | log/encoder/text_query.go:200-207 | the byte scan stops just after the first newline from its start on or at the end, and stays put beyond the end |
| LogChunks.SplitDataToChunks | log/encoder/text_query.go:189-214 | the list of ranges from boundary to boundary, for every input and positive chunk count |
| LogChunks.ChunksMeaning | log/encoder/text_query.go:190-211 | the ranges follow each other from 0 to the end, each but the last taking its share of the length and then what is left of the line it stops in |
| LogChunks.ChunkNumMeaning | log/encoder/text_query.go:169-172 | as many chunks as dataSize goes into the length, and at least one |
| LogChunks.TilesIff | log/encoder/text_query.go:189-214 | the ranges are in order, in bounds, contiguous and cut at lines exactly when the last inner nominal cut falls inside the data |
| LogChunks.ShortLinesFit | log/encoder/text_query.go:194-211 | a bound on line length under which the chunks tile |
| LogChunks.EndlessLineNeverFits | log/encoder/text_query.go:194-211 | an input that breaks the tiling: a file without a newline that is large enough for three chunks |
| LogChunks.NominalSize | log/encoder/text_query.go:169-172 | for a large file the chosen chunk count makes every nominal chunk at least dataSize bytes |
| LogScan.ChunkExactly | log/encoder/text_query.go:258-314 | for any data and any pattern, a chunk that is not skipped yields the naive result up to the limit, or nothing when the search runs past the chunk; the empty pattern adds an empty last line |
| LogScan.JumpLands | log/encoder/text_query.go:273-288 | the lines between two landings of the search hold nothing that would be kept |
| LogScan.JumpIsWalk | log/encoder/text_query.go:272-303 | substring jumping yields the entries of walking every line, in order; the empty pattern lands on one more, empty line at a chunk's end |
| LogScan.RunsOffIff | log/encoder/text_query.go:273-288 | the search slices past the chunk exactly when the text after the last newline holds the pattern |
| LogScan.EmptyPatternLosesAll | log/encoder/text_query.go:272-288 | with the empty pattern a searched chunk returns nothing unless it reaches the limit |
| LogScan.HitOnLastLineLosesAll | log/encoder/text_query.go:245-288 | for every query for a text with the default columns and every stamp inside its bounds: a kept line, then an unterminated line with the text; the naive result has one entry, the chunk returns none |
| Calendar.LostOnNewYear | log/encoder/text_query.go:245-288 | such an input under the real layout, with stamp and bounds 2024-01-01T00:00:00.000Z |
| LogScan.RangeSpans | log/encoder/text_query.go:224-243 | on a well-formed file the scan does not panic, and a range it reports spans the time of every line of the chunk |
| LogScan.RangeExactly | log/encoder/text_query.go:224-243 | the range reported of a well-formed chunk is from the time of its first line to that of its last, unless a Z and a tab stand behind the last stamp, when none is reported |
| LogScan.KeptInTime | log/encoder/text_query.go:332-341 | a line that is kept carries a time inside the request |
| LogScan.SkipIsSound | log/encoder/text_query.go:251-256 | no line of a skipped chunk passes the filters |
| LogScan.ChunkIsNaive | log/encoder/text_query.go:245-314 | on a well-formed file a chunk returns and counts the naive result of its lines |
| LogScan.ChunksAreNaive | log/encoder/text_query.go:176-185 | consecutive chunks under one limit yield the naive result of the lines they cover, up to the first chunk that reaches past the data |
| LogScan.FileIsNaive | log/encoder/text_query.go:163-186 | a well-formed file yields the naive result of the lines that are reached |
| LogScan.ReachedIff | log/encoder/text_query.go:189-214 | a file is reached in full exactly when the last inner nominal cut falls inside it or a cut falls on its very end |
| LogScan.SmallIsReached | log/encoder/text_query.go:169-174 | files of fewer than three times dataSize bytes are always reached in full |
| LogScan.LostBehindLongLine | log/encoder/text_query.go:196-208 | inputs that lose lines: a long first line whose end lies so late that the next nominal cut jumps over the end of the file |
| LogQuery.TimeParser.Parse | log/encoder/text_query.go:216-222 | copies 24 bytes into the buffer and decodes exactly them |
| LogQuery.Manager.GetChunkTimeRange | log/encoder/text_query.go:224-243 | the backward scan reports the last hit, or runs off the front of the file |
| LogQuery.Manager.ParseLogLine | log/encoder/text_query.go:316-330 | names are paired with parts; too few parts or no names is an error |
| LogQuery.Manager.MatchFilters | log/encoder/text_query.go:332-359 | true exactly when time, level, message and all other filters hold, in whatever order they are visited |
| LogQuery.Manager.WalkLines | log/encoder/text_query.go:268-311 | the line loop yields the first entries of the naive query up to the room left, and counts them |
| LogQuery.Manager.LineAround | log/encoder/text_query.go:278-285 | from a hit to both ends of its line |
| LogQuery.Manager.JumpLines | log/encoder/text_query.go:268-311 | the search loop yields the landed lines that are kept up to the room left, and says when it panics |
| LogQuery.Manager.ProcessChunk | log/encoder/text_query.go:245-314 | result and new total for every chunk, recovered panics included |
| LogQuery.Manager.ProcessLogFile | log/encoder/text_query.go:163-186 | chunks in order until the total reaches the limit |
| LogQuery.Manager.ProcessFiles | log/encoder/text_query.go:143-160 | files in order until the limit; an unreadable file fails the query |
| LogQuery.Manager.constructor | log/encoder/text_query.go:61-86 | a manager serves its request, starts at total 0 and has a positive limit; directory and file prefix are the path cut at its last slash |
| LogQuery.FilesAreNaive | log/encoder/text_query.go:143-186 | over well-formed sorted files the result is the first entries, in file order, of the reached lines that parse and pass |
| LogQuery.AllAreReached | log/encoder/text_query.go:143-186 | if every file is reached in full, those are all lines of all files |
| LogQuery.FailsIff | log/encoder/text_query.go:146-157 | a query fails exactly when the readable files before an unreadable one leave room below the limit, whatever they hold |
| LogQuery.AddedIsNaive | log/encoder/text_query.go:143-186 | what well-formed files add to the total is the length of their naive result, up to the limit |
| LogQuery.QueryLogs | log/encoder/text_query.go:93-110 | the whole query equals the naive one on well-formed files; a wrong first field or a bad bound is refused, a path without a slash panics |
| LogWriter.TextEncoder.FormatHeader | log/encoder/text_encoder.go:84-96 | time and level as two cells, then whatever a custom header function appends |
| LogWriter.TextEncoder.EncodeEntry | log/encoder/text_encoder.go:98-130 | the line is header, message and all fields, each cell followed by a tab, for some order of the field map |
| LogWriter.PrintedCells | log/encoder/text_encoder.go:106-125 | a printed line cut at its tabs gives time, level, the message if it has a key, and the cells of the fields |
| LogWriter.FieldMeaningInLine | log/encoder/text_encoder.go:113-123 | a key and its value are neighbours: the text of the last field given for the key or, if that is empty, the rendering of its interface value |
| LogWriter.FieldKeys | log/encoder/text_encoder.go:101-104 | the keys written are those of the fields |
| LogWriter.HeaderInLine | log/encoder/text_encoder.go:91-94 | what a custom header function appends stands between level and message |
| LogWriter.PlainLine | log/encoder/text_encoder.go:84-125 | without a custom header the line is nothing but cells |
| LogWriter.PrintedParsesIff | log/encoder/text_query.go:316-330 | a printed entry parses back to its time, level and message exactly when none of them has a tab, whatever fields follow |
| LogWriter.RoundTrip | log/encoder/text_encoder.go:98-130 | the printed text is one line and parses back, for every order of the fields |
| LogWritten.PlainCellsHideNothing | log/encoder/text_query.go:233-234 | between cells that do not end in a timestamp the scan finds no timestamp with a tab |
| LogWritten.TextIsOk | log/encoder/text_query.go:224-243 | lines with ordered stamps make a file the engine reads soundly |
| LogWritten.LinesOfOpenText | log/encoder/text_query.go:294-302 | the lines of a text are those between its newlines, a last one without a newline included |
| LogWritten.EncodedIsWritten | log/encoder/text_encoder.go:98-130 | every line that EncodeEntry may write with a message key and no custom header is such an entry with a newline |
| LogWritten.QueryOfWritten | log/encoder/text_encoder.go:98-130 | over daily files of plain entries as the encoder writes them, a query returns the records of the first entries that pass |
| LogWritten.WriteDay | log/encoder/text_encoder.go:98-130 | encoding the entries of a day, line by line, gives a file of plain entries, one for each |
| LogWritten.WriteAndQuery | log/encoder/text_query.go:93-110 | logging days with the encoder and querying the files: the reply holds the records of the first logged entries that pass, if the files are reached in full |
| Calendar.DecodeIsLayout | log/encoder/text_encoder.go:16 | the real layout ends in Z and holds no tab or newline, as chunk skipping needs |
| Calendar.CodeOrders | log/encoder/text_encoder.go:16 | decoded times compare as calendar times do |
| Calendar.DecodeOfPrint | log/encoder/text_encoder.go:86 | a time printed in the layout decodes to itself |
| Calendar.DecodeIff | log/encoder/text_encoder.go:16 | what decodes is a printed time of the calendar, with a point or a comma before the milliseconds |
| Calendar.LeapYears | log/encoder/text_encoder.go:16 | the leap years and month lengths are those of the Gregorian calendar |
| Calendar.PrintOrders | log/encoder/text_encoder.go:86 | printed times decode in the order of the calendar |
| RpcPool.AcquireKeeps | wsrpc/server.go:541-552 | taking an object zeroes it and leaves an acyclic list without it |
| RpcPool.ReleaseKeeps | wsrpc/server.go:554-559 | giving back an object that is not free keeps the list acyclic and the contents of all objects |
| RpcPool.ListIsUnique | wsrpc/server.go:541-559 | the linked list cannot be read in two ways |
| RpcPool.FreeList.Get | wsrpc/server.go:561-572 | the linked object is taken off the list, zeroed and unlinked, or is new |
| RpcPool.FreeList.Free | wsrpc/server.go:574-579 | the linked object becomes the head of the list and keeps its contents |
| RpcCodec.ServerCodec.ReadRequestHeader | wsrpc/codec.go:71-89 | a header gets the next number, its id waits under it, and a failed read changes nothing |
| RpcCodec.ServerCodec.WriteResponse | wsrpc/codec.go:128-149 | a pending number is answered once, with its own id unchanged or null, and with the result or the error; an unknown number changes and writes nothing |
| RpcCodec.SendResponse | wsrpc/server.go:431-447 | the answer is written under the request's own id, unchanged or null, with its own outcome and a recycled response object |
| RpcProtocol.LedgerAdmit | wsrpc/codec.go:82-87 | reading a header keeps the books of numbers, pending ids and outputs |
| RpcProtocol.LedgerTake | wsrpc/codec.go:129-136 | taking an id out of `pending` turns one waiting request into one attempt |
| RpcProtocol.LedgerEmit | wsrpc/codec.go:138-148 | the output written is the one its request is owed |
| RpcSteps.KeepsDispatch | wsrpc/server.go:489-530 | handing a request to a goroutine, or rejecting it in the loop, keeps the invariant |
| RpcSteps.KeepsTake | wsrpc/server.go:440-441 | looking up and removing the number under the lock keeps the invariant |
| RpcSteps.StepKeeps | wsrpc/server.go:466-579 | every step of every goroutine keeps the invariant |
| RpcSteps.RunKeeps | wsrpc/server.go:466-539 | the invariant holds after every interleaving |
| RpcTheorems.LogIsHeaders | wsrpc/server.go:474-476 | the history of a connection lists the ids of the headers its reader read |
| RpcTheorems.OutcomesAreEvents | wsrpc/server.go:489-530 | the outcome remembered for a request is what its own handler returned or what it was rejected with in the run |
| RpcTheorems.DecisionMeaning | wsrpc/server.go:490-530 | a rejected request came to an error with its text, a handled one to what its handler returned |
| RpcTheorems.AnswersCarryTheirIds | wsrpc/codec.go:128-149 | every response carries the very id of the request it answers, or null, and what that request's handler or rejection came to: a reply as result, a non-empty error text as error, an empty error text as a result |
| RpcTheorems.EmptyErrorIsResult | wsrpc/server.go:435-438 | a run of nine events in which a handler fails with an empty text and the only output is a result |
| RpcTheorems.NoDoubleAnswer | wsrpc/codec.go:130-135 | no request is answered twice |
| RpcTheorems.CountsAreEvents | wsrpc/codec.go:128-149 | the attempts and outputs a connection remembers are as many as the run's take and emit events for it |
| RpcTheorems.Conservation | wsrpc/codec.go:24-29 | headers read are entries in `pending` plus answers that took their id out of it, and the responses written are those of them whose encoding went well |
| RpcTheorems.QuietMeansAnswered | wsrpc/server.go:516-531 | when nobody works for a connection any more, nothing is pending and every header had its attempt |
| RpcTheorems.RequestsAreSafe | wsrpc/server.go:541-559 | no request object of a handler goroutine is free or held by another one, and it keeps its own number |
| RpcTheorems.ReadersRequestsAreSafe | wsrpc/server.go:632-637 | a request object in a reader loop's hands is not free, not held by another reader or by a handler goroutine, and after the header was read has its number |
| RpcTheorems.ResponsesAreSafe | wsrpc/server.go:561-579 | no response object is free and held, or held twice |
| RpcTheorems.NoStaleError | wsrpc/server.go:434-439 | what a response says when it is sent is what its own request came to in the run, and its number is pending |
| RpcTheorems.NoDeadlock | wsrpc/server.go:431-447 | every handler goroutine can move, or the holder of the lock it waits for can |
| RpcTheorems.ReadersMove | wsrpc/server.go:474-531 | every reader loop that is not closed can move, or the goroutine it needs can |
| Observables.SweepIff | observable/helpers.go:36-48 | deleting while ranging removes all matches and keeps the order of the rest exactly when no two matches are neighbours |
| Observables.SweepOfRun | observable/helpers.go:38-42 | of a run of matches every second one survives, and what follows is not disturbed |
| Observables.DistinctIsSafe | observable/helpers.go:36-48 | pairwise distinct functions: removal is exact and never panics |
| Observables.NeighbourSurvives | observable/helpers.go:38-42 | an input with a survivor: of two equal neighbours one stays |
| Observables.MatchAtTheEndPanics | observable/helpers.go:38-42 | an input that panics: the same function twice |
| Observables.RemoveInPlace | observable/helpers.go:38-42 | the loop over the shifted array with its stale tail leaves exactly the sweep, and panics exactly on the stale last element |
| ObservableObject.Observable.AddCallback | observable/helpers.go:9-23 | one new record per name, each at the end of its list, all different; an argument that is not a function panics and changes nothing |
| ObservableObject.Observable.Remove | observable/helpers.go:36-48 | the new registry, with an emptied key deleted, and when it panics |
| ObservableObject.Observable.CleanEvent | observable/helpers.go:50-60 | the event keeps no callbacks, every other event its list; "*" leaves no event |
| ObservableObject.Observable.Off | observable/observable.go:71-89 | the named lists are emptied or relieved of the one function, "*" empties all, more functions panic at the first name |
| Observables.RemoveMeaning | observable/helpers.go:36-48 | when the functions of every event differ, removal takes that function from that event, keeps all else, and keeps them different |
| Observables.OffWholeEvents | observable/observable.go:77-80 | without a function the named events lose their lists; a "*" among the names wipes every event |
| Observables.OffOneFunction | observable/observable.go:77-83 | with a function, exactly that one leaves the named events, repeated names included, and no other event changes |
| Observables.OffMeaning | observable/observable.go:71-89 | from the event string on: all events for "*", else the named lists emptied, or relieved of the one function; more functions panic at the first name |
| Observables.WordAlone | observable/helpers.go:10 | text without blanks is one name |
| Observables.WordsApart | observable/helpers.go:10 | a blank anywhere in an event string separates names and adds none |
| Observables.SpacesAre | observable/helpers.go:10 | the blanks are the white space of Unicode, by code point |
| Observables.NoWords | observable/helpers.go:10 | an empty event string has no names |
| ObservableObject.Observable.Once | observable/observable.go:92-95 | records that count as unique and were not called |
| ObservableObject.Observable.GetCallbacks | observable/helpers.go:63-79 | the snapshot of the list without spent records, and which records it spends |
| ObservableObject.Observable.DispatchEvents | observable/helpers.go:82-97 | with callbacks that leave the registry alone: which callbacks are called, in order, which are spent, the registry afterwards, and whether a removal panicked |
| Observables.RetireMeaning | observable/helpers.go:91-94 | such a dispatch does not panic when functions differ, calls its whole snapshot, removes exactly the once-callbacks in it, and touches no other event |
| ObservableObject.Observable.Trigger | observable/observable.go:48-68 | with such callbacks: called are the unspent callbacks of the words of the event and those for "*", none left out, and no panic when functions differ |
| Observables.TriggerMeaning | observable/observable.go:57-66 | such a trigger does not panic when functions differ, calls exactly the unspent callbacks of the events it dispatches, leaves only lasting ones there and other events alone |
| Observables.TriggerOnce | observable/observable.go:57-66 | it calls no once-callback twice, however often an event is named |
| Observables.TriggerCalls | observable/observable.go:57-66 | from the event string on: who is called, and what every list keeps |
| Observables.TriggerOrder | observable/observable.go:57-66 | the callbacks of different words are called word by word, each list in order, those for "*" at the end |
| Observables.AddedAtEnd | observable/helpers.go:18-22 | an event's list after an addition is what it was, then its new records |
| Observables.NewForMeaning | observable/helpers.go:20-22 | the new records of an event are those made for its name, in the order of the names |
| Observables.SnapshotOnce | observable/helpers.go:68-77 | no snapshot hands out a once-record twice |
| Observables.SnapshotIsRest | observable/helpers.go:68-78 | a snapshot is every record that is not spent, in registration order |
| ObservableRuns.RunKeeps | observable/helpers.go:82-97 | in every run no once-record is handed out twice and no handed record is called twice |
| ObservableRuns.OnceIsCalledOnce | observable/observable.go:91-95 | in every run, re-entrant calls included, a once-record is called at most once |
| ObservableRuns.RegistryAlwaysOk | observable/helpers.go:43-47 | in every run no event maps to an empty list, and every list holds records of its own event in registration order |
| ObservableRuns.DispatchGetsTheRest | observable/helpers.go:82-84 | after every run a dispatch is handed the unspent records of its event, in the order in which they were registered |
| ObservableRuns.AddDoes | observable/helpers.go:18-22 | registering puts one record for every name, with the next ids, behind those of that name |
| ObservableRuns.RemoveDoes | observable/helpers.go:26-34 | removing takes the function from that event and leaves the others |
| ObservableRuns.CleanDoes | observable/helpers.go:50-60 | cleaning empties the event, or all of them |
| ObservableRuns.InvokeDoes | observable/helpers.go:84-91 | a dispatch calls its next callback, as long as it has one |
| Secrets.UnpadOfPad | aws-secrets/secrets.go:104-119 | unpadding undoes padding, which makes whole blocks |
| Secrets.PadMeaning | aws-secrets/secrets.go:104-108 | padding appends as many bytes as the last block lacks, or a block, each with that number |
| Secrets.UnpadMeaning | aws-secrets/secrets.go:110-119 | unpadding cuts off as many bytes as the last byte says, and leaves nothing for a number it cannot be |
| Secrets.PadOfUnpadIff | aws-secrets/secrets.go:110-119 | padding puts back what unpadding took exactly when every padding byte was right |
| Secrets.UnchainOfChain | aws-secrets/secrets.go:65-67 | CBC decryption undoes CBC encryption for every IV and key |
| Secrets.ChainSnoc | aws-secrets/secrets.go:67 | chaining can be done from front to end, each block masked by the ciphertext block before it |
| Secrets.ChainIsCbc | aws-secrets/secrets.go:66-67 | every ciphertext block is the encryption under the key of the plaintext block exclusive or the ciphertext block before it, or the IV |
| Secrets.UnchainIsCbc | aws-secrets/secrets.go:96-98 | every plaintext block is the decryption under the key of its ciphertext block exclusive or the one before it, or the IV |
| Secrets.EncryptBlocks | aws-secrets/secrets.go:65-67 | the buffer is filled with the chained blocks |
| Secrets.DecryptBlocks | aws-secrets/secrets.go:96-98 | the buffer is filled with the unchained blocks |
| Secrets.AESEncrypt | aws-secrets/secrets.go:43-72 | a key of other than 32 bytes is refused; otherwise the text of the IV and of the CBC encryption, block by block and byte by byte, of the padded plaintext |
| Secrets.AESDecrypt | aws-secrets/secrets.go:75-102 | the first reason why it cannot be; otherwise the CBC decryption, block by block and byte by byte, with its padding cut off |
| Secrets.DecryptUndoesEncrypt | aws-secrets/secrets.go:42-102 | decryption gives back every plaintext, for every 32-byte key and every IV |
| Colors.ValueOfHex | utils/color.go:60-67 | the printed digits denote the number |
| Colors.DigitsAre | utils/color.go:60-67 | the digits are 0 to 9 and A to F in this order, and read in both cases |
| Colors.ValueMeaning | utils/color.go:79 | each digit is worth sixteen times the one behind it |
| Colors.CodesDiffer | utils/color.go:60-67 | two numbers never share a code, whichever width is printed |
| Colors.CodeWidth | utils/color.go:60-67 | three bytes print as #RRGGBB, four as #AARRGGBB, longer numbers with all their digits |
| Colors.RgbsAre | utils/color.go:17-21 | the first map gives every name of the table its own code and has no other names |
| Colors.NamesAre | utils/color.go:17-21 | the second map gives every code of the table a name that has it |
| Colors.Tables.constructor | utils/color.go:14-22 | the loop fills the two maps, whatever the order |
| Colors.Tables.ToColorName | utils/color.go:35-37 | a name of the table with the colour's code, or nothing for a colour without one |
| Colors.TrimmedIff | utils/color.go:77-79 | trimming and parsing find exactly the number that prefix, sign and digits denote, if it fits 64 bits |
| Colors.Tables.ColorEq | utils/color.go:40-58 | true exactly when some non-empty piece of the folded comma list stands for the colour, whatever upper-casing does outside ASCII |
| Colors.ListsSum | utils/color.go:44-57 | a comma list stands for what its parts stand for |
| Colors.EqOfEntry | utils/color.go:41-55 | a name of the table, in any case and with any spaces, stands for its code alone |
| Colors.EqOfOther | utils/color.go:44-55 | any other single value stands for the colour whose code it is |
| Colors.NoSpacesSum | utils/color.go:41 | dropping spaces leaves every other character in its place |
| Colors.Tables.ToColor64 | utils/color.go:69-84 | ok exactly when the name's code or the text denotes a number of 64 bits, which is then returned; otherwise 0 |
| Colors.ParseOfPrint | utils/color.go:60-84 | a printed code reads back to its number exactly below 2^63 |
| Colors.EqOfPrint | utils/color.go:40-67 | a colour equals a printed code exactly when it was the colour printed |
| Colors.NameHasCode | utils/color.go:35-37 | the name given for a palette colour has that very code, whichever order filled the maps; other colours get no name |
| Colors.EqOfName | utils/color.go:35-58 | a colour equals the name of a palette colour exactly when it is that colour |
| Colors.ParseOfName | utils/color.go:69-84 | the name of a palette colour reads back to its number, below 2^63 |
| Colors.HexPrefixRefused | utils/color.go:69-84 | text that folds to one with 0X in front is refused |
| Colors.FoldsToHexPrefix | utils/color.go:70-77 | text with 0x or 0X in front, spaces apart, folds that way, and never to one that the trimming of 0x would match |

## Left out

- ProcessChunk: no memory is modelled behind the data; a chunk that ends inside spare capacity of the slice would read those bytes, here it panics like one that ends behind it.
- ProcessLogFile: the same.
- ProcessFiles: takes file contents instead of paths, none for an unreadable file.
- QueryLogs: the daily files of a time range are its argument; naming them and looking for them are not modelled; error texts are not compared.
- FilesAreNaive: the message pattern is not empty and the field name "time" is not used again; a timestamp with a tab behind it stands only at line starts, since a body that holds one can hide a chunk.
- TrimBlank: trims ASCII blanks from the request bounds, where Go trims Unicode white space.
- EncodeEntry: level and interface values are given as rendered text, and the time as text too, which `Calendar.Print` gives for years up to 9999; pools and buffer recycling are left out.
- ColorEq: the table of names is a parameter that satisfies `PaletteOk`; `ConvMtColor` is left out.
- SplitDataToChunks: chunkNum is positive, as its only caller makes it.
- ParseLogLine: an empty separator cuts after every byte, where Go cuts after every UTF-8 character.
- MatchFilters: times are numbers that a decoder parameter yields; `Calendar` shows that the real 24-byte layout qualifies. Shorter spellings that the request bounds may use are left to the parameter.
- Manager: the package variable `total` is a field, so two queries at once, which would share it, are not modelled; `sortResults` is not used by a query.
- FormatHeader: a custom header function is any function to the text it appends.
- Any: lower-casing in the case-blind variants of both matchers is not modelled.
- AddCallback: a function value is an integer, its identity.
- WordAlone: event strings are sequences of Unicode characters; bytes that are no valid UTF-8 are not modelled.
- WordsApart: the same.
- DispatchEvents: the arguments that a dispatch passes on are not modelled; callbacks that re-enter are covered by the runs of `ObservableRuns`, which allow any operations in any order between two calls.
- Trigger: the same.
- RunKeeps: in `RpcSteps`, runs in which a connection reads 2^64 headers are excluded, since its numbers would wrap around.
- ReadRequestHeader: JSON decoding, parameters, service lookup by reflection, pings, notifications and closing the codec are left out; missing services and bad arguments are events of the reader, a failing encoder is an event of the writer.
- SendResponse: the handler is any step that yields a reply or an error; a handler that panics is not modelled.
- FreeList: its critical sections are methods on linked objects; interleavings are proved over the same lists as values.
- AESEncrypt: the block function, base64 and the random IV are parameters; that they invert is assumed of them.
- AESDecrypt: the text of a library error is not compared.
- Exporters, Kafka, Redis, SQL, metrics, configuration and the other wrappers over libraries or the network would add no hard property.
