# Verified model of the chat system's protocol, storage and transfer logic

This project models the parts of a secure chat system (a C server, a C client library and a
TypeScript web client) where a mistake is silent: the framed byte stream and its checksum, the
deep merge and the conflict rules of synchronisation, the message cache, the Base32 codec, the
configuration file, chunked file transfer, the database connection pool, login throttling, and the
request bookkeeping of the browser's socket. Each file models one component and proves what that
component is for, over every input and every run.

Code that changes things in place is a class or a method with a loop, proved equal to a function of
its inputs or of its old state; the laws are then proved about those functions. Clocks, the network,
the operating system, the database's answers and hash functions are arguments.

| file | models |
|---|---|
| `Basics`, `Bits`, `Decimals`, `Strings`, `Chunking` | shared vocabulary: machine words, bitwise operators, digits, C string routines, slicing |
| `Checksum`, `ChecksumValue` | the CRC-32 of `web/protocol.ts` |
| `Protocol` | the header, string and user record codecs of `web/protocol.ts` |
| `Framing`, `Client` | the send path and the receive loop of `client/core.c` |
| `DeepMerge`, `ConflictRules` | `web/sync-conflict-resolver.ts` |
| `MessageCache` | the per-group cache of `web/group-manager.ts` |
| `Base32` | the codec of `web/security.ts` (section 6 of RFC 4648, without padding) |
| `Config` | the printer and the parser of `server/src/config.c` |
| `ServerUpload` | uploads in `server/src/file_transfer.c` |
| `Transfer`, `UploadQueue` | slicing, reassembly and scheduling in `web/file-transfer.ts` |
| `ConnectionPool` | the pool and the query statistics of `server/src/database.c` |
| `Login` | login, lockout and rate limit of `server/src/auth.c` |
| `WebSocketClient` | request bookkeeping of `web/websocket-client.ts` |

`dafny verify dfyconfig.toml` checks everything.

## What turned out not to hold

- A browser accepts a message only if the checksum of its body has a clear top bit, because it
  compares a signed number with an unsigned one: of two bodies that differ in the last message bit it
  accepts exactly one (`BrowserAcceptsHalf`), and a reply whose checksum has the top bit set never
  reaches its request (`ReplyReachesItsRequest`).
- After a login the browser client is AUTHENTICATED, and in that state it sends nothing until the
  socket is opened again (`HeldUntilReopened`); a request that was queued never gets a reply
  (`QueuedNeverAnswered`).
- Deep merge is not associative on mixed kinds: a scalar between two containers, and arrays that meet
  an object, break it; `MergeAssociative` gives the exact condition for any three values. Keys that
  every object inherits are lost (`KeysAreUnion`).
- The server counts a repeated chunk twice (`CountExactThroughout`), and a COMPLETED session fails on
  the second tick (`CompletedDecays`).
- The server means to make an upload TRANSFERRING, but stops at a lock it already holds. Without that
  second lock, ticks would take gaps, and what a short write left behind, for whole chunks
  (`TickCountsExactly`, `ShortWriteThenTick`). A prepared session never becomes TRANSFERRING
  (`NeverTransferring`), so ticks do its upload no harm (`UploadCompletes`).
- Releasing a database connection that was closed meanwhile can free a slot somebody else holds, because
  a new connection may get the old address (`OneHolderThroughout`, `StaleReleaseRun`).
- A download of an empty file is never ready (`EmptyNeverReady`).
- A failed COMMIT or ROLLBACK that leaves the transaction open gives the connection back in the middle
  of it, and a batch that gets the connection in that state fails (`ConnectionPool.Pool.ExecuteBatch`).
- A registered name of more than 63 characters can hide the items behind it (`RegisteredStaysFindable`).
- The header is 64 bytes as in `web/protocol.ts:255`, although the comment at
  `common/protocol.h:175` says 32.

## Model

| member | source | states |
|---|---|---|
| Checksum.BurstDetected | web/protocol.ts:316-329 | two bodies of one length that differ only within 32 consecutive bits have the same checksum only if they are equal |
| Checksum.GeneratorBurstMissed | web/protocol.ts:324 | the bound of 32 is exact: a 33-bit burst shaped like the polynomial is never noticed |
| ChecksumValue.ResidueExactly | web/protocol.ts:316-329 | a message followed by four bytes, lowest first, has the checksum 0x2144DF1C if and only if those are its own checksum |
| ChecksumValue.CheckValue | web/protocol.ts:316-329 | the checksum of the nine digits 1 to 9 is 0xCBF43926, the check value of CRC-32 |
| ChecksumValue.Residue | web/protocol.ts:316-329 | every message followed by its own checksum leaves the same residue |
| Checksum.MissedExactlyWhenVanishing | web/protocol.ts:318-328 | whether an error goes unnoticed depends on its bit pattern alone, not on the message or the place |
| Checksum.BrowserAcceptsHalf | web/websocket-client.ts:219-226 | of two bodies that differ only in the last message bit, each with its own checksum, the signed comparison accepts exactly one |
| Checksum.CalculateChecksum | web/protocol.ts:316-329 | the table-less checksum loop computes CRC-32 of the whole buffer; which number that is, start and complement included, `ChecksumValue.ResidueExactly` and `ChecksumValue.CheckValue` say |
| Checksum.RegisterIsBitRegister | web/protocol.ts:320-326 | the byte-wise loop is a linear bit-serial register fed the message bits, lowest bit of each byte first |
| Checksum.BitRegisterLinear | web/protocol.ts:320-326 | the register of a difference of two messages is the difference of their registers |
| Checksum.WindowNeverVanishes | web/protocol.ts:320-326 | a nonzero difference inside 32 bits, with any quiet bits around it, never leaves a zero register |
| Protocol.HeaderRoundTrip | web/protocol.ts:282-300 | a header written in front of anything is read back field for field |
| Protocol.HeaderCanonical | web/protocol.ts:259-300 | any 64 bytes are reproduced by reading and writing exactly when the reserved tail is clear |
| Protocol.HeaderFieldsAt | web/protocol.ts:282-300 | which bytes of a buffer are which header field, the most significant first |
| Protocol.UserInfoRoundTrip | web/protocol.ts:359-430 | a user record survives exactly when its four strings fit |
| Protocol.StringRoundTrip | web/protocol.ts:332-356 | a string survives its field exactly when it is shorter than the field and holds no NUL |
| Protocol.UserInfoLayout | web/protocol.ts:359-394 | which bytes of a written record are which field, number by number and text by text |
| Protocol.UserInfoFieldsAt | web/protocol.ts:397-430 | a record is read from any buffer of at least 423 bytes, and which bytes each field comes from; a flag is any byte but 0 |
| Protocol.SerializeHeader | web/protocol.ts:259-279 | the sixty-four bytes written are the nine big-endian fields and sixteen zeros |
| Protocol.SerializeString | web/protocol.ts:332-343 | a fixed-width field holds the bytes that fit before a final NUL, then zeros |
| Protocol.DeserializeString | web/protocol.ts:346-356 | reading stops at the first NUL, at the width, or at the end of the buffer |
| Protocol.SerializeUserInfo | web/protocol.ts:359-394 | the field-by-field writes produce the 423-byte record |
| Framing.FragmentationIrrelevant | client/core.c:753-818 | however a stream is cut into reads, draining after each gives the same messages in order and leaves the same bytes as draining once |
| Framing.DrainInTwoReads | client/core.c:753-818 | draining early, keeping the rest and going on later is draining everything at once |
| Framing.DeliveredIntact | client/core.c:758-812 | every delivered message stands whole in the stream with a right checksum, in order and without overlap, and what is kept is a tail behind the last |
| Framing.RestIsOnePartialFrame | client/core.c:758-788 | the bytes kept are less than a header, or one incomplete frame that starts with the magic |
| Framing.RoundTripWithResync | client/core.c:624-688 | frames behind garbage without the magic are delivered exactly, in order, each with the type, time, number and body of its packet and nothing else set, and the buffer ends empty |
| Framing.StreamDelivered | client/core.c:753-818 | frames in front of any bytes come out first, and the bytes behind them are treated as if they stood alone |
| Framing.FrameComesThrough | client/core.c:624-688 | a frame is delivered exactly when its body is shorter than 2^32 |
| Framing.DrainFront | client/core.c:758-812 | any frame with the magic and a right length, whatever its version, type or flags, is delivered if its checksum is right, and dropped whole if not |
| Framing.FrameLayout | client/core.c:624-660 | byte by byte what a frame is, from the type, time, count of messages sent and body alone |
| Framing.BurstLosesOneMessage | client/core.c:791-798 | a burst of at most 32 wrong bits in one body loses that message and no other |
| Client.Connection.ReceiveMessage | client/core.c:690-751 | at least 4096 bytes are free before a read, growth stays below twice what is needed, and what was handed over and what is held are one drain of all bytes ever received |
| Client.Connection.ProcessReceivedData | client/core.c:753-818 | the in-place loop terminates and hands over and keeps exactly what the specification drain says |
| Client.Connection.SendMessage | client/core.c:624-688 | a whole frame goes out and is counted once, or a prefix goes out and nothing is counted; which bytes on the wire are the type, the time and the number |
| Client.MoveDown | client/core.c:769-771 | the in-place move brings the remaining bytes to the front unchanged, although source and target overlap |
| Client.BuildHeader | client/core.c:624-660 | the header sent carries the magic, version, type, time, next message number, body length and checksum of the body at their offsets |
| Client.Connection.Grow | client/core.c:701-713 | the buffer doubles and keeps the bytes held |
| Client.Connection.Inspect | client/core.c:758-798 | one look at the front decides between waiting, skipping and taking as the specification turn does |
| DeepMerge.MergeAssociative | web/sync-conflict-resolver.ts:175-210 | for any three values the two groupings agree if and only if a condition computed from the values holds: nothing empty, no scalar in the middle that hides something, no arrays united on one side and overlaid on the other, at any depth |
| DeepMerge.AddsNothingExactly | web/sync-conflict-resolver.ts:175-210 | a merge leaves its primary unchanged exactly when the secondary brings no key, element or nested value of its own |
| DeepMerge.SameKindAssociates | web/sync-conflict-resolver.ts:175-210 | values of the same kind at every shared path, without inherited names, merge in either grouping |
| DeepMerge.ScalarBetweenContainers | web/sync-conflict-resolver.ts:180-182 | with a scalar between two containers the groupings agree exactly when the last adds nothing to the first |
| DeepMerge.ArrayMeetsObject | web/sync-conflict-resolver.ts:184-208 | two arrays and any object: the groupings agree exactly when uniting the arrays and overlaying them index by index look the same over the object |
| DeepMerge.ObjectMeetsArrays | web/sync-conflict-resolver.ts:184-208 | any object and two arrays: the same, at the indices the object has no name of its own for |
| DeepMerge.MergeIdempotent | web/sync-conflict-resolver.ts:175-210 | merging a value with itself gives it back |
| DeepMerge.MergeAbsorbsSecondary | web/sync-conflict-resolver.ts:175-210 | merging the secondary in again changes nothing |
| DeepMerge.MergeAbsorbsPrimary | web/sync-conflict-resolver.ts:175-210 | merging the primary with the result, on either side, changes nothing, except for two different empty values |
| DeepMerge.UnionAssociative | web/sync-conflict-resolver.ts:184-193 | array merge is associative |
| DeepMerge.KeysAreUnion | web/sync-conflict-resolver.ts:195-208 | the keys of two merged containers, not both arrays, are the union exactly when the secondary brings no inherited name of its own |
| DeepMerge.UnionIsAppend | web/sync-conflict-resolver.ts:184-193 | merged arrays are the primary followed by what is missing from it |
| DeepMerge.MissingMeaning | web/sync-conflict-resolver.ts:184-193 | what is appended is exactly the secondary's elements that the primary lacks, once each, in the secondary's order |
| DeepMerge.MergeValues | web/sync-conflict-resolver.ts:175-210 | the recursive program computes the merge, whatever the order in which keys are visited |
| DeepMerge.MergeFields | web/sync-conflict-resolver.ts:197-207 | the loop over the secondary's keys, in any order, adds and merges as the specification of the merged fields says |
| DeepMerge.MergeArrays | web/sync-conflict-resolver.ts:184-193 | the includes-and-push loop computes the union |
| DeepMerge.MergedKeys | web/sync-conflict-resolver.ts:195-208 | which keys a merged object has, and that a scalar conflict goes to the primary and containers are merged |
| DeepMerge.ScalarGivesWay | web/sync-conflict-resolver.ts:176-182 | undefined, null, false, 0 and the empty text give way to any value, all other scalars to none; containers never do |
| DeepMerge.IndexFieldsMeaning | web/sync-conflict-resolver.ts:197 | the own names of an array are its indices in decimal, none of them an inherited name |
| DeepMerge.InheritedNamesLost | web/sync-conflict-resolver.ts:199 | merged into an empty object, a value loses exactly the eleven names every object inherits |
| DeepMerge.ArrayObjectExample | web/sync-conflict-resolver.ts:184-208 | [1], [2] and an empty object, and an empty object, [1] and [2], merge differently in the two groupings |
| ConflictRules.ConvergesExactly | web/sync-conflict-resolver.ts:91-172 | the order in which the versions of a message arrive is irrelevant exactly when only one of them is newest |
| ConflictRules.Converges | web/sync-conflict-resolver.ts:91-172 | devices that see the same versions in different orders end with the same one, the newest, if only one is newest; older ones may tie |
| ConflictRules.SettlesOnNewest | web/sync-conflict-resolver.ts:147-165 | folding versions in any order ends with one of them that none is newer than |
| ConflictRules.TwoVersionsConverge | web/sync-conflict-resolver.ts:147-165 | two versions converge exactly when they are equal or their timestamps differ |
| ConflictRules.FindsPreferred | web/sync-conflict-resolver.ts:91-101 | the rule found has the highest priority of those that apply, and is the earliest of that priority; none is found only if none applies |
| ConflictRules.SortedAndStable | web/sync-conflict-resolver.ts:80-84 | the list is descending by priority and keeps the order of arrival within one priority |
| ConflictRules.SortedUnique | web/sync-conflict-resolver.ts:80-84 | only one list has those two properties |
| ConflictRules.SortThenRemove | web/sync-conflict-resolver.ts:86-89 | removing from the sorted list is sorting what remains |
| ConflictRules.DefaultsPreferNewest | web/sync-conflict-resolver.ts:25-77 | with the default rules, versions with timestamps are always settled by the newer-wins rule |
| ConflictRules.DefaultDecision | web/sync-conflict-resolver.ts:25-77 | which of the five default rules decides, and how, from what the two values say |
| ConflictRules.AddedRuleDecides | web/sync-conflict-resolver.ts:25-84 | a rule added to the default ones decides exactly where it applies and no default rule of its priority or above does |
| ConflictRules.TimestampIsFirst | web/sync-conflict-resolver.ts:213-235 | a value's timestamp is the first of four fields that says something, or 0 |
| ConflictRules.ResolveIsDecided | web/sync-conflict-resolver.ts:91-171 | the outcome follows the strategy it names, one side with the other merged into it, which is that of the rule found, or of the answer, or the server's, and never MANUAL |
| ConflictRules.SyncConflictResolver.AddRule | web/sync-conflict-resolver.ts:80-84 | after any additions the list in force is the stable sort of all rules alive |
| ConflictRules.SyncConflictResolver.RemoveRule | web/sync-conflict-resolver.ts:86-89 | after any removals the list in force is the stable sort of all rules alive |
| ConflictRules.SyncConflictResolver.ResolveConflict | web/sync-conflict-resolver.ts:91-122 | the answer follows the strategy of the preferred rule; without one, or if it asks for a manual decision, that of the answer, or the server's |
| MessageCache.GroupManager.HandleGroupMessage | web/group-manager.ts:1056-1082 | the in-place cache of every group stays the last 1000 of the stable sort of all it ever received, or all of it |
| MessageCache.CutThenInsert | web/group-manager.ts:1068-1077 | cutting to the newest before or after an arrival comes to the same, for late arrivals too |
| MessageCache.TimelineIsStableSort | web/group-manager.ts:1056-1082 | inserting arrivals one by one is the stable sort by timestamp |
| MessageCache.PagingCoversCache | web/group-manager.ts:1014-1031 | asking repeatedly for the page before the oldest message shown yields every cached message once, in order |
| MessageCache.KeptAreLast | web/group-manager.ts:1074-1077 | what is kept is the end of the timeline, all of it up to 1000 messages |
| MessageCache.DroppedAreOldest | web/group-manager.ts:1074-1077 | no message dropped is later than one kept |
| MessageCache.PageMeaning | web/group-manager.ts:1014-1031 | a page is what stands directly before the message named, if it is cached, else the end of the cache |
| MessageCache.Arrival | web/group-manager.ts:1056-1082 | an arrival changes the ideal cache of its own group by one bounded insertion, and no other group |
| MessageCache.GroupManager.GetCachedPage | web/group-manager.ts:1014-1031 | which slice of the cache answers a request |
| Base32.RoundTrip | web/security.ts:390-436 | decoding an encoding gives the bytes back whatever the case and whatever stands in between, and n bytes take ceil(8n/5) symbols |
| Base32.PlainRoundTrip | web/security.ts:390-436 | in particular, decoding undoes encoding |
| Base32.CanonicalIndices | web/security.ts:414-436 | symbols are reproduced by decoding and encoding exactly when fewer than five bits are left over and all are zero |
| Base32.IndicesRoundTrip | web/security.ts:390-436 | regrouping bits by five and back by eight loses nothing |
| Base32.EncodingChangesBase | web/security.ts:390-412 | the indices are the digits in base 32 of the bytes read as a number in base 256, with zeros filling the last |
| Base32.BitsOfEights | web/security.ts:414-436 | decoding keeps every whole byte of the bits and drops what is left over |
| Base32.LetterMeaning | web/security.ts:391-420 | the letter of each index by its code, and every character that is read as it |
| Base32.Base32Encode | web/security.ts:390-412 | the loop with an unmasked 32-bit accumulator encodes the bit stream in groups of five |
| Base32.Base32Decode | web/security.ts:414-436 | the loop with an unmasked 32-bit accumulator decodes the bit stream in groups of eight |
| Base32.DressingIgnored | web/security.ts:414-425 | characters outside the alphabet and letter case do not change what is decoded |
| Strings.SplitUndoesJoinExactly | server/src/config.c:404-448 | splitting at commas undoes joining exactly when no part is empty or holds a comma |
| Strings.DecimalReadBack | server/src/config.c:289-295 | a printed number is read to its end, and comes back exactly when it is a 32-bit int |
| Decimals.DigitsMeaning | server/src/config.c:200-202 | the decimal digits of a number, character by character |
| Decimals.ZeroInFront | server/src/config.c:289-295 | zeros in front of the digits read do not change the number |
| Strings.LinesReadBack | server/src/config.c:105-113 | short lines written one after another are read back as those lines |
| Strings.TrimIgnoresMargins | server/src/utils.c:344-371 | blanks around a string do not change what the trim returns |
| Strings.TrimMeaning | server/src/utils.c:344-371 | the trim returns the core of a string between white space, and leaves what is in front of it in place |
| Strings.NumberRead | server/src/config.c:289-295 | white space, a sign, digits and a rest give the number within a long's range and the rest; without digits nothing is read |
| Strings.IntMeaning | server/src/config.c:337-342 | a long becomes the int that agrees with it in the low 32 bits |
| Strings.TokensAreParts | server/src/config.c:361-448 | splitting at commas yields, in order, all that stands between them and is not empty |
| Strings.LinesMeaning | server/src/config.c:105-113 | any text is cut without loss into lines that end with a newline, after 1023 characters, or with the text |
| Config.LastValidWins | server/src/config.c:93-155 | after any text each findable item holds its last valid assignment in its section, or is unchanged |
| Config.RoundTrip | server/src/config.c:93-236 | printing and parsing restores an item exactly when its value is clean: every 32-bit int, every bool, every list of ints, and strings and lists without blanks at the ends, commas or empty parts |
| Config.ReadWhatWasWritten | server/src/config.c:93-236 | reading a written file offers each item the trimmed printed text of its counterpart |
| Config.WrittenFileMeans | server/src/config.c:160-236 | a written file, read back, asks for exactly the items it was written from |
| Config.RegisteredStaysFindable | server/src/config.c:37-73 | registering keeps every item findable exactly when the names as stored are still free; names of at most 63 characters always are |
| Config.StringSurvives | server/src/config.c:195-198 | a string comes back exactly when it has no blank at either end |
| Config.AssignmentMeans | server/src/config.c:127-150 | a line with an equals sign, no comment and no section, assigns what stands behind the first one to what stands before it, without their margins |
| Config.KeylessMeans | server/src/config.c:138-140 | with nothing before the equals sign it assigns nothing |
| Config.NoAssignment | server/src/config.c:127-131 | a line without an equals sign assigns nothing |
| Config.SectionMeans | server/src/config.c:114-126 | a line in brackets names the section for the lines after it, trimmed on the right and cut to 63 characters |
| Config.CommentMeans | server/src/config.c:108-112 | a line that starts with a semicolon or a hash means nothing |
| Config.LastLineAsks | server/src/config.c:98-150 | each line asks for at most its own assignment, in the section of the last section line before it, or the default section |
| Config.SwitchMeaning | server/src/config.c:297-308 | a switch is on for true, yes and 1, off for false, no and 0, in any case, and nothing else is a switch |
| Config.NumberMeaning | server/src/config.c:289-342 | a number is accepted if nothing stands behind its digits, and becomes the low 32 bits of the long it is read as |
| Config.ListMeaning | server/src/config.c:358-448 | a list is what stands between commas and is not empty, each part trimmed on the right or read as a number |
| Config.CheckMeaning | server/src/config.c:279-320 | a check of its own replaces that of the type |
| Config.ExampleFile | server/src/config.c:160-236 | what a file with a number, a switch, two lists, a description and an empty section looks like, line by line |
| Config.RegisterMeaning | server/src/config.c:37-73 | registering a new name puts the item last in its section, as it was given but for its cut key; a new section comes last |
| Config.RegisterKeepsRest | server/src/config.c:37-73 | registering a known name changes nothing, and any other nothing in the other sections |
| Config.CleanReadsBack | server/src/config.c:195-224 | a printed value passes the check of its type and converts back to itself exactly when it is clean |
| Config.LastValidMeaning | server/src/config.c:128-150 | the last valid assignment is the last one that names the item and passes its check; there is none only if none does |
| Config.RegisterKeepsDistinct | server/src/config.c:37-73 | and exactly then all names stay apart, so the next registration can rely on it |
| Config.LongNameShadows | server/src/config.c:37-73 | a 64-character section name registered twice makes two sections, and the second item is never found |
| Config.SplitNumbers | server/src/config.c:404-448 | the token loop yields the number of every token in order |
| Config.ConvertStringToValue | server/src/config.c:323-455 | an accepted text becomes the value it stands for in the type of the item, and nothing else of the item changes |
| Config.ConfigManager.FindItem | server/src/config.c:37-88 | the search loops find the first item of that key in the first section of that name |
| Config.ConfigManager.FindOrCreateSection | server/src/config.c:37-73 | the section of that name is found, or appended empty under its name cut to 63 characters |
| Config.ConfigManager.RegisterString | server/src/config.c:37-73 | registering finds or appends the section and appends the item unless its key is taken |
| Config.ConfigManager.ParseConfigFile | server/src/config.c:93-155 | the line loop applies, in order, exactly the assignments the text asks for |
| Config.ConfigManager.WriteConfigFile | server/src/config.c:160-236 | the printing loops produce the file line for line |
| Chunking.JoinedWhole | web/file-transfer.ts:446-474 | the slices of a file, joined, are the file |
| Chunking.CountMeaning | web/file-transfer.ts:446-474 | an index is in range exactly when its first byte lies in the file |
| Chunking.ChunkMeaning | web/file-transfer.ts:468-471 | chunk i is the source from i chunk sizes on, a whole chunk size of it or all that is left |
| ServerUpload.UploadCompletes | server/src/file_transfer.c:638-1063 | with each chunk written once, in any order, with retries and visits of the manager anywhere in between, a prepared session stops PREPARING exactly when the last outstanding chunk is in; it is then VERIFYING with the source in the file, and no visit ever loses it |
| ServerUpload.CountExactThroughout | server/src/file_transfer.c:930-941 | over any attempts at all, the byte count is that of the chunks accepted, at all times, if and only if no chunk is accepted again |
| ServerUpload.FailsExactly | server/src/file_transfer.c:907-973 | over any attempts at all, a session fails exactly with the failed write that comes after all retries are used up, and remembers the first thirty chunks that failed and the last that went in |
| ServerUpload.NeverTransferring | server/src/file_transfer.c:638-660 | whatever is done with a session that is neither PENDING nor TRANSFERRING, it never becomes TRANSFERRING |
| ServerUpload.RunProgress | server/src/file_transfer.c:638-1063 | until all is in, and right when it is, the session is what the set of written chunks says, whatever visits came in between |
| ServerUpload.VisitsAreHarmless | server/src/file_transfer.c:638-730 | visits change nothing while a chunk is outstanding, and lose nothing afterwards |
| ServerUpload.TriesProgress | server/src/file_transfer.c:907-1063 | the same for the chunks alone |
| ServerUpload.CountExactUnlessRepeated | server/src/file_transfer.c:930-941 | accepting a chunk keeps the count exact if and only if it was not written before |
| ServerUpload.TickCountsExactly | server/src/file_transfer.c:732-765 | of a TRANSFERRING session, as the program would have it without the second lock: whatever has been written, a tick leaves the exact count if and only if the file ends where a chunk ends and the chunks written are exactly those before that end |
| ServerUpload.ExactThroughout | server/src/file_transfer.c:732-765 | of a TRANSFERRING session, without the second lock: in order, with failed writes and ticks anywhere, the count is exact after every move if and only if no tick counts a part of a chunk |
| ServerUpload.OrderlyUpload | server/src/file_transfer.c:732-765 | and then such a session reaches VERIFYING exactly with the last chunk, with the source in the file |
| ServerUpload.InOrderSurvivesTicks | server/src/file_transfer.c:732-973 | of a TRANSFERRING session, without the second lock: in order, with failed writes and ticks anywhere, the file is always a beginning of the source and the count is what is in plus the parts that ticks counted |
| ServerUpload.InOrderVerdict | server/src/file_transfer.c:732-941 | when such a session asks for verification, the file is the source exactly when the last chunk is in, which is so without surplus |
| ServerUpload.WriteAgrees | server/src/file_transfer.c:975-1063 | writing right bytes at a chunk's offset, all or part of them, disturbs no other chunk |
| ServerUpload.WriteAtMeaning | server/src/file_transfer.c:975-1063 | byte by byte what a write leaves: the data where it goes, zeros in a gap before it, everything else as it was |
| ServerUpload.FileAfter | server/src/file_transfer.c:984-1061 | the file is there afterwards unless it could not be opened, with as much of the data as the disk took |
| ServerUpload.ChunkCode | server/src/file_transfer.c:907-935 | exactly when a chunk is answered with each code; one that is refused changes nothing |
| ServerUpload.CoveredAll | server/src/file_transfer.c:930-941 | the byte count reaches the total exactly when every index is written |
| ServerUpload.DuplicateCountsTwice | server/src/file_transfer.c:930-941 | a chunk written twice makes the session ask for verification while another is missing |
| ServerUpload.TickMiscountsGaps | server/src/file_transfer.c:732-765 | a tick changes nothing in PREPARING; in TRANSFERRING, without the second lock, it would count a gap, and verification would be asked for without chunk 1 |
| ServerUpload.ShortWriteThenTick | server/src/file_transfer.c:732-765 | in TRANSFERRING, without the second lock, a short write, a tick and the retry would make an in-order upload ask for verification with a chunk missing and no gap |
| ServerUpload.CompletedDecays | server/src/file_transfer.c:638-730 | the first tick of a COMPLETED session moves the file, the second marks the session failed |
| ServerUpload.CompletionIsVerified | server/src/file_transfer.c:638-730 | with verification on, a session is completed only with a file of the expected checksum |
| ServerUpload.VisitMeaning | server/src/file_transfer.c:638-730 | what a visit does to a session in each status that is reached, and with which code |
| ServerUpload.LockedVisitMeaning | server/src/file_transfer.c:647-666 | the same for PENDING and TRANSFERRING, without the second lock |
| ServerUpload.CompletionMeaning | server/src/file_transfer.c:1065-1105 | closing by hand succeeds exactly with a file whose checksum is not wrong, and otherwise changes nothing |
| ServerUpload.PreparationMeaning | server/src/file_transfer.c:865-905 | preparing empties the temporary file if it opens, and sets sizes and status if the source is there |
| ServerUpload.UploadSession.Prepare | server/src/file_transfer.c:865-905 | preparing clears the temporary file and sets sizes, or fails without leaving the old state |
| ServerUpload.UploadSession.WriteChunk | server/src/file_transfer.c:975-1063 | what each outcome of open, seek and write leaves in the temporary file |
| ServerUpload.UploadSession.AcceptChunk | server/src/file_transfer.c:907-973 | checks, counting, retries and the switch to VERIFYING, field by field |
| ServerUpload.UploadSession.Process | server/src/file_transfer.c:638-730 | what one visit of the manager does in every status |
| Transfer.Reassembly | web/file-transfer.ts:677-720 | in any order, with any repetitions, and whenever the response comes, a download of a non-empty file is ready exactly when every chunk is there, and assembles to the file |
| Transfer.ReadyMeansComplete | web/file-transfer.ts:677-694 | counting distinct indices is enough exactly when all received indices are in range |
| Transfer.LatestMeaning | web/file-transfer.ts:765-782 | of each index what came last is kept, and only indices that came |
| Transfer.TotalMeaning | web/file-transfer.ts:754-782 | an announced total stands whatever chunks say later; without one, or after one of 0, the first chunk that brings one decides |
| Transfer.UploadChunks | web/file-transfer.ts:446-474 | the loop sends every slice of the file, in order |
| Transfer.FileDownload.HandleDownloadResponse | web/file-transfer.ts:754-762 | a response, before or after chunks, sets the total; a failed one changes nothing |
| Transfer.FileDownload.HandleDownloadChunk | web/file-transfer.ts:765-782 | chunks, received indices and total are the ones that arrived, the latest of each index |
| Transfer.FileDownload.AssembleFile | web/file-transfer.ts:697-720 | assembling joins chunks 0 to the total, or names the first that is missing |
| Transfer.JoinParts | web/file-transfer.ts:708-716 | copying each part behind the one before gives their concatenation |
| Transfer.EmptyNeverReady | web/file-transfer.ts:677-694 | a download of an empty file is never ready |
| UploadQueue.FileTransferManager.LetEverythingSettle | web/file-transfer.ts:198-214 | once everything started has settled, everything not cancelled while waiting has been started, in order of submission |
| UploadQueue.FileTransferManager.OnePlaceEach | web/file-transfer.ts:62-214 | each submitted upload is waiting, cancelled while waiting, or started, and only one of these |
| UploadQueue.FileTransferManager.UploadSettled | web/file-transfer.ts:198-214 | a settled upload frees its place and the queue moves on; a non-empty queue keeps three started uploads unsettled |
| UploadQueue.FileTransferManager.UploadFile | web/file-transfer.ts:62-87 | a file that is not too large is accepted behind those before it, and no wake-up is lost |
| UploadQueue.FileTransferManager.StartNext | web/file-transfer.ts:198-214 | the upload at the head of the queue becomes active and outstanding |
| UploadQueue.FileTransferManager.ProcessUploadQueue | web/file-transfer.ts:198-214 | uploads start from the head of the queue until three are active or none waits |
| UploadQueue.FileTransferManager.CancelTransfer | web/file-transfer.ts:143-171 | cancelling takes an upload out of exactly the place it was in |
| ConnectionPool.OneHolderThroughout | server/src/database.c:241-365 | over any interleaving of gets, releases by holders and close-alls, every connection in use has exactly one holder at all times if and only if nobody releases a connection that was closed meanwhile while its address is in use again |
| ConnectionPool.StepKeepsOneHolder | server/src/database.c:241-365 | each single step keeps one holder per connection if and only if it is not such a release |
| ConnectionPool.SecondHolder | server/src/database.c:313-343 | after such a release the next get of that slot hands the connection to a second holder |
| ConnectionPool.StaleReleaseRun | server/src/database.c:345-365 | got, closed, got again at the same address, released by the first holder, got once more: two holders |
| ConnectionPool.RunIsSane | server/src/database.c:241-365 | over any interleaving every slot in use is open and no address is open twice |
| ConnectionPool.MeanDrift | server/src/database.c:402-413 | the truncating average loses at most n(n-1)/2 of the sum, gains nothing, and never exceeds the maximum |
| ConnectionPool.MaximumIsReached | server/src/database.c:409-411 | the stored maximum is one of the times recorded |
| ConnectionPool.BorrowedComesBack | server/src/database.c:241-343 | a connection that is got, perhaps after waiting, used while others get and release theirs, and given back, frees the slot it was taken from and changes nothing else, unless others close everything or release that very handle |
| ConnectionPool.LateReleaseHarms | server/src/database.c:313-365 | after a close-all in between, giving the connection back does harm exactly when its address is in use again |
| ConnectionPool.Pool.ExecuteBatch | server/src/database.c:1013-1175 | on every path, with others acting in between, the connection is released to the pool as others left it; on a connection in the middle of a transaction the batch fails, on any other it gives its own code and leaves a transaction open exactly when its last COMMIT or ROLLBACK does |
| ConnectionPool.Pool.ExecuteParams | server/src/database.c:458-530 | on every path, failed prepares and binds included, with others acting in between, the connection is released to the pool as others left it |
| ConnectionPool.Pool.Execute | server/src/database.c:381-428 | on every path, with others acting in between, the connection is released to the pool as others left it, and the query is recorded once, with its time and whether it failed |
| ConnectionPool.Pool.ActiveWithinMaximum | server/src/database.c:241-365 | in every reachable state the open connections are at most the maximum, and as many when all are in use |
| ConnectionPool.GetThenRelease | server/src/database.c:241-343 | with nobody else about, a borrowed connection given back leaves the slots in use and the holders as they were |
| ConnectionPool.GetMeaning | server/src/database.c:241-311 | a get waits exactly when all slots are in use; otherwise the first free one is handed out, opened if needed, or cannot be opened |
| ConnectionPool.WaitMeaning | server/src/database.c:269-289 | a wait ends in a timeout, in being served, or in finding all slots in use again |
| ConnectionPool.ReleaseMeaning | server/src/database.c:313-343 | a release succeeds exactly for an open address, and frees the first slot that has it |
| ConnectionPool.BatchMeaning | server/src/database.c:1013-1066 | exactly when a batch returns each code, and when it leaves its transaction open |
| ConnectionPool.Pool.TryGet | server/src/database.c:241-311 | a get hands out the first free slot, opening it if needed, or changes nothing |
| ConnectionPool.Pool.GetConnection | server/src/database.c:241-311 | a get that finds no free slot times out, or looks again after others have acted, and is then served or finds all busy |
| ConnectionPool.Pool.ReleaseConnection | server/src/database.c:313-343 | a release frees the slot with that address, whoever asks, and fails if there is none |
| ConnectionPool.Pool.CloseAllConnections | server/src/database.c:345-365 | afterwards no slot is open or in use, and whoever held a connection is left with a stale address |
| ConnectionPool.Pool.RunBatch | server/src/database.c:1013-1066 | which code a batch returns on a given connection, and when its transaction stays open |
| ConnectionPool.Statistics.Record | server/src/database.c:402-413 | the stored average, maximum and number of failures are those of all queries recorded |
| Login.FailuresPerHour | server/src/auth.c:1272-1339 | in any run any 3600 seconds hold at most 11 failures of one user and 21 from one address |
| Login.LockedExactlyAfterFifth | server/src/auth.c:535-569 | an account is found locked exactly when a fifth wrong password in a row came less than 300 seconds before |
| Login.LockoutRefuses | server/src/auth.c:535-569 | in those 300 seconds every login of the user is refused and the record does not move |
| Login.CounterIsStreak | server/src/auth.c:554-569 | the stored counter is the number of wrong passwords in a row modulo five, so it stays in 0 to 4 |
| Login.LoginAddsAtMostOne | server/src/auth.c:471-653 | one login adds at most one failure to any window, and none when it was throttled |
| Login.CodeMeaning | server/src/auth.c:471-653 | exactly when each code is returned, from the attempt, the log and the user's record |
| Login.RecordMeaning | server/src/auth.c:493-625 | what each code leaves in the user's record and in the log, entry by entry |
| Login.LimitedExactly | server/src/auth.c:1272-1339 | a login is throttled exactly when more than 20 failures from its address or more than 10 of users of its name are less than an hour old |
| Login.AuthContext.LoginUser | server/src/auth.c:471-653 | a login changes the user record and the log as the specification says, on every path, and succeeds exactly with the right password of an account that is neither throttled, locked nor disabled |
| Login.AuthContext.LogAttempt | server/src/auth.c:1218-1268 | the log is only ever appended to |
| WebSocketClient.ReplyReachesItsRequest | web/websocket-client.ts:234-242 | a well-formed reply settles exactly the request whose frame carried its id, if and only if that is still open and the checksum's top bit is clear |
| WebSocketClient.EachRequestInOnePlace | web/websocket-client.ts:126-207 | each request is in exactly one place: queued, waiting, settled, dropped |
| WebSocketClient.SentOnceInQueueOrder | web/websocket-client.ts:345-352 | no request is sent twice, each goes out as it was handed in, and queued ones in their order |
| WebSocketClient.SettledOnce | web/websocket-client.ts:186-207 | no request is settled twice |
| WebSocketClient.WireNumbersIncrease | web/websocket-client.ts:164-165 | in any run message ids on the wire strictly increase and correlation ids in use are below the next |
| WebSocketClient.HeldUntilReopened | web/websocket-client.ts:158-162 | outside CONNECTED nothing is sent until the socket opens again |
| WebSocketClient.QueuedNeverAnswered | web/websocket-client.ts:345-352 | a request that had to queue never gets a reply |
| WebSocketClient.TimeoutHitsItsOwn | web/websocket-client.ts:193-199 | a response timer rejects its own request, which then waits no longer, or does nothing |
| WebSocketClient.FlushSendsQueue | web/websocket-client.ts:345-352 | an open flush empties the queue onto the wire under consecutive ids, without the sends that throw, and settles each request; any other flush changes nothing |
| WebSocketClient.SendMeaning | web/websocket-client.ts:156-207 | a request is queued, rejected, or sent under the next number, and then waits under the next correlation or is settled |
| WebSocketClient.ReceivedMeaning | web/websocket-client.ts:210-289 | from the bytes of a frame: which settle a request, which log the client in, and that all others do nothing |
| WebSocketClient.ConnectionMeaning | web/websocket-client.ts:62-154 | how each connection event moves the state, the socket and the reconnection count, and that nothing else moves |
| WebSocketClient.DisconnectMeaning | web/websocket-client.ts:126-137 | disconnecting drops exactly what was queued or waiting, and keeps everything else |
| WebSocketClient.StepKeepsHistory | web/websocket-client.ts:126-207 | what was sent, settled or dropped stays so |
| WebSocketClient.ReconnectsBounded | web/websocket-client.ts:139-154 | reconnections counted never exceed the configured number |
| WebSocketClient.SecureChatWebSocket.DeliverMessage | web/websocket-client.ts:156-207 | a message is queued unless the socket is there and CONNECTED; otherwise it takes the next number and is sent, or rejected |
| WebSocketClient.SecureChatWebSocket.FlushPendingMessages | web/websocket-client.ts:345-352 | copying, clearing and resending the queue sends it from its head, or puts it all back |
| WebSocketClient.SecureChatWebSocket.SendMessage | web/websocket-client.ts:156-207 | every request gets a number of its own and is queued, sent or rejected |
| WebSocketClient.SecureChatWebSocket.HandleMessage | web/websocket-client.ts:210-289 | which frames are ignored, which settle a request, and which log the client in |
| WebSocketClient.SecureChatWebSocket.OnResponseTimeout | web/websocket-client.ts:193-199 | a timer rejects the request still waiting under its number |
| WebSocketClient.SecureChatWebSocket.DisconnectClient | web/websocket-client.ts:126-137 | disconnecting abandons everything queued or waiting |
| WebSocketClient.SecureChatWebSocket.OnClose | web/websocket-client.ts:95-108 | a close leads to DISCONNECTED or to a counted reconnection |
| WebSocketClient.SecureChatWebSocket.ConnectSocket | web/websocket-client.ts:62-123 | connecting is refused while CONNECTED or CONNECTING, and otherwise leads to CONNECTING or ERROR |
| WebSocketClient.SecureChatWebSocket.OnOpen | web/websocket-client.ts:76-83 | opening sets CONNECTED and clears the reconnection count |

## Left out

- Text encoding: a string on the wire is its UTF-8 bytes; turning text into bytes and repairing a cut multi-byte character are the platform's work.
- Protocol.StringRoundTrip: speaks of the bytes; the platform's decoder also drops a byte-order mark at the start, so a text that begins with U+FEFF does not come back although it fits.
- Protocol.UserInfoRoundTrip: the same for each of the four strings.
- Deep merge of array elements that are objects or NaN, of values with a `__proto__` key, and of cyclic values.
- Timestamps that are not numbers, beyond never being newer.
- The bodies of the C codec functions are only declared (`common/protocol.h:320-326`); their meaning is taken from `web/protocol.ts`.
- `utils_trim` and `config_find_item` are only declared: the trim is taken to be that of `server/src/utils.c:344-371`, and the search to be by section and then by key.
- Config: float values, section lines of more than 63 characters (the program overruns a buffer), NUL characters in the text, failed allocations, and the modified flags; an allocation of no elements is taken to succeed.
- Uploads: encryption, compression, timeouts, the fallback that reopens the temporary file for writing and so truncates it, and the map of sessions.
- The byte layout of chunk frames, which differs between the two directions; the download scheduler, which mirrors that of uploads; pausing and resuming.
- Transfer identifiers are taken to be fresh.
- ServerUpload.UploadSession.Process: in PENDING the program locks the session's non-recursive mutex twice (`server/src/file_transfer.c:643`, `server/src/file_transfer.c:870`) and stops there; the second lock is not part of this model, so what follows from it, the TRANSFERRING state, is that of the intended program.
- ConnectionPool: a get, a release and a close-all are one step each under the mutex; the operations that borrow a connection are a get, whatever others do, and a release. What a statement does on a connection that others have closed, and what a caller does with a stale address besides releasing it. Failures of the database outside the listed ones, savepoints, backups and migrations.
- Integer overflow of counters, of byte totals and of the sum behind the average; negative elapsed times.
- Login: database errors, tokens, sessions and callbacks; a login is one step, and the lock taken twice at `server/src/auth.c:567` is not part of this model.
- WebSocketClient: promises settle at once; time stamps, the bytes of outgoing frames, heartbeats as such and user callbacks (any of which may act between two events) are not described; message numbers do not wrap at 2^64.
- Sockets, TLS, threads, signals, SQL, IndexedDB, terminal handling, cryptography and the stubbed HMAC: platform or placeholder code.
- `web/offline-sync.ts` and `web/sync-engine.ts` are storage plumbing around stubs; permission tables, error strings and the monitoring ring hold data without behaviour.
