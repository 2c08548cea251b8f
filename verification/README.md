# Verified model of open-bambu-networking's stateful cores

A Dafny model of the parts of the network plugin in which state, parsing or
arithmetic can go wrong, with the properties they are meant to have. To verify it:
`dafny verify dfyconfig.toml`.

- **JSON** (`JsonValue`, `JsonGrammar`, `JsonParser`, `JsonRoundTrip`,
  `JsonAccepted`, `JsonUnicode`, `JsonFind`): the reader as a class over a text and a position,
  the printer, and that they undo each other; `JsonLocal`: what is read depends
  on the characters read only; `JsonSyntax`, `JsonNumeral`, `JsonReads`,
  `JsonExactly`, `JsonPrinted`: the language as trees of written tokens, which
  texts are accepted and what they mean, and which of them is printed.
- **Patches of raw JSON text** (`HmsSearch`, `JsonPatch`, `JsonSpan`,
  `HmsFilter`, `IpcamInjection`): the bracket matcher against the reader, the HMS filter and
  the ipcam injection.
- **Bind protocol** (`FrameCodec`, `FrameStream`, `FrameRecovery`, `BindSession`): the
  framed stream with resynchronisation under any chunking, and the login session as a
  trace of what it hears, calls and closes.
- **Config file** (`ConfigText`, `ConfigLoader`, `ConfigFixer`, `ConfigVector`,
  `ConfigAgreement`, `ConfigStability`, `ConfigRuns`, `ConfigKept`,
  `ConfigMeaning`, `ConfigGrammar`, `ConfigReport`): loader and repair, which use
  different line grammars, where they agree, what each line means and what the
  result reports.
- **LAN session and cloud latches** (`LanOwnership`, `LanCalls`, `CloudLatches`): who
  owns the session over every interleaving, and which devices Studio is told of.
- **Cloud subscriptions** (`CloudSubscriptions`): wanted, active and actually
  subscribed devices over connects, drops, stops, adds and deletes.
- **App-cert cipher** (`CipherSbox`, `CipherField`, `CipherColumn`, `BlockCipher`,
  `CipherInPlace`, `CipherSchedule`, `CipherBytes`, `CipherKnownAnswer`, `Base64`,
  `Base64Text`, `KeyBlob`): the AES-shaped cipher and its inverse, byte for byte, CTR mode, base64url and the framed key blob.
- **Model metadata** (`XmlScan`, `XmlReader`, `XmlReference`, `XmlMetadata`,
  `XmlDocument`, `XmlNames`): the hand-written XML scan.
- **FTP control channel** (`ControlReply`, `ControlLines`) and **file-transfer
  jobs** (`JobRunner`, `JobOutcome`).
- `Text` holds byte strings and searching, used by the others.

Bytes that the code treats as characters are Dafny characters; statements about
all strings therefore cover all byte strings. Code that loops over a buffer or
changes fields is a method or class proved equal to a function, and the
properties are proved of that function. Threads and callbacks are state machines
whose steps are the code's critical sections; sockets, clocks, disks, the cloud
and the broker are inputs or choices of those machines.

## Where code and comments differ

- `src/agent.cpp:554-567` says a CONNACK in the grace window disarms the
  teardown. It does so only until the timer has run out; between that and the
  timer's taking the session it is too late (`LanOwnership.ConnackDisarmsExactlyWhen`).
- The ipcam injection into an object without members, or on the innermost level
  the reader allows, gives text that no longer parses, and only there
  (`IpcamInjection.EditedObjectIsRead`). A file key with white space before its
  colon is not noticed, without effect on its value
  (`IpcamInjection.SpacedKeyIsMissed`, `IpcamInjection.EntryStays`).
- An empty ability text is cached as an answer but reported as a failure to the
  job that fetched it (`JobRunner.FirstAnswerStays`).
- Names of metadata elements are compared as they stand in the file, without
  decoding entities, while their text is decoded. An element is found under its
  name exactly when that needs no escaping (`XmlNames.NamesReadBackExactlyWhen`).
- The 16384-byte cap on a reply line does not say which lines are read: up to one
  read beyond it, that depends on how the stream is cut
  (`ControlReply.CutMattersExactlyWhen`).
- With mqtt_keep_connection switched off while a teardown is armed, a new session
  can be disconnected by it (`LanOwnership.ConnectIsSafeExactlyWhen`).
- The repair of the client name leaves what stands behind the old name, a comment
  say, in the value the loader reads (`ConfigKept.NewName`).
- A drop of a trailing lone head byte is possible in the frame decoder
  (`FrameStream.HarmlessExactlyWhen`), and a head byte before a frame can hide it
  (`FrameRecovery.NoiseCanHideFrame`).
- A device whose subscription is refused when it is renewed after a CONNACK, and
  is then deleted, can stay subscribed on the connection
  (`CloudSubscriptions.DeletedButSubscribed`).
- A result whose delivery is interrupted by an exception between being marked and
  being reported is never reported (`JobOutcome.ReportedExactlyWhen`).
- An hms key whose first quote is the last quote of the one before is not looked
  at (`HmsSearch.FindHmsArray`).

## Model

| member | source | states |
|---|---|---|
| `JsonExactly.AcceptsExactly` | src/json_lite.cpp:55-250 | the reader accepts a text, with a value, if and only if it is written as a tree of at most 128 levels that means that value: blanks, tabs, carriage returns and line feeds before and behind every token, every character in any of its spellings, numbers by their parts |
| `JsonReads.WrittenIsRead` | src/json_lite.cpp:154-250 | the text of every such tree, whatever its gaps and spellings, is read as what the tree means; with more than 128 levels it fails as too deep |
| `JsonExactly.TableMeans` | src/json_lite.cpp:170-204 | the object a written table means has its keys in ascending order, and of every key the value written first |
| `JsonExactly.AcceptedIsWritten` | src/json_lite.cpp:154-250 | every accepted text has such a tree |
| `JsonNumeral.NumeralReads` | src/json_lite.cpp:131-152 | a number is read from its sign, digits, fraction and exponent as the real number they stand for: as an integer when it is one of magnitude at most 2^53, as its characters otherwise |
| `JsonNumeral.IntegerPart` | src/json_lite.cpp:131-152 | its integer value is that real number cut off towards zero, within 64 bits |
| `JsonNumeral.NumeralParts` | src/json_lite.cpp:131-152 | every number read has such parts |
| `JsonPrinted.PrintedTight` | src/json_lite.cpp:288-371 | what is printed is, among the texts that mean the value, the one without white space or leading zeros, with every character the shortest way |
| `JsonRoundTrip.RoundTrip` | src/json_lite.cpp:154-371 | reading back what was printed gives exactly the value when it nests at most 128 containers, and fails as too deep otherwise; for every value the reader can make, strings of any bytes and key-sorted objects |
| `JsonRoundTrip.DumpReadsBack` | src/json_lite.cpp:154-371 | the same inside any text and at any depth: the reader consumes exactly the printed characters, or fails where the depth left does not suffice |
| `JsonRoundTrip.QuotedReadsBack` | src/json_lite.cpp:345-371 | every byte string escaped and quoted is read back as itself, and the reader stops behind its closing quote whatever the string contains |
| `JsonRoundTrip.NumberReadsBack` | src/json_lite.cpp:131-152 | the text of a number is read to its end, as the number it is on its own, wherever nothing behind it continues a number |
| `JsonRoundTrip.IntegerText` | src/json_lite.cpp:294-307 | the decimal print of every exact integer is such a text and is that integer |
| `JsonRoundTrip.ObjectReadsBack` | src/json_lite.cpp:154-231 | printed members are read back as the map they fill: first key wins, keys in order |
| `JsonAccepted.AcceptedIsValid` | src/json_lite.cpp:154-250 | whatever text is accepted, the value is well formed: object keys sorted and distinct, its numbers print as numbers, at most 128 containers deep |
| `JsonAccepted.AcceptedSurvivesReprinting` | src/json_lite.cpp:233-371 | every accepted text, printed and read again, gives the same value |
| `JsonLocal.ValueMoves` | src/json_lite.cpp:154-231 | what the reader makes of a value depends only on the characters it reads: where they stand in another text, and nothing there continues a number, it reads the same value and stops behind it |
| `JsonLocal.ArrayMoves` | src/json_lite.cpp:206-231 | an array is read to its own bracket whatever follows it |
| `JsonLocal.ObjectGoesOn` | src/json_lite.cpp:170-204 | with a comma in the place of its closing brace the reader takes the same members and goes on behind the comma, or misses a key when there is no member |
| `JsonParser.Parser.ParseValue` | src/json_lite.cpp:154-231 | for every input and position the method ends inside the text, puts its depth counter back, and returns the value or error the grammar gives, white space before the value included |
| `JsonParser.Parser.ParseString` | src/json_lite.cpp:55-129 | the string reader with its escapes and surrogate pairs returns what the grammar gives and stays inside the text |
| `JsonParser.Parser.ParseNumber` | src/json_lite.cpp:131-152 | the number scan takes the longest run of the number grammar and fails where the grammar does |
| `JsonParser.ParseText` | src/json_lite.cpp:233-250 | the whole text is one value with white space around it; anything behind it is an error; which texts and values these are is stated by AcceptsExactly |
| `JsonValue.EmplaceIsInsertion` | src/json_lite.cpp:178-204 | an insertion keeps the map ordered and every old entry, and adds the new one exactly when its key was absent |
| `JsonValue.LessMeans` | src/json_lite.cpp:178-204 | keys are ordered by the first character in which they differ, a prefix before the longer key |
| `JsonValue.Escape` | src/json_lite.cpp:345-371 | the escaping loop builds the quoted form of the whole string |
| `JsonValue.DumpText` | src/json_lite.cpp:288-343 | the recursive printer builds the printed form of the value |
| `JsonUnicode.EscapedTextParses` | src/json_lite.cpp:74-119 | a string literal in which every character is written as one Unicode escape, or as a surrogate pair of them beyond the first plane, is read as the UTF-8 text of those characters |
| `JsonUnicode.EscapedReads` | src/json_lite.cpp:74-103 | such an escape or pair is read as its code point, and the reader stops behind it |
| `JsonUnicode.Utf8Decodes` | src/json_lite.cpp:104-118 | the bytes pushed for a code point determine it, and have the lead and continuation bytes of its length in UTF-8 |
| `JsonFind.FindFollowsSteps` | src/json_lite.cpp:252-286 | a path written from non-empty keys without dots or brackets and from positions below 2^64 leads to the value those steps lead to, or to null where one of them does not exist |
| `JsonFind.StoulOfDigits` | src/json_lite.cpp:262-263 | the position written in decimal is read back as itself |
| `JsonFind.FindPath` | src/json_lite.cpp:252-286 | the loop over the path returns what following its hops one by one gives |
| `HmsFilter.RemovedExactly` | src/agent.cpp:1079-1092 | after an edit the array holds, in their old order, exactly those old entries that are no object with a field whose key is code and whose value is the target, or a decimal with the target as its integer part |
| `HmsFilter.FilterEffect` | src/agent.cpp:1051-1097 | the text replaced is the array the reader reads from that bracket on in the payload; all text before and behind it is untouched; the array in its place parses to the old entries without the target ones and is the array the filter would look at again |
| `HmsFilter.SpanIsRealArray` | src/agent.cpp:1053-1079 | on every payload: where the reader takes an array behind the hms key, the span ends where the reader does and the parsed slice has the entries it reads; where it takes none nothing is edited |
| `HmsFilter.KeptIsSubsequence` | src/agent.cpp:1079-1092 | the entries that stay are exactly those without the target code, in their old order |
| `HmsFilter.KeptIsClean` | src/agent.cpp:1079-1092 | no entry that stays has the target code |
| `HmsFilter.FilterTwice` | src/agent.cpp:1051-1097 | a second call never edits |
| `JsonSpan.ArrayEnds` | src/agent.cpp:1020-1046 | on every text in which the reader takes an array from a bracket, the bracket matcher ends exactly at that array's own bracket, whatever brackets and quotes its strings contain |
| `HmsFilter.SearchSeesPrefix` | src/agent.cpp:1051-1071 | the search for the array depends only on the text up to its opening bracket |
| `JsonPatch.MatchingArrayEnd` | src/agent.cpp:1020-1046 | the matching loop returns the position the matcher function finds, or nothing |
| `HmsSearch.FindHmsArray` | src/agent.cpp:1053-1071 | the search returns the bracket of the first quoted hms with only white space, a colon and white space before a bracket, and nothing when there is none; a key that shares its first quote with the last one looked at is passed over |
| `HmsSearch.HmsOpenMeans` | src/agent.cpp:1053-1071 | that is what the searching function finds, stated by the characters alone |
| `JsonPatch.HasCodeMeans` | src/agent.cpp:1079-1086 | an entry of an accepted array has the code exactly when one of its fields says so |
| `JsonPatch.AnyMeans` | src/agent.cpp:1079-1092 | something is dropped exactly when some entry has such a field |
| `JsonPatch.TryFilterHmsCode` | src/agent.cpp:1051-1097 | it returns true exactly when the array has an entry in which a field with the key code holds the target, as an integer or as the integer part of a decimal; returning false leaves the payload as it was; returning true is the edit described by the lemmas |
| `JsonPatch.TryInjectIpcamFileLocal` | src/agent.cpp:671-714 | returning false leaves the payload as it was; returning true is the insertion described by the lemmas |
| `IpcamInjection.InjectionIsLocal` | src/agent.cpp:671-714 | on every frame where the reader takes an object from the first brace behind the ipcam key: with a member spelled by the key and its colon it is left alone, otherwise the text is inserted before that object's own brace and nothing else changes |
| `IpcamInjection.EditedObjectIsRead` | src/agent.cpp:671-714 | the edited object is read as the old members plus the file entry exactly when it had a member and is not on the innermost level the reader allows; otherwise it is no longer read |
| `IpcamInjection.InjectionTwice` | src/agent.cpp:671-714 | whatever the frame, an edited one is not edited again |
| `JsonSpan.ObjectEnds` | src/agent.cpp:678-705 | on every text in which the reader takes an object, the brace matcher ends at its own last brace and reports a file key exactly when a member of that object is spelled with it |
| `IpcamInjection.LeftAloneHasFile` | src/agent.cpp:698-709 | a frame is left alone only when the object does have a file entry |
| `IpcamInjection.EntryStays` | src/agent.cpp:698-714 | an entry that is there but spelled otherwise keeps its value: the member added behind it counts for nothing |
| `IpcamInjection.SpacedKeyIsMissed` | src/agent.cpp:698-701 | such a spelling exists: white space before the colon |
| `JsonSpan.FileKeyMeans` | src/agent.cpp:698-701 | where the text test for the file key holds, the reader reads the key file with a colon right behind it |
| `JsonSpan.ValueSpan` | src/agent.cpp:678-705 | on every text: over a value the reader accepts, the matcher comes out at the same depth where the reader stops |
| `JsonSpan.FieldsSpan` | src/agent.cpp:678-705 | over members the reader accepts the matcher changes nothing but the report of a file key, made exactly for a member so spelled at depth one |
| `FrameCodec.DrainFrames` | src/lan_bind_tcp.cpp:243-271 | the erasing loop takes the payloads and leaves the rest that the recursive description gives |
| `FrameRecovery.DrainExactly` | src/lan_bind_tcp.cpp:243-271 | by the bytes alone: without two head bytes nothing is kept; else what stands before the first two goes, and then a whole frame is taken, of a false start only the two head bytes go, an unfinished one waits |
| `FrameRecovery.FramesBehindNoise` | src/lan_bind_tcp.cpp:243-271 | frames behind bytes without a head pair, the last of them no head byte, arrive |
| `FrameRecovery.NoiseCanHideFrame` | src/lan_bind_tcp.cpp:247-263 | a single head byte before a frame can hide it |
| `FrameStream.CutsAreHarmless` | src/lan_bind_tcp.cpp:243-271 | draining a buffer, appending bytes and draining again gives what draining all at once gives, for every cut that does not lose a trailing lone head byte |
| `FrameStream.HarmlessExactlyWhen` | src/lan_bind_tcp.cpp:247-251 | a cut is harmless whatever follows if and only if the no-match clear did not drop a trailing head byte |
| `FrameStream.LostHeadShows` | src/lan_bind_tcp.cpp:247-251 | after such a loss one more head byte would have started a frame |
| `FrameStream.ChunkingIsInvisible` | src/lan_bind_tcp.cpp:243-271 | any number of chunks: the receive loop sees the payloads and rest of one call on the whole stream as long as no cut loses a head byte |
| `FrameStream.PayloadsAreFrames` | src/lan_bind_tcp.cpp:225-271 | every input is, in order, dropped bytes, the encoded frame of each payload taken, dropped bytes and the remainder |
| `FrameStream.FramesDrain` | src/lan_bind_tcp.cpp:225-271 | a concatenation of encoded frames drains to exactly those payloads, whatever bytes they contain, up to the 16-bit size |
| `FrameStream.FrameIsEncoded` | src/lan_bind_tcp.cpp:225-241 | a complete frame in the buffer is the encoding of its payload |
| `FrameStream.RestIsPending` | src/lan_bind_tcp.cpp:254-263 | what stays in the buffer is nothing or the start of one frame |
| `FrameStream.PendingStays` | src/lan_bind_tcp.cpp:254-263 | draining such a rest again takes nothing and keeps it |
| `FrameStream.LossExactlyOneByteIn` | src/lan_bind_tcp.cpp:247-251 | a cut of a stream of encoded frames loses a byte exactly when it separates the two head bytes of a frame |
| `FrameStream.GenuineStreamArrives` | src/lan_bind_tcp.cpp:243-271 | a peer's messages, cut anywhere but there, arrive complete and in order and leave the buffer empty |
| `BindSession.LoginBindSession` | src/lan_bind_tcp.cpp:356-478 | on every run: the session ends with the first round after which it is decided, or with the last one; decided means a FAILURE was heard, or there are a cloud function and a ticket and the cloud refused, a SUCCESS was heard or the time is almost over; once connected the socket is closed exactly once and last; one cloud call, on the first non-empty wait_auth ticket, in the round that brings it unless that round brings a FAILURE; the result and its texts follow from what was heard, the reports of the rounds used up to the first FAILURE |
| `BindSession.Receive` | src/lan_bind_tcp.cpp:386-478 | the same for the receive loop of a published session |
| `BindSession.Serve` | src/lan_bind_tcp.cpp:399-467 | one round keeps loop variables and trace in agreement, and ends the session exactly when the reports so far decide it |
| `BindSession.Listen` | src/lan_bind_tcp.cpp:399-445 | the reports of a batch are heard in order up to the first FAILURE, those without status skipped |
| `BindSession.OneReport` | src/lan_bind_tcp.cpp:401-403 | a payload is one report, or none when it has no status |
| `BindSession.SuccessExactlyWhen` | src/lan_bind_tcp.cpp:386-478 | success if and only if no FAILURE was heard and the one cloud call, on the first ticket, was answered with success |
| `BindSession.CutsAreNotHeard` | src/lan_bind_tcp.cpp:386-399 | what is heard depends on the bytes sent, not on how they were cut, unless a cut loses a head byte |
| `BindSession.FirstTicketMeans` | src/lan_bind_tcp.cpp:440-443 | the ticket is that of the first wait_auth report with a non-empty one |
| `BindSession.FailedMeans` | src/lan_bind_tcp.cpp:428-438 | a session failed exactly when some report heard was a FAILURE |
| `ConfigAgreement.FixedFileLoads` | src/config.cpp:68-161 | for every file, loading it after the block_cloud fix equals loading it before with only block_cloud set to false |
| `ConfigAgreement.UnchangedMeansOff` | src/config.cpp:279-296 | a file reported unchanged already loads with block_cloud off |
| `ConfigAgreement.FixerThenLoader` | src/config.cpp:257-275 | a line of a key to the fixer is an entry of that key to the loader, and where their values differ the loader's is not truthy |
| `ConfigAgreement.LoaderThenFixer` | src/config.cpp:68-78 | an entry with a one-word value is recognised by the fixer with that value |
| `ConfigAgreement.OtherKeysKeepFlag` | src/config.cpp:80-147 | an entry of another key leaves a switch as it is |
| `ConfigRuns.OnceIsEnough` | src/config.cpp:432-466 | whatever the file held, and also when it was just created, the next run makes no edit and reports none |
| `ConfigRuns.SeenFlat` | src/config.cpp:279-395 | the fixes see the same of the vector, whose appended header is one element, and of the lines of the written file |
| `ConfigKept.RepairKeepsLines` | src/config.cpp:279-395 | one repair of an existing file keeps every line byte for byte but truthy block_cloud lines, the first line about the client when it has the shipped name, a missing final line feed and appended lines |
| `ConfigKept.RepairedFileLoads` | src/config.cpp:432-466 | what one repair of any file, also of one just created, makes of the settings, exactly: block_cloud off; log_to_file 1 when no line of that key is there, and in a new file when its first line has it off and no later line sets it; and the stock client name when the first client line had the shipped one and no later line sets the name |
| `ConfigReport.ReportSays` | src/config.cpp:432-466 | the result byte by byte, by the edits made: byte 0 is 1 for a new file, else 0, 2 or 3 as the block fix changed no line, rewrote some or added some; bytes 1 and 2 are 1 exactly when the log fix and the client fix changed the lines; the file is written exactly when one of them did |
| `ConfigReport.BlockIsAppended` | src/config.cpp:279-303 | a file without a block_cloud line keeps its text; behind it come the missing line feed, an empty line unless there is one, and the block |
| `ConfigGrammar.BlockValueExactly` | src/config.cpp:257-275 | which lines the block fix recognises, exactly, and the value it reads: blanks, the key, blanks, an equals sign, blanks, one word |
| `ConfigGrammar.KeySpanExactly` | src/config.cpp:322-339 | the same for the other two fixes, whose values also end at a comment sign, and where the value stands |
| `ConfigGrammar.ShippedExactly` | src/config.cpp:377-395 | a value is the shipped client name exactly when it is that name in any case of letters between any number of quotes |
| `ConfigStability.Rewritten` | src/config.cpp:322-339 | a value written over another leaves one line of the same key, ended as before, whose value is the new one with what stood behind the old |
| `ConfigText.JoinSplit` | src/config.cpp:223-237 | splitting then joining any file gives the file back |
| `ConfigText.SplitJoin` | src/config.cpp:223-237 | joining lines and splitting again gives those lines |
| `ConfigText.SplitLinesKeepEnds` | src/config.cpp:223-237 | the splitting loop gives the lines with their terminators |
| `ConfigFixer.ConfLines.FixLines` | src/config.cpp:279-303 | the loop rewrites every truthy block_cloud line and no other, or appends the header, and reports which |
| `ConfigFixer.ConfLines.FixLogToFile` | src/config.cpp:350-371 | an existing log_to_file line is kept in an existing file and switched on in a new one; otherwise one is appended |
| `ConfigFixer.ConfLines.FixClientName` | src/config.cpp:377-395 | only the first client_name line is looked at, and only the shipped name is rewritten |
| `ConfigFixer.ParseBlockCloudLine` | src/config.cpp:257-275 | the index walk returns the value the line grammar gives |
| `ConfigFixer.FindKeyValue` | src/config.cpp:322-339 | the index walk returns the span of the value the line grammar gives |
| `ConfigFixer.EnsureConfFixes` | src/config.cpp:432-466 | the result code and the file after a whole call, with every read and write failure |
| `ConfigFixer.EnsureBlockCloudOff` | src/config.cpp:412-430 | the outcome and the file after a call, with every read and write failure |
| `ConfigLoader.ParseFile` | src/config.cpp:149-161 | the reading loop applies every entry in order |
| `ConfigMeaning.LoadedAsWritten` | src/config.cpp:80-161 | for every file and every key: the settings show the value of the last entry of the key that has an effect, texts as they stand, switches on for 1, true and yes, the port as its number from 1 to 65535, the print mode and the system by their words, mytask_pop set unless auto; without such an entry the default stays |
| `ConfigMeaning.EntryExactly` | src/config.cpp:68-78 | which lines are entries, exactly, and of which key and value |
| `ConfigMeaning.AtoiReads` | src/config.cpp:93-96 | a printed number with or without a sign is read as that number, whatever stands behind its digits |
| `ConfigMeaning.TruthyMeans` | src/config.cpp:404-410 | a value is truthy exactly when it is 1, true or yes in any case of letters |
| `ConfigMeaning.EmptyFile` | src/config.cpp:149-161 | what a file without entries loads as |
| `ConfigLoader.LineFeedIsIgnored` | src/config.cpp:149-161 | a line reads the same with its line feed and without |
| `LanOwnership.EveryRun` | src/agent.cpp:120-231 | over every interleaving: a session that left the slot was taken by exactly one party and disconnected exactly once, unless that party is about to; a session in the slot was neither taken nor disconnected |
| `LanCalls.DisconnectEmpties` | src/agent.cpp:327-358 | with mqtt_keep_connection off a disconnect returns with an empty slot, and the session that was in it taken and disconnected exactly once |
| `LanCalls.DisconnectDefers` | src/agent.cpp:327-358 | with it on, a disconnect returns with a new timer waiting for the session that was there; the slot is empty only if it was, or an old timer took the session, or the thread could not be created |
| `LanCalls.ConnectOutcome` | src/agent.cpp:202-325 | a connect returns in one of three states: the old session kept, the new one not started and the slot empty, or the new one in the slot; and which of them follows from the setting, the session found and whether start succeeds; the old session is disconnected exactly once unless kept |
| `LanCalls.ShutdownEmpties` | src/agent.cpp:179-200 | a shutdown returns with an empty slot, no timer thread, and every session ever in the slot disconnected exactly once |
| `LanOwnership.ShutdownReleasesAll` | src/agent.cpp:178-198 | when shutdown returns the slot is empty, no timer is left, and every session ever in the slot was disconnected exactly once |
| `LanOwnership.CallsDoNotCollide` | src/agent.cpp:309-322 | with one call at a time no session is ever displaced and no timer thread is assigned over an unjoined one |
| `LanOwnership.ReusedIsSafe` | src/agent.cpp:206-231 | a session reported as reused is in the slot and cannot be taken by any timer armed earlier |
| `LanOwnership.ConnectIsSafeExactlyWhen` | src/agent.cpp:206-231 | with a timer armed, a new session is out of its reach if and only if the connect still sees mqtt_keep_connection on |
| `LanOwnership.ConnackDisarmsExactlyWhen` | src/agent.cpp:552-567 | a CONNACK keeps the pending teardown from taking the session if and only if the timer has not run out yet |
| `LanOwnership.ConnackCanComeTooLate` | src/agent.cpp:127-145 | the other case is reachable: the timer runs out, CONNACK arrives, the session is disconnected nevertheless |
| `CloudLatches.ToldExactlyOnce` | src/agent.cpp:3301-3322 | between resets of a device Studio is told of it exactly once if an unfiltered report came while a callback was registered, else never; earlier reports do not use the notification up |
| `CloudLatches.DueMeans` | src/agent.cpp:3301-3322 | the latch is set exactly when such a report stands in the history with no reset behind it |
| `CloudLatches.Agent.OnReport` | src/agent.cpp:3301-3322 | a report notifies exactly when the history says so; notified devices stay among the seen ones |
| `CloudLatches.Agent.Disconnect` | src/agent.cpp:3353-3363 | a disconnect forgets all devices |
| `CloudLatches.Agent.DelDevices` | src/agent.cpp:3437-3447 | unsubscribing forgets exactly the devices named |
| `CloudSubscriptions.EveryRun` | src/cloud_session.cpp:122-166 | over every run: active devices are wanted ones; while connected no wanted device is forgotten; the active devices are subscribed on the present connection if and only if there is one or none is active, which holds with no callback under way and all through that of a successful CONNACK |
| `CloudSubscriptions.StepKeeps` | src/cloud_session.cpp:122-306 | each step of callbacks, start, stop, add and del keeps that |
| `CloudSubscriptions.ConnackReconciles` | src/cloud_session.cpp:122-136 | after the callback of a successful CONNACK every active device is subscribed on the connection, nothing subscribed meanwhile is given up, and each wanted device is active or reported as refused |
| `CloudSubscriptions.WantedMeans` | src/cloud_session.cpp:254-277 | over every run: a device is wanted if and only if it has a name and the last add or delete that names it is an add |
| `CloudSubscriptions.DeletedStaysAway` | src/cloud_session.cpp:267-277 | after a delete, until an add names it again, a device is neither wanted nor active, nor, until another connection, subscribed, unless it already was without being active or without a client |
| `CloudSubscriptions.DeletedButSubscribed` | src/cloud_session.cpp:267-277 | the exception is reachable: a device can stay subscribed after its delete |
| `CloudSubscriptions.OthersStay` | src/cloud_session.cpp:254-277 | a delete changes nothing about the devices it does not name; an add only subscribes, while connected, to wanted ones that are not active |
| `CloudSubscriptions.StaleWhileLost` | src/cloud_session.cpp:152-158 | the other case is reachable: a device is active that no connection knows |
| `CloudSubscriptions.CloudSession.AddSubscribe` | src/cloud_session.cpp:254-265 | the locked section of an add: the devices wanted are the old ones and the named ones that have a name; while connected with a client every wanted device that is not active is subscribed to, and the refused ones are reported; the step of the state machine |
| `CloudSubscriptions.CloudSession.DelSubscribe` | src/cloud_session.cpp:267-277 | the locked section of a delete: exactly the named devices are no longer wanted or active, and with a client those of them that were active are unsubscribed; nothing else changes; the step of the state machine |
| `CloudSubscriptions.CloudSession.ApplySubscriptions` | src/cloud_session.cpp:279-306 | every wanted device that is not active is subscribed to, and the refused ones are reported |
| `CloudSubscriptions.CloudSession.Reconnected` | src/cloud_session.cpp:129-133 | the locked section of the CONNACK callback does the step of the state machine |
| `BlockCipher.CipherIsPermutation` | src/appcert_cipher.cpp:203-230 | for every schedule of round keys, decryption built from the inverse layers undoes encryption of every block, and encryption undoes decryption |
| `CipherBytes.KeyComesFirst` | src/appcert_cipher.cpp:173-180 | byte for byte, the first eight words of the schedule are the key |
| `CipherBytes.LaterBytes` | src/appcert_cipher.cpp:180-199 | every later byte is the byte eight words back xored with: at the start of eight words the substituted next byte of the word before, the fourth followed by the first, and for byte 0 the round constant; halfway the substituted byte; else the byte |
| `CipherBytes.RoundBytes` | src/appcert_cipher.cpp:210-228 | every byte of a round, by its row and column: the substituted byte as many columns to the right as its row, mixed with twice itself, three times the next row and once the two others, xored with its key byte; the last round without the mix |
| `CipherBytes.EncryptedInRounds` | src/appcert_cipher.cpp:203-230 | the block xored with the first round key, then fourteen such rounds, the last one without the mix |
| `CipherKnownAnswer.KnownCiphertext` | src/appcert_cipher.cpp:350-375 | the known answer: key 00 01 .. 1f and a given nonce encrypt sixteen zero bytes to c6bf1cc1 b40dcc16 443034d6 dabe7b81 |
| `CipherKnownAnswer.KnownKeyStream` | src/appcert_cipher.cpp:203-230 | as the block of the key stream, by the words of the schedule and the state after every round |
| `BlockCipher.MixUndone` | src/appcert_cipher.cpp:218-226 | the column mix over the byte product and the inverse mix (14, 11, 13, 9) undo each other |
| `BlockCipher.ShiftUndone` | src/appcert_cipher.cpp:213-217 | the row shift and its inverse undo each other |
| `BlockCipher.RoundUndone` | src/appcert_cipher.cpp:210-228 | each round and its inverse undo each other, the last one without its mix too |
| `CipherColumn.MixUnmix` | src/appcert_cipher.cpp:218-226 | the same for any sum and doubling that obey the field's laws |
| `CipherColumn.UnmixIsThreeMixes` | src/appcert_cipher.cpp:218-226 | the inverse mix is the mix applied three times |
| `CipherSbox.SubThenInv` | src/appcert_cipher.cpp:118-135 | the substitution table is one to one |
| `CipherSbox.InvThenSub` | src/appcert_cipher.cpp:118-135 | the substitution table is onto |
| `CipherField.GmulLoop` | src/appcert_cipher.cpp:159-168 | the shift-and-add loop computes the product |
| `CipherField.GmulXtime` | src/appcert_cipher.cpp:154-168 | multiplying a factor by x multiplies the product by x |
| `CipherField.XtimeLinear` | src/appcert_cipher.cpp:154-157 | doubling is additive |
| `CipherInPlace.EncryptBlock` | src/appcert_cipher.cpp:203-230 | the rounds over the state array give the encryption of the block |
| `CipherInPlace.ShiftInPlace` | src/appcert_cipher.cpp:213-217 | the copying loops move every row by its number |
| `CipherInPlace.MixInPlace` | src/appcert_cipher.cpp:218-226 | the loop mixes each column in place |
| `CipherSchedule.KeyExpand` | src/appcert_cipher.cpp:173-199 | the filled schedule is the recurrence of the round keys |
| `CipherSchedule.ExpandWords` | src/appcert_cipher.cpp:175-193 | the filling loops compute every word from the word before and the word eight back |
| `CipherSchedule.WindowDeterminesKey` | src/appcert_cipher.cpp:173-199 | any eight consecutive words of the schedule determine the key |
| `CipherSchedule.RconIsPowers` | src/appcert_cipher.cpp:138-140 | each round constant is the one before times x |
| `KeyBlob.BlobRoundTrip` | src/appcert_cipher.cpp:322-411 | for every key, nonce, tag, header and five equal non-empty limbs: framing, encrypting and encoding them, with anything behind, gives a text decoded to exactly those limbs |
| `KeyBlob.AcceptedBlobIsFramed` | src/appcert_cipher.cpp:377-411 | whatever is accepted is such a frame: its decrypted text is the magic, a header and the limbs, and encrypts to the blob's ciphertext |
| `KeyBlob.OpensExactly` | src/appcert_cipher.cpp:377-411 | a blob is accepted, with these limbs, if and only if it is long enough and decrypts to the magic, 28 more bytes and five equal non-empty limbs |
| `KeyBlob.CtrXorTwice` | src/appcert_cipher.cpp:350-375 | CTR mode is its own inverse and keeps the length |
| `KeyBlob.CtrByte` | src/appcert_cipher.cpp:350-375 | every byte is xored with its byte of the block encrypted from the nonce and the number two plus the blocks before it |
| `KeyBlob.FirstCounterBlock` | src/appcert_cipher.cpp:353-360 | the first block encrypted is the nonce and the bytes 0, 0, 0, 2 |
| `KeyBlob.CounterBytes` | src/appcert_cipher.cpp:353-367 | the counter stands behind the nonce, high byte first |
| `KeyBlob.LengthField` | src/appcert_cipher.cpp:383-390 | the length of the text stands at byte 28, low byte first, and is cut to what is there |
| `KeyBlob.CtrXorOfPrefix` | src/appcert_cipher.cpp:350-375 | a prefix of the data encrypts to the prefix of the ciphertext |
| `KeyBlob.KeyStreamDoesNotRepeat` | src/appcert_cipher.cpp:358-367 | under one nonce no block of the key stream comes twice before the 32-bit counter has gone round |
| `KeyBlob.CtrXorBlocks` | src/appcert_cipher.cpp:350-375 | the loop over blocks xors every byte with its byte of the key stream |
| `KeyBlob.DecodeKeyBlob` | src/appcert_cipher.cpp:377-411 | every way in and out of the decoder: encoding errors, a short blob, a length beyond the blob, a wrong magic, a body that is not five limbs |
| `Base64.DecodeEncode` | src/appcert_cipher.cpp:249-293 | decoding undoes encoding for all bytes |
| `Base64.DecodeIgnoresSpelling` | src/appcert_cipher.cpp:259-264 | white space anywhere and either alphabet make no difference |
| `Base64.DecodeIgnoresPadding` | src/appcert_cipher.cpp:265-265 | nor does padding left out in part or altogether |
| `Base64.EncodeUrl` | src/appcert_cipher.cpp:322-348 | the encoding loop gives four characters for every three bytes |
| `Base64Text.EncodeAt` | src/appcert_cipher.cpp:322-348 | every four characters are the base 64 digits of three bytes, the highest first, with padding for the missing ones |
| `Base64Text.LetterIs` | src/appcert_cipher.cpp:322-348 | the letters in their order, with - and _ for the last two |
| `Base64.DecodeAny` | src/appcert_cipher.cpp:249-293 | the decoding loop gives the bytes or the first error |
| `Base64Text.QuadsVerdict` | src/appcert_cipher.cpp:266-293 | cleaned and padded text is decoded exactly when of every four characters the first two are letters and the others letters or padding; otherwise the first four for which that fails say which error it is |
| `XmlDocument.DocumentReadsBack` | src/model_metadata.cpp:154-196 | for every list of metadata elements with any attributes, and text, other tags, comments, CDATA sections and processing instructions between them, the scan gives the unescaped value of the first element whose name attribute is that name as it stands in the file, and nothing when there is none |
| `XmlNames.NamesReadBackExactlyWhen` | src/model_metadata.cpp:80-196 | with names and values escaped, every document is read as it was meant if and only if the name asked for has none of the five characters written as entities |
| `XmlNames.UnwrittenIsNotFound` | src/model_metadata.cpp:80-196 | document by document: a name that is no name's escaped form, any with a bare bracket or quote say, finds nothing, so that the document is read as meant exactly when it gives that name no text |
| `XmlNames.SingleReadsBack` | src/model_metadata.cpp:80-196 | a single element printed with its name escaped is found under its name exactly when that is such a name |
| `XmlNames.AmpersandIsNotFound` | src/model_metadata.cpp:80-107 | the name a&b is not found, and a&amp;b is |
| `XmlNames.EscapedAsItself` | src/model_metadata.cpp:39-72 | a name is escaped as itself exactly when it has none of the five characters |
| `XmlMetadata.DecodeEscaped` | src/model_metadata.cpp:39-72 | decoding undoes escaping with the predefined entities |
| `XmlReference.ReferenceDecodes` | src/model_metadata.cpp:20-64 | a decimal character reference of up to ten digits is decoded to its UTF-8 form exactly when it refers to a character, and stays as it stands otherwise |
| `XmlReference.HexReferenceDecodes` | src/model_metadata.cpp:20-64 | the same for a hexadecimal reference of up to nine digits |
| `XmlMetadata.ContentReadsBack` | src/model_metadata.cpp:126-150 | the text of a printed element is its text with comments left out and CDATA sections taken as they are |
| `XmlDocument.TagReadsBack` | src/model_metadata.cpp:180-193 | a printed start tag with any attributes is recognised, whatever their values hold, and an element without content has no text |
| `XmlDocument.AttributesReadBack` | src/model_metadata.cpp:80-107 | the attributes of a printed tag are read as written, in either quotes, the first of a name counting |
| `XmlReader.Value` | src/model_metadata.cpp:154-196 | the scan ends on every input and returns what the scanning function gives |
| `XmlReader.DecodeXmlText` | src/model_metadata.cpp:39-72 | the decoding loop ends on every input and returns the decoded text |
| `XmlReader.XmlAttribute` | src/model_metadata.cpp:80-107 | the attribute loop ends on every input and returns the first value of that name, never text inside another value |
| `XmlReader.XmlTagEnd` | src/model_metadata.cpp:110-124 | the first bracket outside quotes ends the tag |
| `XmlReader.XmlElementText` | src/model_metadata.cpp:127-150 | the loop over text, comments and CDATA ends on every input and returns the element's text |
| `ControlReply.Reader.ReadLine` | src/ftps.cpp:371-392 | for every way the transport cuts the stream: what is read is its first line and only that is taken; a line of at most 16384 bytes is always read; the buffer never exceeds the cap and one read |
| `ControlReply.Reader.ReadReply` | src/ftps.cpp:396-428 | while the lines of the reply itself keep to the cap its code, text and the remaining stream depend on the stream alone |
| `ControlReply.OutcomeWithinCap` | src/ftps.cpp:371-392 | a line within the cap is read however it is cut |
| `ControlReply.CutMattersExactlyWhen` | src/ftps.cpp:371-392 | the outcome is the same for every cut if and only if there is no line feed, the first line has at most 16384 bytes, and is read, or it has a full read more, and is refused |
| `ControlReply.RefusedBeyondRead` | src/ftps.cpp:381-386 | a line of 16384 bytes and one read or more is refused however it is cut |
| `ControlReply.CapDependsOnTheCut` | src/ftps.cpp:381-386 | in between the outcome depends on the cut: every such stream has a cut that is read and one that is refused |
| `ControlReply.CutCanMatter` | src/ftps.cpp:381-386 | the first such stream: one byte over the cap |
| `ControlReply.AnyCodeCloses` | src/ftps.cpp:412-424 | the closing line's code is taken whatever code opened the reply |
| `ControlLines.ReplyReads` | src/ftps.cpp:396-428 | a reply of any lines, ended with or without carriage return, that are not three digits and a blank, and one that is, is read with the number of those digits as its code, the lines with line feeds between them as its text, and nothing taken behind it; it fails exactly when that text is over the cap |
| `ControlLines.CodeMeans` | src/ftps.cpp:412-424 | a line closes a reply exactly when it is the three decimal digits of the code, a blank and anything |
| `ControlLines.PasswordWanted` | src/ftps.cpp:396-428 | a reply that begins with 331 has the code 331 |
| `JobRunner.ResultAtMostOnce` | src/abi_ft.cpp:288-320 | over every run and whatever throws, the result callback runs at most once, and a thread that has ended leaves its job finished |
| `JobOutcome.ReportedExactlyWhen` | src/abi_ft.cpp:288-346 | when its thread has ended a job has called its result callback exactly once, unless it has none or threw between marking the result as delivered and calling |
| `JobRunner.CallbackHoldsNoLock` | src/abi_ft.cpp:409-447 | the result callback never runs while its thread holds lan_mu |
| `JobRunner.NeverStuck` | src/abi_ft.cpp:610-624 | nothing deadlocks, also when callbacks shut the tunnel down: as long as a thread has not ended, some step is possible |
| `JobRunner.OutliveTheThread` | src/abi_ft.cpp:212-225 | job and tunnel are not freed while the thread refers to them, and are freed once nobody does |
| `JobRunner.StepKeeps` | src/abi_ft.cpp:212-556 | each step of threads, handles and shutdown keeps the reference counts, the lock and the flags in agreement |
| `JobRunner.FirstAnswerStays` | src/abi_ft.cpp:348-389 | jobs fail until the printer answers; every later job gets that first text; the job that fetched it gets it exactly when it is not empty |

## Left out

- JsonRoundTrip.RoundTrip: a number that is not an integer of magnitude at most 2^53 keeps the characters it was read from; the source rounds it to a double and prints 17 digits of that. For such numbers this and the results built on it are about that spelling.
- JsonValue.DumpText: prints such a number as those characters.
- JsonParser.Parser.ParseNumber: range errors of `std::stod`, its rounding and its locale are not modelled, because doubles are not.
- JsonPatch.TryFilterHmsCode: the integer part of a code is that of the decimal as written, not of the double nearest to it.
- IpcamInjection.InjectionIsLocal: where the reader takes no object behind the key, only the method's equality with its function is stated.
- ConfigLoader.ParseFile: `std::atoi` beyond the range of int is undefined in the source and unbounded here; the order of members in the Settings struct is not modelled, its plain string and bool members are two maps under their keys.
- ConfigFixer.EnsureConfFixes: the shipped template is a parameter; text mode on Windows, permissions and the atomic rename are a single write that works or not.
- ConfigKept.RepairKeepsLines: speaks of existing files; in a file just created from the template the log_to_file value may be rewritten too.
- LanOwnership.EveryRun: connect, disconnect and shutdown are assumed to come one at a time, each reading mqtt_keep_connection anew; the autostart thread (`src/agent.cpp:449`) can break that. Certificates, TLS set-up and what a session does once started are left out.
- CloudSubscriptions.EveryRun: start and stop are assumed to come one at a time; a connection is the network library's, known from its callbacks.
- BindSession.LoginBindSession: reading a report out of its JSON, building the login message, logging of error codes and the socket are inputs; the clock is the number of rounds and a flag a round.
- KeyBlob.DecodeKeyBlob: the fixed key of the source is a parameter; the authentication tag is skipped by the source and here.
- XmlScan.Strtoul: a 64-bit unsigned long is assumed, so a negative reference is never a character.
- ControlReply.Reader.ReadReply: the TLS and plain transports are a list of pieces followed by a failure; that the closing code equals the opening one is not checked by the source and not claimed.
- JobRunner.ResultAtMostOnce: a job is started once, as the library's callers do; progress callbacks, which do run under lan_mu, cancellation and the transfers themselves are left out.
- CloudLatches.Agent.OnReport: harvesting, rescuing and forwarding of reports are left out; a report they filter out is an input. The kickstart set is left out, it would add an easy member.
- Sockets, TLS, MQTT and HTTP libraries, RSA and X.509, key material, REST wrappers, logging and error tables are not part of this model.
