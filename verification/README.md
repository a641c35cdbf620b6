# A verified model of the q3x inference engine

This project models the parts of the engine whose correctness is a claim about all inputs or all runs,
and proves those claims. `dafny verify dfyconfig.toml` checks all of it.

## What is modelled

**Speculative decoding** (`Target`, `VerifyRows`, `Draft`, `Transaction`, `Round`, `Service`). The target
network is any collection of total functions: one per kernel, over 64 layers of which every fourth is full
attention. `MtpTarget.Step` is one-token decoding with it. The five slots (the arena and four prefix
snapshots), the key/value cache and the draft's cache are arrays, updated in place as the engine does, and
every device call may fail unless the device is declared healthy; what a failed call of the target was to
write is arbitrary afterwards. Verification runs all rows layer by layer; it is proved to leave in every
slot what row-by-row stepping would, whichever slot owns the live recurrent state. Commits keep target and
draft in agreement with a plain recomputation from the committed tokens, so a round emits only greedy
tokens, and a whole request emits exactly what the engine's own one-token loop would.

**Prompt processing** (`PrefillPlan`, `PrefillProgress`, `PrefillWalk`). The plan builder, the topology
check and the progress record with its ten kinds of advance. The progress fields are those of the source;
they are proved to record a walk over layers and phases, and a specification of that walk says which calls
are accepted. A commit is reached by the canonical walk and by nothing else.

**Text** (`Utf8`, `Utf8Output`, `JsonSyntax`, `JsonReader`, `JsonParser`, `JsonProofs`, `JsonEscape`,
`JsonLaws`). Streaming UTF-8 output with replacement of maximal subparts, against Table 3-7 of the Unicode
Standard; the JSON parser, as a class with a cursor, against a functional reader that is proved equal to the
grammar of RFC 8259 with its denotation; the escaper, which the parser undoes; and laws that say what
escapes mean by the characters they are spelled with.

**Checkpoint files** (`Coverage`, `SafetensorsHeader`, `ShardOrder`, `SafetensorsIndex`). The header's
checks and sorted sweep accept exactly the headers whose tensors tile the data, and an index is accepted
exactly when it agrees with its shards.

**Sidecar weights** (`Packing`, `SidecarModel`, `SidecarLaws`, `SidecarExclusion`, `Sidecars`). The attach
functions are all-or-nothing, the accepted descriptors are the arena cut into blocks, each reaches the
projection it is for and nothing else changes, and over any sequence of calls certain weights never stand
together.

**Hashing** (`Sha256Spec`, `Sha256Laws`, `Sha256`). The buffered hash against FIPS 180-4, whose constants
are tied to the roots of primes they come from, and the loader of the draft's weights, which hashes a file
that it reads in arbitrary pieces.

**Route evidence** (`RouteEvidence`). Counters of a request that are merged pass by pass.

## Where the code does not do what one might expect

- Packed and Marlin weights are excluded in one direction only. A projection comes to hold both exactly when
  a Marlin attach is accepted while packed artifacts stand (`SidecarExclusion.ExclusionIsKeptUnless`,
  `RunsStayExclusive`), and that happens (`ClashesHappen`).
- The order by end in the safetensors sort is needed: without it a header with an empty tensor could be
  refused (`Coverage.TieBreakIsNeeded`).
- In the served build the tactics with a fixed prompt ask for 44096 tokens, one more than the request capacity.
  The layer-wide MLP tactic, which is not held to that capacity, can still be built; projection reset, the two
  packed tactics and the parity tactic never can (`PrefillPlan.BuildableRequests`).
- A request whose first token the client refuses ends as cancelled, but the report of speculative decoding, which
  never began, does not say so (`MtpService.Service.Generate`).
- The check for a tensor stored in two shards cannot fail once the weight map has been checked, nor can
  the builder's final topology check.

## Model

| member | source | states |
|---|---|---|
| MtpService.Service.Generate | src/runtime/reference_engine_control.cpp:697-722 | a whole request: with a prompt taken over and its greedy first token, the tokens are a beginning of one-token greedy decoding from the prompt alone, and all of it on success unless a cancellation polled between rounds left them uncut and short of the limit; on success the stop reason is the one the tokens show, stop token before refusal before limit; a fault-free request that fits succeeds |
| MtpService.Service.Decode | src/runtime/mtp_service_internal.cpp:98-159 | lossless decoding: whatever the draft proposes, the emitted tokens are a beginning of the one-token greedy reference; on success they are all of it, also when a token was cancelled, unless they are uncut and short of the limit, which only a polled cancellation explains; the stop reason is exactly the one the tokens show, and the cancelled flag is set exactly with that reason; every step record has the next position; a fault-free device, a healthy network and a request that fits never fail; a poisoned target emits nothing more; the accounting balances, and no round but a last one with room for a single token went without a draft |
| MtpService.Service.ResetReport | src/runtime/mtp_service_internal.cpp:80-82 | an empty report, whatever the last request left |
| MtpService.Service.DecodeTurn | src/runtime/mtp_service_internal.cpp:130-154 | one turn of the loop strictly lengthens the output while it goes on, fails only if the device does, and when it ends the decoding gives the reason the tokens show and sets the cancelled flag exactly for a cancellation |
| MtpService.Service.DecodeRound | src/runtime/mtp_service_internal.cpp:134-149 | one round inside a request: cut exactly where the reference is cut, its proposals those of the draft under the options of the next round, books kept, no failure of a round whose options come from position plus remaining output |
| MtpService.Service.NextRound | src/runtime/mtp_service_internal.cpp:134-142 | the options of the next round, its draft length the tail budget, and exactly when they pass the guards of a round: budget 2 or 3, pending and stop token in the vocabulary and different, and position plus remaining output within the capacity |
| MtpService.Service.Book | src/runtime/mtp_service_internal.cpp:144-148 | each total grows by what the round reports; committed = accepted + rounds, less one when the round ended on an accepted proposal; acceptance by position does not increase and sums to the accepted tokens |
| MtpService.Service.Initialize | src/runtime/mtp_service_internal.cpp:83-97 | a prompt taken over leaves target and draft agreeing on exactly the prompt and the report clean; a failed takeover is either cancelled or failed, never both |
| MtpService.Service.TakenOverIsAdmitted | src/runtime/mtp_service_internal.cpp:83-97 | the target and draft a successful takeover leaves, with one emitted token, are what decoding requires of them |
| MtpService.FirstTokenIsReference | src/runtime/reference_engine_control.cpp:723-756 | the reference from the prompt is its greedy first token alone when that ends the generation, and the reference from that token otherwise |
| MtpService.GreedyIsReference | src/runtime/reference_engine_control.cpp:723-756 | tokens that are each the greedy successor, none but the last ending the generation, are a beginning of the one-token loop, and all of it once the last one ends it |
| MtpService.Service.RoundOutcome | src/runtime/mtp_service_internal.cpp:149-153 | what each round status says about the whole output so far |
| MtpRound.RunRound | src/runtime/mtp_control.cpp:7-91 | a round drafts as many tokens as its policy asks of the draft, the accepted ones being those that the emitted tokens begin with; it emits greedy tokens only, cut at the first stop, rejection or limit; invalid options touch nothing; every other failure aborts exactly once and poisons the target; a failed result still reports the proposals and verified rows it got to; a poisoned target never emits; no failure without a device fault |
| MtpRound.RoundsDraft | src/runtime/mtp_control.cpp:23-46 | never more than the draft length or one less than the remaining output; a round with room for two tokens drafts unless the first proposal is the stop token at the frontier; a draft that is sure and does not stop proposes all it may |
| MtpRound.Maximum | src/runtime/mtp_control.cpp:23-24 | the smaller of the draft length and one less than the remaining output |
| MtpRound.VerifyAndCommit | src/runtime/mtp_control.cpp:54-90 | from proposals to the finished round: committed rows, accepted rows and status agree with the tokens emitted; a length stop means every proposal was accepted |
| MtpRound.OpenRound | src/runtime/mtp_control.cpp:32-53 | a round opens on a working device whenever its rows fit; a failure leaves the history alone and reports proposals only when one of them is out of range |
| MtpRound.DraftProposals | src/runtime/mtp_control.cpp:34-46 | the proposals are those of the draft itself, as many as the selected policy asks for, and accepted only when no longer than asked for, empty only because of the stop token, and stopped only before a named stop token |
| MtpRound.ProposeRound | src/runtime/mtp_control.cpp:33-53 | the proposals that survive are vocabulary indices and acceptable; a refused list counts only when a proposal is out of range |
| MtpRound.VerifyRound | src/runtime/mtp_control.cpp:54-63 | the predictions used are those of the staged rows and all vocabulary indices |
| MtpRound.CommitAndFinish | src/runtime/mtp_control.cpp:65-90 | after the row loop a finished transaction leaves target and draft agreeing on the committed rows; the proposals recorded before are kept |
| MtpRound.CommitRows | src/runtime/mtp_control.cpp:65-88 | the row loop: each committed row is the greedy token, the loop ends at the first rejection or cut |
| MtpRound.CommitTurn | src/runtime/mtp_control.cpp:66-87 | one row of the loop keeps the account of committed and accepted rows |
| MtpRound.CommitRow | src/runtime/mtp_control.cpp:70-76 | committing a row and emitting its token: the client sees exactly the committed token |
| MtpRound.TokenOutcome | src/runtime/mtp_control.cpp:77-86 | the stop token takes precedence over cancellation, and cancellation over the limit |
| MtpRound.Fail | src/runtime/mtp_control.cpp:27-31 | a failed round calls abort exactly once |
| MtpRound.Observer.Emit | src/runtime/mtp_service_internal.cpp:107-127 | the step record holds the position before the pending token, its input and the emitted token |
| MtpRound.OutputTailBudget | src/runtime/mtp_control.h:14-17 | the budget is 2 or 3, at most the configured one, and under a cap of three it is three exactly for four remaining tokens |
| MtpTransaction.TargetTransaction.Begin | src/runtime/mtp_device_internal.cpp:817-833 | opens a transaction on agreeing target and draft; refuses a poisoned or open one; succeeds whenever its guards hold and the device works |
| MtpTransaction.TargetTransaction.Propose | src/runtime/mtp_device_internal.cpp:834-846 | exactly the asked number of proposals, the draft rows beyond the entry being speculative except the seed row |
| MtpTransaction.TargetTransaction.DraftPrefix | src/runtime/mtp_device_internal.cpp:866-875 | drafting goes on while no proposal but the last is below 0.4 in confidence, and with a frontier stops before the stop token; the proposals are the speculation of the draft from the committed tokens |
| MtpTransaction.TargetTransaction.StepDraft | src/runtime/mtp_device_internal.cpp:841-871 | a step continues the speculation: it feeds on the previous proposal and the hidden row of the draft |
| MtpTransaction.TargetTransaction.SettingOut | src/runtime/mtp_device_internal.cpp:836-839 | a round sets out from the draft cache that a plain recomputation from the committed tokens gives |
| MtpTransaction.TargetTransaction.ProposePrefix | src/runtime/mtp_device_internal.cpp:857-878 | at most the asked number; none of them is the stop token when drafting stops before it; an empty list only because of it |
| MtpTransaction.TargetTransaction.StageInputs | src/runtime/mtp_device_internal.cpp:885-886 | the rows to verify are the seed followed by the proposals |
| MtpTransaction.TargetTransaction.Verify | src/runtime/mtp_device_internal.cpp:879-905 | afterwards every slot and prediction is that of one-token decoding on the entry history and the staged rows, and the draft is rewound to rows that agree with recomputation |
| MtpTransaction.TargetTransaction.VerifyMultirow | src/runtime/mtp_verify_internal.cpp:464-519 | the batched path fills the slots and predictions as one-token decoding would, from whichever row owns the live state |
| MtpTransaction.TargetTransaction.ReadPredictions | src/runtime/mtp_verify_internal.cpp:505-512 | the prediction of each staged row is the argmax of its own hidden row and a vocabulary index |
| MtpTransaction.TargetTransaction.RunRows | src/runtime/mtp_device_internal.cpp:889-898 | batched and scalar verification have the same result |
| MtpTransaction.TargetTransaction.SlotIsHistory | src/runtime/mtp_device_internal.cpp:928-940 | slot r holds the state and hidden row after the entry history and r staged rows |
| MtpTransaction.TargetTransaction.AcceptedRows | src/runtime/mtp_device_internal.cpp:913-916 | the longest run of staged rows each of which was predicted |
| MtpTransaction.TargetTransaction.PrepareTail | src/runtime/mtp_device_internal.cpp:912-927 | the draft rows of all rows that will be accepted are computed in one batch past the live ones, and none becomes live |
| MtpTransaction.TargetTransaction.ReuseSeedRow | src/runtime/mtp_device_internal.cpp:943-946 | the seed row left by drafting is the row a recomputation gives |
| MtpTransaction.TargetTransaction.PublishPreparedRow | src/runtime/mtp_device_internal.cpp:947-948 | a prepared row made live is the row a recomputation gives |
| MtpTransaction.TargetTransaction.AppendRow | src/runtime/mtp_device_internal.cpp:949 | a single appended row is the row a recomputation gives |
| MtpTransaction.TargetTransaction.ReconcileDraft | src/runtime/mtp_device_internal.cpp:941-949 | whichever of the three ways is taken, the draft cache agrees with recomputation from committed tokens |
| MtpTransaction.TargetTransaction.RestoreTarget | src/runtime/mtp_device_internal.cpp:928-940 | the convolution and hidden row of a slot are copied back; the GDN state only without zero copy |
| MtpTransaction.TargetTransaction.PublishTarget | src/runtime/mtp_device_internal.cpp:950-953 | with zero copy the slot becomes the owner; either way the target holds the history extended by the committed rows |
| MtpTransaction.TargetTransaction.CommitPrefix | src/runtime/mtp_device_internal.cpp:906-961 | commits exactly the next row; the pending token is the greedy successor of the new history; target and draft agree with it; a refused commit leaves the history alone |
| MtpTransaction.TargetTransaction.Finish | src/runtime/mtp_device_internal.cpp:962-972 | a finished transaction leaves target and draft agreeing, with nothing speculative |
| MtpTransaction.TargetTransaction.Abort | src/runtime/mtp_device_internal.cpp:973-987 | an aborted transaction poisons target and draft, and is counted once |
| MtpTransaction.TargetTransaction.InitializePrefill | src/runtime/mtp_device_internal.cpp:719-773 | takes over a committed prompt; all guards pass on a working device |
| MtpTransaction.TargetTransaction.BuildDraft | src/runtime/mtp_device_internal.cpp:767-772 | draft row p pairs token p+1 with the hidden row after p+1 tokens |
| MtpDraft.Draft.InitializeKv | src/runtime/mtp_device_internal.cpp:321-367 | the cache of a prompt, in batches: every row is that of its own token, hidden row and position; a cancelled build is poisoned |
| MtpDraft.Draft.AppendKv | src/runtime/mtp_device_internal.cpp:370-390 | one row at the position, all others unchanged |
| MtpDraft.Draft.PrepareKvPrefix | src/runtime/mtp_device_internal.cpp:394-432 | a batch past the live rows; the position and all live rows stay |
| MtpDraft.Draft.CommitPrepared | src/runtime/mtp_device_internal.cpp:433-441 | prepared rows become live strictly one after another |
| MtpDraft.Draft.Rewind | src/runtime/mtp_device_internal.cpp:300-306 | moves the position back only; prepared rows are forgotten |
| MtpDraft.Draft.Reset | src/runtime/mtp_device_internal.cpp:307-320 | an empty, unpoisoned cache |
| MtpDraft.Draft.Propose | src/runtime/mtp_device_internal.cpp:442-503 | the proposal and confidence are those the draft network gives for the new row; a speculative step appends the row of its token and hidden row and leaves all others |
| MtpVerifyRows.TargetMemory.EnqueueMultirow | src/runtime/mtp_verify_internal.cpp:164-378 | layer-major verification of one to four rows leaves in slot r+1 exactly the state after r+1 one-token steps, and in the cache exactly their rows, though the owner slot itself is overwritten |
| MtpVerifyRows.TargetMemory.EnqueueLayers | src/runtime/mtp_verify_internal.cpp:216-352 | the loop interchange: blocks of three linear layers and one attention layer visit each of the 64 layers once and move the wavefront from the first to the last |
| MtpVerifyRows.TargetMemory.LinearBlock | src/runtime/mtp_verify_internal.cpp:21-110 | three linear layers move the wavefront by three |
| MtpVerifyRows.TargetMemory.LinearLayer | src/runtime/mtp_verify_internal.cpp:56-108 | in a linear layer row r reads the slot of row r-1 and row 0 the published owner; slots below are complete, layers above untouched |
| MtpVerifyRows.TargetMemory.LinearRow | src/runtime/mtp_verify_internal.cpp:68-91 | row 0 may overwrite the very slot it reads; no other row or layer changes |
| MtpVerifyRows.TargetMemory.AttentionLayer | src/runtime/mtp_verify_internal.cpp:265-335 | the keys of all rows are written before any row attends, and no earlier position changes |
| MtpVerifyRows.TargetMemory.AttendRows | src/runtime/mtp_verify_internal.cpp:307-334 | row r attends to positions up to its own only |
| MtpVerifyRows.TargetMemory.WriteKeys | src/runtime/mtp_verify_internal.cpp:265-300 | the cache of the layer is extended by the rows of one-token decoding |
| MtpVerifyRows.VisiblePrefix | src/runtime/mtp_verify_internal.cpp:307-334 | the keys already written for all rows begin with what row r would see in one-token decoding |
| MtpVerifyRows.TargetMemory.FinishLayer | src/runtime/mtp_verify_internal.cpp:337-351 | output projection, residual, norm and MLP bring every row to the next layer |
| MtpVerifyRows.TargetMemory.PublishHidden | src/runtime/mtp_verify_internal.cpp:365-378 | every row publishes its own hidden row, the entry row stays |
| MtpVerifyRows.TargetMemory.ScalarStep | src/runtime/mtp_device_internal.cpp:892-897 | the native step advances the live state in place and touches no other slot |
| MtpVerifyRows.TargetMemory.ScalarRows | src/runtime/mtp_device_internal.cpp:889-898 | row-major verification; with zero copy only for one row, since each step overwrites the owner |
| MtpVerifyRows.TargetMemory.Snapshot | src/runtime/mtp_device_internal.cpp:786-816 | a slot keeps the whole recurrent prefix, the owner own slot included |
| MtpVerifyRows.TargetMemory.Restore | src/runtime/mtp_device_internal.cpp:928-940 | the arena holds the slot again, all slots are unchanged |
| MtpVerifyRows.TargetMemory.SelectOwner | src/runtime/mtp_device_internal.cpp:668-687 | only the arena and the four slots can own the live state |
| MtpTarget.StepsAreRuns | src/runtime/reference_engine_control.cpp:723-756 | one-token steps after a history pass through the states of the longer histories |
| MtpTarget.KvIsStable | src/runtime/mtp_verify_internal.cpp:265-300 | a cached row is never rewritten by a later step |
| Utf8.TruncatedTable | src/server/utf8_output.h:16-36 | what could still be completed, row by row of Table 3-7 |
| Utf8.EncodedOnce | src/server/utf8_output.h:17-20 | no encoding is the beginning of another |
| Utf8.FirstPieceIsStable | src/server/utf8_output.h:37-45 | what is complete or already ill-formed stays so whatever follows |
| Utf8.MaximalSubpart | src/server/utf8_output.h:26-45 | the longest beginning that could still be completed, or one byte; at most three |
| Utf8.RenderStep | src/server/utf8_output.h:15-46 | what is sent for the beginning of a text: its encoding as it is, or one U+FFFD for its maximal subpart, and then what the rest gives |
| Utf8.RenderWaits | src/server/utf8_output.h:40-41 | before the end of the text nothing is sent for what could still be completed |
| Utf8.RenderSplits | src/server/utf8_output.h:12-49 | rendering a text in two calls is rendering it in one |
| Utf8.ChunksDoNotMatter | src/server/utf8_output.h:12-49 | for every split into calls ending with final, the outputs joined are one final call on the whole |
| Utf8.RenderIsWellFormed | src/server/utf8_output.h:8-11 | output is always well-formed; at most three bytes, a suffix of the input that could still be completed, stay pending |
| Utf8.WellFormedIsUnchanged | src/server/utf8_output.h:8-11 | a text is passed through unchanged if and only if it is well-formed |
| Utf8.TableIsEncoding | src/io/json.cpp:445-464 | Table 3-7 admits exactly the encodings of scalar values: no surrogate, overlong form or value past U+10FFFF |
| Utf8Output.PendingText.RenderOutput | src/server/utf8_output.h:12-49 | the loop over the pending bytes computes the specified rendering and keeps at most three bytes, none after final |
| Utf8Output.PendingText.Append | src/server/evaluation_server.cpp:1168-1171 | the bytes of a token are queued after those that wait |
| Utf8Output.Matching | src/server/utf8_output.h:26-36 | the inner loop ends at the whole encoding or at the end of the maximal subpart |
| Utf8Output.FollowsIsTable | src/server/utf8_output.h:28-33 | the per-byte tests, lead byte by lead byte, are Table 3-7 |
| JsonProofs.ParserIsGrammar | src/io/json.cpp:605-623 | the parser accepts exactly the JSON texts within its limits, with no repeated name, and returns the value the grammar denotes |
| JsonProofs.DocumentSound | src/io/json.cpp:160-174 | an accepted text is spelled by a valid tree within the limits, and the value is what the tree denotes |
| JsonProofs.DocumentComplete | src/io/json.cpp:160-174 | every text spelled by a valid tree within the limits is accepted with that value |
| JsonProofs.GrammarIsUnambiguous | src/io/json.cpp:207-253 | a text denotes one value, however it is taken apart |
| JsonProofs.ValueComplete | src/io/json.cpp:207-253 | a valid tree within depth, value and item limits is read back, whatever blanks precede it |
| JsonProofs.ValueSound | src/io/json.cpp:207-253 | what was read as a value is a valid tree of the size and depth counted |
| JsonProofs.NumberComplete | src/io/json.cpp:265-320 | every numeral of the grammar is read whole |
| JsonProofs.NumberSound | src/io/json.cpp:265-320 | what was read as a number is a numeral of the grammar |
| JsonProofs.TextComplete | src/io/json.cpp:504-591 | every string of valid pieces is read as what the pieces denote |
| JsonProofs.TextSound | src/io/json.cpp:504-591 | what was read as a string is made of valid pieces: escapes, paired surrogates and well-formed UTF-8 |
| JsonProofs.ParsedStringsAreWellFormed | src/io/json.cpp:504-591 | every string in a returned value, names included, is well-formed UTF-8 |
| JsonParser.Parse | src/io/json.cpp:605-623 | the imperative parser returns the specified value, or the specified error code at the specified offset |
| JsonParser.Parser.Run | src/io/json.cpp:160-174 | one value and nothing but blanks around it |
| JsonParser.Parser.ParseValue | src/io/json.cpp:207-253 | value, rest of the text, counters and first error are those of the specification; recursion terminates |
| JsonParser.Parser.ParseArray | src/io/json.cpp:322-360 | arrays: every branch, counter and error offset |
| JsonParser.Parser.ParseElement | src/io/json.cpp:338-358 | one turn of the array loop continues the specified reading and moves the cursor |
| JsonParser.Parser.ParseObject | src/io/json.cpp:362-426 | objects: every branch, counter and error offset |
| JsonParser.Parser.ParseMember | src/io/json.cpp:378-424 | one turn of the object loop continues the specified reading and moves the cursor |
| JsonParser.Parser.ParseName | src/io/json.cpp:388-404 | a name must be new after unescaping; the error points at its quote |
| JsonParser.Parser.ParseString | src/io/json.cpp:504-591 | the string up to its closing quote, unescaped |
| JsonParser.Parser.ParseEscape | src/io/json.cpp:512-577 | each escape with its error |
| JsonParser.Parser.ParseUnicodeEscape | src/io/json.cpp:540-572 | surrogates must be paired; each of the four errors at its own offset |
| JsonParser.Parser.ParseHex4 | src/io/json.cpp:428-443 | four digits, most significant first |
| JsonParser.Parser.CopyValidUtf8 | src/io/json.cpp:466-502 | copies one code point if and only if the bytes begin with an encoding of Table 3-7 |
| JsonParser.EncodedByLead | src/io/json.cpp:466-497 | the checks on the lead, second and later bytes are Table 3-7 |
| JsonParser.Parser.ParseNumber | src/io/json.cpp:265-320 | the longest numeral, or the offset of the offending byte |
| JsonParser.Parser.ParseLiteral | src/io/json.cpp:255-263 | a literal or an error at its first byte |
| JsonParser.Parser.SkipWhitespace | src/io/json.cpp:177-181 | the cursor stands at the first byte that is no blank |
| JsonParser.Parser.ConsumeValue | src/io/json.cpp:191-197 | the value limit |
| JsonParser.Parser.ConsumeContainerItem | src/io/json.cpp:199-205 | the item limit |
| JsonParser.Parser.Fail | src/io/json.cpp:183-189 | the first error is kept |
| JsonLaws.EscapedTextIsRead | src/io/json.cpp:504-591 | a text of any code points, every one of them escaped as one code unit or a surrogate pair in hexadecimal of either case, is read as their UTF-8 |
| JsonLaws.EscapesAreRead | src/io/json.cpp:540-572 | the same inside any string |
| JsonLaws.HexIsReadBack | src/io/json.cpp:428-443 | four hexadecimal digits, each in small or capital letters, are read as the number they spell |
| JsonLaws.ShortEscapes | src/io/json.cpp:519-539 | the eight two-character escapes stand for their characters, and no other letter but u makes an escape |
| JsonLaws.EncodeKeepsOrder | src/io/json.cpp:445-464 | the order of code points is the order of their encodings byte by byte |
| JsonLaws.Spelling | src/io/json.cpp:128-135 | blanks, digits, punctuation and literals are the characters they should be |
| JsonLaws.ExponentSpelling | src/io/json.cpp:300-306 | an exponent has either letter and either sign |
| JsonLaws.ControlsAreRefused | src/io/json.cpp:579-581 | an unescaped control character is refused |
| JsonLaws.EscapedForms | src/main.cpp:146-170 | how each byte is written: five short forms, small hexadecimal for other control characters, itself otherwise |
| JsonEscape.PrintEscaped | src/main.cpp:141-173 | writes the specified quoted form |
| JsonEscape.EscapeIsPiece | src/main.cpp:146-168 | each ASCII byte is written as a JSON piece that denotes it |
| JsonEscape.EscapedIsReadBack | src/main.cpp:141-173 | reading back what was escaped gives the string if it is well-formed, and an encoding error otherwise |
| JsonEscape.EscaperRoundTrip | src/main.cpp:141-173 | the parser accepts an escaped string if and only if the string is well-formed UTF-8, and then returns it |
| JsonEscape.RenderedTextRoundTrips | src/server/utf8_output.h:12-49 | everything the renderer emits survives quoting and parsing |
| PrefillPlan.TilingCount | include/q3x/runtime/prefill_execution_plan.h:430-440 | halving the rest adds no panel: as many panels as full ones would need |
| PrefillPlan.TilingTiles | src/runtime/prefill_execution_plan.cpp:882-899 | contiguous non-empty panels no larger than the limit cover the prompt exactly |
| PrefillPlan.TilingShares | include/q3x/runtime/prefill_execution_plan.h:430-440 | in fixed geometry every panel but the last has 8000 tokens; operator panels have 8192, except that the last two differ by at most one token, the larger first |
| PrefillPlan.SharesDetermine | src/runtime/prefill_execution_plan.cpp:690-712 | there is only one way to tile a prompt so |
| PrefillPlan.LastPanelsAreEven | include/q3x/runtime/prefill_execution_plan.h:430-440 | a prompt of between one and two panels is split in two that differ by at most one token |
| PrefillPlan.ValidPanels | src/runtime/prefill_execution_plan.cpp:690-712 | the walk over the panels accepts exactly the tiling |
| PrefillPlan.ValidLayers | src/runtime/prefill_execution_plan.cpp:714-736 | the layers accepted are exactly the hybrid schedule |
| PrefillPlan.LayersAreHybrid | src/runtime/prefill_execution_plan.cpp:714-736 | 64 layers, every fourth of them full attention with a cache, the others recurrent |
| PrefillPlan.ValidPlanTopology | src/runtime/prefill_execution_plan.cpp:634-737 | decides exactly the valid plans |
| PrefillPlan.BuildPanels | src/runtime/prefill_execution_plan.cpp:882-899 | the loop builds the tiling |
| PrefillPlan.BuildPlan | src/runtime/prefill_execution_plan.cpp:807-1184 | a plan is built if and only if the request is buildable; it is valid, tiles the prompt and shares it out as the geometry asks; each refusal has its own exact condition, and its own final check never refuses the plan |
| PrefillPlan.BuildableRequests | src/runtime/prefill_execution_plan.cpp:807-862 | exactly which requests each tactic can be built for, in the served geometry and outside it |
| PrefillWalk.TheOnlyReceipt | src/runtime/prefill_execution_plan.cpp:503-531 | the one receipt that is valid for a layer, field by field |
| PrefillWalk.OneActionAccepted | src/runtime/prefill_execution_plan.cpp:1199-1565 | while layers remain exactly one action is accepted (for the parity tactic with a valid receipt); a refused one changes nothing |
| PrefillWalk.AcceptedCallsAreTheWalk | src/runtime/prefill_execution_plan.cpp:1199-1598 | for every sequence of calls with any arguments: the accepted ones are the canonical walk so far, then markings only after all of it, then at most one commit, the last of all |
| PrefillWalk.WalkIsAccepted | src/runtime/prefill_execution_plan.cpp:1199-1565 | the canonical walk is accepted, call by call |
| PrefillWalk.CommitIsReached | src/runtime/prefill_execution_plan.cpp:1567-1598 | after the canonical walk, marking and commit are accepted |
| PrefillWalk.PerformAll | src/runtime/prefill_execution_plan.cpp:1191-1598 | any calls on a fresh progress record: the record is that of the specified walk, and it is committed only if the accepted calls are the whole canonical walk, markings and one commit |
| PrefillWalk.InvalidPlanGoesNowhere | src/runtime/prefill_execution_plan.cpp:1199-1206 | under a plan of invalid topology no call is ever accepted |
| PrefillWalk.EndsMoveAlongPanels | src/runtime/prefill_execution_plan.cpp:1199-1258 | each layer end starts at the first position, moves forward only panel by panel or over the whole prompt, and ends at the final position |
| PrefillProgress.Progress.AdvancePanel | src/runtime/prefill_execution_plan.cpp:1199-1257 | accepted only as the next action of the walk; the fields record exactly the walk; a refusal changes nothing |
| PrefillProgress.Progress.AdvanceLayerWideMlp | src/runtime/prefill_execution_plan.cpp:1259-1280 | a layer-wide MLP: refused, changing nothing, unless it is the next action of the walk; when accepted the fields record the walk one action further |
| PrefillProgress.Progress.AdvanceFill | src/runtime/prefill_execution_plan.cpp:1282-1313 | a fill panel: refused, changing nothing, unless it is the next action of the walk; when accepted the fields record the walk one action further |
| PrefillProgress.Progress.AdvancePromptCore | src/runtime/prefill_execution_plan.cpp:1315-1348 | the prompt-wide core: refused, changing nothing, unless it is the next action of the walk; when accepted the fields record the walk one action further, and the layer end has moved over the whole prompt |
| PrefillProgress.Progress.AdvanceDrain | src/runtime/prefill_execution_plan.cpp:1350-1382 | a drain panel: refused, changing nothing, unless it is the next action of the walk; when accepted the fields record the walk one action further |
| PrefillProgress.Progress.AdvancePersistentMlp | src/runtime/prefill_execution_plan.cpp:1384-1408 | the persistent MLP: refused, changing nothing, unless it is the next action of the walk; when accepted the fields record the walk one action further |
| PrefillProgress.Progress.AdvanceResetLayer | src/runtime/prefill_execution_plan.cpp:1410-1446 | a projection-reset layer: refused, changing nothing, unless it is the next action of the walk; when accepted the fields record the walk one action further |
| PrefillProgress.Progress.AdvancePackedLayer | src/runtime/prefill_execution_plan.cpp:1448-1484 | a packed-projection layer: refused, changing nothing, unless it is the next action of the walk; when accepted the fields record the walk one action further |
| PrefillProgress.Progress.AdvancePackedV2Layer | src/runtime/prefill_execution_plan.cpp:1486-1522 | a packed NVFP4 layer: refused, changing nothing, unless it is the next action of the walk; when accepted the fields record the walk one action further |
| PrefillProgress.Progress.AdvanceParityLayer | src/runtime/prefill_execution_plan.cpp:1524-1565 | a parity layer: refused, changing nothing, unless it is the next action of the walk; when accepted the fields record the walk one action further; a receipt that is not valid for this layer is refused |
| PrefillProgress.Progress.ExecutionComplete | src/runtime/prefill_execution_plan.cpp:739-779 | the field-by-field test is true exactly when every layer has been walked |
| PrefillProgress.Progress.MarkFinalHiddenReady | src/runtime/prefill_execution_plan.cpp:1567-1578 | accepted exactly when the walk is whole and nothing is committed |
| PrefillProgress.Progress.FinalCommitReady | src/runtime/prefill_execution_plan.cpp:1580-1585 | exactly when the walk is whole, the hidden row is ready and nothing is committed |
| PrefillProgress.Progress.PublishCommitted | src/runtime/prefill_execution_plan.cpp:1587-1598 | the commit is accepted exactly once, at the end |
| Coverage.Sweep | src/io/safetensors.cpp:422-448 | the sorted sweep accepts if and only if the non-empty ranges tile the data and every empty one sits on a tile boundary; otherwise it points at an overlap or at an uncovered byte |
| Coverage.ChainIsCover | src/io/safetensors.cpp:434-448 | a full chain is an exact cover |
| Coverage.EarlyRangeOverlaps | src/io/safetensors.cpp:436-440 | a range that begins before the cursor runs into the one before it |
| Coverage.CursorUncovered | src/io/safetensors.cpp:441-448 | a range that begins after the cursor leaves the byte at the cursor to no tensor |
| Coverage.TieBreakIsNeeded | src/io/safetensors.cpp:428-430 | without the order by end an exact cover would be refused |
| Coverage.Sort | src/io/safetensors.cpp:422-432 | sorted, and a permutation |
| SafetensorsHeader.ParseHeader | src/io/safetensors.cpp:263-451 | the header is accepted if and only if the format allows it, with the tensors it describes |
| SafetensorsHeader.ReadEntries | src/io/safetensors.cpp:296-420 | succeeds exactly when every entry describes a tensor |
| SafetensorsHeader.ReadTensor | src/io/safetensors.cpp:318-414 | succeeds exactly when the entry describes a tensor within the data, and returns that tensor |
| SafetensorsHeader.ReadShape | src/io/safetensors.cpp:351-377 | the dimensions and their product, exactly when no partial product overflows |
| SafetensorsHeader.ReadMetadata | src/io/safetensors.cpp:299-316 | the metadata if it is text throughout |
| SafetensorsHeader.OverflowCheck | src/io/safetensors.cpp:200-208 | the division that guards the product is exact |
| SafetensorsHeader.RangesWithinData | src/io/safetensors.cpp:402-408 | what the checks on single tensors establish before the sweep |
| SafetensorsHeader.NumbersAreReadBack | src/io/json.cpp:21-33 | a number written in decimal is read back exactly when it fits 64 bits |
| SafetensorsHeader.WidthOfHalfByte | src/io/safetensors.cpp:138-139 | four bits |
| SafetensorsHeader.WidthsOfSixBits | src/io/safetensors.cpp:140-142 | six bits |
| SafetensorsHeader.WidthsOfBytes | src/io/safetensors.cpp:143-151 | the one-byte integers and booleans |
| SafetensorsHeader.WidthsOfByteFloats | src/io/safetensors.cpp:143-151 | the one-byte floating-point types |
| SafetensorsHeader.WidthsOfHalves | src/io/safetensors.cpp:152-156 | the two-byte types |
| SafetensorsHeader.WidthsOfWords | src/io/safetensors.cpp:157-160 | the four-byte types |
| SafetensorsHeader.WidthsOfLongs | src/io/safetensors.cpp:161-165 | the eight-byte types |
| SafetensorsHeader.ToUint64OfNumeral | src/io/json.cpp:21-33 | of the numerals of the grammar exactly those without sign, fraction and exponent that fit 64 bits are accepted, with their value |
| SafetensorsIndex.ValidateIndexShards | src/io/safetensors.cpp:670-912 | the index is accepted if and only if it and its shards agree; the check for a tensor stored twice can never fail |
| SafetensorsIndex.ReferencedShards | src/io/safetensors.cpp:690-711 | succeeds exactly when names and paths are sound and the shards not too many; the shards of the weight map, in ascending order |
| ShardOrder.AscendingIsUnique | src/io/safetensors.cpp:713-738 | a list equals the ascending one exactly when it is ascending and has the same names, so duplicates and other orders are refused |
| ShardOrder.DictionaryOrder | src/io/safetensors.cpp:690-737 | names are in dictionary order of their bytes |
| ShardOrder.InsertName | src/io/safetensors.cpp:704 | a name is put in its place once |
| SafetensorsIndex.CheckContents | src/io/safetensors.cpp:739-902 | succeeds exactly when every shard stores what the weight map places there, nothing is missing and the data adds up to the recorded size |
| SafetensorsIndex.CheckShard | src/io/safetensors.cpp:836-873 | succeeds exactly when the weight map places every stored tensor in this shard; no tensor is met twice |
| SafetensorsIndex.CheckShards | src/io/safetensors.cpp:751-874 | all shards, in their order, with the checked sum of their data |
| SafetensorsIndex.StoredTensorsAreTheWeightMap | src/io/safetensors.cpp:876-886 | a shard stores exactly the tensors that the weight map places there |
| SafetensorsIndex.CoverAddsUp | src/io/safetensors.cpp:434-448 | the sizes of an exact cover add up to the data |
| SafetensorsIndex.CoverIsChain | src/io/safetensors.cpp:434-448 | every exact cover, once sorted, is a full chain |
| SafetensorsIndex.HeaderAddsUp | src/io/safetensors.cpp:263-451 | the tensors of a header are as large as its data |
| SafetensorsIndex.TensorsAddUpToTotalSize | src/io/safetensors.cpp:893-901 | the recorded size of an accepted index is the sum of the sizes of all its tensors |
| SidecarModel.PlacementIsExactCover | src/runtime/model_weights.cpp:1102-1139 | accepted descriptors are precisely the arena cut into consecutive blocks, one per distinct layer |
| SidecarModel.EveryLayerIsCovered | src/runtime/model_weights.cpp:1050-1093 | with as many descriptors as eligible layers, each of them has one |
| SidecarModel.QkvCoversLinearLayers | src/runtime/model_weights.cpp:1019-1153 | the 48 layers of an accepted QKV call are all the linear layers, and each gets its own block |
| SidecarModel.CallsKeepSound | src/runtime/model_weights.cpp:1379-2479 | every call, accepted or not, keeps consumer-order weights beside scale6 sidecars and parity artifacts apart from Marlin and packed ones |
| SidecarModel.RunsKeepSound | src/runtime/model_weights.cpp:1379-2479 | every sequence of attach and detach calls keeps consumer-order weights beside scale6 sidecars and parity artifacts apart from Marlin and packed ones |
| SidecarLaws.PackedReaches | src/runtime/model_weights.cpp:1963-1976 | after an accepted packed attach the artifact of slot 0 of a layer is on its gate and up projections and that of slot 1 on down |
| SidecarLaws.PackedReachesNothingElse | src/runtime/model_weights.cpp:1963-1995 | a packed attach changes no other part of any layer |
| SidecarLaws.ParityReaches | src/runtime/model_weights.cpp:2173-2479 | after an accepted parity attach the artifact of slot 0 of a layer is on its gate and up projections and that of slot 1 on down |
| SidecarLaws.ParityReachesNothingElse | src/runtime/model_weights.cpp:2173-2479 | a parity attach changes no other part of any layer |
| SidecarLaws.MarlinReaches | src/runtime/model_weights.cpp:1767-1781 | after an accepted Marlin attach each descriptor pointers are where they belong: weight, scales and global scale of gate and up on both, with the layout, and those of down on down |
| SidecarLaws.MarlinReachesNothingElse | src/runtime/model_weights.cpp:1669-1683 | a Marlin attach changes no other part of any layer |
| SidecarLaws.Scale6Reaches | src/runtime/model_weights.cpp:1478-1492 | after an accepted scale6 attach sidecar and base are on the down projection of their layer, and every other layer and all consumer-order weights are cleared |
| SidecarLaws.ConsumerOrderReaches | src/runtime/model_weights.cpp:1593-1598 | after an accepted consumer-order attach the weight is on the down projection of its layer, and every other one is cleared |
| SidecarLaws.QkvReaches | src/runtime/model_weights.cpp:1141-1152 | after an accepted QKV attach the sidecar is on the QKV projection of its layer |
| SidecarLaws.SidecarsReachNothingElse | src/runtime/model_weights.cpp:1019-1599 | the arena attaches change no other part of any layer |
| SidecarLaws.PackedDetachesClear | src/runtime/model_weights.cpp:1827-1830 | a packed detach leaves no packed artifact |
| SidecarLaws.LayoutDetachesClear | src/runtime/model_weights.cpp:1685-1691 | a Marlin or parity detach leaves none of its kind |
| SidecarLaws.SidecarDetachesClear | src/runtime/model_weights.cpp:1388-1403 | a detach of an arena kind leaves none of it, and a scale6 detach no consumer-order weight either |
| SidecarExclusion.ExclusionIsKeptUnless | src/runtime/model_weights.cpp:1666-2171 | a call ends the exclusion of packed and Marlin weights exactly when it is an accepted Marlin attach to a model that holds packed ones |
| SidecarExclusion.RunsStayExclusive | src/runtime/model_weights.cpp:1666-2171 | over any sequence of calls exclusion holds throughout exactly when no call is of that kind |
| SidecarExclusion.MarlinOverPacked | src/runtime/model_weights.cpp:1767-1781 | after an accepted Marlin attach a projection holds both exactly when it was packed before |
| SidecarExclusion.MarlinDoesNotSeePacked | src/runtime/model_weights.cpp:1741-1757 | a packed attach, of all or of the NVFP4 projections, does not stand in the way of a Marlin attach, after which every projection holds both |
| SidecarExclusion.CallsKeepWhole | src/runtime/model_weights.cpp:1666-1783 | every call keeps Marlin layouts whole: without a weight for the down projection a layer has nothing of one |
| SidecarExclusion.ClashesHappen | src/runtime/model_weights.cpp:1666-2171 | a concrete model and calls: both packed attaches are accepted, then the Marlin attach, and exclusion is lost |
| SidecarModel.ConsumerOrderNeedsScale6 | src/runtime/model_weights.cpp:1558-1565 | an accepted consumer-order weight stands beside a scale6 sidecar |
| Packing.RoomNeeded | src/runtime/model_weights.cpp:1127-1132 | pairwise disjoint pieces need the room of their sum |
| Packing.PiecesAreBlocks | src/runtime/model_weights.cpp:1102-1139 | disjoint pieces that exactly fill a stretch are its consecutive blocks |
| Packing.Pigeonhole | src/runtime/model_weights.cpp:1091-1111 | as many distinct elements of a set as it has are all of it |
| Sidecars.ValidateDescriptors | src/runtime/model_weights.cpp:1102-1139 | decides exactly whether the descriptors are pairwise disjoint pieces of the arena for distinct eligible layers |
| Sidecars.ValidateArtifacts | src/runtime/model_weights.cpp:1865-1920 | decides exactly whether each slot of each layer is filled once, identities are distinct and all memory is separate |
| Sidecars.ModelWeights.AttachQkvRegisterFeed | src/runtime/model_weights.cpp:1019-1153 | accepts exactly the specified calls, then replaces all of the old set; a refused call changes no layer |
| Sidecars.ModelWeights.AttachDownScale6 | src/runtime/model_weights.cpp:1379-1493 | accepts exactly the specified calls, then replaces the old sparse set and clears the consumer-order weights, which depend on it; a refused call changes no layer |
| Sidecars.ModelWeights.AttachDownConsumerOrder | src/runtime/model_weights.cpp:1495-1599 | accepts exactly disjoint blocks each for a layer with a scale6 sidecar, then replaces the old sparse set; a refused call changes no layer |
| Sidecars.ModelWeights.AttachMarlinPrefill | src/runtime/model_weights.cpp:1666-1783 | accepts exactly one descriptor for every layer, none with a parity artifact, then replaces the Marlin layout of all projections; a refused call changes no layer |
| Sidecars.ModelWeights.AttachPacked | src/runtime/model_weights.cpp:1785-1997 | accepts exactly a full grid of separate artifacts where no Marlin or parity one stands, then replaces the packed layout of all projections; a refused call changes no layer |
| Sidecars.ModelWeights.AttachPackedNvFp4 | src/runtime/model_weights.cpp:1999-2171 | accepts exactly a full grid of separate artifacts for the NVFP4 projections, then replaces their packed layout; a refused call changes no layer |
| Sidecars.ModelWeights.AttachParity | src/runtime/model_weights.cpp:2173-2479 | accepts exactly a full grid of artifacts clear of every canonical payload and of each other, from different sources, where no Marlin or packed one stands; a refused call changes no layer |
| Sidecars.ModelWeights.CollectPayloads | src/runtime/model_weights.cpp:2173-2479 | the canonical payloads of all layers, exactly when they are separate |
| Sha256Stream.Sha256.Update | src/core/sha256.cpp:62-94 | the message grows by the bytes given; refused after finalize, for missing data and past the 64-bit byte count |
| Sha256Stream.Sha256.Finalize | src/core/sha256.cpp:96-122 | under 2^61 bytes the digest of everything given is that of FIPS 180-4; finalizing again returns it again |
| Sha256Stream.Sha256.Transform | src/core/sha256.cpp:124-178 | one block: the compression function of FIPS 180-4 section 6.2.2, in place on the state |
| Sha256Stream.MakeSchedule | src/core/sha256.cpp:125-146 | the sixty-four words of the schedule |
| Sha256Stream.RunRounds | src/core/sha256.cpp:147-168 | the sixty-four rounds on eight working variables |
| Sha256Stream.Sha256.Absorb | src/core/sha256.cpp:72-92 | buffer and state represent the message so far, however it was cut |
| Sha256Stream.PadShape | src/core/sha256.cpp:100-114 | one or two last blocks are the padding of FIPS 180-4 section 5.1.1 |
| Sha256Stream.DigestIsStandard | src/core/sha256.cpp:96-122 | under 2^61 bytes the length written is the length of the message in bits |
| Sha256Laws.RoundConstantsAreCubeRoots | src/core/sha256.cpp:12-26 | the round constants are the first 32 bits of the fractions of the cube roots of the first 64 primes |
| Sha256Laws.InitialIsSquareRoots | src/core/sha256.cpp:58-61 | the initial value is the first 32 bits of the fractions of the square roots of the first eight primes |
| Sha256Laws.SigmasOnBits | src/core/sha256.cpp:130-156 | which bits of a word the four sigma functions bring together |
| Sha256Laws.ChoiceAndMajority | src/core/sha256.cpp:152-157 | the first argument of Ch chooses between the others, and Maj is the majority |
| Sha256Laws.WordsAreBigEndian | src/core/sha256.cpp:33-46 | words are written most significant byte first, and read back |
| Sha256Laws.LengthIsBigEndian | src/core/sha256.cpp:109-112 | the length in bits is written in eight bytes, most significant first, modulo 2^64 |
| Sha256Stream.HashFile | src/core/sha256.cpp:186-206 | a digest exactly when the file opens, is read to its end and fits the byte count; however the reads cut it, under 2^61 bytes it is that of the whole file |
| Sha256Stream.LoadWeights | src/runtime/mtp_device_internal.cpp:97-127 | for every sequence of read results the file is accepted exactly when no read fails before its end, it ends where it should, was not changed and has the pinned digest; the arena then is exactly the pinned slice |
| RouteEvidence.Recorder.Reset | src/runtime/prefill_route_evidence.cpp:77-80 | all counters at zero, request active |
| RouteEvidence.Recorder.RecordOperator | src/runtime/prefill_route_evidence.cpp:82-112 | exactly one counter grows, by the count; otherwise nothing but the error, and the first error is kept |
| RouteEvidence.Recorder.RecordBoundary | src/runtime/prefill_route_evidence.cpp:114-129 | exactly one boundary counter grows, by the count; otherwise nothing but the error, and the first error is kept |
| RouteEvidence.Recorder.LayerPassIsComplete | src/runtime/prefill_route_evidence.cpp:35-58 | decides exactly whether this is the record of one whole pass, overflow included |
| RouteEvidence.Recorder.CommitLayerPass | src/runtime/prefill_route_evidence.cpp:133-180 | merges a whole pass or nothing: the state after and the answer are those specified |
| RouteEvidence.Recorder.TerminalPrefixElidedLayerPasses | src/runtime/prefill_route_evidence.cpp:198-226 | the answer is m if and only if every counter is what m elided passes leave; there is at most one such m |
| RouteEvidence.Recorder.Finalize | src/runtime/prefill_route_evidence.cpp:230-245 | the request is closed and valid only without error |
| RouteEvidence.ExpectedOfSchedule | include/q3x/runtime/prefill_route_evidence.h:56-71 | the expected counts are those of 64 layers, every fourth of them full attention; an elided prefix leaves out exactly the roles the last layer invokes once |
| RouteEvidence.RefusedCommitKeepsCounters | src/runtime/prefill_route_evidence.cpp:137-174 | a refused commit leaves every counter as it was, marks the request and keeps the first error |
| RouteEvidence.MergedPassAddsItsDue | src/runtime/prefill_route_evidence.cpp:146-179 | a merged pass adds its due count to every role and its forbidden hits |
| RouteEvidence.CountersAreMergedPasses | src/runtime/prefill_route_evidence.cpp:133-180 | over any run of commits the counters account for exactly the merged passes; no error means all were merged and none forbidden |
| RouteEvidence.ElisionsAreRecovered | src/runtime/prefill_route_evidence.cpp:198-226 | the number of elided passes is recovered from the counters alone, exactly while 96 a pass fits 64 bits |
| RouteEvidence.FinalizedIsValid | src/runtime/prefill_route_evidence.cpp:230-245 | a request ends valid if and only if every pass was merged, none held a forbidden hit and their number is the one expected |
| RouteEvidence.FinalizedIsClosed | src/runtime/prefill_route_evidence.cpp:137-140 | nothing is merged after finalizing |

## Left out

Speculative decoding:
- Kernels, streams, graphs and floating-point arithmetic: each kernel is an arbitrary total function, a failing call is `false`, and no claim is made about bits. The graph, short and batched attention variants are one function.
- Statistics and copies that nothing in the modelled core reads: logits, budget and proposal histograms, reuse counters, timings. A round's counters and the report's totals are modelled.
- The observer is always present, so the option check on a missing one with a context does not occur; the client's callback is a function of a token and its index.
- MtpService.Service.Decode: when a cancellation is polled is not determined, so an output it leaves uncut is only known to be a beginning of the reference.
- MtpService.Service.Generate: the engine's checks on the request, its trace and its other timings are not modelled; the token its prompt processing predicts is a parameter that must be the greedy one.
- MtpTransaction.TargetTransaction.InitializePrefill: what the target's prompt processing left (its state and residual rows) is a precondition here; the readiness of the route is one flag.
- MtpVerifyRows.TargetMemory.SelectOwner: owners are slot numbers, not addresses, so the address arithmetic that identifies a slot is not modelled; arrays are indexed by layer without compacting the linear ones.
- Releasing and creating device resources, and the packing of weights at startup.

Prompt processing:
- PrefillPlan.ValidPlanTopology: the constants of the schedule records (launch counts, element sizes, flags) are left out; tactic, geometry, panels, layers, phase count and commit are modelled.
- PrefillProgress.Progress.constructor: a progress record is used with one plan; the source takes the plan anew with every call.
- Binding of operators and workspace planning.

Text:
- Bytes are integers below 256 and bit operations are written as arithmetic. Allocation failure is not modelled.
- Numbers keep their text; of their conversions only the unsigned one is modelled.
- JsonEscape.EscaperRoundTrip: the input-size limit and at least one value must allow the quoted text; nothing else is assumed.

Checkpoint files:
- Reading files, symbolic links and path syntax: a map from shard to header and a predicate on names stand for them. Element types are their bit widths.
- SafetensorsHeader.ParseHeader: which of several errors is reported depends on the order of a map and is not modelled, only that there is one. The library sort is an insertion sort.
- SafetensorsIndex.ValidateIndexShards: the tensors of a shard and the entries of the weight map are visited in any order, so which of several errors comes first is not determined.
- Parsing of the index document.

Sidecar weights:
- The attach functions for supermatrix, FP8 Marlin, coupled gate and up, single-row output and ahead-of-time assets: they have the same shape as those modelled.
- SidecarModel.RunsKeepSound: the FP8 projections of a layer's attention are one group, since they are checked and set together; the manifest checks of an artifact are one flag.

Hashing:
- Sha256Stream.DigestIsStandard: from 2^61 bytes on the bit length wraps while the byte count is still accepted; `Sha256Stream.DigestOf` says what is computed then.
- Sha256Stream.LoadWeights: an interrupted read is not retried, the comparison of the file's metadata before and after is one flag, and the hexadecimal spelling of digests is left out.

Route evidence:
- Names of roles and errors, and the collapsing of one runner's records into a pass.
