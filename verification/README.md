# Verification of the actor mesh

A Dafny model of four parts of the actor runtime and of the employee-mesh example, with proofs of
what they promise. `dafny verify dfyconfig.toml` checks all of it.

**The PII pipeline.** A text is tokenised (`Tokenizer`), a greedy BILUO machine reads entity spans off
the scores of a network (`Decoder`), each entity is replaced by a placeholder `TOK_LABEL_NNNN` kept
in a persistent map per correlation (`TokenMap`, `TokenRuns`, `Masker`), and a scanner later puts the
texts back (`Scanner`). `RoundTrip` proves that restoring a masked text gives the original, through
all of these and through any later growth of the map; `Walk` lifts that to whole messages. `Hiding`
says what leaves in place of a text, byte by byte: nothing that lies in a span. `Pieces` does the same
for buffers too small for the result.

**The concurrent runtime.** `SlotTable` and `Dispatcher` model workers, the reaper and the kernel as
steps over the shared child table: every status goes to the worker whose child it is, and `Delivery` proves
that none is lost. `Spawn` is one handler run, `Retry` one message from receipt to outcome, `Expiry` when
a message is too late, `Publish` the reply frames, and `Mesh` the whole mesh at once: any number of actors
and workers, their inboxes and outboxes, and the bus. In `Mesh`, every step is one transaction, send,
receive or handler run of one worker, in any interleaving; `Life` proves that among all of them each
message is still dealt with exactly as `Retry` deals with one.
`Runtime` joins the layers: what a reply carries is what a child of the very worker wrote that received
the message.

**The seccomp filter.** `Seccomp` has an interpreter for classic BPF, the kernel's checks, and the
filter generator, which is proved correct for every denylist. `PathCover` is the path check beside it.

**Bytes on the wire.** `Wire` (header layout, building and parsing), `Subscribe` (topic lists and
prefix matching), `Uuid`, `Base64`. `Bytes`, `Lists`, `CText` and `Options` are shared helpers.

In-place code is modelled in place: buffers are arrays, the token map and the slot table are objects,
loops are loops. Each such method is proved equal to a function of its inputs, and the theorems are
about those functions. Protocols are step systems, and their theorems are about every state of every run.

## What the proofs assume

- The kernel: positive pids; a pid is not given out again while a slot records it or the reaper holds
  it (runtime/actor.c:408-417); raw statuses are never -1. `Dispatcher.ReissuedPidMisleads` shows that
  without the second assumption a worker is told that its running child has succeeded.
- Pipe reads and LMDB transactions do not fail. A transaction is one atomic step.
- A SUB socket hands a message to one worker of its actor, at most once. Generated ids are fresh and
  not zero; ids in flight are then distinct, which is proved (`Mesh.IdsDistinct`).
- Messages that do not come from a worker (clients, heartbeats, browser frames) may name any cause. Only
  the last two clauses of `Mesh.ChainEnds` suppose more, as a stated hypothesis: that a message from
  outside names no cause or one of its own chain that is on the bus, as the terminal client does, which
  names the last response of its session (examples/employee-mesh/tui.c:344-347, 415, 436).
- In `Runtime` every handler run comes with the history of its actor's process up to the return of
  platform_spawn, and the kernel's status of a child is the one its handler or relay ended with.
- A score is above -1e38, where the machine's search starts. The network is otherwise arbitrary: any
  function from tokens and machine state to scores.
- Messages are rejected only with a report below 512 bytes: `Publish.ReportFits` says which those are,
  and every frame of the runtime and of the browser bindings is among them (`Publish.BuiltReportFits`).
- A message of the PII filter and what is written for it fit its 256 KiB input and output buffers
  (examples/employee-mesh/handlers/tools/pii-filter.c:31-32); larger ones do not come back.
- Clock readings are inputs, in no order. For a negative `ttl` the run of `SelfHearing.OverlapHappens`
  needs a reading before the result's own emitted_at; with a clock that never steps back such results
  expire on arrival, and an actor with a negative `ttl` does not store them.
- Characters of the PII pipeline stand for bytes, in the C locale. A counter stays below 2^31.

## Where code and documents differ, or the code surprises

- The written specification puts the payload length of a browser frame at offset 138; the struct and
  the parsers use 132, as here.
- Its durability invariants promise at most one inbox entry, and inbox and outbox ids that are disjoint. That
  holds with one worker (`Mesh.SingleWorker`). With more, the inbox is bounded by the number of
  workers, and the two can overlap exactly for an actor that runs handlers and listens to the topic it
  publishes on, or to a name a handler may print (`SelfHearing.OverlapReachableExactly`): it hears its
  own result before the outbox entry is deleted (`Mesh.OverlapExactly`).
- It wants `retry_max` non-negative and nothing enforces it: with a negative value a
  message is stored, never run, and deleted without an outcome (`Retry.OneOutcomeExactly`).
- From `retry_max` 5 on, nanosleep refuses the longer backoffs, so they are not slept (`Retry.GivingUp`).
- The comment on the relay says that the runtime sees exactly the exit it would have seen without it. That
  holds for exits; a signal becomes an exit code (`Spawn.RelayTells`).
- A relay whose waitpid fails with anything but EINTR reports success (`Spawn.SuccessExactly`).
- Placeholders of labels such as WORK_OF_ART are never recognised and stay in the text
  (`Scanner.OtherLabelStays`). Those numbered from 10000 on are read as another placeholder, the one of
  their first four digits, and restored to what that one stands for (`Scanner.LargeNumberMisread`).
  A label with digits in it can be misread likewise (`Scanner.DigitLabelMisread`).
- Entities of 512 bytes or more are lost, and nothing else is (`RoundTrip.MaskRestoreIdentity`,
  `RoundTrip.LongEntityLost`); texts that agree on what the 512-byte key buffer keeps share a
  placeholder (`TokenRuns.WrongAnswerExactly`), so the round trips are about texts that the keys tell
  apart (`TokenMap.KeysTellExactly`), which all texts are whose keys are stored whole.
- A token holds at most 127 bytes of a word. If a longer word ends an entity, what is behind those leaves
  unmasked (`Hiding.LongWordLeaves`, `Hiding.BehindSpan`).
- An unknown placeholder is copied without looking at the room left, and the terminating zero can then
  fall behind the buffer: `Scanner.RoomExactly` says for which texts, `Scanner.OverrunHappens` gives one.
  A message masked under the conditions of the round trip never does this (`Walk.MessageRoundTrip`).
- A rejection's text is copied by the length it would have, which passes its 512-byte buffer exactly when
  origin, topic and reason, each printed up to its first zero, come to 378 bytes or more
  (`Publish.ReportFits`). The topic of a message a worker is handed is under 256 bytes
  (`Publish.DeliveredTextShort`), but an origin that is not terminated in its field can do it
  (`Publish.UnterminatedOriginOverruns`).
- `=` is in the base64 table with the value 0, so padding decodes to zero bytes (`Base64.DecodesText`).

## Model

| member | source | states |
|---|---|---|
| `TokenMap.TokenStore.GetOrCreateTok` | examples/employee-mesh/handlers/tools/pii-filter.c:72-129 | the answer and the new store are those of the two transactions: look up, else number a placeholder, store counter, forward and reverse entry, with every buffer cut as in the source |
| `TokenMap.TokenStore.TokLookup` | examples/employee-mesh/handlers/tools/pii-filter.c:132-154 | the stored text behind the first colon of the reverse entry, read through the 256-byte key buffer, or a miss |
| `CText.PaddedReads` | examples/employee-mesh/handlers/tools/pii-filter.c:103-109 | %04d prints digits only that read back as the number, and exactly four of them if and only if it is below 10000 |
| `TokenMap.KeysApart` | examples/employee-mesh/handlers/tools/pii-filter.c:76-121 | forward, reverse and counter keys never coincide, for any two correlations without a colon, even when the buffer cuts them |
| `TokenMap.TokenInjective` | examples/employee-mesh/handlers/tools/pii-filter.c:109 | equal placeholders have equal labels and numbers, although labels may hold underscores |
| `TokenMap.AllocateReads` | examples/employee-mesh/handlers/tools/pii-filter.c:96-128 | after an allocation the counter is one more, the new placeholder reads as its text, and every other lookup and every other forward entry is as before |
| `TokenMap.NextTokenFresh` | examples/employee-mesh/handlers/tools/pii-filter.c:103-112 | the placeholder about to be printed is none of those issued before |
| `TokenMap.AllocateKeeps` | examples/employee-mesh/handlers/tools/pii-filter.c:95-128 | the store holds exactly the placeholders issued, one more after an allocation, even when another process allocated for the same text since the lookup |
| `TokenMap.AllocateKeepsForward` | examples/employee-mesh/handlers/tools/pii-filter.c:114-117 | whatever the texts, a text is only answered by a placeholder issued for a text of the same forward key |
| `TokenMap.KeysTellExactly` | examples/employee-mesh/handlers/tools/pii-filter.c:76-78 | forward keys tell texts apart if and only if no two different ones agree on the bytes left for them in the 512-byte buffer |
| `TokenMap.FittingTell` | examples/employee-mesh/handlers/tools/pii-filter.c:76-78 | texts whose forward keys are stored whole are told apart |
| `TokenMap.AllocateElsewhere` | examples/employee-mesh/handlers/tools/pii-filter.c:76-126 | an allocation for one correlation is invisible to every other |
| `TokenRuns.EveryRun` | examples/employee-mesh/handlers/tools/pii-filter.c:72-154 | any interleaving of lookup and allocation transactions keeps the store exactly the placeholders issued, and nothing issued or answered is taken back |
| `TokenRuns.ReachableDistinct` | examples/employee-mesh/handlers/tools/pii-filter.c:95-128 | in every reachable state issued placeholders are distinct, the counter exceeds every number issued, and each looks up to the text it was issued for |
| `TokenRuns.ReverseEntriesStay` | examples/employee-mesh/handlers/tools/pii-filter.c:119-126 | a reverse entry, once readable, reads the same for the rest of any run |
| `TokenRuns.EveryAnswerRestores` | examples/employee-mesh/handlers/tools/pii-filter.c:72-154 | every placeholder any process was answered with looks up, in every later state, to a text asked about that agrees with that process's own on the bytes the key buffer keeps, and to its own unless another text asked about has the same key |
| `TokenRuns.RaceIssuesTwice` | examples/employee-mesh/handlers/tools/pii-filter.c:85-112 | two processes that both miss a text get two placeholders for it, and both restore |
| `TokenRuns.WrongAnswerExactly` | examples/employee-mesh/handlers/tools/pii-filter.c:76-88 | after an allocation a text not in the map is answered with the other text's placeholder exactly when the two agree on the bytes the key buffer keeps |
| `TokenRuns.AnswerChangesExactly` | examples/employee-mesh/handlers/tools/pii-filter.c:72-129 | a step of any process changes the placeholder a text is answered with if and only if it is the allocation of a process that had missed a text of the same forward key |
| `TokenRuns.AskedAgain` | examples/employee-mesh/handlers/tools/pii-filter.c:80-92 | a text that has a placeholder, and that no process is about to number again, is answered with it for the rest of any run, and asking leaves the store as it is |
| `Scanner.MatchAt` | examples/employee-mesh/handlers/tools/pii-filter.c:253-268 | the length of the placeholder at a position, 0 if there is none there or it is too long for its buffer |
| `Scanner.ShapeIsMatch` | examples/employee-mesh/handlers/tools/pii-filter.c:253-268 | a text starts with at most one placeholder and the test finds it |
| `Scanner.RestoreString` | examples/employee-mesh/handlers/tools/pii-filter.c:243-289 | in a buffer of dst_max bytes, for a text that has room: the NUL-terminated output is the left-to-right replacement, with texts that do not fit left out and unknown placeholders copied |
| `Scanner.RoomExactly` | examples/employee-mesh/handlers/tools/pii-filter.c:248-288 | output and zero stay inside dst_max if and only if every unknown placeholder the scan comes to, with less than dst_max - 1 bytes written, ends before byte dst_max |
| `Scanner.FittingHasRoom` | examples/employee-mesh/handlers/tools/pii-filter.c:248-288 | there is room if the whole restored text fits |
| `Scanner.KnownHasRoom` | examples/employee-mesh/handlers/tools/pii-filter.c:271-276 | there is room in any buffer if every placeholder of the text is known |
| `Scanner.UnknownOverruns` | examples/employee-mesh/handlers/tools/pii-filter.c:277-288 | plain text that nearly fills the buffer and an unknown placeholder behind it are written whole, however small the buffer |
| `Scanner.OverrunHappens` | examples/employee-mesh/handlers/tools/pii-filter.c:277-288 | a text of 65536 bytes whose output leaves no byte of the 64 KiB buffer for the zero |
| `Scanner.RestoreFits` | examples/employee-mesh/handlers/tools/pii-filter.c:248-287 | with room for it the buffer receives the whole restored text |
| `Scanner.ScannableExactly` | examples/employee-mesh/handlers/tools/pii-filter.c:253-265 | a printed placeholder is one whole match if and only if its label is nonempty upper case and its number is below 10000 |
| `Scanner.LargeNumberPrints` | examples/employee-mesh/handlers/tools/pii-filter.c:109 | from 10000 on a placeholder prints as the one of its first four digits with the other digits behind |
| `Scanner.LargeNumberMisread` | examples/employee-mesh/handlers/tools/pii-filter.c:253-281 | from 10000 on, in any text, a placeholder is restored to what the placeholder of its first four digits stands for, followed by the other digits |
| `Scanner.OtherLabelStays` | examples/employee-mesh/handlers/tools/pii-filter.c:255-286 | in any clean text and with any token map a placeholder stays whose label is not upper case and holds neither a digit nor TOK_ |
| `Scanner.StaysExactly` | examples/employee-mesh/handlers/tools/pii-filter.c:253-286 | a text is restored to itself with every token map if and only if nothing in it looks like a placeholder |
| `Scanner.DigitLabelMisread` | examples/employee-mesh/handlers/tools/pii-filter.c:255-281 | the placeholder of label A_0001 is restored to what TOK_A_0001 stands for with the rest behind |
| `Scanner.NoMatchIntoToken` | examples/employee-mesh/handlers/tools/pii-filter.c:253-286 | no match starts in copied text and runs into a placeholder behind it |
| `Scanner.RestoreAcross` | examples/employee-mesh/handlers/tools/pii-filter.c:248-287 | restoring around a recognised placeholder restores both sides separately |
| `Scanner.RestoreClean` | examples/employee-mesh/handlers/tools/pii-filter.c:271-286 | a text without issued placeholders is restored to itself |
| `CText.ClassesExactly` | examples/employee-mesh/handlers/lib/ner_features.h:174-190 | white space is the blank and the codes 9 to 13, punctuation what prints besides and is neither letter nor digit |
| `Tokenizer.Strip` | examples/employee-mesh/handlers/lib/ner_features.h:183-196 | the numbers of leading and trailing punctuation characters detached, a single dot staying with an abbreviation |
| `Tokenizer.EmitSingles` | examples/employee-mesh/handlers/lib/ner_features.h:198-205 | appends one-character tokens up to the limit and leaves the rest of the array alone |
| `Tokenizer.EmitCore` | examples/employee-mesh/handlers/lib/ner_features.h:207-217 | appends the core token, cut to 127 bytes, if there is room |
| `Tokenizer.EmitChunk` | examples/employee-mesh/handlers/lib/ner_features.h:183-226 | appends the tokens of one chunk in order, up to the limit |
| `Tokenizer.SpacyTokenize` | examples/employee-mesh/handlers/lib/ner_features.h:166-229 | the array holds the first max_toks tokens of the text and is otherwise unchanged |
| `Tokenizer.TokensOrdered` | examples/employee-mesh/handlers/lib/ner_features.h:166-229 | tokens are nonempty, in increasing order, without overlap, and carry the bytes at their offset |
| `Tokenizer.BoundsExist` | examples/employee-mesh/handlers/lib/ner_features.h:183-190 | every chunk divides into punctuation, a core that starts and ends with something else, and punctuation; one of punctuation alone is all leading |
| `Tokenizer.ChunkExactly` | examples/employee-mesh/handlers/lib/ner_features.h:183-226 | the tokens of a chunk are exactly: each byte of the punctuation at its ends by itself, and the core, cut to 127 bytes, with a single dot behind it if what is before the dot is an abbreviation |
| `Tokenizer.AbbrevsKeepDots` | examples/employee-mesh/handlers/lib/ner_features.h:148-164 | Dr, DR and approx are abbreviations, Smith and the empty text are not |
| `Tokenizer.ChunkCovers` | examples/employee-mesh/handlers/lib/ner_features.h:183-226 | a byte is in a token of its chunk exactly when it is not past the 127th byte of the core |
| `Tokenizer.CoverageExactly` | examples/employee-mesh/handlers/lib/ner_features.h:166-229 | every non-space byte is in exactly one token kept, if and only if neither the token limit nor the core limit is hit |
| `Decoder.Choose` | examples/employee-mesh/handlers/lib/ner_infer.h:389-403 | the move chosen is the best of those the state allows |
| `Decoder.BestIsMax` | examples/employee-mesh/handlers/lib/ner_infer.h:389-403 | the move chosen is allowed and none allowed scores higher; ties go to the first outside an entity and to its end inside one |
| `Decoder.Record` | examples/employee-mesh/handlers/lib/ner_infer.h:413-439 | one span is appended, labelled by the move that closed it, cut to 15 bytes |
| `Decoder.NerDecodeSpans` | examples/employee-mesh/handlers/lib/ner_infer.h:332-445 | the spans written are those the moves close, in order, labelled |
| `Decoder.CutsSorted` | examples/employee-mesh/handlers/lib/ner_infer.h:349-444 | for every network the spans are nonempty, in bounds, strictly ordered, disjoint, and end before an entity still open |
| `Decoder.ReencodeMoves` | examples/employee-mesh/handlers/lib/ner_infer.h:349-444 | tagging the spans as BILUO gives back every move made, up to an entity left open at the end |
| `Decoder.RowsRead` | examples/employee-mesh/handlers/lib/ner_infer.h:361-367 | only the rows net(t+1, 0, 0) and net(t+1, s+1, t), s < t, matter: networks that agree there give the same moves and spans |
| `Decoder.SpansBorneOut` | examples/employee-mesh/handlers/lib/ner_infer.h:361-403 | the scores bear the spans out: the first token of each scores best in its row among the moves that open an entity, are one, or stay outside, every later token goes on in the row read with the first token and the one before, all but the last; and every token in no span scores best as outside |
| `Decoder.LabelOfFirst` | examples/employee-mesh/handlers/lib/ner_infer.h:413-439 | a span carries the label its first token was tagged with, cut to 15 bytes, if the moves are named as four prefixes before each label |
| `Masker.CopyUnchanged` | examples/employee-mesh/handlers/tools/pii-filter.c:176-195 | the source cut to dst_max - 1 bytes and terminated |
| `Masker.PlaceAt` | examples/employee-mesh/handlers/tools/pii-filter.c:205-228 | a piece is appended whole or, without room, not at all |
| `Masker.MaskSpans` | examples/employee-mesh/handlers/tools/pii-filter.c:197-237 | buffer and token map after the loop over the spans and the tail |
| `Masker.MaskString` | examples/employee-mesh/handlers/tools/pii-filter.c:171-238 | buffer and token map are those of masking the stretches tokenizer and decoder name |
| `Masker.PatchesValid` | examples/employee-mesh/handlers/tools/pii-filter.c:197-229 | whatever the network says, the stretches replaced are nonempty, in bounds, in order and disjoint |
| `Masker.EntityAnswered` | examples/employee-mesh/handlers/tools/pii-filter.c:212-222 | an entity the forward keys tell from the other texts is answered with a recognisable placeholder issued for exactly what its buffer holds, and the map keeps its invariant |
| `Masker.MaskThenRestore` | examples/employee-mesh/handlers/tools/pii-filter.c:171-289 | restoring a masked text with any later token map is exactly: what the entity buffer held of each entity in its place, around what restoring makes of the text between |
| `Masker.ReturnedExactly` | examples/employee-mesh/handlers/tools/pii-filter.c:212-287 | without issued placeholders in the source that is the source if every entity is under 512 bytes, and shorter otherwise |
| `Masker.MaskKeeps` | examples/employee-mesh/handlers/tools/pii-filter.c:199-230 | masking keeps the map exact, sound and recognisable |
| `Masker.MaskFits` | examples/employee-mesh/handlers/tools/pii-filter.c:205-236 | with room for the masked text the buffer holds all of it |
| `Masker.MaskedLength` | examples/employee-mesh/handlers/tools/pii-filter.c:197-236 | masking adds at most 29 bytes an entity |
| `Masker.MaskedIsCString` | examples/employee-mesh/handlers/tools/pii-filter.c:171-238 | the masked text has no NUL byte |
| `Hiding.PatchesAreSpans` | examples/employee-mesh/handlers/tools/pii-filter.c:198-203 | one stretch is replaced for every span, in order, with its label; a byte is in it if and only if it is at or behind the start of the first token of the span and before the end of its last |
| `Hiding.TokensHidden` | examples/employee-mesh/handlers/tools/pii-filter.c:198-203 | every token of a span lies inside the stretch of the span, and a token of no span meets none |
| `Hiding.MaskHides` | examples/employee-mesh/handlers/tools/pii-filter.c:171-238 | for every token map, network and set of labels, with room: the masked text is the bytes outside all spans, with at most 31 bytes from the token map where each span starts |
| `Hiding.PlaceholdersStand` | examples/employee-mesh/handlers/tools/pii-filter.c:197-238 | under the preconditions of the round trip those are recognisable placeholders, each standing in every later map for the bytes of its span as the entity buffer held them |
| `Hiding.BehindSpan` | examples/employee-mesh/handlers/tools/pii-filter.c:198-203 | no stretch covers a byte between the last token of a span and the next token, such as the rest of a word that its token cuts |
| `Hiding.LongWordLeaves` | examples/employee-mesh/handlers/lib/ner_features.h:207-217 | of a text that is one word and an entity, the first 127 bytes are replaced and the others leave as they are, behind the placeholder |
| `Hiding.SamePlaceholderExactly` | examples/employee-mesh/handlers/tools/pii-filter.c:72-129 | two entities of a text get the same placeholder if and only if what the entity buffer holds of them agrees on the bytes the key buffer keeps, whatever their labels |
| `Hiding.MessageHides` | examples/employee-mesh/handlers/tools/pii-filter.c:295-354 | of any message the masking walk writes each string masked, binary and extension values as nil, and everything else unchanged: no byte of a string that lies in a span leaves |
| `Pieces.MaskInAnyRoom` | examples/employee-mesh/handlers/tools/pii-filter.c:192-237 | in a buffer of any size a masked text is made of whole pieces, each kept if and only if it fits behind those kept before it, and the token map is the one masking with room gives; only a text without entities is cut |
| `Pieces.RestoreInAnyRoom` | examples/employee-mesh/handlers/tools/pii-filter.c:243-288 | in a buffer of any size the scan writes its first steps: a known placeholder is restored if and only if its text fits, anything else is copied, and it stops at the end of the text or with the buffer full |
| `RoundTrip.MaskRestoreIdentity` | examples/employee-mesh/handlers/tools/pii-filter.c:171-289 | tokenize, decode, mask into a buffer, let the map grow, restore: the original text if and only if every entity is under 512 bytes, for every text, network and map meeting the preconditions, among them that the forward keys tell the entities and the texts in the map apart |
| `RoundTrip.ConversationRestores` | examples/employee-mesh/handlers/tools/pii-filter.c:171-289 | from an empty token map, any texts masked one after another all restore with the map they leave behind, under conditions that can be checked of the texts alone, no two different entities of one forward key among them |
| `RoundTrip.IdentityFor` | examples/employee-mesh/handlers/tools/pii-filter.c:197-289 | the same for every list of sorted disjoint stretches |
| `RoundTrip.RestoresAfterAnyRun` | examples/employee-mesh/handlers/tools/pii-filter.c:72-289 | the same after any interleaved run of mask processes before the restore |
| `RoundTrip.MaskedFitsBuffer` | examples/employee-mesh/handlers/tools/pii-filter.c:197-237 | under the same preconditions the masked text is a C string that fits its buffer |
| `RoundTrip.AssembledRestores` | examples/employee-mesh/handlers/tools/pii-filter.c:243-289 | a text with recognisable placeholders in place of its entities restores to what those stand for around its restored gaps |
| `RoundTrip.InterleavedMaskRestores` | examples/employee-mesh/handlers/tools/pii-filter.c:72-289 | a text whose placeholders were answered one by one between other processes' transactions restores in the state the run ends in, if and only if its entities are under 512 bytes, as long as no other text asked about has an entity's forward key |
| `RoundTrip.UnderscoreLabelStays` | examples/employee-mesh/handlers/tools/pii-filter.c:257-264 | every placeholder of WORK_OF_ART stays in the restored text, whatever surrounds it and whatever the map holds |
| `RoundTrip.LongEntityLost` | examples/employee-mesh/handlers/tools/pii-filter.c:212-218 | an entity of 512 bytes or more is masked as the empty text, and the text comes back shorter, whatever its other entities |
| `RoundTrip.IssuedTokenInSource` | examples/employee-mesh/handlers/tools/pii-filter.c:253-282 | a text around a known placeholder is left alone by masking that finds nothing and comes back unchanged if and only if the placeholder stands for itself |
| `Walk.Reader.ReadTag` | examples/employee-mesh/handlers/tools/pii-filter.c:298-299 | the next tag is taken off the stream, or the end is reported |
| `Walk.Writer.Write` | examples/employee-mesh/handlers/tools/pii-filter.c:301-352 | one tag is appended to the output |
| `Walk.RewriteString` | examples/employee-mesh/handlers/tools/pii-filter.c:309-311 | one text rewritten by the mask or restore function through the 64 KiB buffer of the walk, threading the token map |
| `Walk.WalkAndRewrite` | examples/employee-mesh/handlers/tools/pii-filter.c:295-354 | reader, writer and token map after one value, binary and extension values written as nil with their bytes unread |
| `Walk.WalkMany` | examples/employee-mesh/handlers/tools/pii-filter.c:314-331 | the same for the loops over array elements and map entries |
| `Walk.WalkRoomExactly` | examples/employee-mesh/handlers/tools/pii-filter.c:309-311 | a restoring walk stays inside its buffer if and only if every string it writes is shorter than 64 KiB |
| `Walk.RawLost` | examples/employee-mesh/handlers/tools/pii-filter.c:350-352 | nil is written for a binary or extension value |
| `Walk.TagByTag` | examples/employee-mesh/handlers/tools/pii-filter.c:295-354 | the walk reads a stretch of the stream and writes one tag for each: a string rewritten with the map as the strings before left it, nil for binary and extension values, any other as it is |
| `Walk.WalkDocuments` | examples/employee-mesh/handlers/tools/pii-filter.c:295-354 | walking the tags of documents consumes exactly those documents and writes exactly their rewritten forms |
| `Walk.WalkWhole` | examples/employee-mesh/handlers/tools/pii-filter.c:295-354 | one call reads one whole document, nothing behind it, and writes one of the same shape with the same scalars |
| `Walk.TextRoundTrip` | examples/employee-mesh/handlers/tools/pii-filter.c:171-289 | one text of a document masks and restores to itself through both 64 KiB buffers |
| `Walk.DocumentRoundTrip` | examples/employee-mesh/handlers/tools/pii-filter.c:171-354 | masking a document and restoring it in any later map gives back the document |
| `Walk.MessageRoundTrip` | examples/employee-mesh/handlers/tools/pii-filter.c:295-354 | on tag streams: the restoring walk over what the masking walk wrote gives the original message, both read all of it, and the restoring walk stays inside its buffer |
| `Walk.FirstMessageRoundTrip` | examples/employee-mesh/handlers/tools/pii-filter.c:295-354 | a message masked with an empty token map and restored with the map that leaves is the original, without overrun, under conditions on the message alone |
| `SlotTable.Clamp` | runtime/actor.c:138-141 | the concurrency is between 1 and 32, raised only to 1 and lowered only to 32 |
| `SlotTable.Table.Claim` | runtime/actor.c:473-476 | the first free slot, or -1 |
| `SlotTable.Table.Register` | runtime/actor.c:520-522 | the slot records the pid, not done |
| `SlotTable.Table.Dispatch` | runtime/actor.c:418-424 | the first slot with the pid gets the status, the others are untouched; none is touched without a match |
| `SlotTable.Table.Take` | runtime/actor.c:454-458 | returns the recorded status and frees the slot |
| `SlotTable.Table.GiveUp` | runtime/actor.c:445-451 | returns -1 and frees the slot |
| `Dispatcher.StepInv` | runtime/actor.c:404-523 | every step of workers, reaper and kernel keeps the invariant |
| `Dispatcher.EveryRun` | runtime/actor.c:404-523 | so it holds throughout every run |
| `Dispatcher.HistoryStays` | runtime/actor.c:404-523 | who forked a process, its pid and the status it ended with never change later |
| `Dispatcher.StatusIsOwn` | runtime/actor.c:435-459 | whatever await_child has returned is the status the worker's own child ended with, or -1 after the stop flag interrupted the wait |
| `Dispatcher.DispatchGoesHome` | runtime/actor.c:417-428 | under the mutex a pid matches a slot if and only if it is the child of an uninterrupted worker, and then that worker waits on that very slot; otherwise it is an orphan or an abandoned child |
| `Dispatcher.FreeSlotExists` | runtime/actor.c:472-484 | with no more workers than slots a worker that is not waiting finds a free slot |
| `Dispatcher.NeverFull` | runtime/actor.c:138-141 | with the clamped concurrency no worker ever meets a full table, in any run |
| `Dispatcher.ReissuedPidMisleads` | runtime/actor.c:404-428 | a run in which a pid is reissued while the reaper holds it, and a worker is told that its running child succeeded |
| `Delivery.NoStatusLost` | runtime/actor.c:404-459 | in every reachable state the child of a waiting worker runs, or its status is in exactly one of three places: with the kernel, with the reaper, or in the slot of that worker |
| `Delivery.ToldExactly` | runtime/actor.c:435-459 | a worker that looks at its slot is told the status if it has arrived, stop flag or not; -1 only if it has not, after a wait and with the flag set |
| `Delivery.StatusArrives` | runtime/actor.c:404-459 | from every reachable state without stop flag, whoever holds the mutex and whatever the reaper is doing, a run goes on that hands a waiting worker the status its child ended with |
| `Spawn.RawReads` | runtime/actor.c:553-555 | the status macros tell how a process ended and with which code or signal |
| `Spawn.Relay` | runtime/actor_isolation.c:475-483 | the relay's exit code after any number of EINTR: the inner code, 128 plus the signal, or 0 when waitpid failed otherwise |
| `Spawn.Run` | runtime/actor.c:461-558 | for every way the output is split over reads, the return value, and on success the buffer holds the entire output |
| `Spawn.SuccessExactly` | runtime/actor.c:536-557 | a length is returned if and only if all was set up, the wait was not interrupted, the output is strictly below the cap and the innermost handler exited with 0 (or the relay's waitpid failed); -2 if and only if the output reached the cap |
| `Spawn.SignalsShow` | runtime/actor_isolation.c:481-482 | a signal seen through the relay is an exit code from 129 to 254 and never a success, whatever the handler wrote |
| `Spawn.RelayTells` | runtime/actor_isolation.c:475-483 | through the relay an exit code comes as it is, a signal as 128 and its number, anything else as 1; a raw status is the same with and without relay if and only if it is an exit |
| `Publish.ResultTopic` | runtime/actor.c:585-602 | the topic and the offset of the payload, as the output is divided |
| `Publish.NamedOutput` | runtime/actor.c:581-599 | output that starts with a name of 1 to 30 identifier bytes and a newline is published on that topic, without the line |
| `Publish.OtherOutput` | runtime/actor.c:590-602 | any other output is published whole on the configured topic |
| `Publish.AssembleResult` | runtime/actor.c:605-638 | the frame buffer holds the reply frame for the handler's output |
| `Publish.ReplyReads` | runtime/actor.c:622-638 | a reply read back has its own id, the correlation of the message answered, that message's id as causation, its topic cut to 31 bytes and the whole payload |
| `Publish.ReplyBytes` | runtime/actor.c:605-638 | the bytes of a reply, field by field: topic and origin as C strings, ids, the clock reading and ttl it was stamped with, attempt 0, payload and its length |
| `Publish.ReportReads` | runtime/actor.c:651-656 | the five fields of the text of a rejection read back where they stand: both ids in hex, origin, topic and reason |
| `Publish.ReportFits` | runtime/actor.c:651-656 | a rejection's text fits its 512 bytes if and only if origin, topic and reason together are under 378 |
| `Publish.BuiltReportFits` | runtime/actor.c:651-656 | it does for every message whose name fields end in a zero and every reason of the runtime |
| `Publish.UnterminatedOriginOverruns` | runtime/actor.c:651-656 | it does not for a message on a topic the worker listens to whose origin is not terminated and followed by 378 bytes without a zero |
| `Publish.DeliveredTextShort` | runtime/actor.c:202-214 | the topic of a message a worker is handed, terminated in its field or not, ends within 256 bytes |
| `Retry.ProcessTuple` | runtime/actor.c:695-745 | the log of inbox writes, runs, replies and backoffs of one tuple |
| `Retry.ServeOnce` | runtime/actor.c:780-816 | short messages leave nothing, expired ones a rejection, all others are processed |
| `Retry.LoopShape` | runtime/actor.c:710-742 | failures each followed by 100 ms doubled, then one deciding run and its verdict |
| `Retry.OneOutcomeExactly` | runtime/actor.c:695-745 | at most retry_max + 1 runs, and exactly one outcome if and only if retry_max is not negative |
| `Retry.GivingUp` | runtime/actor.c:730-740 | max_retries_exceeded if and only if all retry_max + 1 runs failed; then 100 ms times (2^retry_max - 1) is requested, and all of it granted if and only if retry_max is at most 4 |
| `Retry.EveryMessageAnswered` | runtime/actor.c:780-816 | a message has exactly one outcome if and only if it holds a header and either expiry, the cap or a non-negative retry_max decides it |
| `Retry.InboxBrackets` | runtime/actor.c:703-744 | a message within the cap is stored before its first run and deleted behind its last event, once each, and every result, rejection and backoff stands directly behind the run it rests on |
| `Retry.OverCap` | runtime/actor.c:698-701 | one over the cap is rejected without being stored or run |
| `Expiry.RefusedExactly` | runtime/actor_tuple.h:46-52 | any message is refused as expired if and only if it holds a header whose ttl, bytes 120 to 127, is not zero and the clock has passed its sum with emitted_at, bytes 112 to 119 |
| `Expiry.LaterRefusedToo` | runtime/actor_tuple.h:46-52 | what is refused at one reading of the clock is refused at every later one |
| `Expiry.ReplyRefused` | runtime/actor.c:605-638 | a reply stamped at now with ttl t is refused if and only if t is not zero and the clock is past now + t |
| `Expiry.StampedLater` | runtime/actor.c:605-638 | stamping a reply d later moves the readings at which it is refused by exactly d |
| `Expiry.BrowserRefused` | wasm/actor_wasm.c:39-55 | a frame built in a browser is refused if and only if its ttl is not zero and the clock is past the ttl in nanoseconds from zero |
| `Mesh.StepKeeps` | runtime/actor.c:605-828 | every step of every worker keeps the invariant on bus, inboxes, outboxes and ids |
| `Mesh.EveryRun` | runtime/actor.c:605-828 | so it holds throughout every run of every mesh |
| `Mesh.InboxExactly` | runtime/actor.c:703-744 | the inbox holds exactly the messages between put and delete, byte for byte, under distinct ids, and no more than there are workers |
| `Mesh.OutboxSize` | runtime/actor.c:633-641 | every outbox entry is the result some worker has in hand, at most one a worker |
| `Mesh.OverlapExactly` | runtime/actor.c:636-641 | an id is in both if and only if a result sent but not yet deleted has been stored by another worker of the same actor |
| `Mesh.OverlapNeeds` | runtime/actor.c:636-641 | an id in both at once means that the actor has two workers, a retry_max not below 0, and listens to its result topic or to a name a handler can print |
| `Mesh.DisjointUnlessHeard` | runtime/actor.c:636-641 | an actor configured otherwise keeps inbox and outbox apart at every point of every run |
| `Mesh.SingleWorker` | runtime/actor.c:633-744 | with one worker the inbox holds at most one message and shares no id with the outbox |
| `Mesh.IdsDistinct` | runtime/actor.c:629-660 | no two messages ever on the bus have the same id |
| `Mesh.OneAnswer` | runtime/actor.c:605-669 | an actor replies to a message at most once, by one result or rejection, and only to one it subscribes to |
| `Mesh.OutcomeExactly` | runtime/actor.c:695-816 | once its worker is done a message received has exactly one reply of that actor on the bus, under its own name: the whole output of the last run of the handler with the ttl configured, or a rejection without ttl whose text names that message and gives the reason, which is right (expired with a ttl, over the cap, too much output, or too many failures); or it has no reply and a reason: too short, retry_max negative, or a last run that succeeded without output |
| `Mesh.Origin` | runtime/actor.c:622-661 | following causes from any message stays in its chain and goes back to an earlier message, the message itself or one whose cause is not an earlier message of the chain |
| `Mesh.ChainEnds` | runtime/actor.c:622-661 | in any run every result and rejection has an earlier parent with the same correlation id and causes lead back to a message from outside of the same chain; if clients only name causes of their own chain, every message that names a cause has it, and causes lead through any number of client turns to a message that names none |
| `Mesh.RunLinks` | examples/employee-mesh/tui.c:344-347 | if every message from outside that names a cause names one of its own chain, as this client does, so does every message on the bus, at every point of the run |
| `Life.LifeExactly` | runtime/actor.c:695-816 | in any run of any mesh, what an actor has done with a message, read off the steps of its worker among all others, is the beginning of what serve_once does with it alone, for the clock reading its worker took, and all of it once the worker is done |
| `Life.MadeNow` | runtime/actor.c:605-669 | every reply carries the id drawn for it and the clock reading at which it was made |
| `Runtime.OutputExactly` | runtime/actor.c:536-577 | a handler run is reported with output if and only if the worker's own child was awaited and exited with 0 (or its relay could not wait), under the cap, and then with everything it wrote; too big if and only if the cap was reached |
| `Runtime.ReportHasRun` | runtime/actor.c:710-740 | the report a message's outcome rests on is of a run on that message by the worker that received it |
| `Runtime.ReplyIsOwnChilds` | runtime/actor.c:461-745 | the one reply to a message is made by the worker that received it: the rejection of an expired or oversized message no handler has seen, or what tells of a run by that very worker: the whole output of the child it forked if that succeeded, and otherwise a rejection, for too much output or for too many failures |
| `Runtime.SilenceIsOwnChilds` | runtime/actor.c:713-722 | a message left without reply for lack of output had a run by its receiver whose child succeeded and wrote nothing |
| `SelfHearing.OverlapHappens` | runtime/actor.c:633-641 | from any start of any mesh, for any actor so configured, a run in which one id is in its inbox and its outbox at once |
| `SelfHearing.OverlapReachableExactly` | runtime/actor.c:633-744 | inbox and outbox of an actor can come to share an id if and only if it is so configured |
| `Seccomp.AcceptedReturns` | runtime/actor_isolation.c:1054-1073 | a program with in-range forward jumps that ends in a return always reaches a return |
| `Seccomp.FilterCorrect` | runtime/actor_isolation.c:1054-1073 | for every denylist, architecture and call: kill on a wrong architecture, EPERM on a denied number, allow otherwise |
| `Seccomp.FilterInsns` | runtime/actor_isolation.c:1054-1073 | every instruction is admissible and every jump goes forward and stays inside |
| `Seccomp.EmitDenials` | runtime/actor_isolation.c:1063-1072 | two instructions a call are appended at the right places, within the array |
| `Seccomp.BuildFilter` | runtime/actor_isolation.c:1041-1075 | the array filled in place is the filter for the denylists, in max_insns entries, with the length as its 16 bits hold it |
| `Seccomp.ApplySeccomp` | runtime/actor_isolation.c:1011-1098 | which modes are refused, which do nothing, and which filter is installed |
| `Seccomp.AcceptedExactly` | runtime/actor_isolation.c:1075-1092 | the kernel takes the program if and only if it has at most 4096 instructions |
| `Seccomp.DecisionExactly` | runtime/actor_isolation.c:1011-1039 | nothing is done if and only if the variable is unset, empty or 0; the actor refuses to start exactly for an unknown mode, an unknown architecture, or mode 1 with per-tuple namespaces |
| `Seccomp.ModeOneDenies` | runtime/actor_isolation.c:1011-1098 | with mode 1 a filter is handed over, accepted if and only if both lists together are short enough, which kills on a foreign architecture, answers EPERM for exactly the numbers of the two lists and allows the others |
| `Seccomp.PermissiveDenies` | runtime/actor_isolation.c:1011-1098 | with permissive_mount, whatever the namespaces, the same for the first list alone |
| `Seccomp.PermissiveAllowsMore` | runtime/actor_isolation.c:1041-1043 | permissive_mount allows whatever mode 1 allows, and besides exactly the numbers on the mount list only |
| `PathCover.PathCoveredBy` | runtime/actor_isolation.c:678-701 | the answer is whether some element, resolved, covers the resolved path, lists of 4096 bytes or more covering nothing |
| `PathCover.CoversExactly` | runtime/actor_isolation.c:691-699 | on normalised absolute paths the textual test holds if and only if the element's components are a prefix of the target's |
| `PathCover.ListedElements` | runtime/actor_isolation.c:684-690 | listing absolute paths between colons, with any spaces before each, and reading the list gives those paths |
| `PathCover.CoveredExactly` | runtime/actor_isolation.c:678-701 | for paths that count, by the answer of realpath or as given, as normalised ones: the check holds if and only if the list is set and under 4096 bytes and some element names an ancestor of the target or the target |
| `Wire.CastPacked` | runtime/actor_tuple.h:28-39 | a packed header seen through the struct is the header, every field at its offset, whatever follows |
| `Wire.PackedCast` | runtime/actor_tuple.h:28-39 | reading a header and writing it back loses only the reserved bytes |
| `Wire.FieldOffsets` | runtime/actor_tuple.h:28-39 | where every field of a header stands among its 256 bytes, the numbers little-endian and signed, the reserved bytes zero |
| `Wire.FieldText` | runtime/actor_tuple.h:65-66 | a name written into its field reads back cut to 31 bytes |
| `Wire.TupleHeader.Init` | runtime/actor_tuple.h:58-73 | every field after actor_tuple_init |
| `Wire.BuildFrame` | wasm/actor_wasm.c:39-55 | the output holds the packed header and the payload, and nothing behind them changes |
| `Wire.ParseTopic` | wasm/actor_wasm.c:59-63 | the buffer reads as the frame's topic, empty for a short frame |
| `Wire.ParseId` | wasm/actor_wasm.c:77-97 | the 16 bytes at the offset, zeros for a short frame |
| `Wire.ParsePayload` | wasm/actor_wasm.c:68-74 | the payload by its length field, clamped to what the frame holds |
| `Wire.FrameReads` | wasm/actor_wasm.c:59-97 | from a frame cut anywhere behind its header every field reads back, and as much of the payload as arrived |
| `Wire.BuiltFrameReads` | wasm/actor_wasm.c:39-97 | what buildFrame wrote the parsers return: topic cut to 31 bytes, ids, no causation, whole payload |
| `Subscribe.SubscribeAll` | runtime/actor.c:202-214 | the prefixes subscribed are the listed topics, each with its zero |
| `Subscribe.PrefixIsEquality` | runtime/actor.c:198-208 | a topic with its zero is a prefix of a message if and only if it is the message's text up to its first zero |
| `Subscribe.DeliveredExactly` | runtime/actor.c:198-214 | a message is delivered if and only if its text is one of the listed topics |
| `Subscribe.BuiltFrameDelivered` | runtime/actor.c:198-214 | a frame built with a topic is delivered if and only if the list holds that topic cut to 31 bytes |
| `Subscribe.ListedTopics` | runtime/actor.c:202-214 | topics joined by commas, with any spaces before each, are read back if and only if the list is under 256 bytes |
| `Subscribe.LongList` | runtime/actor.c:202-204 | a longer list reads as its first 255 bytes |
| `Uuid.Generate` | runtime/actor_uuid.h:25-60 | the sixteen bytes: timestamp big-endian, version, variant, random bytes |
| `Uuid.IdReads` | runtime/actor_uuid.h:42-59 | version 7 and variant 10 are set and the milliseconds can be read back |
| `Uuid.IdInjective` | runtime/actor_uuid.h:42-59 | two ids are equal if and only if their milliseconds and all 74 random bits are |
| `Uuid.EarlierFirst` | runtime/actor_uuid.h:42-47 | an id of an earlier millisecond is smaller byte by byte |
| `Uuid.HexInto` | runtime/actor_uuid.h:64-71 | the buffer holds the hex form and its zero |
| `Uuid.HexReads` | runtime/actor_uuid.h:64-71 | the hex form reads back to the bytes |
| `Uuid.Digits` | runtime/actor_uuid.h:78-86 | one formatting loop writes the digits of its bytes and nothing else |
| `Uuid.StrInto` | runtime/actor_uuid.h:75-88 | the buffer holds the five dashed groups and its zero |
| `Uuid.DashesAt` | runtime/actor_uuid.h:75-88 | 36 characters with a dash behind exactly 8, 12, 16 and 20 digits |
| `Uuid.DashedIsHex` | runtime/actor_uuid.h:75-88 | the dashed form without dashes is the hex form |
| `Base64.TableExactly` | examples/employee-mesh/handlers/lib/ner_infer.h:130-147 | the alphabet of RFC 4648 in its order, = counted as 0, everything else stepped over; no two characters but A and = share a value |
| `Base64.DecodeInto` | examples/employee-mesh/handlers/lib/ner_infer.h:128-162 | the bytes stored, as far as there is room, and the number of whole floats |
| `Base64.WrapHarmless` | examples/employee-mesh/handlers/lib/ner_infer.h:150-160 | a 32-bit accumulator that wraps gives the same bytes as one that keeps only the bits not yet used |
| `Base64.EncodeDecodes` | examples/employee-mesh/handlers/lib/ner_infer.h:150-160 | decoding the padded encoding of any bytes gives the bytes and a zero byte for each = |
| `Base64.DecodesText` | examples/employee-mesh/handlers/lib/ner_infer.h:128-162 | the same for text broken by characters outside the alphabet, cut to the room there is |
| `Base64.FloatsDecode` | examples/employee-mesh/handlers/lib/ner_infer.h:128-162 | 4k encoded bytes within the capacity decode to themselves and count as k floats |
| `Base64.CountExactly` | examples/employee-mesh/handlers/lib/ner_infer.h:148-161 | for any number of bytes the count is that of the whole floats encoded if and only if odd bytes and padding do not make up another |

## Left out

- NNG sockets, dialling, the proxy, the HTTP bridge and the WebSocket actors: I/O around the frames.
- LMDB itself, and recovery: the runtime never replays its inbox or outbox.
- Inference, hash features and the loading of weights: an arbitrary scoring function stands for them.
- mpack encoding: messages are streams of tags as the reader meets them. What tags the unread bytes of
  a binary or extension value are taken for is not modelled.
- Namespaces, Landlock, cgroups, rlimits and user ids: kernel effects. The two denylists are parameters.
- The Windows spawn path, heartbeats as a schedule, clients, language-model and shell handlers, the
  terminal interface.
- Failing pipe reads: an interrupted read would end the output early.
- Publish.Report: a name without any zero behind it is printed to the end of the message; the program
  would read on.
- Runtime.ReplyIsOwnChilds: what a handler is given (its environment and input) is not modelled, only
  what it writes and how it ends.
- Liveness: nothing is claimed about how soon the scheduler lets a step happen; `Delivery.StatusArrives`
  proves that a way on exists, not that it is taken.
- Wire.Expired: signed overflow of emitted_at + ttl, undefined in C, is modelled without wrap-around.
- Wire.BuildFrame: the conversion of ttlMs is exact arithmetic over reals, not over doubles.
- Retry.ProcessTuple: the shift that doubles the backoff is unbounded; in C it is undefined from the
  38th retry on, long after nanosleep has stopped granting it.
- Walk.WalkAndRewrite: a tag stream that ends early ends the walk; mpack's error flag is that end only.
- Uuid.Generate: the fallback to rand() when getrandom fails only changes where the random bytes come from.
