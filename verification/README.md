# Oveo: a verified model of its core

Oveo is a single-process writing assistant: it streams a model's answer to the browser, keeps a versioned work
history per conversation, and edits uploaded Word documents in place. This project models the five parts of it that
carry state, interleaving and string arithmetic, and proves what they promise for every input and every run.
`dafny verify dfyconfig.toml` checks everything.

| files | what they model |
|---|---|
| `UnicodeText` | white space, case folding and word characters |
| `DocxLinks`, `DocxTree`, `DocxLayout`, `DocxPatch` | link tokens, the paragraph tree, the field machine, the patch as a function of the tree |
| `DocxEdits`, `DocxRewrite`, `DocxDocument`, `DocxElement` | what a patch does to every stretch of a paragraph; extraction and rendering of a document; the patcher that updates the tree in place |
| `DocxFields`, `DocxOwnText`, `DocxReading`, `DocxMaps` | the same without loops or machines: the grammar of hyperlinks, whose text is read, what a block shows, which block maps are valid |
| `DocxRoundTrip`, `DocxRendering`, `DocxRegular`, `DocxFrame`, `DocxStored`, `DocxBoundaries` | round trip of a paragraph and of a document, frame, identity, stored block maps, and the inputs at which each law ends |
| `Lifecycle`, `LifecycleEffects`, `StopRace`, `GenerationStatus` | generation rows, messages and live tasks under Stop, retry, failure and restart; what each transaction writes and what can always still happen |
| `Stream`, `StreamServer`, `StreamWire` | the live draft, the bounded event queue, the reader, the messages in flight and the browser's copy |
| `Protocol`, `ProtocolDraft`, `Decoder`, `DecoderChunks`, `DecoderExample`, `DecoderGrammar` | the response grammar, the live draft built from it, the byte-level decoder, and the bytes it accepts |
| `Substitution`, `WorkHistory`, `WorkStorage`, `WorkEdits` | exact replacements and the versioned work history, up to the exported document |
| `Sse`, `SseLayout`, `Ledger`, `Compaction`, `Handoff`, `Slots` | line splitting, usage accounting, context compaction, provider slots |

Code that changes state step by step is a class or a method with loops, proved equal to a function on values; the laws
are proved about those functions and about whole runs of the step relations. Clocks, the network, the tokenizer, the
database engine and JSON parsing appear as parameters or as atomic steps that may fail.

Findings, each with a concrete input and the exact condition:

- A valid replacement that is rendered need not read back. `ExtractAfterRender` says that re-extraction gives the
  replaced texts if and only if every edited paragraph meets four conditions on its tree and the new text: no special
  character goes to a text node outside a run (`Safe`), no text node is created below `mc:AlternateContent`
  (`Clear`), no page or column break ends up between two visible items (`Aligned`), and some text node is left
  (`Survives`). `TabOutsideRunIsLost`, `TextBelowAlternateContent`, `TextAcrossPageBreak` and `TabDoesNotSurvive` break
  one condition each.
- A patch keeps everything but its text exactly if it is `Safe`: otherwise it leaves a tab or break element outside
  any run (`PatchKeepsSkeleton`, `TabOutsideRunBreaksFrame`).
- A paragraph dropped after it numbered a link leaves a gap that makes the stored block map unloadable
  (`GapDoesNotReload`); `ReloadsIffNoGap` gives the condition and `DroppedNumbers` says which content causes it.
- Stop works in two transactions. Its own row always ends stopped and unanswered, but a turn submitted in between may
  lose its task and stay behind as an active orphan of the conversation (`StopCanLeaveAnOrphan`);
  `StopClearsConversation` gives the condition.
- How an accepted response is cut into chunks matters if and only if one of its lines has exactly the maximal number of
  bytes and ends in CR LF (`ChunkingIsInvisible`); `CuttingMatters` is such a response.
- `_bounded_handoff_groups` measures only the first extract alone, so a later extract that is too large is still sent
  as a group of its own (`OversizedExtractIsSent`); `GroupsFitIffExtractsDo` gives the condition.

## Model

| member | source | states |
|---|---|---|
| DocxLinks.LinkParts | src/oveo/docx.py:729-747 | The scanning loop computes the declarative parse of a block text: plain stretches and (id, display) links, or the malformed-token error |
| DocxLinks.PrintOfParse | src/oveo/docx.py:729-747 | Every text that parses is the print of its parts, and those parts are free of the reserved prefixes |
| DocxLinks.ParseOfPrint | src/oveo/docx.py:653-655 | Every clean list of parts is read back from its embedded tokens, including stretches that end in partial braces or token text |
| DocxLinks.TokenBijection | src/oveo/docx.py:83-88 | Parsing and embedding are mutual inverses between accepted texts and clean parts |
| DocxLinks.LinkIdInjective | src/oveo/docx.py:652-655 | Two link numbers below a million never share an identifier |
| DocxTree.BuildInlineElements | src/oveo/docx.py:856-877 | The flushing loop builds maximal text nodes and one element per special character |
| DocxTree.NewElements | src/oveo/docx.py:856-877 | The elements built from a text read back as that text in a run, and outside a run as the text without its special characters; they carry new identities, none is empty, and no text node holds a special character |
| DocxLayout.ParagraphLayout | src/oveo/docx.py:529-603 | The nested loops over children, field characters and items compute the declarative split into plain stretches and link displays, and give up in exactly the same cases |
| DocxFields.HyperlinkCodes | src/oveo/docx.py:521-522 | A field code is a hyperlink instruction exactly if it is spaces, the word in any case, and then its end or no word character |
| DocxFields.LayoutIffSentence | src/oveo/docx.py:529-603 | A paragraph is split exactly if its content is a row of texts with a link between each two, a link being a link element without field markup inside or a begin, a HYPERLINK code, a separate, a result and an end; the split is those texts and links |
| DocxOwnText.CellsAreOwn | src/oveo/docx.py:441-470 | The walk finds exactly the leaves and links of the whole tree that no other paragraph encloses, in document order, each with its surroundings |
| DocxOwnText.BoxesAreNotRead | src/oveo/docx.py:441-450 | With distinct elements, nothing that is read is an element of a text box or of paragraph properties |
| DocxLayout.Insert | src/oveo/docx.py:926-935 | Text and special characters inserted outside a field code land in one stretch and change no other stretch, link or field state |
| DocxLayout.Replace | src/oveo/docx.py:880-895 | Replacing inline items by text and special characters acts on each stretch by itself and leaves the field machine and the link anchors as they were |
| DocxElement.ParagraphElement.Rewrite | src/oveo/docx.py:880-895 | The loop that removes each item from its parent and the loop that inserts the new elements one by one at the first item's position amount to one simultaneous replacement; unchanged text changes nothing |
| DocxElement.ParagraphElement.BoundaryRun | src/oveo/docx.py:898-923 | A run is split so that it starts or ends with the field character |
| DocxElement.ParagraphElement.InsertRun | src/oveo/docx.py:926-935 | A new plain run directly before or after a link, nothing for an empty text |
| DocxElement.ParagraphElement.PatchText | src/oveo/docx.py:938-960 | The patch loop on a tree with distinct elements against its value function, with its two errors |
| DocxRewrite.RewriteEdits | src/oveo/docx.py:880-895 | In every paragraph with distinct elements, rewriting a stretch gives that stretch its new text at the place of its first item, and keeps every other stretch, the field states, the anchors and the breaks around links; an unchanged text keeps its items |
| DocxRewrite.InsertEdits | src/oveo/docx.py:898-935 | Inserting a run next to a link, splitting a run at a field boundary if needed, gives exactly the empty stretch its text, between the breaks that surround that side of the link |
| DocxRewrite.PatchWrites | src/oveo/docx.py:938-960 | After every successful patch each stretch holds its new text where the old text or the link stood, and links, field codes and breaks are unchanged |
| DocxOwnText.PatchKeepsBoxes | src/oveo/docx.py:441-450 | No successful patch changes any text box or paragraph properties, whatever they hold and whatever the identities |
| DocxOwnText.RenderKeepsBoxes | src/oveo/docx.py:985-1000 | The same for every paragraph of a rendered document |
| DocxDocument.ScanLayoutBreaks | src/oveo/docx.py:482-494 | The two-flag scan finds a page or column break between two pieces of text, and only that |
| DocxDocument.ReadParagraph | src/oveo/docx.py:606-660 | Reading one paragraph: dropped, refused or kept, with the advanced link number in each case |
| DocxReading.KeptIff | src/oveo/docx.py:606-660 | A paragraph yields a block exactly if it is a row of texts and visible links with intact relationships, without token text, alternative renderings, interior breaks or nested hyperlinks, and with some text; the block is its texts with the links as numbered tokens |
| DocxReading.BlockShowsOwnText | src/oveo/docx.py:606-660 | Without its tokens a block is the visible text of its paragraph, every own leaf once and in document order, and nothing of a text box |
| DocxReading.FailedSays | src/oveo/docx.py:606-660 | A document is refused only for a nested or broken hyperlink or for token text in a readable paragraph, each with its code |
| DocxReading.IdentifierIsNumber | src/oveo/docx.py:652-659 | An identifier is its letter and its number in decimal, six digits below a million |
| DocxDocument.ParseBody | src/oveo/docx.py:663-708 | The extraction loop: blocks in order with their numbers, the list of editable paragraphs, and its errors |
| DocxReading.BlocksShowOwnText | src/oveo/docx.py:663-708 | The blocks of a document are numbered in order and show the visible texts of the paragraphs that yield one |
| DocxDocument.ValidateReplacements | src/oveo/docx.py:750-794 | Accepts exactly the lists that match the template block by block, and otherwise gives the code of the first failing check |
| DocxMaps.ValidIff | src/oveo/docx.py:750-794 | A list is accepted exactly if it replaces every block in order by a text that XML can hold and that has the block's links, each once and visible |
| DocxElement.RenderBody | src/oveo/docx.py:985-1000 | Patching the editable paragraphs in place one after another is rendering the document, with the same errors |
| DocxDocument.PlainTextOf | src/oveo/docx.py:836-844 | The nested loops give each block without its tokens, joined by blank lines |
| DocxReading.PlainIsWithoutTokens | src/oveo/docx.py:836-844 | The plain text of an accepted text is the text with exactly its opening and closing tokens cut out |
| DocxReading.PlainTextJoins | src/oveo/docx.py:836-844 | The plain text of two lists is their plain texts with one blank line between, and of one block its own |
| DocxRoundTrip.ParagraphRoundTrip | src/oveo/docx.py:606-660 | A valid text can be written into every kept paragraph; it reads back unchanged with the same link number exactly if the four conditions hold, and the lemma says what is read, and with which number, if one of the last three fails |
| DocxRegular.OrdinarySurvives | src/oveo/docx.py:856-877 | A text with one ordinary character always leaves a text node |
| DocxRegular.RegularIsAligned | src/oveo/docx.py:529-603 | The other three conditions hold for every text in a paragraph whose visible items are non-empty, in runs and outside AlternateContent, without a break inside a link |
| DocxRendering.ExtractAfterRender | src/oveo/docx.py:985-1000 | Valid replacements always render, and re-extraction gives the same identifiers and kinds with the replaced texts if and only if every edited paragraph reads back |
| DocxRegular.OrdinaryTextsRoundTrip | src/oveo/docx.py:985-1000 | The round trip without further conditions for such templates and texts that keep an ordinary character |
| DocxBoundaries.TabDoesNotSurvive | src/oveo/docx.py:656-658 | "a" replaced by a tab is valid and rendered, and the rendered document does not read back |
| DocxBoundaries.TabOutsideRunIsLost | src/oveo/docx.py:856-895 | A text node outside a run rewritten to "b" and a tab does not read back |
| DocxBoundaries.TextBelowAlternateContent | src/oveo/docx.py:497-506 | A tab below AlternateContent followed by "a" in a run is one editable block; rewritten to "b" it does not read back |
| DocxBoundaries.TextAcrossPageBreak | src/oveo/docx.py:482-494 | An empty text node, a page break and a link: the paragraph is editable, and a text written before the link does not read back |
| DocxBoundaries.TabOutsideRunBreaksFrame | src/oveo/docx.py:880-895 | The rewritten text node outside a run leaves a tab element outside any run |
| DocxStored.PatchUnchanged | src/oveo/docx.py:938-960 | Patching a paragraph with its own text leaves its tree identical |
| DocxStored.RenderUnchanged | src/oveo/docx.py:985-1000 | Rendering the extracted texts leaves the whole document identical, without any condition on its shape |
| DocxStored.BlocksFromStorage | src/oveo/docx.py:797-825 | The nested loops with one link counter accept exactly the maps the declarative check accepts |
| DocxMaps.ReloadsIff | src/oveo/docx.py:797-825 | A stored map reloads exactly if its blocks are well formed and numbered and its links number from one through all blocks without a gap |
| DocxStored.ReloadsIffNoGap | src/oveo/docx.py:797-825 | A block map extracted at upload reloads if and only if no dropped paragraph used a link number before a later kept link |
| DocxStored.DroppedNumbers | src/oveo/docx.py:606-660 | A dropped paragraph uses one number for each link before its first link without display text, and drops only for such a link or for want of a text node; an unreadable one uses none |
| DocxStored.GapDoesNotReload | src/oveo/docx.py:636-640 | A two-paragraph document whose map is extracted and then never accepted again |
| DocxFrame.PatchKeepsSkeleton | src/oveo/docx.py:880-960 | After erasing own text items and merging split runs, a patched paragraph is the tree it was (field codes, link targets, breaks and text boxes keep their place) if and only if no special character was written outside a run |
| DocxFrame.RenderKeepsSkeleton | src/oveo/docx.py:985-1000 | The same for every paragraph of every rendered document, and paragraphs without a block are untouched |
| Lifecycle.RunKeeps | src/oveo/generation.py:1477-1608 | Every run of submit, handoff, retry, stop, fail, complete, delete, crash and restart keeps the database invariant |
| Lifecycle.TerminalStays | src/oveo/generation.py:971-993 | A terminal row never changes again |
| Lifecycle.StopWins | src/oveo/generation.py:1924-1956 | Once Stop's compare-and-set won, the row ends stopped and never gets an answer |
| Lifecycle.ResultsOfRuns | src/oveo/generation.py:2193-2264 | A row has a result message exactly if it is a completed chat row |
| Lifecycle.AnsweredUpdateIsIdle | src/oveo/generation.py:914-969 | The "answered" update at startup changes no row this code wrote |
| Lifecycle.OneAnswer | src/oveo/generation.py:2231-2262 | Each user message is answered at most once, by the message at exactly the next ordinal |
| Lifecycle.OrdinalsContiguous | src/oveo/generation.py:1714-1743 | The ordinals of a conversation are 1, 2, ..., each used once |
| Lifecycle.Answer | src/oveo/generation.py:2231-2262 | The next free ordinal of a running turn's conversation is the one after its question |
| Lifecycle.RetriedIsLast | src/oveo/generation.py:1884-1922 | A turn that may be retried is the last message of its conversation |
| Lifecycle.OneActiveRow | src/oveo/models.py:185-190 | At most one row of a conversation is active |
| Lifecycle.OwnedRowsUntouched | src/oveo/generation.py:1745-1783 | A step of any run changes a row that a request or task owns only if it is that task's own write or a Stop request for it |
| Lifecycle.InsertLeavesNoOrphan | src/oveo/generation.py:1845-1882 | After a successful submit, handoff or retry the new, owned row is the conversation's only active row |
| Lifecycle.StopEndsStopped | src/oveo/generation.py:1924-1956 | Whatever steps come between Stop's request, its ownership check and its finishing write, the row ends stopped, unanswered and unowned |
| Lifecycle.StopOfOwnedRow | src/oveo/generation.py:1924-1948 | If the check finds an owner, the row is stopping or stopped and no orphan |
| Lifecycle.StopClearsConversation | src/oveo/generation.py:1924-1956 | After the finishing write the conversation has no active orphan if and only if, just before it, every other active row of it had an owner; that holds whenever the stopped row was still active |
| Lifecycle.UndisturbedStopClears | src/oveo/generation.py:1924-1956 | If no row joined the conversation since the request, the finishing write leaves no active orphan in it |
| StopRace.StopCanLeaveAnOrphan | src/oveo/generation.py:1924-1956 | A run of fourteen states in which Stop finishes its row and an active orphan stays in the conversation |
| Lifecycle.OwnerNeverReturns | src/oveo/generation.py:910-912 | One step never gives an owner to a row that lost it |
| Lifecycle.OrphansStayOrphans | src/oveo/generation.py:910-912 | Over any stretch of a run a row without an owner never gets one again |
| Lifecycle.GenerationManager.Transition | src/oveo/generation.py:971-993 | The compare-and-set on one row: moved, and nothing else changed, if and only if its status was allowed |
| Lifecycle.GenerationManager.FinishOrphans | src/oveo/generation.py:1745-1783 | The loop finishes exactly the unowned active rows of a conversation, stopping rows as stopped and others as failed |
| Lifecycle.GenerationManager.NextOrdinal | src/oveo/generation.py:1714-1743 | One more than the largest ordinal of the conversation |
| Lifecycle.GenerationManager.Commit | src/oveo/generation.py:2193-2264 | Completion of a running chat turn adds one new message directly after its question and completes the row with it; of a handoff it completes the row; otherwise it changes nothing |
| LifecycleEffects.CompletionAnswers | src/oveo/generation.py:2193-2264 | The same of the completion step of a run: all other rows and messages stay |
| LifecycleEffects.StartWrites | src/oveo/generation.py:2121-2132 | The start of a task makes its queued row running and changes nothing else |
| LifecycleEffects.FailureWrites | src/oveo/generation.py:3146-3180 | A failure of an active row is recorded with its code, or as stopped if Stop came first; a finished row is left alone |
| LifecycleEffects.StopWrites | src/oveo/generation.py:1924-1948 | What the two transactions of Stop write, on their row alone |
| LifecycleEffects.TurnWrites | src/oveo/generation.py:1845-1882 | A new turn adds its question after all messages of the conversation and one queued row, and finishes the unowned active rows there as failed or stopped |
| LifecycleEffects.HandoffWrites | src/oveo/generation.py:1785-1807 | A handoff adds one queued row and no message |
| LifecycleEffects.RetryWrites | src/oveo/generation.py:1809-1843 | A retry adds one queued row with the question of the newest failed or stopped turn, and no message |
| LifecycleEffects.DeleteWrites | src/oveo/api.py:589-612 | Deleting a conversation removes its messages and rows and no others |
| LifecycleEffects.RetryableIff | src/oveo/generation.py:1884-1922 | A turn may be retried exactly if it is its conversation's newest chat turn, failed or stopped for no lasting reason, and its question is unanswered |
| LifecycleEffects.InsertIff | src/oveo/generation.py:1845-1882 | A conversation takes a new row exactly if no request or task owns an active row of it |
| LifecycleEffects.UnownedConversationTakesTurn | src/oveo/generation.py:1745-1751 | Whatever rows failed writes left behind, a conversation without an owned active row can take a turn now |
| LifecycleEffects.OwnedTurnCanBeAnswered | src/oveo/generation.py:2193-2264 | From every reachable state a turn whose task lives can be answered in at most two steps |
| Lifecycle.GenerationManager.StopGeneration | src/oveo/generation.py:1924-1956 | Stop without any step between its transactions: an owned row is requested, an unowned one finished, a finished one untouched |
| Lifecycle.StartupFinishesAll | src/oveo/generation.py:914-969 | After startup no row is active: stopping rows are stopped, queued and running ones failed as interrupted, and finished rows, messages and conversations are as they were |
| Stream.LiveDraft.ApplyEvents | src/oveo/generation.py:2134-2152 | New events extend the draft, take the next sequence number and are published as one delta; no event publishes nothing |
| Stream.LiveDraft.Reset | src/oveo/generation.py:3110-3124 | A protocol retry empties the draft under a new sequence number |
| Stream.EventQueue.Put | src/oveo/generation.py:495-504 | A full queue is emptied and left with one resynchronization signal |
| Stream.EventQueue.Coalesce | src/oveo/generation.py:2046-2113 | The inner loop joins the queued deltas that follow without a gap and stops at the first other item |
| StreamServer.CoalescesAll | src/oveo/generation.py:2046-2113 | One message takes the operations of every queued delta that follows without a gap, and the first other item is handled next |
| StreamServer.Publisher.SetLiveStatus | src/oveo/generation.py:1238-1252 | The draft and queue objects after a status change are those of the step of a run |
| StreamServer.Publisher.ApplyLiveEvents | src/oveo/generation.py:2134-2152 | The same after new events |
| StreamServer.Publisher.ResetDraftForRetry | src/oveo/generation.py:3110-3124 | The same after a retry: an empty draft, a new number, and a queue that ends with a signal |
| Stream.ApplyDeltaLoop | frontend/src/stream.ts:25-41 | The browser's loop refuses a gap or an append without a block, and otherwise applies the operations in order |
| Stream.DraftMatchesOps | src/oveo/generation.py:2134-2152 | Adding events to the server draft and applying the same operations in the browser give the same blocks |
| Stream.RunKeeps | src/oveo/generation.py:2046-2113 | Every interleaving of events, status changes, resets, overflow, coalescing, disconnects and the end keeps the replication invariant |
| StreamServer.RecordGrows | src/oveo/generation.py:2046-2113 | A step leaves the record of drafts alone or extends it by one: a new status, the events applied, or an empty draft |
| Stream.DeltaFollows | src/oveo/generation.py:2046-2113 | A delta that is sent starts right after the browser's sequence number and ends at the recorded draft |
| Stream.BrowserShowsHistory | frontend/src/stream.ts:103-122 | In every state of every run, what the messages sent so far amount to is the server's record at that number: status, blocks and number |
| Stream.NoDeltaRefused | frontend/src/stream.ts:110-117 | No delta is ever refused, so the polling fallback for a gap is never taken |
| Stream.QuietIsCurrent | src/oveo/generation.py:2046-2113 | Nothing queued or pending means that the browser shows the live draft |
| Stream.ReaderCatchesUp | src/oveo/generation.py:2046-2113 | With the server idle, finitely many reader steps end with a closed stream or an up-to-date browser |
| StreamWire.StreamEndsWithResult | src/oveo/generation.py:2046-2113 | Once the generation ended, finitely many reader steps close the stream with the terminal snapshot as its last message, and the copy equals the stored result |
| StreamWire.WiredRunKeeps | frontend/src/stream.ts:103-122 | Every run with messages in flight, delivered later and in order or lost with the connection, keeps the invariant: receiving what is in flight leads to what was sent |
| StreamWire.BrowserShowsRecord | frontend/src/stream.ts:103-122 | In every such run the browser shows the server's record at its number, and shows a terminal status exactly if it shows the stored result |
| StreamWire.NoMessageRefused | frontend/src/stream.ts:110-117 | The next message in flight is always accepted |
| StreamWire.DeliveredIsSent | frontend/src/stream.ts:103-122 | With nothing lost and nothing in flight the browser shows what was sent |
| Protocol.ValidateContentBlocks | src/oveo/protocol.py:255-302 | Accepts exactly one conversation block, or deliverables with at most one advice block at the end, none blank and all within the limits |
| Protocol.GrammaticalIsAccepted | src/oveo/protocol.py:428-554 | Every event sequence of the grammar is accepted with the document it spells |
| Protocol.AcceptsExactlyTheGrammar | src/oveo/protocol.py:428-554 | The field-by-field machine accepts an event sequence with a document if and only if the sequence spells that document in the grammar |
| ProtocolDraft.DraftFollows | src/oveo/generation.py:2134-2152 | While events are accepted the live draft holds the finished blocks and the open block's text so far |
| ProtocolDraft.DraftEqualsDocument | src/oveo/generation.py:2134-2152 | For an accepted sequence the live draft equals the document's blocks |
| Decoder.EncodeDecodes | src/oveo/protocol.py:372-381 | The incremental UTF-8 machine decodes the encoding of every scalar value |
| Decoder.ProtocolDecoder.FeedChunk | src/oveo/protocol.py:372-381 | Feeding a chunk: decoded text, consumed lines, pending rest and events, or failure |
| Decoder.ProtocolDecoder.DrainCompleteLines | src/oveo/protocol.py:412-426 | The newline loop equals the character-by-character reader, including CRLF and the pending-line limit |
| Decoder.ProtocolDecoder.FinishStream | src/oveo/protocol.py:383-404 | Finishing: the unterminated last line, a cut character, and the completeness checks |
| DecoderGrammar.DecodesIffEncodes | src/oveo/protocol.py:372-381 | Bytes decode completely to a text exactly if they are the UTF-8 encoding of its scalar values |
| DecoderGrammar.SizeIsEncodedLength | src/oveo/protocol.py:412-434 | The size that limits speak of is the number of encoded bytes |
| DecoderGrammar.AcceptsExactlySpelledDocuments | src/oveo/protocol.py:372-434 | In one piece a stream is accepted, with a document and the events handed out, exactly if it is the encoding of lines within the limit whose events spell that document in the grammar, the last line with or without its newline |
| DecoderGrammar.AnyCutSpells | src/oveo/protocol.py:372-434 | However it is cut, an accepted stream is such an encoding of its document; bytes that are no UTF-8 are refused |
| DecoderChunks.LongLineIsRefused | src/oveo/protocol.py:412-426 | A line over the byte limit can be cut so that it is refused |
| DecoderChunks.ChunkingIsInvisible | src/oveo/protocol.py:372-426 | A response refused in one piece is refused however it is cut; for one accepted in one piece, any two ways to cut it agree in failure, document and concatenated events if and only if no line has exactly the maximal number of bytes and ends in CR LF |
| DecoderExample.CuttingMatters | src/oveo/protocol.py:412-426 | A thirteen-byte response with a line limit of one byte is accepted in one piece and refused when cut between its CR and LF |
| Substitution.ReplacementSpan | src/oveo/generation.py:584-591 | The span of an anchor that occurs exactly once, self-overlaps counted; otherwise missing or ambiguous |
| Substitution.SortByStart | src/oveo/generation.py:604-604 | The edits in order of their start, each once |
| Substitution.ApplyBaseReplacements | src/oveo/generation.py:594-610 | Sorting, comparing neighbours and splicing from the right is one simultaneous substitution on the base; it succeeds if and only if every anchor occurs exactly once and all occurrences are pairwise disjoint |
| Substitution.OrderDoesNotMatter | src/oveo/generation.py:594-610 | The order of the replacements changes neither success nor text |
| WorkHistory.RunKeeps | src/oveo/generation.py:2266-2446 | Every run of committed responses and deletions keeps the history invariant: one active item a conversation, versions chained on one template, Word-backed output equal to the plain text of a valid block map |
| WorkHistory.CommitSays | src/oveo/generation.py:2266-2446 | A committed response does nothing, starts a new item, or extends the current version it names as its base |
| WorkHistory.HistoryIsNumbered | src/oveo/models.py:242-257 | The versions of an item are numbered 1 to n, each once, each naming the one before as parent |
| WorkHistory.OneTemplate | src/oveo/generation.py:2356-2367 | The Word template of an item never changes |
| WorkHistory.HistoryIsImmutable | src/oveo/generation.py:2431-2446 | Over any stretch of a run versions are never rewritten, disappear only with their item, and a superseded item stays inactive |
| WorkHistory.BaseIsConsumed | src/oveo/generation.py:2341-2345 | No lost update: once version n was extended, every later response based on n is refused while the item is active |
| WorkHistory.ExportReproducesLatest | src/oveo/api.py:614-660 | In every reachable state a Word-backed current version renders into its template, whose map reloads; the exported document reads back as the recorded blocks and output if and only if every edited paragraph reads back |
| WorkStorage.WorkStore.ApplyStateOperation | src/oveo/generation.py:2266-2446 | The operation on the tables: the new rows on success, the error code and unchanged tables otherwise, the invariant kept |
| WorkStorage.EditContent | src/oveo/generation.py:2371-2411 | Append, replace and full: the new source, output and brief, or the error |
| WorkEdits.EditedIff | src/oveo/generation.py:2371-2411 | An operation succeeds exactly as it promises: append gives base, separator and addition in this order for source and output; replace applies each anchor with its own replacement; full takes the deliverable and the given or kept source; and the brief |
| WorkEdits.EstablishedIff | src/oveo/generation.py:2310-2339 | Which content a new item gets, and exactly when |
| WorkEdits.CommitWrites | src/oveo/generation.py:2266-2446 | A committed response has one deliverable, makes its content of the current version, and adds exactly one version or one item to the tables |
| WorkEdits.WrittenCommits | src/oveo/generation.py:2266-2446 | Conversely, a response that may make a content of the current version commits it |
| WorkEdits.WordsAreCounted | src/oveo/attachments.py:39-42 | The word count is the number of maximal runs without white space |
| WorkEdits.DeleteWrites | src/oveo/api.py:589-612 | Deleting a conversation removes its items with their versions and no others |
| WorkHistory.EstablishedSource | src/oveo/generation.py:2310-2339 | An accepted establish records the shown text as output; with a Word template its source is that template's plain text, without one the source the model gave, and a source given with a template must be that plain text |
| WorkHistory.FirstVersionIsTheUpload | src/oveo/generation.py:2310-2339 | In every reachable state the first version of a Word-backed item has its upload's plain text as source |
| WorkStorage.CheckContent | src/oveo/generation.py:2413-2430 | Accepts exactly non-blank, bounded content whose Word block map is valid and spells the output, and otherwise gives the code of the first failing check |
| WorkEdits.CheckedIff | src/oveo/generation.py:2413-2430 | What a version records of a draft, and exactly when it may |
| WorkStorage.FindNewest | src/oveo/generation.py:2296-2303 | The version with the largest number of an item |
| Sse.SseLines | src/oveo/provider.py:331-346 | For every partition of a text the yielded lines are the terminated lines of the whole under CR, LF and CRLF, with a CRLF cut between chunks and a final lone CR |
| SseLayout.LinesBetweenEnds | src/oveo/provider.py:331-346 | The terminated lines of a text are the lines between its line ends, whichever of CR, LF and CRLF each of them is |
| Sse.SplitReads | src/oveo/provider.py:328-343 | Splitting a text at its line breaks agrees with reading it character by character |
| Ledger.KeyInjective | src/oveo/generation.py:2655-2659 | A ledger key determines its scope, purpose and suffix, although provider ids may hold colons |
| Ledger.UsageLedger.AppendUsageEvent | src/oveo/usage.py:26-57 | A row is added at the end if and only if its key is new |
| Ledger.UsageLedger.RecordUsage | src/oveo/generation.py:2622-2672 | A cost adds one charge of exactly that amount, for that call and under its spelled-out key, unless the key is taken; a named call without one adds its pending row; an unnamed call without one leaves no row |
| Ledger.UsageLedger.ReconcilePendingCosts | src/oveo/generation.py:1008-1093 | A pass picks the oldest candidates, adds only charges of picked calls with the amount the provider names for them, and leaves every picked call with a known amount charged with exactly it |
| Ledger.FindCandidates | src/oveo/generation.py:1015-1041 | Exactly the pending rows of uncharged calls, oldest first |
| Ledger.RunKeeps | src/oveo/generation.py:2593-2672 | Every interleaving of early ids, final usage, reconciliation halves and restarts keeps the ledger invariant |
| Ledger.ChargedAtMostOnce | src/oveo/generation.py:2647-2653 | A named call has at most one charge row |
| Ledger.RecordedIsNeverLost | src/oveo/generation.py:2514-2520 | A recorded call is charged or still a candidate for reconciliation |
| Ledger.LedgerOnlyGrows | src/oveo/models.py:315-318 | Rows are never changed or removed |
| Ledger.LifetimeTotal | src/oveo/usage.py:60-65 | The sum of all charge rows |
| Ledger.TotalIsOneAmountPerCall | src/oveo/usage.py:60-65 | The lifetime total is one amount per charged call, each reported for that very call, plus the charges of unnamed calls |
| Compaction.SnapshotFits | src/oveo/generation.py:1198-1209 | The byte-bound shortcut never changes the answer of the exact token test |
| Compaction.BoundHolds | src/oveo/provider.py:131-143 | The byte bound is never below the token count |
| Compaction.LargestFitting | src/oveo/generation.py:2913-2936 | The search's answer fits and its successor does not, for any sizes; with monotone sizes it is the largest that fits; it finds nothing only if the smallest does not fit |
| Compaction.Conversation.FloorAfter | src/oveo/generation.py:2881-2907 | The ordinal the floor request starts after |
| Compaction.FloorKeepsNewest | src/oveo/generation.py:2881-2907 | The floor keeps exactly the four newest unsummarized messages, or all if there are fewer |
| Compaction.Conversation.CompactChat | src/oveo/generation.py:2829-2879 | Each round takes the largest prefix its search finds before the retained messages, with a summary request that fits, and strictly advances; at least four messages are never summarized; success means that the request fits, failure that the floor does not fit or no further round is possible |
| Handoff.HandoffChunks | src/oveo/generation.py:2994-3022 | The chunks hold every user turn exactly once and in order and each fits; it gives up only for a turn too large on its own |
| Handoff.ChunksNeedEveryTurn | src/oveo/generation.py:3015-3019 | With sizes that shrink with the turns, chunking succeeds only if every turn fits on its own |
| Handoff.FewestChunks | src/oveo/generation.py:2994-3022 | With such sizes no other partition into fitting chunks needs fewer provider calls |
| Handoff.BoundedGroups | src/oveo/generation.py:3048-3065 | The grouping loop against its step function |
| Handoff.GroupsPartition | src/oveo/generation.py:3048-3065 | Groups hold every extract once and in order; every group of two or more fits; it fails exactly if the first extract does not fit |
| Handoff.GroupsAreGreedy | src/oveo/generation.py:3048-3065 | No group could have taken the first extract of the next one |
| Handoff.GroupsFitIffExtractsDo | src/oveo/generation.py:3048-3065 | All groups fit if and only if every extract fits alone |
| Handoff.OversizedExtractIsSent | src/oveo/generation.py:3051-3065 | Three extracts for which a group that does not fit goes to the provider |
| Handoff.MergeExtracts | src/oveo/generation.py:3032-3046 | The merge loop strictly shrinks; its last extracts cover every source chunk exactly once and in order; on success they fit, and it fails only if grouping fails, does not shrink, or a merge call fails |
| Slots.SlotsAreConserved | src/oveo/generation.py:2538-2591 | Free and held slots always add up to the cap, at most that many calls are in flight, and no slot is free while a task waits |
| Slots.GiveUpKeeps | src/oveo/generation.py:2580-2591 | Giving up in any phase returns what was granted and leaves its task in no queue |
| Slots.StoppedNeverCalls | src/oveo/generation.py:2566-2578 | A task stopped before its call began never makes it |
| Slots.ServedInOrder | src/oveo/generation.py:2566-2578 | Waiting tasks are served in order |
| Slots.WaiterReachesItsCall | src/oveo/generation.py:2538-2591 | From every reachable state a task that asked for a slot and was not stopped can still reach its provider call |

## Left out

- ZIP packages, XML parsing, encodings, size limits and the walk that collects body paragraphs: the document model
  starts from the parsed body paragraphs. XML tails, `xml:space` and the content of paragraph properties are not modelled.
- Element identity is a number that every node carries; the patcher is a class over a tree of values, so aliasing of
  element references is captured only through these numbers.
- DocxLayout.ParagraphLayout: the word boundary after HYPERLINK knows ASCII word characters only.
- DocxRendering.ExtractAfterRender: asks that elements are distinct, which every parsed document guarantees, and that the
  document numbers fewer than a million links, the width of a link identifier.
- DocxRoundTrip.ParagraphRoundTrip: for a special character outside a run it says only that the text does not read back.
- DocxStored.RenderUnchanged: asks that the extracted texts hold only characters XML can hold, which a parsed document guarantees.
- JSON parsing, key-set and brief validation: a line is the event a parsing function gives, and the decoder model does
  not tell its error codes apart.
- Surrogate halves split across provider chunks: text is a sequence of scalar values.
- Stream.BrowserShowsHistory: one browser and one generation from the moment the draft is scheduled; what the browser has
  received while messages are in flight is the subject of StreamWire. A row that a failed terminal write left active,
  session checks, keep-alives and the polling that follows a lost connection are not modelled.
- Lifecycle.GenerationManager.StopGeneration: the uninterleaved case; steps between the two transactions are the subject
  of the run-level laws about Stop.
- Lifecycle.RunKeeps: a transaction with its validation reads is one atomic step that may not happen; write retries,
  attachments and request budgets are not modelled.
- Ledger.ChargedAtMostOnce: says nothing about calls without a provider generation id; two such calls of one request,
  purpose and outcome share a key.
- Ledger.UsageLedger.ReconcilePendingCosts: attempts, back-off and the candidate limit are not modelled; the batch is the
  oldest candidates.
- Compaction.Conversation.CompactChat: whether requests fit and what summaries say is given from outside; that a failing
  floor makes compaction hopeless is not claimed, because a new summary may be shorter.
- Prompt wording, HTTP client, sign-in, routing, administration, backup, migrations and the user interface.
