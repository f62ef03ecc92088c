# SoloScale verification project

A Dafny model of the parts of SoloScale that decide something: which evidence a model is shown, what is kept of a
conversation, what a catalog and a case store remember, and which steps a task may take. Each algorithm that works step by
step is a method with its loop or a class with its fields; a function says what the method computes; lemmas say what that
function means. Automatic induction is off throughout, so every induction is in the proof text.

`dafny verify dfyconfig.toml` checks the whole project.

## The five areas

**Evidence context and retrieval** (`Spans`, `FocusMatches`, `FocusWindows`, `ExcerptShape`, `JsonRecords`,
`JsonStrings`, `ContextPacking`, `BlockChoice`, `ContextBuilder`, `PackedRecords`, `AsciiExcerpts`, `BoundWitness`,
`Queries`, `QueryWords`, `Retrieval`, `HitMerging`, `Neighbors`, `NeighborOrder`, `RetrievalLoop`, `HitBudget`,
`EvidenceContext`, on `Utf8` and `Text`). Excerpts are cut to byte bounds by windows around matches; records are packed
into a JSON list within a byte budget; a retrieval loop divides one hit budget over rounds and queries. Proved for all
inputs: every branch of the focused truncation keeps its bound and shows pieces of the text in order, and an excerpt
with matches is exactly the centred ranges that use up the bound, fused in order; a packed context holds the required
block whole or not at all, each primary followed by its answers, stays within every budget of at least 2, and leaves
out no further chunk of which anything would fit; every run of the loop, whatever the knowledge store and the reasoner
answer, satisfies one invariant, and a store that has enough fills the budget evenly and to the last hit; and from the
proposed queries to the final context, every context on the way shows only retrieved chunks and their neighbours, each
by a part of its own excerpt, and of the retrieved chunks all or none.

**Conversation intake** (`Segmentation`, `MessageGraph`, `MessagePaths`, `ArtifactFraming`). Segmentation never fails on a
text and loses no character but whitespace; the stack traversal of any node map, with cycles and dangling links, emits each
node once, and parents first when the links agree; the parent path is exactly the set of ancestors; the bytes fed to the
artifact hash determine the artifacts.

**The EvidenceHub catalog** (`HubCatalog`, `HubRuns`, `HubHistory`, `HubSnapshots`, `HubDigest`, `HubLaws`,
`EvidenceHub`). The tables are fields of a class whose transactions can raise in any statement after any number of rows.
Over every sequence of calls: records, frozen copies, lineage rows and receipts are never changed or removed; outcome
evidence is asset evidence, bundle evidence and frozen; a registered bundle resolves to the identical items for ever;
evidence is found exactly if it was ever committed, in its last version while it is in the snapshot and in its first
version afterwards; receipts are numbered without gaps and the stored hash is that of the current snapshot. All of this
holds for any hash functions. Two stored hashes agree exactly if the snapshots hold the same records apart from capture
times, unless the hash collides; what is accepted, counted and identified is stated record by record.

**The Casebook** (`Mastery`, `AttemptLog`, `CaseArchive`, `CaseStore`, `CaseHistory`, `CaseFailures`, `CaseIntegrity`,
`CaseLaws`, `CasebookStore`). Attempts are appended to a log under short and failing writes; receipts are archived under
content-derived names, reused and undone. Over every history of successful and failed calls: a case log is exactly the
attempts committed to it if and only if no append to this case failed to roll back; a case is sound at all times (its log
whole, through the practice gate, every receipt verifying) if and only if no call damaged it; a call that raises changes
nothing if and only if it leaves no trace; nothing archived is overwritten. The passed stages are a prefix exactly while
no attempt reopens a stage below a passed one. Checking a case, in any state of its files, reports exactly the receipts
whose file is missing or has other bytes.

**Run log and X thread** (`JsonLines`, `RunLog`, `TaskLiveness`, `Orchestration`, `XThread`, `ThreadMarkers`). Whatever
callers do, a task's persisted transitions are a walk from NEW in the transition table, a task that was accepted or
closed ran under an explicit approval, and every task that is not failed can still be closed. A printed thread parses
back to its posts if and only if their markers are right.

## What the code promises less than it seems to

- `read_attempts` splits the log with `str.splitlines`, which also splits at U+0085, U+2028 and U+2029. The JSON
  serializer writes these characters as they are, so an attempt can be committed and make its log unreadable; every later
  call that reads the attempts raises (`UnreadableCaseIsFrozen`). The input: a needs-work note `"a\u2028b"` on any
  readable case (`SeparatorNoteClosesCase`). The exact condition, which a caller can check: after a commit the case stays
  readable if and only if neither the stripped note nor the path of the receipt contains one of the three characters
  (`CommitStaysReadable`). The run log, which iterates over file lines, does not have this problem (`FileReadsBack`).
- `_append_attempt` is all or nothing exactly when its own rollback does not fail (`AppendIsAtomic`). A torn append, one
  whose rollback fails, leaves the attempt readable if at most its newline is missing, and else an unreadable log
  (`TornReadsBack`). If the whole record stays, every receipt still verifies unless the receipt file was new and is
  removed (`TornReceipts`). The input: the sync and then the truncation fail; on any sound case the attempt stays in the
  log while `record_attempt` raises and removes its receipt file (`FailedRollbackLosesReceipt`). The exact condition over
  whole histories: a case is sound at all times if and only if no call left a part of a record in its log, or a whole
  record without its receipt file (`AlwaysSoundIffNeverDamaged`); its log is exactly what was committed to it if and only
  if no rollback on that case failed (`LogIsCommittedIffNeverTorn`). Other cases do not matter.
- A call that raises does not always leave the case alone. The exact condition: nothing changes if and only if no append
  was torn and no new receipt file stays behind because its removal failed or its record was rejected
  (`RaisingCallKeepsCases`). The record is built after the file is archived, outside the block that undoes it, and rejects
  a path without text. The input: a source file named `" "` (`BlankPathLeavesFile`).
- A context budget of 1 cannot hold the empty list, which takes two bytes: `BuildContext` is within its budget exactly
  when the budget is at least 2.
- The outer search of `_build_context` is a binary search over a predicate that is not monotone. The input: one required
  hit whose excerpt is 13 double quotes followed by 20 letters, with room for 18 bytes of escaped excerpt and an excerpt
  budget of 14. The search tests 7, 11, 9 and 10 and settles for 9, although 14 fits and 13 does not
  (`SearchMissesLargestBound`). The exact condition: the bound found is the largest that fits if and only if no tested
  bound fails while a larger one in the range fits (`LargestIffNotMisled`), so always where fitting is monotone
  (`MonotoneFindsLargest`), as it is when every required excerpt is ASCII, needs no JSON escape and has no focus match
  (`PlainFindsLargest`).
- The context around a match can be cut although the bound has room for it. A range that clipping moved to the left can
  start before the range of an earlier match; the code then keeps the earlier start. The input: an ASCII text of 100
  characters with matches at 85 to 86 and 90 to 100 and a bound of 60; the ranges are 74 to 97 and 68 to 100, and the
  excerpt is 74 to 100 (`RangeCut`). The exact condition: the excerpt shows all of every range if and only if no range
  reaches back before the start of an earlier one (`RangesShownIff`). Matches are whole in any case, and one match alone
  fills the bound (`OneMatchFillsBound`).
- A later needs-work attempt revokes an earlier pass, so the passed stages can have a gap (`RevokedPassLeavesGap`).
  Exactly the attempts that reopen a stage while a later one is passed leave one (`PrefixStep`); the passed stages are a
  prefix at all times if and only if there is no such attempt (`AlwaysPrefixIffNoGap`), and at the end if and only if
  every gap was closed again (`PrefixIffGapsClosed`).
- The lineage archive keeps the first version of an evidence id (`FirstVersionIsArchived`), so `get_evidence` returns the
  last committed version while the id is in the snapshot, and the first one once it left (`FoundVersion`). The exact
  condition: the latest version is found if and only if the id is in the snapshot, or its first and last versions are
  equal (`LatestFoundIffCurrent`). The input: one source is synced with two versions of an item in turn and then without
  it; the older version is found (`OldVersionFound`).

## Assumptions

Hashes, `_stable_id`, case folding, Unicode decomposition, the knowledge store, the reasoner, generated ids and clocks are
parameters and may be any functions, except that a digest, a receipt id and a time have the form the code generates
(`Digest`, `ReceiptId`, `Timestamp`). Two things are assumed of them, each as a visible precondition. A record that passes
the validators of its model reads back, contains no raw control character, has no whitespace at its ends and no proper
prefix that is a record, and an attempt's record contains one of the three line separators exactly if its note or receipt
path does (`GoodTools`, `GoodEvents`); of other records, which the reader rejects, nothing is assumed. And the source
record found with an item that left the snapshot has the item's source id if the lineage ids of the sources that the calls
committed do not confuse two source ids (`Separates`, in `LineageNamesOwnSource` only). No theorem assumes that a hash is
injective; those that say what equal hashes or ids mean name the collision that would break them (`Collides`,
`IdsCollide`).

## Model

| member | source | states |
|---|---|---|
| Utf8.DecodeEncode | src/soloscale/conversation_intake.py:461 | decoding strictly what was encoded gives the text back |
| Utf8.CutDecodes | src/soloscale/casebook_store.py:303-307 | strict decoding of a text cut at a byte gives the characters before the cut, and raises exactly inside a character |
| Utf8.SliceDecodes | src/soloscale/evidence_agent.py:1206-1210 | decoding any byte range of a text with errors ignored gives exactly the whole characters inside it |
| Utf8.BoundarySliceDecodes | src/soloscale/conversation_intake.py:461 | between two character boundaries strict decoding succeeds and gives the characters between them |
| Utf8.BoundaryIsOffset | src/soloscale/conversation_intake.py:457 | the continuation-byte test finds exactly the byte offsets of characters |
| Utf8.NoFourContinuations | src/soloscale/conversation_intake.py:457 | of four adjacent bytes one starts a character |
| Utf8.TruncateIsLongestPrefix | src/soloscale/evidence_agent.py:1206-1210 | truncation keeps the longest prefix of the text within the byte bound |
| Text.StripIsTrimmed | src/soloscale/conversation_intake.py:447-449 | a stripped text has no whitespace at its ends, and is empty exactly for blank texts |
| Text.StripRemovesEnds | src/soloscale/conversation_intake.py:447-449 | stripping removes whitespace at the two ends and nothing else |
| Spans.MergeSpans | src/soloscale/evidence_agent.py:1324-1332 | the merge loop computes the fold that the lemmas below describe |
| Spans.MergedIsSeparatedCover | src/soloscale/evidence_agent.py:1324-1332 | merging covers exactly the same positions, with strictly separated spans |
| Spans.SeparatedSpansAreCanonical | src/soloscale/evidence_agent.py:1324-1332 | strictly separated spans are determined by the positions they cover |
| Spans.MergeIgnoresOrder | src/soloscale/evidence_agent.py:1324-1332 | the result does not depend on the order of the input, and merging twice changes nothing |
| Spans.WellFormedIsSeparated | src/soloscale/evidence_agent.py:1324-1332 | the recursive and the quantified notion of separated spans agree |
| Spans.DistributedIndicesIncrease | src/soloscale/evidence_agent.py:1335-1344 | the selected indices strictly increase whenever 2 <= count <= number of spans |
| Spans.DistributedEnds | src/soloscale/evidence_agent.py:1335-1344 | with two or more selected, the first and the last span are among them |
| Spans.DistributedIndexIsEven | src/soloscale/evidence_agent.py:1335-1344 | the selected index is the i-th of count points spread evenly over the list, rounded down, and a single one is the middle |
| Spans.DistributedIsSeparated | src/soloscale/evidence_agent.py:1335-1344 | a selection of separated spans is separated and drawn from them |
| FocusMatches.OriginIsIndexMap | src/soloscale/evidence_agent.py:1311-1321 | the index map of the folded text is monotone, in range and as long as the folded text |
| FocusMatches.FoldedFocusText | src/soloscale/evidence_agent.py:1311-1321 | the nested folding loop computes text and index map |
| FocusMatches.DropCombiningKeeps | src/soloscale/evidence_agent.py:1311-1321 | of a decomposition exactly the characters that do not combine are kept, in order |
| FocusMatches.CharacterIsFolded | src/soloscale/evidence_agent.py:1311-1321 | the folded text holds what each character leaves, in turn, and exactly those positions carry its index |
| FocusMatches.MatchTerm | src/soloscale/evidence_agent.py:1260-1268 | one term adds only true, non-empty, in-range matches, up to the cap; below the cap every occurrence starts inside one that is covered from its first to its last character |
| FocusMatches.LoneOccurrenceIsCovered | src/soloscale/evidence_agent.py:1260-1268 | an occurrence that overlaps no earlier one is covered as a whole |
| FocusMatches.RawMatchSpans | src/soloscale/evidence_agent.py:1249-1271 | all terms: only true matches, at most 128; below the cap every occurrence of every term starts inside one that is covered as a whole |
| FocusMatches.FocusMatchSpans | src/soloscale/evidence_agent.py:1249-1271 | the merged spans are separated, cover only matched characters and, below the cap, every occurrence starts inside one that is covered as a whole |
| FocusWindows.SelectedCountIsLargest | src/soloscale/evidence_agent.py:1356-1373 | the number of matches shown is the largest, from min(8, matches) down, that fits |
| FocusWindows.SelectByteSpans | src/soloscale/evidence_agent.py:1356-1373 | the selection loop |
| FocusWindows.WidenMatch | src/soloscale/evidence_agent.py:1383-1393 | the clipping and borrowing arithmetic of one window |
| FocusWindows.WidenUsesAllContext | src/soloscale/evidence_agent.py:1383-1393 | a window contains its match and is exactly as wide as match plus context, or the whole text |
| FocusWindows.PlaceWindows | src/soloscale/evidence_agent.py:1381-1398 | the window loop |
| FocusWindows.WindowsProperties | src/soloscale/evidence_agent.py:1381-1398 | after any number of matches the windows are separated, hold every match whole, and are no wider than matches and context handed out |
| FocusWindows.SharesAreSound | src/soloscale/evidence_agent.py:1375-1398 | quotient and remainder shares: the windows with separators fit the byte bound |
| FocusWindows.WindowShows | src/soloscale/evidence_agent.py:1400-1401 | a decoded window is a contiguous piece of the text no wider than the window |
| FocusWindows.MatchIsShown | src/soloscale/evidence_agent.py:1400-1401 | a match inside a window is inside what the window shows |
| FocusWindows.ShareContext | src/soloscale/evidence_agent.py:1375-1398 | what the matches leave of the bound is shared out as context, and the windows stay sound; which windows these are is stated by ExcerptShape.ExcerptFusesRanges |
| FocusWindows.FocusedShowsMatches | src/soloscale/evidence_agent.py:1347-1401 | when a selection fits: the snippets are ordered disjoint pieces of the text, joined within the bound, and every selected match is whole in one of them |
| ExcerptShape.RequiredIsJoinedSize | src/soloscale/evidence_agent.py:1365-1368 | a selection is charged exactly the bytes of its matched pieces joined |
| ExcerptShape.WidenIsCentred | src/soloscale/evidence_agent.py:1383-1393 | clipping and borrowing give the range of match plus context that is centred on the match, moved as little as needed to lie in the text |
| ExcerptShape.ExcerptFusesRanges | src/soloscale/evidence_agent.py:1347-1401 | the excerpt with matches: with n matches selected and the rest of the bound divided evenly among them, the centred ranges of width min(text, match + share), fused in order and joined, each selected match whole |
| ExcerptShape.RangesShownIff | src/soloscale/evidence_agent.py:1381-1398 | nothing outside the ranges is shown, and all of every range is shown if and only if no range reaches back before the start of an earlier one |
| ExcerptShape.FusedKeepsIff | src/soloscale/evidence_agent.py:1394-1398 | the fusing step keeps every position of every range if and only if no range reaches back |
| ExcerptShape.RangeCut | src/soloscale/evidence_agent.py:1381-1398 | the counterexample: two matches near the end of a text, and six bytes of a range are lost though the bound has room |
| ExcerptShape.OneMatchFillsBound | src/soloscale/evidence_agent.py:1375-1401 | one match that fits is shown in a window of exactly the bound, centred on it as far as the text allows |
| ExcerptShape.AsciiOneMatch | src/soloscale/evidence_agent.py:1375-1401 | in an ASCII text that window is the excerpt, character by character |
| ExcerptShape.MatchInItsContext | src/soloscale/evidence_agent.py:1375-1401 | of 1000 ASCII characters with a match at 500 to 505 a bound of 200 shows exactly 403 to 603 |
| ExcerptShape.NoMatchFits | src/soloscale/evidence_agent.py:1371-1373 | if no selection fits, the excerpt is the longest prefix within the bound of the text from the middle match on |
| FocusWindows.FocusedFits | src/soloscale/evidence_agent.py:1347-1401 | the focused excerpt keeps the bound and the order of the text for every text, spans and bound |
| FocusWindows.FitFocusedWindows | src/soloscale/evidence_agent.py:1347-1401 | the whole function, whose value is described by ExcerptShape.ExcerptFusesRanges and ExcerptShape.NoMatchFits |
| FocusWindows.ThreePartsFit | src/soloscale/evidence_agent.py:1236-1246 | head, middle and tail with two separators keep the bound and the order |
| FocusWindows.PartsAreSeparated | src/soloscale/evidence_agent.py:1236-1246 | the head, middle and tail ranges do not touch |
| FocusWindows.HeadMiddleTailOf | src/soloscale/evidence_agent.py:1236-1246 | the loop and arithmetic of the three parts |
| ExcerptShape.ThreePartsShow | src/soloscale/evidence_agent.py:1236-1246 | without a match: the longest prefix within a third of the bound, a middle piece from the first character at or after the centred position, and the longest suffix within the rest |
| FocusWindows.FocusedTruncateUtf8 | src/soloscale/evidence_agent.py:1213-1246 | the whole function, whose value is described by the excerpt lemmas here and in ExcerptShape |
| FocusWindows.FocusedTruncateIsBoundedElision | src/soloscale/evidence_agent.py:1213-1246 | every branch keeps the byte bound and shows pieces of the text in order; the text is kept whole exactly when it fits |
| JsonRecords.JsonSizeSnoc | src/soloscale/evidence_agent.py:1614-1619 | brackets, commas and record texts add up to the size of the JSON list |
| JsonStrings.EscapedReadsBack | src/soloscale/evidence_agent.py:1614-1615 | an escaped excerpt and a closing quote read back as the excerpt, whatever follows: no character of it ends or breaks the JSON string (RFC 8259, section 7) |
| JsonStrings.EscapeWidth | src/soloscale/evidence_agent.py:1614-1615 | only quotes, backslashes and control characters are escaped, by two characters where JSON has a short form and by six otherwise |
| JsonStrings.ContextIsList | src/soloscale/evidence_agent.py:1614-1615 | the packed text is a bracketed list of its records, comma by comma, each excerpt escaped between the two halves of its record |
| JsonRecords.LongerExcerptIsBigger | src/soloscale/evidence_agent.py:1404-1425 | a longer excerpt prefix makes a strictly larger record |
| JsonRecords.ShorterFits | src/soloscale/evidence_agent.py:1404-1425 | the fit test is monotone in the prefix length |
| JsonRecords.LongestFitIsLargest | src/soloscale/evidence_agent.py:1404-1425 | a prefix fits exactly when it is no longer than the longest fit |
| JsonRecords.FittedIsMaximal | src/soloscale/evidence_agent.py:1404-1425 | the longest non-empty prefix that fits is kept; nothing is returned exactly when none fits |
| JsonRecords.FitContextRecord | src/soloscale/evidence_agent.py:1404-1425 | the binary search finds it |
| ContextPacking.NeighborsAreFresh | src/soloscale/evidence_agent.py:825-843 | at most three neighbours are chosen, all listed, distinct and not chosen before; which ones is stated by BlockChoice.NeighborsAreChoice |
| BlockChoice.NeighborsAreChoice | src/soloscale/evidence_agent.py:825-843 | of the listed, known and untaken neighbours of a primary, by list position: the first three of the answering role; if there is none, the first; nothing exactly if there are none |
| BlockChoice.RequiredBlockIsGroups | src/soloscale/evidence_agent.py:820-845 | the required block is the primaries in the order of the hits, each followed by its choice among what no earlier primary took |
| BlockChoice.AnswerIsChosen | src/soloscale/evidence_agent.py:825-843 | a user chunk is followed by its answer although another user chunk is listed first |
| ContextPacking.RequiredBlockIsDistinct | src/soloscale/evidence_agent.py:820-845 | with expansion lists that repeat no chunk and name no primary, the required block repeats no chunk |
| ContextPacking.RequiredBlockHolds | src/soloscale/evidence_agent.py:820-845 | whatever the expansion lists, the required block invents no chunk and holds every primary |
| ContextBuilder.FitRequiredIsWholeBlock | src/soloscale/evidence_agent.py:863-883 | testing record by record accepts exactly the blocks that show every excerpt whole and fit as a whole |
| ContextBuilder.FitRequiredRecords | src/soloscale/evidence_agent.py:863-883 | the test loop |
| ContextBuilder.SearchBound | src/soloscale/evidence_agent.py:897-906 | the outer search returns the block at the bound that the halving ends with; that bound fits or is 0, and the next bound fails or exceeds the budget |
| ContextBuilder.LargestIffNotMisled | src/soloscale/evidence_agent.py:897-906 | the bound found is the largest that fits if and only if the search never tests a failing bound below a fitting one |
| ContextBuilder.MonotoneFindsLargest | src/soloscale/evidence_agent.py:897-906 | where every bound below a fitting one fits, the bound found is the largest that fits |
| AsciiExcerpts.PlainFindsLargest | src/soloscale/evidence_agent.py:863-906 | when every required excerpt is ASCII without JSON escapes and focus matches, the search finds the largest bound that fits |
| AsciiExcerpts.AsciiCutSize | src/soloscale/evidence_agent.py:1213-1246 | without a match a cut of an ASCII text takes exactly its bound, or the whole text |
| BoundWitness.SearchMissesLargestBound | src/soloscale/evidence_agent.py:863-906 | the counterexample, for any metadata: 13 quotes and 20 letters, excerpt budget 14: the search returns 9 although 14 fits |
| BoundWitness.CutOfParts | src/soloscale/evidence_agent.py:1213-1246 | the excerpt that bound 14 makes of it, computed byte by byte |
| ContextBuilder.ChooseProfile | src/soloscale/evidence_agent.py:887-896 | the first profile that fits at the minimum bound, else the leanest |
| PackedRecords.ProfileIsFirstFit | src/soloscale/evidence_agent.py:887-896 | that profile fits at the minimum bound or is the last of four, and no earlier one fits |
| PackedRecords.RequiredRecordsAre | src/soloscale/evidence_agent.py:863-883 | each required record is its hit under the chosen profile with its excerpt cut at the common bound |
| ContextBuilder.FitOptionalIsFitted | src/soloscale/evidence_agent.py:1428-1459 | an optional record is a maximal fitted prefix under some profile, and is dropped only when no profile lets any of it in |
| ContextBuilder.FitOptionalRecord | src/soloscale/evidence_agent.py:1428-1459 | the profile loop |
| PackedRecords.OptionalProfile | src/soloscale/evidence_agent.py:1428-1459 | an optional hit is shown under the first profile that leaves 96 bytes or the whole excerpt, else under the last one under which anything fits |
| ContextBuilder.WithOptionalIsNew | src/soloscale/evidence_agent.py:910-927 | optional records follow the block, one for a hit at most, none of them required |
| ContextBuilder.WithOptionalFits | src/soloscale/evidence_agent.py:910-927 | optional records keep the byte budget |
| PackedRecords.LeftOutFitsNowhere | src/soloscale/evidence_agent.py:910-927 | a hit that is neither required nor shown is one of which no non-empty prefix, under any profile, fits with the final records |
| PackedRecords.OptionalInOrder | src/soloscale/evidence_agent.py:910-927 | optional records come in the order of their hits |
| PackedRecords.PackedRecordsShowHits | src/soloscale/evidence_agent.py:812-928 | every record shows one of the hits, with its own metadata and a part of its own excerpt cut around its own matches |
| ContextBuilder.PackedContextIsSound | src/soloscale/evidence_agent.py:812-928 | chunk ids drawn from the hits, and distinct if those of the required block are; the required block whole, in order and cut at one bound, or absent; within the budget exactly when the budget is at least 2 |
| ContextBuilder.BuildContext | src/soloscale/evidence_agent.py:812-928 | the whole packing satisfies all of this for every hit list, neighbour map and budget, around the required block that BlockChoice.RequiredBlockIsGroups describes; no chunk twice when no expansion list repeats one |
| Neighbors.ExpandContextHits | src/soloscale/evidence_agent.py:751-786 | the expansion, with its two errors, for every order, hits and store |
| Neighbors.AddNeighborHits | src/soloscale/evidence_agent.py:767-785 | the loop over the neighbours of one primary |
| Neighbors.ExpandLists | src/soloscale/evidence_agent.py:751-786 | an expansion lists the retrieved chunks and their neighbours, each once, and nothing else; the list of a primary is the store's answer without the primaries |
| Neighbors.ListsRepeatIffAnswersDo | src/soloscale/evidence_agent.py:751-786 | no list names a primary, and no list repeats an id exactly if no answer repeats one that is not a primary |
| NeighborOrder.ExpansionOrder | src/soloscale/evidence_agent.py:751-786 | each retrieved chunk is followed by its neighbours in the order of the answers, leaving out what is listed already; primaries are listed as retrieved, others as answered |
| NeighborOrder.SucceedsIffAgreed | src/soloscale/evidence_agent.py:751-786 | an expansion succeeds if and only if every answer comes and all records agree on every chunk's identity |
| Queries.NormalizeQueries | src/soloscale/evidence_agent.py:1033-1051 | the loop keeps the first usable queries up to the limit, and reports clipping exactly when there were more |
| Queries.UsableAreNew | src/soloscale/evidence_agent.py:1033-1051 | usable queries are non-empty, pairwise different up to case folding, and none was excluded |
| Queries.UsableIsComplete | src/soloscale/evidence_agent.py:1033-1051 | every non-blank query is represented, up to case folding, by an excluded or a usable one |
| QueryWords.SqueezeKeepsWords | src/soloscale/evidence_agent.py:1041-1044 | a normalised query is the words of the query in their order, with one space between neighbours and none at the ends |
| QueryWords.UsableInOrder | src/soloscale/evidence_agent.py:1041-1050 | the usable queries are normalised queries in their order; each one passed over is empty, excluded or a repetition of an earlier one |
| Retrieval.TakeSearchResults | src/soloscale/evidence_agent.py:494-522 | the loop over one search result |
| Retrieval.TakeHitsAppends | src/soloscale/evidence_agent.py:494-522 | a search appends at most its limit of new ids, all from its results, and keeps everything known |
| Retrieval.UnfilledHoldsAll | src/soloscale/evidence_agent.py:494-522 | while the limit is not reached every result seen is a retrieved chunk |
| Retrieval.EnoughResultsFillLimit | src/soloscale/evidence_agent.py:485-522 | pigeonhole: as many distinct results as known chunks plus the limit always fill the limit |
| HitMerging.TakenHit | src/soloscale/evidence_agent.py:494-522 | below the limit a known chunk with the same identity is merged in place, one with another identity raises, a new one is stored as it is |
| HitMerging.MergesInto | src/soloscale/evidence_agent.py:502-514 | the merged record keeps the higher score, the channels of both in order of first appearance, and the metadata of both |
| HitMerging.MergedText | src/soloscale/evidence_agent.py:1083-1089 | merged metadata is the one stripped text there is, or both, the earlier first |
| HitMerging.DedupKeepsFirsts | src/soloscale/evidence_agent.py:1083-1089 | deduplication keeps the first of each kind, in order |
| HitMerging.FocusCountsResults | src/soloscale/evidence_agent.py:502-521 | each result taken in adds the query to the queries of its chunk, behind the earlier ones |
| HitMerging.AgreeingNeverClashes | src/soloscale/evidence_agent.py:498-501 | if all records agree on every chunk's identity, no search raises |
| Retrieval.ShareIsWithin | src/soloscale/evidence_agent.py:472-484 | a ceiling share of a positive amount is positive and within it; that it is the least covering share is stated by HitBudget.CeilDivIsLeast |
| Retrieval.ShareLeavesOneEach | src/soloscale/evidence_agent.py:472-484 | a ceiling share leaves one unit for each of the others if there was one for everyone |
| HitBudget.CeilDivIsLeast | src/soloscale/evidence_agent.py:472-484 | a share covers the amount exactly if it is at least the ceiling share |
| HitBudget.FullRoundIsEven | src/soloscale/evidence_agent.py:470-532 | if every search of a round returns as many distinct chunks as asked for, the round spends its budget to the last hit: with n queries and b hits left, query i accepts b / n, and one more if i < b % n |
| HitBudget.RunIsEven | src/soloscale/evidence_agent.py:467-591 | over runs: under the same condition each round accepts its even part of the free hits, and a run that reaches its last round ends with exactly `max_hits` chunks |
| HitBudget.RetrievalIsEven | src/soloscale/evidence_agent.py:441-601 | the same from the proposed queries to the answer |
| HitBudget.RunEndsForAReason | src/soloscale/evidence_agent.py:557-591 | a run that ends before its last round with hits to spare was ended by the reasoner, and no round follows one that the reasoner called the last |
| HitBudget.OneQueryTakesAll | src/soloscale/evidence_agent.py:467-532 | one round with one query takes the first `max_hits` chunks of a store that has as many |
| HitBudget.SearchIsLogged | src/soloscale/evidence_agent.py:485-532 | the step log says of a search how many chunks it asked for and which ids came back, up to the hit budget |
| RetrievalLoop.SearchedIsGood | src/soloscale/evidence_agent.py:475-532 | one search keeps the run invariant: budget, distinct ids, step shares, queries new up to case folding |
| RetrievalLoop.RunQuery | src/soloscale/evidence_agent.py:475-532 | the body of the query loop; its cap on the search limit never bites |
| RetrievalLoop.SearchedFromIsGood | src/soloscale/evidence_agent.py:470-532 | the query loop keeps the invariant and its goal, and runs every query when there is a hit to spare for each |
| RetrievalLoop.RoundIsGood | src/soloscale/evidence_agent.py:467-532 | a round stays within its ceiling share, and one hit is left for each later round when there was one for every round; that the share is spent is stated by HitBudget.FullRoundIsEven |
| RetrievalLoop.RunRound | src/soloscale/evidence_agent.py:467-532 | one round, whose value is described by RetrievalLoop.RoundIsGood and HitBudget.FullRoundIsEven |
| RetrievalLoop.RetrievedFromIsGood | src/soloscale/evidence_agent.py:467-591 | the remaining rounds keep the invariant and search at most the configured number of queries each |
| RetrievalLoop.RetrievalIsGood | src/soloscale/evidence_agent.py:467-593 | for every store and reasoner a completed run keeps the hit budget, its accepted ids concatenated are the retrieved ids in order without repeats, and its expansion lists exactly them and their neighbours |
| EvidenceContext.RetrieveContext | src/soloscale/evidence_agent.py:441-601 | the part of `run` from the proposed queries to the context of the draft, with each exit: no usable query, and a failing or ambiguous search, expansion or coverage decision; the context of each coverage decision and the last one are sound: within the byte budget, only retrieved chunks and their neighbours, of the retrieved chunks all or none, and no chunk twice unless a store answer repeats one |
| EvidenceContext.RunRounds | src/soloscale/evidence_agent.py:467-591 | the loop over the rounds, each with its searches, expansion, packed context and coverage decision |
| EvidenceContext.PackableIffNoRepeats | src/soloscale/evidence_agent.py:593-601 | the expansion of a run meets what packing needs if and only if no answer of the store repeats an id that is not a primary |
| EvidenceContext.PackContext | src/soloscale/evidence_agent.py:534-541 | packing what an expansion lists gives a sound context, for every store: within its budget, of the retrieved chunks all or none, and each record showing its chunk as listed, by a part of its own excerpt cut around the matches of its own queries |
| RetrievalLoop.AskedIsGood | src/soloscale/evidence_agent.py:534-556 | every coverage decision is asked for about a run that satisfies the invariant and whose expansion did not raise |
| Segmentation.WindowGeometry | src/soloscale/conversation_intake.py:456-469 | window edges are character boundaries; at most 1200 bytes; the next start advances by at least 997 and overlaps by at least 197 |
| Segmentation.WindowsChain | src/soloscale/conversation_intake.py:454-469 | the loop never fails on a text, and its windows form a chain |
| Segmentation.ChainLength | src/soloscale/conversation_intake.py:454-469 | more than one window: 997 bytes for each but the first, short of the last 198 bytes |
| Segmentation.ChainCovers | src/soloscale/conversation_intake.py:454-469 | every byte lies in some window |
| Segmentation.ChainSegments | src/soloscale/conversation_intake.py:454-469 | each segment is a short piece of the text, and every non-whitespace character lies in some segment |
| Segmentation.SegmentEncoded | src/soloscale/conversation_intake.py:453-469 | the main loop appends exactly the stripped non-empty windows |
| Segmentation.TextSegments | src/soloscale/conversation_intake.py:444-470 | the whole function: never raises, at most 1 + (n - 198) / 997 windows for n bytes over the limit |
| MessageGraph.Visit | src/soloscale/conversation_intake.py:689-705 | the stack loop emits the recursive preorder |
| MessageGraph.PreorderConcat | src/soloscale/conversation_intake.py:689-705 | visiting two lists in turn is visiting the first, then the second with what the first saw |
| MessageGraph.PreorderIsComplete | src/soloscale/conversation_intake.py:689-705 | no repeats, everything listed is emitted, and the result is closed under child links |
| MessageGraph.SortedIdsInKeyOrder | src/soloscale/conversation_intake.py:701-705 | children and start nodes are taken in timestamp, then id order |
| MessageGraph.OrderedNodes | src/soloscale/conversation_intake.py:685-718 | the whole function |
| MessageGraph.EveryNodeOnce | src/soloscale/conversation_intake.py:685-718 | every node is emitted exactly once, whatever cycles, shared children and dangling links there are |
| MessageGraph.PreorderParentsFirst | src/soloscale/conversation_intake.py:685-718 | with agreeing links a visit keeps parents before children |
| MessageGraph.ParentsComeFirst | src/soloscale/conversation_intake.py:685-718 | with agreeing, acyclic links every parent precedes its children |
| MessagePaths.CurrentPath | src/soloscale/conversation_intake.py:766-783 | the loop collects the climbed ids, or nothing when the start is unknown |
| MessagePaths.PathIsAncestors | src/soloscale/conversation_intake.py:766-783 | the path is exactly the set of ancestors inside the map, cycles or not |
| MessagePaths.ClimbIsBranch | src/soloscale/conversation_intake.py:766-783 | without cycles the climb is the whole branch up to a root |
| MessagePaths.FilteredBranch | src/soloscale/conversation_intake.py:871-873 | in any parents-first order the branch comes out from the root down |
| MessagePaths.ActiveBranchInOrder | src/soloscale/conversation_intake.py:866-873 | filtering the linearised nodes to the current path yields the active branch in root-to-leaf order |
| MessagePaths.CycleHoldsNothing | src/soloscale/conversation_intake.py:906-917 | a repeated entry of a parent chain means that nothing projected is ever met |
| MessagePaths.ProjectedParent | src/soloscale/conversation_intake.py:903-917 | the recorded parent is the first projected node of the parent chain, and absent exactly when the chain holds none |
| ArtifactFraming.CombinedArtifactBytes | src/soloscale/conversation_intake.py:1031-1042 | the update loop feeds exactly the framed artifacts |
| ArtifactFraming.ParseFrame | src/soloscale/conversation_intake.py:1031-1042 | the fed bytes parse back to the artifacts in their fixed order |
| ArtifactFraming.FramingIsInjective | src/soloscale/conversation_intake.py:1031-1042 | maps that feed the same bytes agree on every named artifact |
| HubRuns.ApplyExtends | src/soloscale/evidence_hub.py:79-624 | no call changes or removes a bundle, frozen copy, case, asset, outcome, lineage row or receipt |
| HubRuns.RunExtends | src/soloscale/evidence_hub.py:79-624 | nor does any sequence of calls |
| HubRuns.ReceiptKeepsLog | src/soloscale/evidence_hub.py:1044-1063 | the next sequence number keeps the receipt log gap-free, and the stored hash current |
| HubRuns.ArchiveKeepsLineage | src/soloscale/evidence_hub.py:935-966 | archiving keeps each lineage item filed under its own id and next to an archived source |
| HubRuns.ApplyKeepsInv | src/soloscale/evidence_hub.py:79-624 | every call, successful or not, keeps the catalog invariant, for any hashes |
| HubRuns.RunKeepsInv | src/soloscale/evidence_hub.py:79-624 | the invariant holds after every sequence of calls on a new catalog, for any hashes |
| HubHistory.OutcomeEvidenceIsFrozen | src/soloscale/evidence_hub.py:502-624 | over all runs: outcome evidence is in its asset, that in its bundle, and that has a frozen copy |
| HubHistory.RegisteredBundleResolves | src/soloscale/evidence_hub.py:399-408 | a registered bundle resolves, one item for each member, in its order |
| HubHistory.ResolutionIsForever | src/soloscale/evidence_hub.py:399-408 | after any later calls it resolves to the identical record and items |
| HubHistory.NewBundleFreezesCurrentRows | src/soloscale/evidence_hub.py:1211-1229 | registration freezes the rows that are current at that moment |
| HubHistory.FoundIffCommitted | src/soloscale/evidence_hub.py:386-663 | evidence is found, with a source record, exactly if some refresh or sync committed it |
| HubHistory.FoundForever | src/soloscale/evidence_hub.py:386-663 | once found, found in every later state |
| HubHistory.LineageNamesOwnSource | src/soloscale/evidence_hub.py:386-663 | the source record has the item's source id, if the item is current or lineage ids separate the committed sources |
| HubHistory.RunFrom | src/soloscale/evidence_hub.py:935-966 | the archive holds only committed sources, under their lineage ids, and each item names that of a committed source of its own |
| HubHistory.FoundVersion | src/soloscale/evidence_hub.py:386-397 | the version found: the last committed one while the id is in the snapshot, else the first |
| HubHistory.LatestFoundIffCurrent | src/soloscale/evidence_hub.py:386-397 | the latest version is found if and only if the id is in the snapshot or its first and last versions are equal |
| HubHistory.OldVersionFound | src/soloscale/evidence_hub.py:386-397 | the counterexample: two versions synced in turn, then the source without the item: the older version is found |
| HubHistory.FirstVersionIsArchived | src/soloscale/evidence_hub.py:935-966 | the archived version of an id is the one committed first, whatever follows |
| HubHistory.ArchiveIsWhatWasCommitted | src/soloscale/evidence_hub.py:935-966 | the archive holds exactly the ids that were ever committed |
| HubHistory.RegistrationKeepsSnapshot | src/soloscale/evidence_hub.py:340-624 | registering a record leaves snapshot, lineage and receipts alone |
| HubSnapshots.RefreshReplacesSnapshot | src/soloscale/evidence_hub.py:109-124 | after a refresh the snapshot holds exactly the collected rows |
| HubSnapshots.SyncReplacesOneSource | src/soloscale/evidence_hub.py:199-225 | a sync replaces exactly the named source and its items, and leaves all other rows |
| HubSnapshots.EveryRecordCounted | src/soloscale/evidence_hub.py:1004-1035 | created, updated and unchanged add up to the number of records synced |
| HubSnapshots.RefreshAgainIsUnchanged | src/soloscale/evidence_hub.py:1004-1035 | refreshing again with the same facts reports every record unchanged |
| HubSnapshots.CatalogIsConsistent | src/soloscale/evidence_hub.py:79-241 | over all runs: one receipt for each refresh and sync numbered 1 to n, the stored hash equal to the digest of the snapshot after the first success, every item naming a snapshot source; what equal hashes mean is stated by HubDigest.StoredHashNamesRecords |
| HubDigest.DigestsAgreeIff | src/soloscale/evidence_hub.py:1595-1607 | two snapshots have one digest under every hash function if and only if they hold the same ids and, under each id, the same record apart from its capture time |
| HubDigest.DigestIsOfRecords | src/soloscale/evidence_hub.py:1595-1607 | under one hash function: the same records have one digest, and equal digests mean the same records or a collision |
| HubDigest.StoredHashNamesRecords | src/soloscale/evidence_hub.py:79-241 | after any two histories the stored hashes are equal if and only if the snapshots hold the same records, unless the hash collides |
| HubDigest.NewFactsChangeHash | src/soloscale/evidence_hub.py:155-241 | syncing an item again with other facts changes the stored hash, unless it collides |
| HubLaws.CountsAreExact | src/soloscale/evidence_hub.py:1004-1035 | created are exactly the records with an unknown id, unchanged those whose known record says the same, updated the rest |
| HubLaws.RefreshReceiptSays | src/soloscale/evidence_hub.py:79-143 | a refresh that lands adds one receipt, with the stored hash, the numbers of collected rows and the changes |
| HubLaws.SyncReceiptSays | src/soloscale/evidence_hub.py:155-241 | a sync that lands adds one receipt, with the stored hash, the size of the whole snapshot and the changes of its source |
| EvidenceHub.EvidenceHub.ArchiveSources | src/soloscale/evidence_hub.py:947-954 | the insert-or-ignore loop over sources |
| EvidenceHub.EvidenceHub.ArchiveItems | src/soloscale/evidence_hub.py:955-966 | the insert-or-ignore loop over items |
| EvidenceHub.EvidenceHub.InsertItems | src/soloscale/evidence_hub.py:116-123 | a plain insert of unique new keys succeeds and adds exactly the rows |
| EvidenceHub.EvidenceHub.CountChanges | src/soloscale/evidence_hub.py:1004-1035 | the counting loops |
| EvidenceHub.EvidenceHub.Statements | src/soloscale/evidence_hub.py:109-125 | the statements of a snapshot transaction, interrupted anywhere or complete |
| EvidenceHub.EvidenceHub.Transaction | src/soloscale/evidence_hub.py:107-128 | a transaction commits everything, or after a raise in any statement and row leaves the tables as they were |
| EvidenceHub.EvidenceHub.Refresh | src/soloscale/evidence_hub.py:79-143 | refresh is all of the new snapshot with a success receipt and its digest (HubDigest.StoredHashNamesRecords), or only a failure receipt |
| EvidenceHub.EvidenceHub.SyncSource | src/soloscale/evidence_hub.py:155-241 | the same for one source (HubDigest.NewFactsChangeHash) |
| EvidenceHub.EvidenceHub.ArchiveBundle | src/soloscale/evidence_hub.py:1211-1229 | copies are made exactly when every member is current and none is frozen already |
| EvidenceHub.EvidenceHub.RegisterBundle | src/soloscale/evidence_hub.py:340-378 | a new bundle is stored with its copies; a repeated one must carry the same facts; anything else changes nothing |
| EvidenceHub.EvidenceHub.ResolveBundle | src/soloscale/evidence_hub.py:399-408 | the frozen items in order, or an error |
| EvidenceHub.EvidenceHub.RegisterCase | src/soloscale/evidence_hub.py:410-452 | the whole method, with its error cases and those of the record it builds |
| EvidenceHub.EvidenceHub.RegisterAsset | src/soloscale/evidence_hub.py:502-560 | the whole method, with its error cases and those of the record it builds |
| EvidenceHub.EvidenceHub.RegisterOutcome | src/soloscale/evidence_hub.py:568-624 | the whole method, with its error cases and those of the record it builds |
| HubLaws.BundleAcceptedIff | src/soloscale/evidence_hub.py:340-378 | after any calls a bundle is accepted if and only if its id is new and all its members are current, or the bundle registered under its id says the same, which is returned |
| HubLaws.CaseAcceptedIff | src/soloscale/evidence_hub.py:410-452 | a case with a new id is accepted if and only if its bundle is registered, its problem, or the title in its place, and its title have text, all notes do, and the named promotion exists |
| HubLaws.CaseIsFirst | src/soloscale/evidence_hub.py:410-452 | an accepted case is the registered one of its id, or a new one is stored; its evidence is its bundle's, and nothing else changes |
| HubLaws.CaseAgain | src/soloscale/evidence_hub.py:410-452 | a case registered again is accepted if and only if it says the same in everything but its time, and then changes nothing |
| HubLaws.AssetAgain | src/soloscale/evidence_hub.py:502-560 | the same of assets |
| HubLaws.OutcomeAgain | src/soloscale/evidence_hub.py:568-624 | the same of outcomes |
| HubLaws.AssetAcceptedIff | src/soloscale/evidence_hub.py:502-560 | a well-formed asset whose evidence is found is accepted if and only if storing it keeps the asset invariant |
| HubLaws.OutcomeAcceptedIff | src/soloscale/evidence_hub.py:568-624 | a well-formed outcome whose evidence is found is accepted if and only if storing it keeps the outcome invariant |
| HubLaws.CaseIdsTell | src/soloscale/evidence_hub.py:435 | two cases have one id if and only if they have one bundle and problem, unless ids collide |
| HubLaws.LineageIdsTell | src/soloscale/evidence_hub.py:941-946 | two sources have one lineage id if and only if they have one source id and content, unless ids collide |
| HubLaws.AssetIdsTell | src/soloscale/evidence_hub.py:535-544 | what an asset id stands for, in the same sense |
| HubLaws.OutcomeIdsTell | src/soloscale/evidence_hub.py:599-608 | what an outcome id stands for, in the same sense |
| Mastery.StageResults | src/soloscale/casebook_store.py:125-133 | the fold keeps the last outcome of each stage; a foreign attempt raises |
| Mastery.DeriveMastery | src/soloscale/casebook_models.py:149-183 | derived mastery satisfies every validator of the snapshot model, for every attempt log |
| CaseLaws.LatestIsLast | src/soloscale/casebook_store.py:125-133 | the result of a stage is the outcome of the last attempt at it |
| CaseLaws.MasteryMeans | src/soloscale/casebook_models.py:149-183 | ready means that every stage's last attempt passed, captured that there is none, next is the first stage whose last attempt did not pass |
| Mastery.PassedMembers | src/soloscale/casebook_models.py:151-157 | the passed stages are exactly the stages whose result is a pass |
| Mastery.NextIsFirstOpen | src/soloscale/casebook_models.py:159-168 | the next stage is the first one not passed |
| Mastery.MissingPrerequisites | src/soloscale/casebook_store.py:331-340 | lists exactly the earlier stages not passed, in stage order |
| Mastery.PassesComeInStageOrder | src/soloscale/casebook_store.py:325-340 | in every gated log a pass is preceded by a pass of every earlier stage |
| Mastery.ReadyNeedsEveryStage | src/soloscale/casebook_store.py:135-146 | a passed last stage needs a pass of every stage |
| CaseLaws.PassAcceptedIff | src/soloscale/casebook_store.py:325-340 | a pass is accepted if and only if every earlier stage is passed |
| CaseLaws.FivePassesMakeReady | src/soloscale/casebook_store.py:125-146 | whatever was attempted before, passing the stages in turn is always accepted and passes them all |
| Mastery.PrefixStep | src/soloscale/casebook_store.py:325-340 | an accepted attempt keeps the passed stages a prefix if and only if it does not reopen a stage while a later one is passed |
| Mastery.AlwaysPrefixIffNoGap | src/soloscale/casebook_store.py:125-146 | along every gated log the passed stages are a prefix at all times if and only if no attempt reopens a stage below a passed one |
| Mastery.PrefixIffGapsClosed | src/soloscale/casebook_store.py:125-146 | the passed stages of a gated log are a prefix if and only if every gap left on the way was closed again |
| Mastery.PassedIsPrefix | src/soloscale/casebook_store.py:135-146 | in particular, without revoked passes the passed stages are closed under earlier stages |
| Mastery.RevokedPassLeavesGap | src/soloscale/casebook_store.py:125-133 | a later needs-work attempt can leave a gap: a concrete gated log whose passed stages are no prefix |
| AttemptLog.LogFile.WriteAll | src/soloscale/casebook_store.py:509-513 | the write loop under short writes |
| AttemptLog.LogFile.Append | src/soloscale/casebook_store.py:495-530 | the file after an append, for every behaviour of write, sync and truncate |
| AttemptLog.AppendIsAtomic | src/soloscale/casebook_store.py:506-519 | an append is one whole record or nothing exactly when its rollback does not fail |
| AttemptLog.AppendCases | src/soloscale/casebook_store.py:505-519 | a failing append leaves the file as it was, or the record whole or in part, and exactly when |
| CaseLaws.CommitsIff | src/soloscale/casebook_store.py:505-513 | an append commits if and only if its writes take the whole record before one takes nothing, and the sync works |
| AttemptLog.FailedRollbackLeavesRecord | src/soloscale/casebook_store.py:515-519 | a failed rollback can leave a whole record behind a call that raised |
| AttemptLog.ReplayIsCommitted | src/soloscale/casebook_store.py:290-307 | a log of whole valid records reads back as those records exactly if none contains a line boundary, and cannot be read otherwise |
| AttemptLog.SafeIffNoSeparator | src/soloscale/casebook_store.py:303-307 | of the line boundaries a written record can contain only U+0085, U+2028 and U+2029 |
| AttemptLog.ReplayCut | src/soloscale/casebook_store.py:303-307 | a log of whole records and a part of one more reads back with that record if at most its newline is missing, else it cannot be read |
| AttemptLog.LogBytesInjective | src/soloscale/casebook_store.py:498 | the bytes of a log determine its records |
| AttemptLog.ReadAttempts | src/soloscale/casebook_store.py:303-307 | the reading loop |
| CaseArchive.AvailableName | src/soloscale/casebook_store.py:744-750 | the name loop ends at the first free name |
| CaseArchive.FirstFreeIsFirst | src/soloscale/casebook_store.py:744-750 | every name tried before it is in use |
| CaseArchive.ArchiveAllIsSound | src/soloscale/casebook_store.py:451-472 | every evidence receipt verifies, holds its source and has a file of its own |
| CaseLaws.EvidenceIsOfSources | src/soloscale/casebook_store.py:451-472 | the i-th evidence receipt has the i-th id and the path, hash and size of the i-th source |
| CaseArchive.ArchiveSources | src/soloscale/casebook_store.py:213-221 | the archive loop |
| CaseArchive.PlacingKeepsReceipts | src/soloscale/casebook_store.py:716-741 | an archived or reused file verifies for its receipt, and no earlier receipt is disturbed |
| CaseLaws.ReusedIff | src/soloscale/casebook_store.py:716-741 | a receipt file is reused if and only if the file of the plain name has the content's hash and size |
| CaseLaws.PlacedTwice | src/soloscale/casebook_store.py:716-741 | the same content placed twice takes one file, unless another file has the plain name of its hash |
| CaseHistory.StoreIsSound | src/soloscale/casebook_store.py:168-437 | over all histories that did not damage the case: its log is exactly the attempts the calls left in it, valid, in order and through the gate, and every receipt verifies |
| CaseHistory.LogIsCommittedIffNeverTorn | src/soloscale/casebook_store.py:309-371 | over all histories and for every serializer: a case log is exactly the records committed to it if and only if no append to this case failed to roll back |
| CaseHistory.BuiltAttemptIsValid | src/soloscale/casebook_store.py:320-366 | what an accepted call builds passes every validator of the attempt model if and only if the receipt's path has text |
| CaseHistory.AttemptsReadBack | src/soloscale/casebook_store.py:290-307 | over all histories that did not damage the case the attempts read back are the logged ones, unless a note or receipt path among them contains a line separator: then none can be read |
| CaseHistory.UnreadableCaseIsFrozen | src/soloscale/casebook_store.py:309-371 | one such attempt closes its case: no later calls commit anything to it or change it |
| CaseHistory.CommitStaysReadable | src/soloscale/casebook_store.py:309-371 | after a commit the case stays readable if and only if neither the stripped note nor the receipt path of the call contains a line separator |
| CaseHistory.SeparatorNoteClosesCase | src/soloscale/casebook_store.py:309-371 | the counterexample: on every readable case a needs-work note with U+2028 inside is committed and makes the case unreadable |
| CaseHistory.AppendKeepsCase | src/soloscale/casebook_store.py:348-371 | one call that reaches the log and does no damage keeps the case sound |
| CaseHistory.ReceiptsSurvive | src/soloscale/casebook_store.py:348-371 | undoing a failed attempt never removes a file that a committed attempt references |
| CaseHistory.MalformedKeepsCase | src/soloscale/casebook_store.py:474-493 | a file left behind by a malformed receipt disturbs no receipt |
| CaseHistory.ApplyGrows | src/soloscale/casebook_store.py:168-371 | no call removes a case, overwrites an archived file or shortens a log |
| CaseHistory.FilesAreForever | src/soloscale/casebook_store.py:168-371 | nor does any sequence of calls |
| CaseFailures.RaisingCallKeepsCases | src/soloscale/casebook_store.py:168-371 | a call that raises leaves every case as it was if and only if its append was not torn and no new receipt file stays behind |
| CaseFailures.BlankPathLeavesFile | src/soloscale/casebook_store.py:348-371 | the counterexample: a receipt source named by one space is archived, the record is rejected, and the file stays |
| CaseFailures.TornReadsBack | src/soloscale/casebook_store.py:303-307 | what a torn append makes of the log: readable with the new attempt if at most the newline is missing and it has no line separator, else unreadable |
| CaseFailures.TornReceipts | src/soloscale/casebook_store.py:350-371 | after a torn append that left the whole record, every receipt verifies if and only if the receipt file was not new or its removal failed |
| CaseFailures.FailedRollbackLosesReceipt | src/soloscale/casebook_store.py:350-371 | the counterexample: if sync and truncation both fail, on any sound case the call raises while its attempt stays in the log and its new receipt file is gone |
| CaseFailures.SoundStep | src/soloscale/casebook_store.py:168-371 | a call keeps a sound case sound if and only if it does not damage it |
| CaseFailures.AlwaysSoundIffNeverDamaged | src/soloscale/casebook_store.py:168-371 | along every history a case is sound at all times if and only if no call damaged it |
| CaseFailures.NeverTornIsUndamaged | src/soloscale/casebook_store.py:505-519 | a case whose rollbacks all worked was never damaged, and its log holds what was committed to it |
| CaseIntegrity.PublishedCasesVerify | src/soloscale/casebook_store.py:400-437 | over all histories that did not damage the case, checking it, if it is readable, finds no failure |
| CasebookStore.CasebookStore.CreateCase | src/soloscale/casebook_store.py:168-259 | the case appears whole, or nothing changes; a source path without text is rejected |
| CasebookStore.CasebookStore.Accepts | src/soloscale/casebook_store.py:320-346 | exactly the attempts that pass the gate and carry their receipt or note |
| CasebookStore.CasebookStore.RecordAttempt | src/soloscale/casebook_store.py:309-371 | archive, append, and undo of a new receipt file on failure; a file archived for a path without text stays |
| CaseLaws.AttemptIsOfCall | src/soloscale/casebook_store.py:348-366 | the attempt has the fields of the call, its note stripped, and a receipt for a file with the hash and size of the given source |
| CaseLaws.RecordAcceptedIff | src/soloscale/casebook_store.py:320-346 | an attempt is accepted if and only if the log is the case's own, a pass has a source and every earlier stage passed, needs-work has a note with text, and a given source has content |
| CaseLaws.CaseIdIsHyphenated | src/soloscale/casebook_store.py:570-575 | a case id is 3 to 80 characters of non-empty words of lower-case letters and digits, with one hyphen between neighbours |
| CasebookStore.CasebookStore.PlaceFile | src/soloscale/casebook_store.py:716-741 | reuse of an identical file, else a free name |
| CasebookStore.CasebookStore.VerifyIntegrity | src/soloscale/casebook_store.py:400-437 | for every state of the files: the report is clean if and only if the file of every evidence receipt and of every attempt's receipt is there with exactly the receipt's size and hash; its failures and counts are described by the CaseIntegrity lemmas |
| CaseIntegrity.VerifyReceipt | src/soloscale/casebook_store.py:540-567 | one receipt: no failure exactly if its file is there with its size and hash, else what is wrong with the file |
| CaseIntegrity.ReportIsClean | src/soloscale/casebook_store.py:400-437 | no failure is reported if and only if every file is there with exactly its receipt's size and hash, and every receipt is counted |
| CaseIntegrity.ReportNamesFailures | src/soloscale/casebook_store.py:400-437 | exactly the receipts whose file does not match are reported, as missing, of another size, or else of another hash |
| CaseIntegrity.DamagedEvidenceIsReported | src/soloscale/casebook_store.py:540-567 | removing an evidence file, or overwriting it with bytes of another size or hash, is reported under its receipt |
| CaseIntegrity.DamagedPracticeIsReported | src/soloscale/casebook_store.py:540-567 | the same of practice receipts |
| CaseIntegrity.BothOverwritten | tests/test_casebook_store.py:715-743 | one evidence and one practice file overwritten with bytes of another size: exactly two byte-size failures |
| CaseIntegrity.Failures | src/soloscale/casebook_store.py:407-430 | the loop over the receipts of one kind |
| JsonLines.ParseRecords | src/soloscale/event_store.py:19-28 | the reading loop: blank lines skipped, a line that is no record raises |
| JsonLines.FileReadsBack | src/soloscale/event_store.py:14-28 | a file of appended valid records reads back as those records, whatever they contain |
| Orchestration.EventStore.Append | src/soloscale/event_store.py:14-17 | the file grows by one valid event |
| Orchestration.EventStore.ReadAll | src/soloscale/event_store.py:19-28 | all appended events, in order |
| Orchestration.EventStore.Replay | src/soloscale/event_store.py:30-36 | the events of one run |
| Orchestration.PathWithinRun | src/soloscale/orchestration.py:34-38 | filtering the replayed run gives the path of the task in the whole log |
| Orchestration.OrchestrationService.PriorTransitions | src/soloscale/orchestration.py:34-38 | the earlier transitions of a task in a run |
| Orchestration.OrchestrationService.Transition | src/soloscale/orchestration.py:22-82 | persists one accepted step and moves the task, or changes nothing |
| RunLog.PathsAreChained | src/soloscale/orchestration.py:22-82 | for all interleavings and stale statuses the transitions of a task form a walk from NEW in the table, and every step into EXECUTING carries a non-blank approval |
| RunLog.ExecutionWasApproved | src/soloscale/state_machine.py:8-35 | a task in execution got there by TRIAGED, PLANNED, APPROVED, EXECUTING in a row, and was not blocked since |
| RunLog.AcceptedWasApproved | src/soloscale/state_machine.py:8-35 | acceptance comes straight from a review inside such an execution |
| RunLog.TerminalStatesEnd | src/soloscale/state_machine.py:8-35 | nothing follows FAILED or CLOSED, only CLOSED follows ACCEPTED |
| TaskLiveness.AllowedIsMayMove | src/soloscale/state_machine.py:8-35 | the transition table is given by rules: open tasks may fail and be blocked, a blocked one returns to triage, a fix follows a verification or review and is verified again, and else a task moves to the next stage |
| TaskLiveness.AcceptedIff | src/soloscale/orchestration.py:22-82 | a request is accepted if and only if it states the task's status, the rules let the task move, its evidence has text and, into execution, its approval does |
| TaskLiveness.AcceptedMoves | src/soloscale/orchestration.py:22-82 | an accepted request moves its task and no other, a refused one moves none |
| TaskLiveness.PersistedStep | src/soloscale/orchestration.py:60-82 | what is persisted of an accepted request: run, task, both statuses, actor, and the texts stripped |
| TaskLiveness.EveryTaskCanClose | src/soloscale/orchestration.py:22-82 | after any calls a task that is neither failed nor closed can be closed by at most eight more requests |
| RunLog.ClosedTasksWereApproved | src/soloscale/orchestration.py:22-82 | in every history an accepted or closed task ran under an explicit approval |
| XThread.FindMarkers | src/soloscale/editorial_publishing_handoff.py:28 | the marker scan, at line starts only |
| ThreadMarkers.MarkerIffFraction | src/soloscale/editorial_publishing_handoff.py:28 | a marker with number k and total n is at a place if and only if the text goes on with the numerals of k and n, without leading zeros, a slash between them, and whitespace or the end behind them |
| ThreadMarkers.MarkersAreFractions | src/soloscale/editorial_publishing_handoff.py:28 | the markers are exactly the fractions that lines start with, from top to bottom |
| XThread.ParseThread | src/soloscale/editorial_publishing_handoff.py:271-287 | accepts exactly the well-numbered threads, and returns their parts |
| ThreadMarkers.AcceptedIffNumbered | src/soloscale/editorial_publishing_handoff.py:271-287 | a thread is accepted if and only if it has 1 to 12 markers that count 1/n to n/n, and only whitespace before the first |
| XThread.PartShape | src/soloscale/editorial_publishing_handoff.py:279-286 | a part starts with its marker, ends without a newline, and only newlines follow it |
| XThread.AcceptedTextIsPartitioned | src/soloscale/editorial_publishing_handoff.py:271-287 | an accepted text loses only leading whitespace and newlines between parts |
| XThread.MarkersOfBlocks | src/soloscale/editorial_publishing_handoff.py:271-279 | markers of a text split at newlines are those of its pieces |
| XThread.PrintedMarks | src/soloscale/editorial_workspace.py:181 | the printed thread has exactly the markers of its posts, at their places |
| XThread.RoundTrip | src/soloscale/editorial_publishing_handoff.py:271-287 | for 1 to 12 posts parsing the printed thread returns the stripped posts if and only if post i starts with marker i/n and no other line starts with a marker |

## Left out

- Python strings with lone surrogates: encoding them raises, and texts here are Unicode scalar values.
- The term list of `_focus_terms`: its tokenizer is a regular expression over Unicode classes; the model takes the ordered list of terms.
- The metadata of a context record: a record is the text before the excerpt, the excerpt and the text after it, so the size-dependent metadata profiles are four given pairs of texts.
- `_merge_optional_evidence_text` over more than one merge: it is not idempotent, and the model states what each merge does.
- Citation checks of a draft (`_validate_draft`, `_ordered_cited_ids`, `_validate_current_citations`): membership tests that would add only easy members.
- Visibility, roles, redaction and deduplication of messages, and the selection of conversations in an export: filters in front of the modelled traversal and segmentation.
- The timestamp parsing behind the sibling order: the model takes one real number for each node.
- SQLite, its locks and concurrent writers: each hub call is one atomic step that may raise and roll back; no multi-writer promise is made, since `sync_source` reads before its transaction begins.
- A file-mode change that fails after a commit: `refresh` would then add a failure receipt behind a success.
- A failing insert of the failure receipt itself: the exception leaves the method and the catalog as it was.
- The remaining fields of catalog records (provenance, metadata, filters and the like): one opaque text for each record, compared as a whole.
- Hub search, facets, audit listings, status and BuildLog projection: read-only queries outside the invariants.
- The text of archived file names: a name is a digest, or a digest and a counter, since digests contain no dash.
- File-system mechanics of the Casebook: symbolic links, permissions, staging files, directory renames and durability; a file is a byte sequence, a directory a map, a write may be short or fail.
- The interview packet and the packet refresh after a commit: rendering that no later step reads.
- Damage to archived files from outside the store is no call of the histories; what checking a case then reports is stated for every state of its files.
- Managed paths that are unsafe, no regular files or unreadable, which `verify_integrity` reports as such: a directory maps names to bytes.
- Events of type `state_transition` appended to the run log by anything but `transition`: no code in the repository does so, and such an event could break a chain.
- Universal newlines when the thread file is read: a carriage return inside a post is read as a newline; the round trip is stated on the text.
- Gateways, subprocesses, archives, user interface, localisation, canon content and the Swift and TypeScript files: input, output and rendering.
