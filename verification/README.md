# Horizon: overlays, scanners and indexes

Proofs about the logic of SkyWalking Horizon that has the most cases to get wrong. Each module
models one file of the repository, or one half of it, with the branches, edge cases and constants
of the code.

**Translation overlays** (`Json`, `Addressing`, `Overlay`, `OverlayLaws`, `MergeLaws`,
`CanonicalLaws`, `OverlayPlaces`, `OverlayPrune`, `StalePlaces`). A template is an arbitrary JSON tree, and a catalog of
translations is another that is laid over it. Five traversals (merge, stamp, align, canonicalize,
prune) and a collector of stale paths each decide, array by array, whether entries are matched by
`id` or by position. The laws hold for all pairs of trees, however malformed, because the merger
accepts all of them. What each traversal answers is also told place by place, by a path into the
tree and without the traversal: the text rendered there, what a re-shaping or a cleanup leaves
there, whether the place is reported.

**The seeder and the checker** (`Allowlist`, `Seed`, `SeedLaws`, `Reseed`, `SeedTheorems`,
`SeedDrops`, `SeedTyping`, `SeedPlaces`, `WrittenPlaces`, `DropPlaces`, `OverlayCheck`,
`FindingPlaces`, `CheckLaws`, `SeedCheck`). The seeder fills a catalog
from a lexicon, keeps what a translator wrote and drops what is untranslated. The checker is a
second, separately written traversal that predicts what the merger will apply. Its lists of
findings, and the lists of stale paths and of dropped entries, are objects that every method of a
traversal appends to. Here too, what is seeded, written, dropped and found has a description by
places of its own.

**Scanners and codecs** (`PatternScan`, `PatternGrammar`, `Hex`, `Text`, `ZipkinId`, `AlarmPin`,
`Ipv6`, `Ipv6Reads`, `PublicAddress`). Each hand-written reader is tied to an independent
description of what it reads: a syntax tree with its printer, the number a text denotes, every
spelling of an address, blocks of leading bits.

**Indexes, orders and shared state** (`Conversation`, `ConversationNodes`, `ConversationLaws`,
`ChangeTally`, `MenuOrder`, `MenuRows`, `MetadataCache`). Fields that the code fills in place are fields of classes here, and
loops are loops, proved against functions whose properties are then proved. The cache is also a
state machine whose runs interleave requests freely between their look-up and their store.

## Where the code and its promises part

Each of these has the exact condition under which the promise holds, and an input at which it
does not.

- The seeding law holds if and only if the stamped overlay and the fresh seed fit (`Fits`) and
  leave every container under `id` as in the source (`SeedLaws.SeedingLaw`). An existing `""` is
  kept by the merge and removed afterwards, and it takes the lexicon's hit with it
  (`SeedTheorems.EmptyTextHidesSeed`); the same input is what a second seeding repairs
  (`SeedTheorems.ReseedIsFixedPoint`, `SeedTheorems.ReseedSettles`). A container under a source key
  `id` is localized in the rendering of a seed but never written
  (`SeedTheorems.IdContainerIsNotWritten`).
- The list of dropped entries is complete but for repeats: a later entry under an id already taken
  is lost without a report unless it survives in the first one's place
  (`SeedDrops.ReportedExactlyWhenLost`, `SeedDrops.RepeatedIdIsLostUnreported`).
- The comment on `Finding` says that findings without `rewrites` describe drift the merger already
  ignores. Letting findings pass is harmless if and only if none is a rewrite or of one of seven
  other kinds, where the checker looks no further and the merger still does
  (`CheckLaws.SafeExactly`, `CheckLaws.EveryUnjudgedKindHides`). An overlay without any finding does
  change wording only.
- A tally not called incomplete is the number of files changed under the records that looked if and
  only if the skipped records add nothing of their own, as long as no two files share a key
  (`ChangeTally.CompleteCountIsExact`, `ChangeTally.SkippedFileIsCounted`).
- The comment on the count calls it the least the records changed. It is if and only if all the
  records that say anything share a root, or the files listed under its own root cover every bare
  count and no two of them share a key (`ChangeTally.CountIsTight`, `ChangeTally.TwoRootsAddUp`).
- A stamped overlay is promised to merge correctly under the positional-only merger of an earlier
  release. It does where its id-keyed arrays are in source order, and in general if and only if
  reading by position and by id find the same wording at every text
  (`MergeLaws.MigratedRendersByPosition`, `MergeLaws.MigratedRendersByPositionExactly`,
  `MergeLaws.SecondAloneRendersOnFirst`).
- The seeder writes only what the checker accepts over sources without seedable text in a container
  that is misplaced under an allowlisted name, and over no others
  (`SeedCheck.SeederPassesCheckExactly`, `SeedCheck.ContainerUnderTitleIsRefused`).
- No menu order loses a row if and only if page ids are distinct in every shown component
  (`MenuOrder.MenuLosesNothing`, `MenuOrder.RepeatedPageIsLost`).
- Pins have one key if and only if they name the same multiset of groups, and match the same alarms
  if and only if they name the same set (`AlarmPin.KeysAreIdentities`, `AlarmPin.MatchAlikeExactly`,
  `AlarmPin.RepeatedGroupChangesKey`).
- A text read as an IPv6 address is a spelling in the sense of section 2.2 of RFC 4291 if and only
  if its final quad is not glued to a digit before it and it does not have eight groups around a
  double colon (`Ipv6Reads.StrictSpellingsExactly`, `Ipv6Reads.GluedQuadIsRead`,
  `Ipv6Reads.IdleColonIsRead`).
- Of the address ranges, NAT64 is read in a wider block than its comment names, and the reserved
  low block is narrower than its comment says (`PublicAddress.NatBlockIsWider`,
  `PublicAddress.LowBlockIsNarrower`).

## Model

| member | source | states |
|---|---|---|
| `Addressing.IdAddressableIds` | packages/api-client/src/template-i18n.ts:88-98 | The loop returns the ids exactly when the array is id-addressable: not empty, every entry with a non-empty string id, no id twice; one id per entry, in order. |
| `Addressing.IndexOverlayById` | packages/api-client/src/template-i18n.ts:112-121 | The index holds exactly the ids that occur, each with the first entry that carries it, which is what a search by id finds. |
| `Addressing.FindById` | packages/api-client/src/template-i18n.ts:112-121 | What is found for an id is either nothing, when no entry carries it, or an entry carrying it. |
| `MergeLaws.MergeKeepsShape` | packages/api-client/src/template-i18n.ts:23-28 | For every source and overlay the rendered tree has the source's array lengths, key sets, leaf kinds, non-text leaves and string ids. |
| `MergeLaws.MergeIdempotent` | packages/api-client/src/template-i18n.ts:128-155 | Merging the same overlay into its own result changes nothing. |
| `MergeLaws.MergedText` | packages/api-client/src/template-i18n.ts:128-155 | For every source, overlay and place: the text rendered there is the text the merger finds for the place, if both it and the English are non-empty texts and the place is no id; else it is the English, and there is none where the source has none. |
| `MergeLaws.RearrangingCommutesWithMerge` | packages/api-client/src/template-i18n.ts:29-34 | Over an id-keyed overlay, picking any selection of source widgets in any order and then merging is merging and then picking: no translation slides onto a neighbour. |
| `CanonicalLaws.CanonicalByContent` | packages/api-client/src/template-i18n.ts:235-242 | At every depth: two overlays have one canonical form if and only if they say the same of the source, so that over every id-addressable array the entries found for it agree but for their ids, whether legacy, id-addressed, reordered or padded, and everything else is equal. |
| `CanonicalLaws.CanonicalIgnoresOverlayOrder` | packages/api-client/src/template-i18n.ts:243-245 | Permuting a fully id-keyed overlay array without repeated ids changes neither its canonical form nor its rendering. |
| `MergeLaws.MigratedRendersByPosition` | packages/api-client/src/template-i18n.ts:160-168 | An overlay whose id-keyed arrays, if any, are in source order renders, once stamped, under a positional-only merger exactly as the overlay renders today. |
| `MergeLaws.LegacyIsAligned` | packages/api-client/src/template-i18n.ts:160-168 | An overlay without ids is such an overlay. |
| `MergeLaws.MigratedRendersByPositionExactly` | packages/api-client/src/template-i18n.ts:160-168 | For every overlay: once stamped it renders under the positional-only merger as it renders today if and only if, at every text of the source, reading by position and reading by id find the same wording. |
| `MergeLaws.SecondAloneRendersOnFirst` | packages/api-client/src/template-i18n.ts:160-168 | A stamped overlay of the second of two entries alone renders its title on the first under the positional-only merger. |
| `OverlayLaws.SlotOfStamped` | packages/api-client/src/template-i18n.ts:170-199 | What the merger finds for a source entry after stamping is what it found before, stamped with that entry's id. |
| `OverlayLaws.StampPreservesRendering` | packages/api-client/src/template-i18n.ts:157-199 | For all source and overlay trees, positional, id-keyed, mixed, repeated or stale, stamping changes nothing a reader sees. |
| `OverlayLaws.StampIdempotent` | packages/api-client/src/template-i18n.ts:160-163 | Stamping a stamped overlay changes nothing, for all trees. |
| `OverlayPlaces.StampKeepsPlaces` | packages/api-client/src/template-i18n.ts:157-199 | At every place of the overlay that is at or under no id, stamping keeps an array's length, an object's other keys and every other value: order and holes are preserved exactly. |
| `OverlayLaws.AlignIsAligned` | packages/api-client/src/template-i18n.ts:201-233 | Alignment puts every entry of an id-keyed array into its source entry's slot, at every depth. |
| `OverlayLaws.AlignPreservesRendering` | packages/api-client/src/template-i18n.ts:201-233 | For all trees alignment changes nothing a reader sees. |
| `OverlayLaws.AlignIdempotent` | packages/api-client/src/template-i18n.ts:215-233 | Aligning an aligned overlay changes nothing, for all trees. |
| `OverlayPlaces.AlignedPlaces` | packages/api-client/src/template-i18n.ts:201-233 | At every place of the source the aligned overlay holds, by position, what the merger finds there by id or by position, with one slot per source entry in an array matched by id. |
| `OverlayLaws.AlignKeepsStamped` | packages/api-client/src/template-i18n.ts:235-245 | Aligning a stamped overlay leaves it stamped. |
| `OverlayLaws.AlignedRendersByPosition` | packages/api-client/src/template-i18n.ts:207-213 | On an aligned overlay the merger without its id branch renders what the real one renders. |
| `OverlayLaws.CanonicalPreservesRendering` | packages/api-client/src/template-i18n.ts:243-245 | For all trees canonicalizing changes nothing a reader sees. |
| `OverlayLaws.CanonicalRendersByPosition` | packages/api-client/src/template-i18n.ts:243-245 | A canonical overlay is aligned, and a positional-only reader renders from it exactly what the real merger renders from the original. |
| `OverlayLaws.CanonicalIsNormalForm` | packages/api-client/src/template-i18n.ts:235-242 | A canonical overlay is a fixed point of stamping, aligning and canonicalizing; an overlay and its stamped migration have one canonical form. |
| `OverlayPrune.CollectStale` | packages/api-client/src/template-i18n.ts:279-334 | The traversal appends to the shared list, and adds exactly the set of stale paths of the subtree, in both addressing modes and for kind mismatches. |
| `OverlayPrune.StaleOverlayPaths` | packages/api-client/src/template-i18n.ts:268-273 | The set of listed paths is exactly the set of stale ones. |
| `StalePlaces.ReportedPlaces` | packages/api-client/src/template-i18n.ts:279-334 | A place of the overlay is reported if and only if its source, followed entry by entry, has nothing for it, or has no container of its kind for a container, or nothing for any other value; ids and what lies below a reported place are not. |
| `OverlayPrune.PrunePreservesRendering` | packages/api-client/src/template-i18n.ts:338-385 | For all trees cleaning up changes nothing a reader sees. |
| `OverlayPrune.PruneIdempotent` | packages/api-client/src/template-i18n.ts:347-385 | Cleaning up twice is cleaning up once, for all trees. |
| `StalePlaces.CleanupKeepsExactly` | packages/api-client/src/template-i18n.ts:347-385 | At every place of the source, at or under no id, a cleanup removes what the merger finds there if and only if it does not fit the source; any other value stays, and a container stays one of its kind. |
| `StalePlaces.CleanupKeepsIds` | packages/api-client/src/template-i18n.ts:347-385 | An object that stays keeps its id. |
| `OverlayPrune.PruneLeavesNothingStale` | packages/api-client/src/template-i18n.ts:347-385 | After cleaning up no path is stale, for all trees. |
| `OverlayPrune.StaleExactlyWhenPruneChanges` | packages/api-client/src/template-i18n.ts:268-385 | The two traversals agree: cleaning up changes nothing if and only if nothing is stale and no entry is one that the merger drops and the report passes over. |
| `Seed.FindTrimmedLength` | apps/bff/src/i18n/seed.ts:239-268 | The loop finds the length without trailing untranslated slots: the last slot kept says something and none after it does. |
| `WrittenPlaces.WrittenPlacesExactly` | apps/bff/src/i18n/seed.ts:239-268 | Of any tree something is written at a place if and only if text stands at or below it other than under an id: text as it is, an array that ends in something written, an object with its string id. |
| `SeedLaws.SeedMirrors` | apps/bff/src/i18n/seed.ts:91-148 | For every source, the stamped fresh seed has the source's own structure with leaves missing, each entry in its source entry's slot under its id. |
| `SeedPlaces.SeedText` | apps/bff/src/i18n/seed.ts:91-148 | For every source, lexicon and place: the seed has a text there if and only if the place is translatable and the lexicon knows its text (an empty hit counting only inside an array of strings), and it is the lexicon's. A text is translatable under an allowlisted name, or directly inside a value object or a string array, and inside no other such container. |
| `SeedPlaces.SeededText` | apps/bff/src/i18n/seed.ts:91-148 | Merging that seed renders its text at each place and English elsewhere. |
| `SeedLaws.KeepIsPlaced` | apps/bff/src/i18n/seed.ts:150-237 | Keeping a stamped overlay over such a seed yields a tree whose every entry stands in its source slot and is stamped. |
| `SeedLaws.PrunePreservesRendering` | apps/bff/src/i18n/seed.ts:239-268 | Dropping what is untranslated from such a tree changes nothing a reader sees but for containers under `id`, which then render as in the source. |
| `SeedLaws.KeepRenders` | apps/bff/src/i18n/seed.ts:150-237 | Apart from containers under `id`, the keep-existing merge renders the existing translation over the seed exactly when the two fit. |
| `SeedLaws.SeedingLaw` | apps/bff/src/i18n/seed.ts:371-384 | For every source object, lexicon and existing overlay: the written catalog renders the existing translation, else the lexicon hit, else English, if and only if the stamped overlay fits the stamped seed and what is rendered that way leaves every container under `id` as in the source; what is written is stamped, in source order, and reads the same by position. |
| `SeedPlaces.SeededCatalogText` | apps/bff/src/i18n/seed.ts:371-384 | The catalog written for a source object without an existing overlay renders, at every place, the lexicon's text where the place is translatable, known and under no id, and English everywhere else. |
| `SeedTheorems.ConformingSeed` | apps/bff/src/i18n/seed.ts:371-384 | An existing overlay that conforms to the source (same kinds, non-empty text) meets the seeding law if and only if it and the lexicon leave every container under `id` as in the source. |
| `SeedTheorems.ConformingReseed` | apps/bff/src/i18n/seed.ts:371-384 | Over a conforming overlay with string ids, re-seeding returns the catalog unchanged. |
| `SeedTheorems.ReseedIsFixedPoint` | apps/bff/src/i18n/seed.ts:371-384 | For every source object, lexicon and existing overlay: seeding over the seeder's own output returns that output if and only if the overlay was settled: no existing value that translates nothing stands in front of a lexicon hit, and no id that is no string in front of a seeded one. |
| `SeedTheorems.ReseedSettles` | apps/bff/src/i18n/seed.ts:371-384 | For every source object and whatever overlay it starts from, the second seeding is a fixed point of the third. |
| `SeedTheorems.EmptyTextHidesSeed` | apps/bff/src/i18n/seed.ts:150-268 | An existing empty text is kept and then dropped: the lexicon hit is not written, so neither the seeding law nor the fixed point holds. |
| `SeedTheorems.IdContainerIsNotWritten` | apps/bff/src/i18n/seed.ts:91-148 | A container under a source key `id` is rendered with the lexicon's text but never written to a catalog. |
| `Reseed.ReseedStep` | apps/bff/src/i18n/seed.ts:150-268 | For every source and overlay and every tree that mirrors the source: one merge-and-prune step over its own result is stable exactly when the two are settled. |
| `Reseed.PruneIdempotent` | apps/bff/src/i18n/seed.ts:239-268 | Dropping what is untranslated twice is dropping it once. |
| `SeedDrops.MergeKeepExisting` | apps/bff/src/i18n/seed.ts:150-237 | The merge returns the kept tree and adds exactly the set of dropped entries to the list passed down. |
| `DropPlaces.ReportedDrops` | apps/bff/src/i18n/seed.ts:150-237 | A place is reported with a reason if and only if it is an entry of an existing array matched by id, at any depth the merge reaches, that has no string id, or one that no source entry bears. |
| `SeedDrops.ReportedExactlyWhenLost` | apps/bff/src/i18n/seed.ts:150-237 | Every existing entry survives into the result if and only if nothing is reported and every later entry under an id already taken survives in the first one's place; only such a repeat is ever lost without a report. |
| `SeedDrops.RepeatedIdIsLostUnreported` | apps/bff/src/i18n/seed.ts:150-237 | A second entry with an id already used and another title is lost without a report. |
| `OverlayCheck.Walk` | apps/bff/src/i18n/overlay-check.ts:127-302 | The walk appends to the shared list and adds exactly the set of findings of the subtree. |
| `OverlayCheck.WalkIdArray` | apps/bff/src/i18n/overlay-check.ts:60-125 | The id-addressed walk adds exactly the set of addressing findings of the array and of findings of its entries, repeats judged by what was seen before. |
| `OverlayCheck.OverlayFindings` | apps/bff/src/i18n/overlay-check.ts:328-332 | The set of findings listed is exactly that of the normalised source. |
| `FindingPlaces.ListedFindings` | apps/bff/src/i18n/overlay-check.ts:60-302 | A finding of any kind is listed at a place if and only if the place, followed step by step through source and overlay, shows the fault of that kind; each kind has its own condition on the values there. |
| `CheckLaws.AliasesAreSlots` | apps/bff/src/i18n/overlay-check.ts:304-317 | A layer with `aliases` and no `slots` is checked, and rendered, under every overlay exactly as the layer with those under `slots`. |
| `CheckLaws.OthersStand` | apps/bff/src/i18n/overlay-check.ts:309-317 | Every other source is checked and rendered as it stands. |
| `CheckLaws.SlotOverAliases` | apps/bff/src/i18n/overlay-check.ts:304-317 | A text under `slots` over a layer that has the slot among its `aliases` is no finding, and is rendered. |
| `CheckLaws.AcceptedChangesOnlyWording` | apps/bff/src/i18n/overlay-check.ts:328-332 | If the checker finds nothing, every place where the merged tree differs from the normalised source is text under an allowlisted key, object or array. |
| `CheckLaws.HarmlessChangesOnlyWording` | apps/bff/src/i18n/overlay-check.ts:37-40 | The same holds, at every path, when the findings are of kinds other than the rewrite and seven named ones. |
| `CheckLaws.SafeExactly` | apps/bff/src/i18n/overlay-check.ts:37-40 | Over all templates, overlays with findings of a given set of kinds never change more than wording if and only if the set holds neither the rewrite nor any of those seven kinds. |
| `CheckLaws.EveryUnjudgedKindHides` | apps/bff/src/i18n/overlay-check.ts:37-40 | For the rewrite and for each of the seven kinds there is an overlay of a template with findings of that kind alone that changes more than wording. |
| `SeedCheck.AcceptedExactlyWhenNothingFound` | apps/bff/src/i18n/overlay-check.ts:127-302 | The checker finds nothing if and only if the overlay is accepted by a direct structural definition. |
| `SeedCheck.SeederPassesCheck` | apps/bff/src/i18n/seed.ts:371-384 | Over every well-typed source object the seeder turns an overlay the checker accepts into one the checker accepts. |
| `SeedCheck.SeederPassesCheckExactly` | apps/bff/src/i18n/seed.ts:371-384 | The seeder does so for every lexicon and every accepted overlay if and only if the source object is well typed: no container that is misplaced under an allowlisted name has a text that the seeder writes. |
| `SeedCheck.ContainerUnderTitleIsRefused` | apps/bff/src/i18n/seed.ts:91-148 | With a text in a container under `title` and nothing on disk, the seeder writes what the checker refuses. |
| `SeedTyping.WrittenExactly` | apps/bff/src/i18n/seed.ts:91-148 | Of a tree that has no text in the seeder's reach nothing is written under any lexicon, and of any other something is under a lexicon of all its texts. |
| `PatternScan.BacktracksBadly` | packages/api-client/src/trace.ts:147-206 | The one-pass loop with its explicit stack terminates on every string and computes the recursive scan; the stack is never empty. |
| `PatternScan.TakeTurn` | packages/api-client/src/trace.ts:170-205 | One turn of the loop moves forward, leaves a group open, and refuses or goes on exactly as the recursive scan does. |
| `PatternScan.ReadQuantifier` | packages/api-client/src/trace.ts:157-168 | What follows a unit or a closed group is read as a quantifier, counted and judged as the recursive scan does. |
| `PatternScan.UnitEnd` | packages/api-client/src/trace.ts:171-180 | An escape or a character class is passed over whole. |
| `PatternScan.ClassEnd` | packages/api-client/src/trace.ts:177-180 | The inner loop stops behind the first bracket that closes the class, escapes skipped. |
| `PatternGrammar.GateIsItsTwoRules` | packages/api-client/src/trace.ts:133-139 | For every well-formed pattern tree, its text is refused if and only if some quantifier, fixed or not, applies to a group that repeats or branches inside, or there is more than one variable-length quantifier. |
| `PatternGrammar.ScanOfBody` | packages/api-client/src/trace.ts:147-206 | In any context, scanning a body's text leaves the group stack and the count as the tree says, or refuses where the tree says. |
| `PatternGrammar.BracesExactly` | packages/api-client/src/trace.ts:161-167 | Whatever stands between braces, it is a fixed repeat exactly if it is a number, and a variable one exactly if it is two runs of digits around a comma, not both empty. |
| `ChangeTally.CountFiles` | packages/conversation-view/src/model.ts:152-169 | The loop returns the larger of the files listed and the largest bare count, and says whether that is only a floor. |
| `ChangeTally.ObservationExactly` | packages/conversation-view/src/model.ts:105-113 | Of a record that looked, `files` says that every consistent set of changed files has one, `none` that every such set is empty, and `unknown` that neither holds; `skipped` that it did not look. |
| `ChangeTally.IncompleteExactly` | packages/conversation-view/src/model.ts:115-119 | A record that looked is incomplete if and only if it is consistent with sets of different sizes. |
| `ChangeTally.TallyChanges` | packages/conversation-view/src/model.ts:171-199 | The tally reports that count, the highest-ranking observation, the line sums of a sole listed record, and incompleteness exactly where a record or the count is incomplete. |
| `ChangeTally.TallyObservation` | packages/conversation-view/src/model.ts:171-199 | The observation reported of a step means the same of all its records together: none looked, or some file changed, or none did, or it is open. |
| `ChangeTally.LinesExactly` | packages/conversation-view/src/model.ts:171-199 | Line sums are reported if and only if exactly one record lists files and all of its have counts; they are its sums. |
| `ChangeTally.CountIsFloor` | packages/conversation-view/src/model.ts:146-169 | Over every assignment of true file sets consistent with the records, the count never exceeds the size of their union. |
| `ChangeTally.CompleteCountIsExact` | packages/conversation-view/src/model.ts:171-199 | When the tally is not incomplete and no two listed files share a key, the count is the size of the union over the records that looked if and only if no skipped record has a bare count or lists a file that no record that looked lists; and when no skipped record does, if and only if no two listed files share a key. |
| `ChangeTally.SkippedFileIsCounted` | packages/conversation-view/src/model.ts:171-199 | A sole skipped record that lists a file gives a count of one, not called incomplete, though nothing was observed. |
| `ChangeTally.CountIsTight` | packages/conversation-view/src/model.ts:146-169 | Some consistent assignment of true file sets reaches the count if and only if all records that list files or name a count share one root, or every bare count is at most the number of files listed under its own root and no two listed files share a key. |
| `ChangeTally.PlainRootsTellApart` | packages/conversation-view/src/model.ts:160 | Files whose roots do not hold the separator never share a key. |
| `ChangeTally.TwoRootsAddUp` | packages/conversation-view/src/model.ts:146-169 | Two bare counts under two roots: the larger is counted, though every consistent assignment has at least their sum. |
| `Conversation.ConversationModel.constructor` | packages/conversation-view/src/model.ts:304-397 | The constructor indexes the flattened document: every list of each map holds exactly the steps that belong to it, without repeats, in its own order; cards have taken their places. |
| `Conversation.ConversationModel.Flatten` | packages/conversation-view/src/model.ts:315-364 | Walking a tree adds its steps in document order and keeps all indexes right. |
| `ConversationNodes.StepsAreNodes` | packages/conversation-view/src/model.ts:315-364 | The steps of a document correspond one to one, in document order, to its nodes of a kind that is no container's, nodes being known by their path of child positions; each step has its node's id, kind, time, ref and named call, its root's talk, its nearest enclosing run, and its own stream or else its root's. |
| `ConversationNodes.ModelListsEveryNodeOnce` | packages/conversation-view/src/model.ts:304-397 | In the constructed model every node that is no container has one step, which stands exactly once over all streams, in its own, and exactly once over all talks and loose steps, in its talk's or its stream's. |
| `Conversation.ConversationModel.PlaceCards` | packages/conversation-view/src/model.ts:385-391 | Each indexed card takes a place half a step before its call, in index order. |
| `Conversation.ConversationModel.ArrangeLists` | packages/conversation-view/src/model.ts:392-397 | Sorting keeps what each list holds, and puts lists whose steps all have, or all lack, a position in order, entries that compare equal staying as they were. |
| `Conversation.Sort` | packages/conversation-view/src/model.ts:263-271 | A permutation of the list, sorted and stable wherever the comparison is an order. |
| `ConversationLaws.PositionsRise` | packages/conversation-view/src/model.ts:258-267 | In the list of a stream whose steps have all landed, positions rise by sequence and row whatever the times, and steps of one position stand by their places. |
| `ConversationLaws.UnlandedTimesRise` | packages/conversation-view/src/model.ts:263-267 | In one of which no step has landed times rise, and steps of one time stand by their places. |
| `ConversationLaws.TimesRise` | packages/conversation-view/src/model.ts:269-271 | So it is in the flow of every stream. |
| `ConversationLaws.EveryStepListedOnce` | packages/conversation-view/src/model.ts:315-364 | In right indexes every step of the document is listed exactly once over all streams, and exactly once over all talks and the loose steps together. |
| `ConversationLaws.ModelListsEveryStepOnce` | packages/conversation-view/src/model.ts:304-397 | So it is in the model constructed for any document. |
| `ConversationLaws.CardTargetExactly` | packages/conversation-view/src/model.ts:273-276 | With unique ids a step stands before another if and only if it is a card and that one bears the id the card names, or the card's own where it names none. |
| `ConversationLaws.CardsTakeTheirPlaces` | packages/conversation-view/src/model.ts:385-391 | With unique ids, a step that is no card keeps its place, and a card ends half a place before its call: before the call's final place if the call comes earlier in the document, else before its document place, so that chains of cards depend on the order of the document. |
| `ConversationLaws.UnchainedPlace` | packages/conversation-view/src/model.ts:385-391 | A card that names no other card ends half a place before where its call stands, whatever the other steps are. |
| `ConversationLaws.LoneCardBeforeItsCall` | packages/conversation-view/src/model.ts:385-397 | In a sorted list whose steps all have a position, a lone card on its call's own record is immediately followed by the call, unless a card of that record names a card. |
| `ConversationLaws.ModelCardBeforeItsCall` | packages/conversation-view/src/model.ts:385-397 | So it is in the list of every stream of the model constructed for any document with unique ids. |
| `ConversationLaws.ChainedCardStandsBetween` | packages/conversation-view/src/model.ts:381-397 | Five steps of one record in which a card that names a card is sorted between another card and that card's call. |
| `MenuOrder.ApplyMenuOrder` | packages/api-client/src/layer-menu.ts:282-296 | The loops compute the named rows, each once, followed by the rest. |
| `MenuOrder.ReorderingLosesNothing` | packages/api-client/src/layer-menu.ts:266-296 | For any stored order the result is a permutation of the rows if and only if no path the order names belongs to two rows. |
| `MenuOrder.NamedRowsLead` | packages/api-client/src/layer-menu.ts:272-296 | Named rows come first, in the order their paths first appear in the stored order; the others follow in the order they had. |
| `MenuOrder.MenuLosesNothing` | packages/api-client/src/layer-menu.ts:248-296 | No stored order whatsoever loses a row if and only if the pages of every shown component have distinct ids. |
| `MenuOrder.RepeatedPageIsLost` | packages/api-client/src/layer-menu.ts:248-296 | With two pages of one id under the service component some stored order loses a row. |
| `MenuOrder.GroupsAreDistinct` | packages/api-client/src/layer-menu.ts:248-264 | The rows of a layer have distinct paths if and only if every shown component's pages have distinct ids. |
| `MenuOrder.ResolveLayerMenuRows` | packages/api-client/src/layer-menu.ts:236-264 | The loops list each shown row followed by its pages, in the default order, and then apply the stored order. |
| `MenuRows.MenuRowsExactly` | packages/api-client/src/layer-menu.ts:236-264 | Without a stored order the menu has one row for each place that is one, in order: the built-in row of every shown component, in the default order of components, and after it one for each of its pages, under the page's id and name. |
| `MenuRows.LastRowIsNamed` | packages/api-client/src/layer-menu.ts:282-296 | Of several rows with one path a stored order places the last. |
| `MenuOrder.MenuOrderIssues` | packages/api-client/src/layer-menu.ts:302-316 | The loop lists a repeat or an unknown path for each offending entry, in order. |
| `MenuRows.IssuesAreFaults` | packages/api-client/src/layer-menu.ts:302-316 | The issues of an order correspond one to one, in order, to its entries that are named before or belong to no row, each of its kind and with its path. |
| `MenuOrder.NoIssues` | packages/api-client/src/layer-menu.ts:299-316 | There are no issues if and only if the order has no repeats and names only resolved rows. |
| `MenuOrder.NoIssuesExactlyWhenFollowed` | packages/api-client/src/layer-menu.ts:282-316 | There are no issues if and only if the menu's paths begin with exactly the stored order. |
| `MetadataCache.Cache.Ask` | apps/bff/src/oauth/client-metadata.ts:318-328 | A request is refused, answered or sent on by its own host list first, and then by what the cache holds. |
| `MetadataCache.AllowedExactly` | apps/bff/src/oauth/client-metadata.ts:85-90 | A host passes a list if and only if the labels of some listed host are its last labels. |
| `MetadataCache.AnsweredExactly` | apps/bff/src/oauth/client-metadata.ts:318-328 | A request is refused if and only if its host does not pass its own list, and answered from the cache if and only if it does and an entry younger than ten minutes is held under its id, with that entry's document. |
| `MetadataCache.Cache.Sweep` | apps/bff/src/oauth/client-metadata.ts:384-385 | The walk over the live map removes exactly the expired entries and keeps the others in order. |
| `MetadataCache.Cache.Evict` | apps/bff/src/oauth/client-metadata.ts:386 | The loop drops the oldest insertions until one place is free. |
| `MetadataCache.Cache.Store` | apps/bff/src/oauth/client-metadata.ts:380-388 | Storing makes room in a full cache and then holds the document, a key already held keeping its place. |
| `MetadataCache.MakingRoom` | apps/bff/src/oauth/client-metadata.ts:380-387 | A cache below its bound loses nothing; a full one loses exactly its expired entries or, where none has expired, exactly the oldest insertion; what stays is unaltered. |
| `MetadataCache.OldestFirst` | apps/bff/src/oauth/client-metadata.ts:380-388 | Over every interleaving the cache keeps its ids in the order of their insertions, however often they are loaded again, so what goes first is the oldest insertion. |
| `MetadataCache.EveryRun` | apps/bff/src/oauth/client-metadata.ts:57-71 | Over every interleaving of requests the cache stays within its bound, and what it holds for a client id is the document loaded last for it. |
| `MetadataCache.HitsAreFreshAndAllowed` | apps/bff/src/oauth/client-metadata.ts:319-328 | After every interleaving a hit is the document loaded last for that id, less than ten minutes old, and its host passes the list of this very request. |
| `MetadataCache.EveryFetchWasAsked` | apps/bff/src/oauth/client-metadata.ts:312-330 | In every run the requests that passed their own host list and missed are those whose fetch has ended and those under way. |
| `ZipkinId.NormalSpelling` | packages/api-client/src/zipkin-trace-id.ts:19-32 | A result spells, in lower-case hexadecimal, the number its input denotes, in 16 digits where they are enough and else in 32; there is none exactly where the input denotes no non-zero number of at most 32 digits. |
| `ZipkinId.OneSpellingPerNumber` | packages/api-client/src/zipkin-trace-id.ts:19-32 | Two inputs normalize alike if and only if they denote the same number, or neither denotes one. |
| `ZipkinId.DenotedByDigits` | packages/api-client/src/zipkin-trace-id.ts:27-32 | Up to 32 hexadecimal digits, each of either case and with white space around them or not, denote the number they write, if it is not zero. |
| `ZipkinId.DenotingTexts` | packages/api-client/src/zipkin-trace-id.ts:27-32 | No other text denotes a number. |
| `ZipkinId.NormalizedIsFixed` | packages/api-client/src/zipkin-trace-id.ts:22-25 | A result normalizes to itself. |
| `ZipkinId.ParseTraceIds` | apps/bff/src/client/zipkin.ts:244-253 | Either every input that is not blank is an id and the list is the first-seen one, or the first that is not an id is returned, trimmed. |
| `ZipkinId.BlankExactly` | apps/bff/src/client/zipkin.ts:247 | An input is passed over if and only if it is white space alone. |
| `ZipkinId.ListedInOrderSeen` | apps/bff/src/client/zipkin.ts:241-253 | Every listed id has the place where its number is first seen, and places increase: no two entries are one number. |
| `ZipkinId.EveryNumberIsListed` | apps/bff/src/client/zipkin.ts:241-253 | Every number the inputs denote is listed. |
| `ZipkinId.FirstSeenAre` | apps/bff/src/client/zipkin.ts:241-253 | An id is listed if and only if some input normalizes to it. |
| `AlarmPin.ParsedIsWellFormed` | packages/api-client/src/alarm-pages.ts:42-54 | Whatever parses has an upper-case word for a layer and, if any, groups that are trimmed and hold no separator or bracket. |
| `AlarmPin.ParsesExactly` | packages/api-client/src/alarm-pages.ts:42-54 | A text parses if and only if, apart from white space around it, it is a word alone or a word and a bracketed list of texts that are not blank and hold no comma or bracket; the pin is the word in upper case and each text trimmed, a dash as none. |
| `AlarmPin.FormatSpells` | packages/api-client/src/alarm-pages.ts:56-59 | A pin is printed as its layer, or its layer and its groups in brackets with a comma and a space between them, a dash for none. |
| `AlarmPin.FormatThenParse` | packages/api-client/src/alarm-pages.ts:46-59 | Printing any well-formed pin and parsing the text gives the pin back. |
| `AlarmPin.ParseFormatParse` | packages/api-client/src/alarm-pages.ts:46-59 | For every text that parses, printing and parsing again changes nothing. |
| `AlarmPin.KeysAreIdentities` | packages/api-client/src/alarm-pages.ts:61-65 | Two pins have one key if and only if they name one layer and either both the whole of it or the same multiset of groups. |
| `AlarmPin.MatchingAdds` | packages/api-client/src/alarm-pages.ts:83-94 | An alarm put together from two is matched if and only if one of them is, so one between two groups counts under each. |
| `AlarmPin.MatchesLayer` | packages/api-client/src/alarm-pages.ts:87-94 | An alarm of one layer without owners is matched by that whole-layer pin alone, and one of none by no pin. |
| `AlarmPin.MatchAlikeExactly` | packages/api-client/src/alarm-pages.ts:83-94 | Two pins match exactly the same alarms if and only if they name one layer and either both the whole of it or the same set of groups. |
| `AlarmPin.SameKeySameAlarms` | packages/api-client/src/alarm-pages.ts:61-94 | Two texts whose pins have one key pin the same alarms. |
| `AlarmPin.RepeatedGroupChangesKey` | packages/api-client/src/alarm-pages.ts:61-94 | A group named twice changes the key of a pin but not the alarms it matches. |
| `Ipv6.SpellingsAreRead` | apps/bff/src/oauth/client-metadata.ts:105-137 | Every legal spelling (groups of one to four digits, one double colon over any missing zeros, a dotted quad at the end or not) is read as the address it writes. |
| `Ipv6.QuadsBecomeGroups` | apps/bff/src/oauth/client-metadata.ts:114-121 | A dotted quad at the end of a legal spelling is found where it begins and replaced by the two groups it stands for. |
| `Ipv6.GroupsOfText` | apps/bff/src/oauth/client-metadata.ts:122-134 | A text of groups splits into exactly those groups, the missing zeros filled in at the double colon. |
| `Ipv6Reads.ReadExactly` | apps/bff/src/oauth/client-metadata.ts:105-137 | A text is read as an address if and only if, its final quad written as two groups, it is the text of a legal spelling of that address. |
| `Ipv6Reads.SpellingsExactly` | apps/bff/src/oauth/client-metadata.ts:105-137 | The spellings, those with a double colon that stands for no group among them, are exactly the texts that are read and whose final quad, if they have one, stands after a colon. |
| `Ipv6Reads.StrictSpellingsExactly` | apps/bff/src/oauth/client-metadata.ts:105-137 | The spellings in the sense of section 2.2 of RFC 4291 are exactly those texts without the ones that have eight groups around a double colon. |
| `Ipv6Reads.IdleColonIsRead` | apps/bff/src/oauth/client-metadata.ts:122-134 | Any eight groups with a double colon between any of them are read as the address of the groups, though no such spelling is that text. |
| `Ipv6Reads.GluedQuadIsRead` | apps/bff/src/oauth/client-metadata.ts:115-121 | A quad written directly after a hexadecimal letter is read, though no legal spelling is that text. |
| `PublicAddress.PublicQuadExactly` | apps/bff/src/oauth/client-metadata.ts:172-184 | An IPv4 address is public if and only if it is in none of nine blocks given by their leading bits. |
| `PublicAddress.DottedExactly` | apps/bff/src/oauth/client-metadata.ts:172-184 | A dotted text is public if and only if its four parts say numbers up to 255 that together are in none of those blocks. |
| `PublicAddress.GroupsAreJudgedByBlocks` | apps/bff/src/oauth/client-metadata.ts:144-170 | An IPv6 address that carries an IPv4 one is public if and only if that one is in no private block, and any other if and only if it is in no reserved block. |
| `PublicAddress.CarriersAreJudgedAsCarried` | apps/bff/src/oauth/client-metadata.ts:157-168 | Mapped, compatible, 6to4 and NAT64 addresses get exactly the verdict of the IPv4 address in them. |
| `PublicAddress.SpellingsAreJudgedAlike` | apps/bff/src/oauth/client-metadata.ts:144-171 | However a legal spelling is cased, bracketed or zoned, its verdict is that of its number. |
| `PublicAddress.NatBlockIsWider` | apps/bff/src/oauth/client-metadata.ts:163 | Every address under 64:ff9b::/32 is judged by its last 32 bits, not only those under the /96 its comment names. |
| `PublicAddress.LowBlockIsNarrower` | apps/bff/src/oauth/client-metadata.ts:169-170 | Every address under ::/8 that is outside ::/16 and outside the NAT64 block is public, although the comment calls all of ::/8 reserved. |

## Left out

- Key order of objects, and the order and multiplicity in which stale paths, dropped entries and
  findings are listed: objects are finite maps, and those lists are specified as sets of structured
  paths; the joined text of a path and the wording of a message are not modelled.
- `OverlayPrune.CollectStale`: a set of paths, without order or multiplicity.
- `OverlayPrune.StaleOverlayPaths`: a set of paths, without order or multiplicity.
- `SeedDrops.MergeKeepExisting`: a set of dropped entries, without order or multiplicity.
- `OverlayCheck.Walk`: a set of findings, without order or multiplicity.
- `OverlayCheck.WalkIdArray`: a set of findings, without order or multiplicity.
- `OverlayCheck.OverlayFindings`: a set of findings, without order or multiplicity.
- Keys that reach a JavaScript prototype (`__proto__`) and the rule that integer keys come first.
- Reading and writing files, command lines, logging, and the seeder's counters of filled, preserved
  and missing leaves.
- `SeedLaws.SeedingLaw`: asks for a source that is an object, as every template is.
- `PatternGrammar.GateIsItsTwoRules`: covers texts printed from syntax trees; a brace that counts
  nothing, such as `{,}`, is a literal to the scanner and not part of the trees. The cost of the
  matching engine itself is not modelled: the source calls the gate no proof of it.
- `ChangeTally.CompleteCountIsExact`: where skipped records add files of their own and two listed
  files share a key besides, the two errors may cancel, and nothing is said.
- `Conversation.Sort`: says nothing about the order of a list that mixes steps with and without a
  position, where the comparison is not transitive. Steps are known by their index in the document.
- `Conversation.ConversationModel.constructor`: says that the lists are in order, and not how steps
  that compare equal stand in them; `ArrangeLists` does.
- `ConversationLaws.LoneCardBeforeItsCall`: asks that no card of the record name a card;
  `ConversationLaws.ChainedCardStandsBetween` shows such a card between another card and its call.
- Folders, openers, relations, change groups and execution records of the conversation model, and a
  step's track and type; they would add easy members.
- `MenuOrder.ResolveLayerMenuRows`: the conditions under which a built-in row shows, and the names of
  trace rows, are given with the layer; icons are left out.
- Parsing of client ids as URLs, DNS, TLS, the fetch, its deadline, and the judgement of the document:
  in `MetadataCache` a fetch ends with a document or without one, and a host comes with its request.
- `ZipkinId.NormalSpelling`: lower-casing is of ASCII letters; no other character lower-cases to a
  hexadecimal digit.
- `AlarmPin.KeysAreIdentities`: groups are ordered by code point, where the runtime orders by
  UTF-16 unit; equality of keys needs only that it is one total order.
- `PublicAddress.PublicV4`: reads the parts of a dotted address as decimal digits with white space
  around them, or blank; the runtime's number reader also takes signs, exponents and radix prefixes.
- Server wiring, HTTP clients, access policy, configuration schemas and rendering.
