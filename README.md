# WikiHow sentence dataset: flattening and index samplers

This project models the WikiHow dataset of the language-modelling-via-stochastic-processes
code (`datasets/wikihow.py`). It has two halves.

- **The flattener.** `WikihowDataset._process_data` turns how-to documents into one
  flat list of sentence records, `processed_data`.
  - Each document's steps are grouped by the how-to method ("section") they belong to,
    and each (document, method) pair becomes one unit.
  - Each unit is rendered as sentences: `[ TITLE ] …`, `[ METHOD ] …`, then per step a
    `[ STEP ] n …` directions sentence and the step body split into sentences ending in
    `" . "`. When the last fragment ends with a period, one `replace` pass turns each
    `". . "` it finds into `" . "`; a last fragment ending in ".." keeps a doubled
    delimiter, as `DoubledDelimiterSurvives` shows.
  - A unit is dropped whole if any of its sentences has 1024 tokens or more.
  - Otherwise its non-empty sentences other than a bare `" . "` are numbered
    0..n-1, stamped with the unit counter and, once the unit is complete, with its
    length n.
- **The samplers.** The three `__getitem__` methods of `WikihowDiscourse`,
  `WikihowTriplet` and `WikihowTPK` read that list by index arithmetic within one unit.

Modules:

- `Wrappers`: `Option` and `Result`.
- `Strings`: Python's `split`, `join`, `replace`, `s[:-1]` and `str(n)` on character
  sequences.
- `Grouping`: the `defaultdict(list)` grouping of steps by section. Its keys iterate in
  first-insertion order, so it is kept as a sequence of (method, steps) groups.
- `Rendering`: the sentences of a unit, and the filter on empty and bare-delimiter
  sentences.
- `Units`: the record type and the shape of the flat list (`Contiguous`, `WellFormed`),
  with lemmas on the unit containing a given index.
- `Flattener`:
  - the declarative result `Flattened`;
  - the class `WikihowDataset`, whose `ProcessData` method builds `processedData` with
    the source's loops. The bodies of the document loop and the group loop are the
    methods `ProcessDocument` and `ProcessGroup`. The grouping loop, the rendering
    loop and the per-unit record loops are factored into the methods `GroupSteps`,
    `RenderSentences` and `BuildUnit`;
  - the proof that the result is well formed: units contiguous, numbered 0, 1, 2, …;
    records 0..n-1 carrying n; records 0, 1 and 2 holding the title, method and first
    directions sentences; every record ending with the delimiter and within the token
    budget.
- `Samplers`: the three samplers as functions over the record list. The random draws
  are parameters: the Discourse label bit, and the two Triplet picks given as positions
  in the list `random.choice` draws from.
- `Tokenizer`: the backend choice by name.

The token counter is a parameter `countTokens: string -> nat`, and the documents are a
parameter sequence. The length filter compares with the literal 1024 whichever backend
is chosen. Records of a unit under construction carry `totalDocSentences = 0` until the
back-fill; in the source the key is simply absent until then.

## Model

| member | source | states |
|---|---|---|
| Strings.DropLast | src/tc/language_modeling_via_stochastic_processes/src/datasets/wikihow.py:60 | `summary[:-1]`: the empty string stays empty; otherwise the result is one shorter and adding back the last character gives the input |
| Strings.Split | src/tc/language_modeling_via_stochastic_processes/src/datasets/wikihow.py:61 | `text.split(".  ")` always yields at least one fragment; with `SplitFirstCut`, `SplitWhole` and `JoinSplit` each cut falls at the leftmost occurrence of the separator not yet consumed, so the fragments are those of a left-to-right scan |
| Strings.SplitPartFree | src/tc/language_modeling_via_stochastic_processes/src/datasets/wikihow.py:61 | no fragment of a split contains the separator, so each separator occurrence found by the scan is a cut |
| Strings.SplitFirstPrefix | src/tc/language_modeling_via_stochastic_processes/src/datasets/wikihow.py:61 | the first fragment of a split is a prefix of the text |
| Strings.SplitCutOccurs | src/tc/language_modeling_via_stochastic_processes/src/datasets/wikihow.py:61-63 | when the split has more than one fragment, the separator occurs right after the first fragment |
| Strings.SplitCutRest | src/tc/language_modeling_via_stochastic_processes/src/datasets/wikihow.py:61-63 | the fragments after the first are the split of the text after the first cut |
| Strings.SplitNoEarlierCut | src/tc/language_modeling_via_stochastic_processes/src/datasets/wikihow.py:61-63 | no occurrence of the separator starts inside the first fragment, including one that overlaps the cut |
| Strings.SplitFirstCut | src/tc/language_modeling_via_stochastic_processes/src/datasets/wikihow.py:61-63 | the first cut is at the leftmost occurrence of the separator, and the rest of the split is the split of the text after it; for the self-overlapping `". . "` this fixes which occurrence is cut |
| Strings.SplitWithout | src/tc/language_modeling_via_stochastic_processes/src/datasets/wikihow.py:61 | with no occurrence of the separator the split is the whole text |
| Strings.SplitWhole | src/tc/language_modeling_via_stochastic_processes/src/datasets/wikihow.py:61 | the split is the whole text exactly when the separator does not occur in it |
| Strings.JoinSplit | src/tc/language_modeling_via_stochastic_processes/src/datasets/wikihow.py:61 | splitting on a separator and joining back with it gives the original text, so the split loses nothing but the separators |
| Strings.ReplaceAll | src/tc/language_modeling_via_stochastic_processes/src/datasets/wikihow.py:63 | definition of `str.replace`: each occurrence found scanning from the left is rewritten and skipped over; `ReplaceIsJoinOfSplit` states what it computes |
| Strings.ReplaceIsJoinOfSplit | src/tc/language_modeling_via_stochastic_processes/src/datasets/wikihow.py:63 | `s.replace(pat, rep)` equals joining the pieces of `s.split(pat)` with `rep`, so it rewrites exactly the occurrences `SplitFirstCut` picks, leftmost first and non-overlapping; the result may contain new occurrences |
| Strings.NatToString | src/tc/language_modeling_via_stochastic_processes/src/datasets/wikihow.py:59 | the step number is written as at least one decimal digit, with no leading zero unless it is 0 |
| Strings.ParseNatToString | src/tc/language_modeling_via_stochastic_processes/src/datasets/wikihow.py:59 | reading the rendered step number back gives the number |
| Grouping.FindGroup | src/tc/language_modeling_via_stochastic_processes/src/datasets/wikihow.py:50 | the dictionary lookup finds the position of the group with that key, or reports none when no group has it |
| Grouping.AddStepToExisting | src/tc/language_modeling_via_stochastic_processes/src/datasets/wikihow.py:50 | appending under an existing key keeps all grouping invariants over the steps seen so far plus the new one |
| Grouping.AddStepToNew | src/tc/language_modeling_via_stochastic_processes/src/datasets/wikihow.py:50 | appending under a new key adds a last group holding just that step and keeps all grouping invariants |
| Grouping.AddStep | src/tc/language_modeling_via_stochastic_processes/src/datasets/wikihow.py:50 | definition of one `method2steps[v['section']].append(v)`: append to the group of that section, or open a new last group; `AddStepKeepsGroups` states that it keeps the grouping |
| Grouping.GroupBySection | src/tc/language_modeling_via_stochastic_processes/src/datasets/wikihow.py:46-50 | definition of the whole `defaultdict(list)` grouping, one `AddStep` per step in order; `GroupBySectionIsGrouping` states its properties |
| Grouping.AddStepKeepsGroups | src/tc/language_modeling_via_stochastic_processes/src/datasets/wikihow.py:50 | one `method2steps[section].append(step)` keeps the grouping invariants: distinct keys, each group exactly its section's steps in their original order and non-empty, groups in first-appearance order, every section a key |
| Grouping.GroupBySectionIsGrouping | src/tc/language_modeling_via_stochastic_processes/src/datasets/wikihow.py:46-50 | the dictionary built from all of a document's steps meets the grouping invariants |
| Rendering.Delimited | src/tc/language_modeling_via_stochastic_processes/src/datasets/wikihow.py:61 | one delimited sentence per fragment |
| Rendering.CollapseLast | src/tc/language_modeling_via_stochastic_processes/src/datasets/wikihow.py:62-63 | the fix-up of the last sentence changes no sentence count |
| Rendering.BodySentences | src/tc/language_modeling_via_stochastic_processes/src/datasets/wikihow.py:61-63 | a step body renders to exactly one sentence per fragment of its split, at least one |
| Rendering.DoubledIffPeriod | src/tc/language_modeling_via_stochastic_processes/src/datasets/wikihow.py:61-62 | the last sentence ends with `". . "` exactly when its fragment ends with a period |
| Rendering.StripDelimited | src/tc/language_modeling_via_stochastic_processes/src/datasets/wikihow.py:61 | every delimited sentence ends with `" . "`, and stripping it gives the fragments back |
| Rendering.NoCollapse | src/tc/language_modeling_via_stochastic_processes/src/datasets/wikihow.py:62-63 | when the last fragment does not end with a period, the fix-up changes nothing |
| Rendering.Collapses | src/tc/language_modeling_via_stochastic_processes/src/datasets/wikihow.py:62-63 | when the last fragment ends with a period, only the last sentence changes, and it becomes the `replace` of each `". . "` found in one left-to-right pass by `" . "` |
| Rendering.BodyRoundTrip | src/tc/language_modeling_via_stochastic_processes/src/datasets/wikihow.py:61-63 | without the fix-up (the last fragment does not end with a period), every body sentence ends with the delimiter and the body text is recovered by stripping the delimiters and joining on `".  "` |
| Rendering.ReplaceKeepsEos | src/tc/language_modeling_via_stochastic_processes/src/datasets/wikihow.py:62-63 | one `replace(". . ", " . ")` pass over a string ending in `". . "` leaves it ending in `" . "`, whether the last occurrence is rewritten or an overlapping earlier one is |
| Rendering.CollapsedDelimited | src/tc/language_modeling_via_stochastic_processes/src/datasets/wikihow.py:61-63 | after the fix-up every body sentence still ends with the delimiter |
| Rendering.BodyDelimited | src/tc/language_modeling_via_stochastic_processes/src/datasets/wikihow.py:61-63 | every body sentence ends with the delimiter `" . "`, with or without the fix-up |
| Rendering.StepsSentencesDelimited | src/tc/language_modeling_via_stochastic_processes/src/datasets/wikihow.py:58-63 | every directions and body sentence of a group's steps ends with the delimiter |
| Rendering.RenderUnitDelimited | src/tc/language_modeling_via_stochastic_processes/src/datasets/wikihow.py:56-63 | every sentence of a rendered unit ends with the delimiter `cl_eos_str` |
| Rendering.CollapsedLastSentence | src/tc/language_modeling_via_stochastic_processes/src/datasets/wikihow.py:62-63 | with the fix-up, the last sentence is its fragment plus delimiter with each doubled delimiter found in one left-to-right pass collapsed; a doubled delimiter can survive (`DoubledDelimiterSurvives`) |
| Rendering.DoubledDelimiterSurvives | src/tc/language_modeling_via_stochastic_processes/src/datasets/wikihow.py:61-63 | the body `"a.."` renders to the single sentence `"a. . "`, which still ends in a doubled delimiter: one `replace` pass does not remove them all |
| Rendering.TitleSentence | src/tc/language_modeling_via_stochastic_processes/src/datasets/wikihow.py:56 | definition of the title sentence `"[ TITLE ] " + title + " . "`; `TitleSentenceShape` and `RenderUnitDelimited` state its shape |
| Rendering.MethodSentence | src/tc/language_modeling_via_stochastic_processes/src/datasets/wikihow.py:57 | definition of the method sentence `"[ METHOD ] " + method_name + " . "`; `MethodSentenceShape` and `RenderUnitDelimited` state its shape |
| Rendering.Directions | src/tc/language_modeling_via_stochastic_processes/src/datasets/wikihow.py:59-60 | definition of a step's directions sentence: marker, step number, summary without its last character, delimiter; `FirstDirectionsShape` and `StepsSentencesDelimited` state its shape |
| Rendering.StepsSentences | src/tc/language_modeling_via_stochastic_processes/src/datasets/wikihow.py:58-64 | definition of the sentences of a group's steps, directions then body for each step in order; `StepsSentencesHead` and `StepsSentencesDelimited` state its properties |
| Rendering.RenderUnit | src/tc/language_modeling_via_stochastic_processes/src/datasets/wikihow.py:56-64 | definition of `all_sentences` for one unit: title, method, then the steps' sentences; `KeptUnitHead` and `RenderUnitDelimited` state its properties |
| Rendering.TitleSentenceShape | src/tc/language_modeling_via_stochastic_processes/src/datasets/wikihow.py:56 | the title sentence starts with `[ TITLE ] ` and is never dropped by the filter |
| Rendering.MethodSentenceShape | src/tc/language_modeling_via_stochastic_processes/src/datasets/wikihow.py:57 | the method sentence starts with `[ METHOD ] ` and is never dropped by the filter |
| Rendering.FirstDirectionsShape | src/tc/language_modeling_via_stochastic_processes/src/datasets/wikihow.py:59-60 | the directions of step 0 start with `[ STEP ] 0 ` and are never dropped by the filter |
| Rendering.StepsSentencesHead | src/tc/language_modeling_via_stochastic_processes/src/datasets/wikihow.py:58-64 | the sentences of a non-empty group's steps open with the directions of step 0 |
| Rendering.Kept | src/tc/language_modeling_via_stochastic_processes/src/datasets/wikihow.py:70-74 | the filter never lengthens the list, and no kept sentence is empty or the bare `" . "` |
| Rendering.KeptAppend | src/tc/language_modeling_via_stochastic_processes/src/datasets/wikihow.py:70-74 | the filter works sentence by sentence: filtering a concatenation is concatenating the filtered parts |
| Rendering.KeptFrom | src/tc/language_modeling_via_stochastic_processes/src/datasets/wikihow.py:70-74 | every kept sentence is one of the rendered sentences |
| Rendering.Keep | src/tc/language_modeling_via_stochastic_processes/src/datasets/wikihow.py:71-74 | definition of the sentence filter: neither empty nor `" . "`; `Kept`, `KeptAll` and `KeptFrom` state which sentences it lets through |
| Rendering.KeptAll | src/tc/language_modeling_via_stochastic_processes/src/datasets/wikihow.py:70-74 | sentences that are all neither empty nor `" . "` are all kept, in order |
| Rendering.KeptUnitHead | src/tc/language_modeling_via_stochastic_processes/src/datasets/wikihow.py:56-64 | a unit of a non-empty group keeps at least three sentences: first its title sentence, then its method sentence, then the directions of step 0 |
| Units.UnitStartInRange | src/tc/language_modeling_via_stochastic_processes/src/datasets/wikihow.py:75-81 | in a contiguous list the unit of every record starts at or after index 0 |
| Units.UnitPosition | src/tc/language_modeling_via_stochastic_processes/src/datasets/wikihow.py:75-87 | position p of the unit of record i is at index `i - sentence_id + p`, in the same unit, with sentence id p |
| Units.DocIdMonotone | src/tc/language_modeling_via_stochastic_processes/src/datasets/wikihow.py:87-88 | unit numbers never decrease along the list |
| Units.EarlierUnit | src/tc/language_modeling_via_stochastic_processes/src/datasets/wikihow.py:87-88 | a record before the start of a unit belongs to a unit with a smaller number |
| Units.LaterUnit | src/tc/language_modeling_via_stochastic_processes/src/datasets/wikihow.py:87-88 | a record after the end of a unit belongs to a unit with a larger number |
| Units.UnitSpan | src/tc/language_modeling_via_stochastic_processes/src/datasets/wikihow.py:75-88 | the records carrying the `doc_id` of record i are exactly the block of its unit, starting `sentence_id` places back and `total_doc_sentences` long |
| Units.TotalIsCount | src/tc/language_modeling_via_stochastic_processes/src/datasets/wikihow.py:83-87 | in a contiguous list every record's `total_doc_sentences` is the number of records with its `doc_id` |
| Flattener.UnitRecords | src/tc/language_modeling_via_stochastic_processes/src/datasets/wikihow.py:75-85 | one record per kept sentence of the unit |
| Flattener.Fits | src/tc/language_modeling_via_stochastic_processes/src/datasets/wikihow.py:66-67 | definition of the length test: every sentence of the unit has fewer than 1024 tokens; `AcceptedMembers` states that a unit is kept exactly when it passes |
| Flattener.Accepted | src/tc/language_modeling_via_stochastic_processes/src/datasets/wikihow.py:66-68 | only units whose every sentence counts fewer than 1024 tokens pass the filter, and no more of them than were rendered |
| Flattener.Number | src/tc/language_modeling_via_stochastic_processes/src/datasets/wikihow.py:75-88 | definition of the records of the accepted units laid end to end, unit `d` numbered `d`; `NumberWellFormed`, `NumberPrefix` and `UnitBlock` state their layout |
| Flattener.AcceptedMembers | src/tc/language_modeling_via_stochastic_processes/src/datasets/wikihow.py:66-68 | a unit is accepted if and only if it was rendered and all its sentences fit: all or nothing |
| Flattener.AcceptStep | src/tc/language_modeling_via_stochastic_processes/src/datasets/wikihow.py:66-88 | one more unit joins the accepted units exactly when it fits, and then its records, numbered one past the last unit, follow the records so far; a rejected unit adds no records and no unit number |
| Flattener.DocUnits | src/tc/language_modeling_via_stochastic_processes/src/datasets/wikihow.py:52 | a document yields one unit per method group |
| Flattener.AllUnits | src/tc/language_modeling_via_stochastic_processes/src/datasets/wikihow.py:43-52 | definition of the units of a range of documents, document by document; `AllUnitsHeaded` states that each is headed |
| Flattener.Flattened | src/tc/language_modeling_via_stochastic_processes/src/datasets/wikihow.py:39-88 | definition of the final `processed_data`; `FlattenedWellFormed`, `FlattenedUnitCount`, `UnitBlock` and `AcceptedMembers` state its properties, and `ProcessData` is proved to compute it |
| Flattener.DocUnitsHeaded | src/tc/language_modeling_via_stochastic_processes/src/datasets/wikihow.py:52-64 | every sentence of every unit of a document ends with the delimiter, and the unit keeps a title, a method and a step-0 directions sentence first |
| Flattener.AllUnitsHeaded | src/tc/language_modeling_via_stochastic_processes/src/datasets/wikihow.py:43-64 | the same for every unit of every document |
| Flattener.AcceptedHeaded | src/tc/language_modeling_via_stochastic_processes/src/datasets/wikihow.py:66-68 | the filter keeps that property of the units it accepts |
| Flattener.AppendUnit | src/tc/language_modeling_via_stochastic_processes/src/datasets/wikihow.py:84-88 | appending a back-filled unit of at least three records numbered one past the last unit keeps the list well formed |
| Flattener.NumberWellFormed | src/tc/language_modeling_via_stochastic_processes/src/datasets/wikihow.py:70-88 | numbering units of at least three kept sentences gives a well-formed list, empty exactly when there are no units, whose last unit number is one less than the number of units |
| Flattener.AppendSound | src/tc/language_modeling_via_stochastic_processes/src/datasets/wikihow.py:70-87 | appending the records of a headed unit that fits keeps every record non-empty, not `" . "`, ending with the delimiter, within budget and with title, method and directions at ids 0, 1 and 2 |
| Flattener.NumberSound | src/tc/language_modeling_via_stochastic_processes/src/datasets/wikihow.py:70-88 | the same for the whole numbered list of headed units that fit |
| Flattener.FlattenedWellFormed | src/tc/language_modeling_via_stochastic_processes/src/datasets/wikihow.py:39-88 | the flattened list is contiguous, units are numbered 0, 1, 2, … in append order, records of a unit carry ids 0..n-1 and total n with n at least 3, and every record ends with the delimiter, passes the sentence filter and the token budget and heads its unit correctly |
| Flattener.FlattenedUnitCount | src/tc/language_modeling_via_stochastic_processes/src/datasets/wikihow.py:88 | the last unit number is one less than the number of accepted units, and the list is empty exactly when no unit is accepted |
| Flattener.NumberPrefix | src/tc/language_modeling_via_stochastic_processes/src/datasets/wikihow.py:87 | the records of the first m units are a prefix of the records of all units |
| Flattener.UnitBlock | src/tc/language_modeling_via_stochastic_processes/src/datasets/wikihow.py:70-88 | unit d occupies one block right after the units before it, holding exactly its kept sentences in order with ids 0..n-1, unit number d and total n |
| Flattener.GroupSteps | src/tc/language_modeling_via_stochastic_processes/src/datasets/wikihow.py:46-50 | the grouping loop computes the grouping of the document's steps and meets the grouping invariants |
| Flattener.RenderSentences | src/tc/language_modeling_via_stochastic_processes/src/datasets/wikihow.py:56-64 | the rendering loop computes the unit's sentences, and a non-empty group's unit is headed: its sentences end with the delimiter and its kept ones open with title, method and step-0 directions |
| Flattener.BuildUnit | src/tc/language_modeling_via_stochastic_processes/src/datasets/wikihow.py:70-85 | the record loop and the back-fill loop give exactly the records of the kept sentences, numbered from 0, with the unit counter and the unit length |
| Flattener.WikihowDataset.ProcessData | src/tc/language_modeling_via_stochastic_processes/src/datasets/wikihow.py:39-88 | `processed_data` is reset and rebuilt as the flattened list of the documents, which is well formed and sound |
| Flattener.WikihowDataset.ProcessDocument | src/tc/language_modeling_via_stochastic_processes/src/datasets/wikihow.py:52-88 | one pass of the outer loop: after the document's groups, `processed_data` and the counter are those of the accepted units so far, this document's included |
| Flattener.WikihowDataset.ProcessGroup | src/tc/language_modeling_via_stochastic_processes/src/datasets/wikihow.py:66-88 | one pass of the inner loop: the rendered group is skipped when a sentence is too long, otherwise its numbered records are appended under the next unit number; afterwards `processed_data` and the counter are those of the accepted units so far, this one included |
| Flattener.WikihowDataset.constructor | src/tc/language_modeling_via_stochastic_processes/src/datasets/wikihow.py:36 | a new dataset holds the flattened, well-formed, sound record list |
| Flattener.WikihowDataset.Len | src/tc/language_modeling_via_stochastic_processes/src/datasets/wikihow.py:141-142 | the length is one less than the number of records, so every admitted index has a next record |
| Samplers.Window | src/tc/language_modeling_via_stochastic_processes/src/datasets/wikihow.py:168-169 | `t <= sid <= tp1 <= total-1` and `tp1 - t == min(k, total-1)`; the window starts at `sid` unless it was pulled back from the unit's end |
| Samplers.WindowIndices | src/tc/language_modeling_via_stochastic_processes/src/datasets/wikihow.py:167-172 | both resolved indices lie in the unit of `index`, around it, and hold the records with the window's sentence ids |
| Samplers.Discourse | src/tc/language_modeling_via_stochastic_processes/src/datasets/wikihow.py:163-200 | both indices lie in the unit of `index`, so the `doc_id` assertion holds; they are `min(k, total-1)` apart; label 1 gives (sentence at t, sentence at tp1), label 0 the swap; label and idx are passed through; the two indices are exactly the window `tp1 = min(total-1, sid+k)`, `t = max(0, tp1-k)` resolved to global indices (`WindowIndices`) |
| Samplers.DiscourseLabelSwaps | src/tc/language_modeling_via_stochastic_processes/src/datasets/wikihow.py:179-184 | the two label values give the same item except that the two sentences change places |
| Samplers.Interval | src/tc/language_modeling_via_stochastic_processes/src/datasets/wikihow.py:240 | `list(range(lo, hi))` holds lo, lo+1, …, hi-1 in order and nothing else |
| Samplers.RemoveFirst | src/tc/language_modeling_via_stochastic_processes/src/datasets/wikihow.py:242 | `nums.remove(t1)` shortens the list by one |
| Samplers.RemoveFirstOne | src/tc/language_modeling_via_stochastic_processes/src/datasets/wikihow.py:242 | `remove` takes away exactly one copy of the value and keeps every other element |
| Samplers.RemoveFromInterval | src/tc/language_modeling_via_stochastic_processes/src/datasets/wikihow.py:240-242 | removing t1 from `range(lo, hi)` leaves the numbers below it and the numbers above it |
| Samplers.Pick | src/tc/language_modeling_via_stochastic_processes/src/datasets/wikihow.py:240-249 | the two picks are distinct and, once ordered, satisfy `t1 < t2 < T`, so the assertion holds; the first draw is one of them |
| Samplers.PickReaches | src/tc/language_modeling_via_stochastic_processes/src/datasets/wikihow.py:240-248 | every ordered pair below T can be drawn, with either number drawn first |
| Samplers.Advance | src/tc/language_modeling_via_stochastic_processes/src/datasets/wikihow.py:224-235 | the `+2`/`+1` advance stays in the unit and lands on sentence id `max(2, sid)` |
| Samplers.Triplet | src/tc/language_modeling_via_stochastic_processes/src/datasets/wikihow.py:223-267 | `T >= 2`, `t_ < t < T < total_t` with `total_t` the unit length, and `y_0`, `y_t`, `y_T` are the records with sentence ids `t_`, `t` and `T` (each id stated) of the unit of `index`, sharing its `doc_id`; `(t_, t)` is exactly the ordered pair drawn by the two `random.choice` calls without replacement (`Pick`) |
| Samplers.Back | src/tc/language_modeling_via_stochastic_processes/src/datasets/wikihow.py:311-316 | the lag record is in the same unit; when the unit starts `lag` or more places back it is the record `lag` places back in the list, with sentence id `lag` less; otherwise it is the record itself |
| Samplers.SameDocWithinUnit | src/tc/language_modeling_via_stochastic_processes/src/datasets/wikihow.py:311 | the record `lag` places back exists and has the same `doc_id` if and only if the unit starts at least `lag` places back |
| Samplers.Lag | src/tc/language_modeling_via_stochastic_processes/src/datasets/wikihow.py:311-316 | the source's bounds-and-`doc_id` test picks exactly the in-unit lag record, falling back to the record at `index` |
| Samplers.TpkAnchor | src/tc/language_modeling_via_stochastic_processes/src/datasets/wikihow.py:293-295 | the `k == 1` index stays put unless it closes its unit, and then moves back one; either way it and its successor are consecutive records of the unit |
| Samplers.Tpk | src/tc/language_modeling_via_stochastic_processes/src/datasets/wikihow.py:291-326 | with `k == 1`, `y_t` and `y_tpk` are consecutive records of one unit and the lags are taken from the moved index; otherwise the pair is the window of `index` and the lags are taken from `index` itself; each lag is the in-unit record or the fallback |
| Samplers.TpkAdjacentIsWindow | src/tc/language_modeling_via_stochastic_processes/src/datasets/wikihow.py:293-308 | the `k == 1` pair is the same pair the window branch would pick for a window of one |
| Tokenizer.SetTokenizer | src/tc/language_modeling_via_stochastic_processes/src/datasets/wikihow.py:93-103 | the name is accepted if and only if it is "GPT2" or "BERT", each selecting its own backend; any other name is the `ValueError` with its message |
| Tokenizer.FilterBoundAgainstBackend | src/tc/language_modeling_via_stochastic_processes/src/datasets/wikihow.py:98-101 | the filter's literal equals GPT-2's `max_length` and is twice BERT's |

## Left out

- Loading the pretrained tokenizers and registering the section markers as extra tokens
  (`_set_tokenizer`, lines 95-100 and 112-114) are library calls. Token counting is the
  parameter `countTokens`. The marker strings and the delimiter are constants of
  `Rendering`.
- `tokenize_caption` pads and concatenates tensors through library calls; it has no
  logic of its own to model.
- The random generator: the draws are parameters constrained to their ranges. Their
  uniformity is not modelled; `PickReaches` states only that every pair is reachable.
- The one-hot label tensor (lines 186-189): the label is kept as a bit. The attribute
  `one_hot_labels` is not set anywhere in this file and is not part of this model.
- The normalised position `t` in `WikihowTPK.__getitem__` (lines 299, 309) is a float
  that is never returned.
- The progress bar, the `print`s (including the two example prints at the end of
  `_process_data`, which fail on a list of fewer than 11 records), the
  `torch.utils.data.Dataset` base class, and the choice of the document range by the
  `train` flag. The documents are given as a sequence.
- The iteration order of `doc['steps'].items()` is taken as the order of the given step
  sequence.
- Samplers.Discourse: `k` comes from the configuration and is taken as a non-negative
  integer. For a negative `k`, Python's negative indexing would reach outside the unit.
- Samplers.Tpk: the index is non-negative and below the number of records; with
  `k == 1` it is also below `Len()`, as the data loader guarantees. At the last record
  the source would raise `IndexError`.
- Samplers.Triplet: the draws are positions in the lists that `random.choice` draws
  from, rather than the drawn values themselves. For the first draw the position and the
  value coincide.
- Flattener.WikihowDataset.ProcessData: a record under construction carries a total of
  0 where the source has no `total_doc_sentences` key until the back-fill.
