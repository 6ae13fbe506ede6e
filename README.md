# Text annotation tool: the automatic merge, the knowledge base and document status

This project models, in Dafny, the logic of a small Chinese text-annotation
web application (`app.py`). Three parts are modelled.

- **The automatic annotation merge** (`auto_annotate`). One document is
  annotated from three sources, in a fixed priority order:
  1. exact matches of knowledge-base texts, longest text first;
  2. part-of-speech heuristics over the tokenizer's output, which follow a
     forward `current_index` cursor;
  3. date and time pattern matches.

  A candidate span `[start, end)` is committed only if none of its positions
  is already claimed. A rejected candidate is dropped silently.
- **The knowledge base.** This is a table of entity texts, each with a label
  and a source, keyed by text. It covers:
  - the idempotent insert `add_to_knowledge_base`, where the first writer
    wins;
  - the `{text: label}` view the merge uses;
  - the add, delete, clear and import handlers.
- **Documents and their annotation rows.** A document's status is:
  - 0 when it is created, and again after its annotations are cleared;
  - 1 after automatic annotation or a manual save;
  - 2 after it is marked complete.

  Deleting a document deletes its annotations too. Two small pure helpers
  come with this part:
  - the file-name normalisation of `manual_input`;
  - the per-label counts of the statistics page.

Modules, one per file:

| file | module | what it holds |
|---|---|---|
| `wrappers.dfy` | `Wrappers` | `Option` and `Outcome` |
| `pystr.dfy` | `PyStr` | CPython-faithful `str.find` (negative starts count from the end), `strip` and `endswith` |
| `heuristics.dfy` | `Labels`, `Heuristics` | the label vocabulary, the per-token rules and the part-of-speech display table |
| `keyorder.dfy` | `KeyOrder` | `sorted(..., key=len, reverse=True)` as a stable insertion sort |
| `spans.dfy` | `Spans` | annotations, the claimed-position set, `TryCommit` and the `CommitAll` fold |
| `merge.dfy` | `Merge` | each pass as the list of candidates it proposes; the imperative passes, proved equal to the fold |
| `merge_properties.dfy` | `MergeProperties` | longest-match precedence, priority between passes, the temporal pass and the cursor quirk, plus a worked example |
| `knowledge.dfy` | `Knowledge` | the knowledge-base class and its handlers |
| `documents.dfy` | `Documents` | the file and annotation tables, status changes and the statistics counts |

How the merge is specified:

- No source looks at the claimed set when it proposes a span. The key scan
  restarts at the end of the previous occurrence whether or not that
  occurrence was committed, and the token cursor moves the same way either
  way.
- So each pass is a list of candidates, and a whole run is
  `CommitAll(Empty, kb ++ heuristic ++ temporal)`.
- The methods `CommitKey`, `CommitKnowledgeBase`, `CommitHeuristics`,
  `CommitTemporal` and `AutoAnnotate` follow the source loops: the
  `while True` key scan, the token loop and the match loop. Each is proved to
  compute that fold.

Inputs that come from outside `app.py`:

- The tokenizer's output is a parameter `seq<(word, flag)>`.
- The sentiment scorer is an oracle `string -> Option<real>`, where `None`
  means the call raised.
- The date regex's `finditer` result is a parameter: `(start, end)` pairs
  that lie inside the text, in increasing order and never overlapping.

Only `a`, `ad` and `d` words longer than one character are scored
(app.py:255). So one-character words such as 很 and 好 never get a sentiment
span, whatever their score.

## Model

| member | source | states |
|---|---|---|
| PyStr.FindFirst | app.py:203-205 | `find` returns the first occurrence at or after the clamped start, and -1 exactly when there is none; a negative start counts from the end |
| PyStr.TrimStart | app.py:146-147 | `lstrip` removes only leading Python white space and leaves a string that starts with a non-space |
| PyStr.TrimEnd | app.py:146-147 | `rstrip` removes only trailing Python white space and leaves a string that ends with a non-space |
| PyStr.StripIdempotent | app.py:146-149 | stripping twice is stripping once; a strip is empty exactly when the string is blank |
| Heuristics.ClassifyCases | app.py:241-261 | nr→人名, ns→地名, nt→组织, t→时间, each as a named entity, both ways; an a/ad/d word longer than one character gets 情感 exactly when its score is above 0.6 or below 0.4; no other token gets a candidate |
| Heuristics.NeutralGivesNothing | app.py:255-261 | scores 0.4 to 0.6 inclusive, a scorer that raises, and one-character words give no sentiment candidate |
| Heuristics.PosCnAgainstEntityRule | app.py:82-107 | unknown flags display as ('其他', 'light'); nr, ns and t display the entity rule's label; nt displays 机构 rather than 组织 |
| KeyOrder.SortByLength | app.py:198 | the result is longest first, is a permutation of the input, and keeps the input order among keys of equal length (a stable sort) |
| Spans.TryCommitConsistent | app.py:193-225 | a commit keeps the merge invariant: spans anchored in the text, pairwise disjoint, and the claimed set equal to the union of their ranges |
| Spans.CommitAllConsistent | app.py:193-317 | any sequence of commits of anchored candidates keeps the merge invariant |
| Spans.CommitAllAppends | app.py:193-317 | commits never remove or reorder an earlier span, and each new span is one of the candidates |
| Spans.CommitAllInTextOrder | app.py:300-317 | candidates that follow one another along the text are committed exactly when they meet nothing claimed before the first of them |
| Merge.CommitKey | app.py:200-227 | the `while True` loop for one key computes the fold of its scan's occurrences into the given state |
| Merge.CommitKnowledgeBase | app.py:196-227 | the loop over the sorted entries computes the fold of the knowledge-base candidates |
| Merge.CommitHeuristics | app.py:229-286 | the token loop with its `current_index` cursor computes the fold of the heuristic candidates |
| Merge.CommitTemporal | app.py:300-317 | the match loop computes the fold of the time candidates |
| Merge.AutoAnnotate | app.py:193-317 | the three passes over one shared claimed set give exactly the specified run; its spans are anchored in the text and pairwise disjoint |
| Merge.KeyCandidateAt | app.py:203-221 | each occurrence the key scan stops at is the key itself, at or after the scan start, with the key's label |
| Merge.KeyCandidatesInOrder | app.py:203-227 | the key scan's occurrences follow one another without overlapping |
| Merge.KeyCandidatesCover | app.py:202-227 | every occurrence of the key at or after the start begins inside an occurrence the scan stopped at |
| Merge.KbCandidatesFacts | app.py:196-227 | every knowledge-base candidate is anchored and is an occurrence of one of the entries with that entry's label |
| Merge.TokenCandidateFacts | app.py:233-280 | a token's span is the first occurrence of its word at or after the cursor; the word is not a knowledge-base key, and the span carries the label the rules give the token |
| Merge.HeuristicCandidatesFacts | app.py:229-286 | every heuristic candidate is anchored and comes from a token that is not a knowledge-base word |
| Merge.TimeCandidatesFacts | app.py:300-317 | one time candidate per match, anchored, labelled 时间, as a named entity, over exactly the match range |
| Merge.AutoAnnotateConsistent | app.py:193-317 | the run keeps the merge invariant; each pass only extends the one before; each pass's spans come from that pass's source |
| MergeProperties.ToDictKeys | app.py:74-77 | the dictionary's keys are the entries' texts |
| MergeProperties.ToDictOfDistinct | app.py:74-77 | with texts unique, the dictionary maps every text to its own label |
| MergeProperties.KbSpansUseDictionary | app.py:196-227 | every knowledge-base span is an anchored dictionary text with that text's label, and is a named entity exactly when the label is one of the four entity labels |
| MergeProperties.SortedFirstIsLongest | app.py:198 | the first key tried is a longest key |
| MergeProperties.FirstKeyOpensThePass | app.py:200-227 | the first key's scan is committed in full, ahead of every other span of the pass |
| MergeProperties.LongestKeyClaimsAllItsOccurrences | app.py:196-227 | a longest key's scan opens the pass, and every occurrence of it in the text begins inside one of its committed spans |
| MergeProperties.EarlierPassesWin | app.py:193-317 | the knowledge-base spans and then the heuristic spans open the final list unchanged, and no later span touches a knowledge-base span |
| MergeProperties.TimeCandidatesInOrder | app.py:300 | the matches give time candidates in text order |
| MergeProperties.TemporalCommitsExactlyTheFreeMatches | app.py:300-317 | the temporal pass appends exactly the matches that meet no position claimed before it, in order; each is the matched slice labelled 时间 as a named entity |
| MergeProperties.CursorAfterMissedKbWord | app.py:235-264 | a knowledge-base word that is not found sets the cursor to -1; the next search then starts at the last character and finds only a word of at most one character, at the end |
| MergeProperties.CursorNeverMovesBackOtherwise | app.py:264-286 | except after a missed knowledge-base word the cursor value grows by at least the word's length, so from a cursor of 0 or more the search never goes back; from the -1 left by a missed knowledge-base word, a word that is not found sets it to its length minus one, near the start of the text |
| MergeProperties.ExampleCursorRestart | app.py:235-286 | over the text abcd, after the missed knowledge-base word zz and the missed word qq, the person word bc is found at 1, so its span [1, 3) crosses the first two tokens |
| MergeProperties.ExampleKeyOrder | app.py:198 | 北京大学 is tried before 北京 |
| MergeProperties.ExampleCommits | app.py:210-212 | a candidate inside a committed span is rejected |
| MergeProperties.ExampleKbPass | app.py:196-227 | over 北京大学, the organisation span is committed and the 北京 place span is rejected |
| MergeProperties.LongestKeySpanIsFinal | app.py:196-317 | every occurrence of a longest knowledge-base key begins inside a span of that key which is in the final list, anchored, and met by no other final span |
| MergeProperties.LongestMatchAnywhere | app.py:183-323 | with entries 北京→地名 and 北京大学→组织, wherever 北京大学 occurs in any text, and whatever the tokens, scores and date matches, the final list holds the span over exactly that occurrence labelled 组织 as a named entity, and no other final span meets it |
| MergeProperties.LongestMatchExample | app.py:183-323 | knowledge entries 北京→地名 and 北京大学→组织 over the text 北京大学 give one span, [0, 4) labelled 组织 |
| Knowledge.AddSpecFacts | app.py:58-66 | the insert adds a row exactly when the text is new and reports true exactly then; it never changes an existing row |
| Knowledge.AddSpecIdempotent | app.py:58-66 | a repeated insert of the same text reports false and changes nothing, whatever its label |
| Knowledge.ImportCountsInsertions | app.py:520-531 | `imported_count` equals the number of rows the import added; existing rows are unchanged |
| Knowledge.ImportRowsComeFromItems | app.py:521-531 | every new row comes from the first object item with that text and non-empty text and label: it has that item's label and the source "import", and a later item with the same text is ignored |
| Knowledge.ImportedTextsArePresent | app.py:521-531 | after the import, every such item's text is in the table |
| Knowledge.KnowledgeBase.Snapshot | app.py:76 | the entries in row order, one per row |
| Knowledge.KnowledgeBase.SnapshotIsDict | app.py:74-77 | the snapshot has each text once, and as a dictionary it is `get_knowledge_dict` |
| Knowledge.KnowledgeBase.SnapshotKeys | app.py:74-77 | the snapshot's texts are the table's keys |
| Knowledge.KnowledgeBase.Add | app.py:58-66 | the table and the result are those of the idempotent insert; a new text goes last in row order |
| Knowledge.KnowledgeBase.AddEntity | app.py:453-466 | a blank text or label is refused with nothing changed; otherwise it succeeds exactly when the stripped text is new, which then goes last in row order; else it reports "already exists" and the row order is unchanged |
| Knowledge.KnowledgeBase.DeleteEntity | app.py:469-483 | an empty text is an error and an unknown text is "not found", both with nothing changed; otherwise exactly that row is removed, from the table and from the row order |
| Knowledge.KnowledgeBase.Clear | app.py:486-491 | the table is empty |
| Knowledge.KnowledgeBase.Import | app.py:514-536 | the table and the count are those of the import loop; the row order is the old order followed by the inserted texts in item order |
| Documents.RowsOfWithoutFile | app.py:414-419 | after the bulk delete the file has no annotations, and every other file keeps exactly its own |
| Documents.AnnotationsReplaced | app.py:189-222 | deleting a file's rows and adding new ones leaves it with exactly the new annotations, whatever it had before, and other files untouched |
| Documents.KbSpansUseKnowledgeBase | app.py:196-227 | run over the knowledge base's own entries, every knowledge-base span is a text of the table with that row's label |
| Documents.TaskFileNameRefusesBlank | app.py:146-150 | a task name is refused exactly when it is blank |
| Documents.TaskFileNameNormal | app.py:152-154 | an accepted name ends in ".txt", starts with the stripped name, and is returned unchanged when typed in again |
| Documents.StatsWithinTotal | app.py:331-344 | the five per-label counts add up to at most the number of annotations, and to exactly that number when every annotation has one of the five labels |
| Documents.Store.CreateFile | app.py:18-24 | a new document under a fresh id, with status 0 |
| Documents.Store.Upload | app.py:119-140 | an empty file name is refused; otherwise a new document with status 0 |
| Documents.Store.ManualInput | app.py:143-160 | a blank task name or blank text is refused; otherwise a new document with the normalised name, the stripped text and status 0 |
| Documents.Store.AutoAnnotate | app.py:183-321 | an unknown file is "not found"; otherwise the file's annotations become exactly the run's spans over the knowledge base's entries (each text once), other files keep theirs, and the status becomes 1 |
| Documents.Store.SaveAnnotation | app.py:373-398 | the row is appended; the file, when it exists, gets status 1; the text and label are offered to the knowledge base as a manual entry, and a new text goes last in its row order |
| Documents.Store.ClearAnnotations | app.py:410-422 | the file's rows go; the file, when it exists, gets status 0 |
| Documents.Store.MarkComplete | app.py:434-440 | the file gets status 2, or the answer is "not found" |
| Documents.Store.DeleteFile | app.py:425-431 | the file and all its rows go, or the answer is "not found" |

## Left out

- Merge.AutoAnnotate: requires every knowledge-base text to be non-empty. The source's `find` loop never ends on an empty text, and `save_annotation` can store one.
- Documents.Store.AutoAnnotate: takes the knowledge-base entries as a value, namely `KnowledgeBase.Snapshot()` when the request arrives, not the table object. `Documents.KbSpansUseKnowledgeBase` ties the two.
- Web routing, templates, redirects, JSON responses and HTTP status codes are left out. Only each handler's decision is modelled, such as "exists → error" or "absent → not found".
- Database sessions and commits are left out. The tables are fields of the two classes, and every handler is one atomic step.
- Timestamps (`upload_time`, `created_time`) and their ordering are left out.
- Document ids come from a counter.
- Annotation rows carry no database id, so `delete_annotation` (app.py:401-407), which deletes one row by id, is not modelled.
- Decoding an upload as UTF-8, with a fall-back to GBK (app.py:130-134), is I/O. The upload's content arrives already decoded.
- Tokenization and sentiment scoring come from foreign NLP libraries. Only their outputs enter the model: the token list and the scorer oracle.
- The pattern engine is not modelled, and neither are the six date patterns (app.py:289-298). Their matches arrive as an input that satisfies `WellFormedMatches`.
- Pages that only read and display are not modelled:
  - the index;
  - the annotate page, except the `get_pos_cn` table;
  - the knowledge-base pages and API;
  - export.

  Their ordering by text (app.py:69-71) is left out with them.
- For the statistics page, only the per-label counts are modelled. The file and annotation totals and the float average `round(total_anns / total_files)` are not.
- Request fields are taken as strings. Import items whose `text` or `label` is a non-string JSON value are not modelled.
