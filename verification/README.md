# topik result layer in Dafny

A model of `TopicModelResultBase` and `load_model` from topik's
`topik/models/base_model_output.py`: the logic every topic model of the
toolkit shares once a fitting algorithm has produced its weight matrices.

- **Top words** (`get_top_words`, module `Topics`): for each topic, a column of
  the term-by-topic matrix `dz`, the `topn` heaviest terms, heaviest first, as
  (weight, word) pairs. numpy's `argpartition`/`argsort` pair is modelled by
  the ranking in module `Ranking`: heavier first, and lower term id first on equal
  weight. The slice `[-topn:]` and numpy's bound on `kth = -topn` are modelled
  exactly. So `topn = 0` keeps every term, a negative `topn` keeps all but `-topn`
  terms, and a `topn` above the number of terms raises (`KthOutOfBounds`, carrying
  the `kth` and the size numpy reports). numpy checks `kth` only on a non-empty
  array, so with no terms every topic's list is empty whatever `topn` is. A
  selected id missing from the vocabulary raises `UnknownTermId`, the
  `KeyError`. With no topics the loop never runs and nothing is raised.
- **Termite export** (`termite_data`, module `Termite`): the top-words table
  flattened to (topic, weight, word) rows, topic by topic; `topn_words`
  defaults to 15.
- **Corpus statistics** (module `CorpusStats`): `_get_term_frequency` is a
  `Counter` updated with `dict(doc)` for each document. A repeated id inside
  one document keeps only its last count, and keys with count zero stay.
  `_get_doc_lengths` gives `(id, len(doc))` per document, in corpus order. On an
  empty corpus, unpacking `zip(*[])` into two names raises `ValueError`
  (`EmptyCorpus`), so `_get_doc_data` and `to_py_lda_vis` raise before either
  frame changes.
- **Tables and payload** (modules `Frames`, `Visualization`): a DataFrame is a
  class holding an index, labelled columns and cells. Column assignment aligns
  the series on the index and writes NaN (`Missing`) where the series has no
  entry; a frame with no rows is the exception (see "Left out"). `_get_term_data` and `_get_doc_data` assign columns in place to the
  frames the concrete model supplies. `to_py_lda_vis` projects them into the
  five-field pyLDAvis record.
- **Save/load** (module `Persistence`): `save` files
  `{"class", "saved_data"}` in the persistor under the model's name.
  `load_model` looks the name up and applies the registered constructor to the
  saved arguments.

Points of the code's behaviour worth stating:
- `_get_doc_lengths` counts the pairs of a document's bag of words. That is its
  number of distinct terms when no id repeats within the bag, and never its
  token total: the documents {a:2, b:1} and {a:1, c:3} get lengths 2 and 2
  (`CorpusStats.ExampleLengths`).
- For that corpus the term frequencies are {a:3, b:1, c:3}
  (`CorpusStats.ExampleTally`).
- `topic_term_dists` is the term table without its last two columns,
  transposed. That is topics by terms, one row per topic, as pyLDAvis expects.
- When there is at least one term, a `topn` above the number of terms raises numpy's error; nothing clamps it.

## Model

| member | source | states |
|---|---|---|
| `Ranking.Insert` | topik/models/base_model_output.py:35-36 | inserting an id into a ranked list keeps its ids and adds exactly the new one |
| `Ranking.InsertOrdered` | topik/models/base_model_output.py:35-36 | inserting a new id keeps the list in strict rank order (heavier first, lower id first on ties) |
| `Ranking.Ranked` | topik/models/base_model_output.py:35-36 | the ranking of a topic lists every term id exactly once |
| `Ranking.RankedOrdered` | topik/models/base_model_output.py:35-36 | the ranking is in strict rank order |
| `Ranking.TopIds` | topik/models/base_model_output.py:35-36 | the selection holds `count` ids, each a row of the topic |
| `Ranking.TopIdsSelect` | topik/models/base_model_output.py:35-36 | the first `count` ranked ids are distinct rows with non-increasing weights, and no unselected term outweighs a selected one (a tie goes to the lower id) |
| `Topics.SliceLength` | topik/models/base_model_output.py:35 | `[-topn:]` keeps `topn` ids when `0 < topn <= terms`, all ids for `topn = 0`, at least one id when there are terms, none when there are none |
| `Topics.PartitionAccepts` | topik/models/base_model_output.py:35 | numpy accepts `kth = -topn` exactly when the array is empty, or `0 < topn <= terms`, or `topn <= 0` with `-topn` below the number of terms |
| `Topics.ReportedKth` | topik/models/base_model_output.py:35 | the `kth` numpy checks and reports is `-topn` counted from the end; on a non-empty array the partition is accepted exactly when that `kth` is a position of the array |
| `Topics.SelectedIds` | topik/models/base_model_output.py:35-36 | the selection has the slice's length and only holds rows of the topic |
| `Topics.Words` | topik/models/base_model_output.py:37 | the pairs succeed exactly when every id is in the vocabulary; each pair is the matrix cell and the word of its id; otherwise the error names the first missing id |
| `Topics.TopicEntry` | topik/models/base_model_output.py:35-37 | one topic raises numpy's error (with the reported `kth` and size) exactly when numpy rejects the partition; on success its list has the slice's length |
| `Topics.TopWordsUpTo` | topik/models/base_model_output.py:31-38 | after `k` topics a successful table holds `k` lists |
| `Topics.TopWords` | topik/models/base_model_output.py:31-38 | a successful table holds one list per topic; with no topics it is empty and nothing is raised |
| `Topics.GetTopWords` | topik/models/base_model_output.py:31-38 | the loop over topics returns exactly the top-words table, or the first exception it raises |
| `Topics.UpToEntries` | topik/models/base_model_output.py:34-37 | after `k` topics the table holds one list per topic, in column order, each the topic's own entry |
| `Topics.UpToSucceeds` | topik/models/base_model_output.py:34-37 | if every topic's entry succeeds, so does the table |
| `Topics.FailureStays` | topik/models/base_model_output.py:34-37 | once a topic raises, the whole call raises that exception |
| `Topics.TopWordsSucceeds` | topik/models/base_model_output.py:34-37 | `get_top_words` succeeds exactly when there are no topics, or numpy accepts `kth = -topn` (always, when there are no terms) and the vocabulary knows every selected id |
| `Topics.TopWordsBadTopn` | topik/models/base_model_output.py:35 | with at least one topic, a `topn` numpy rejects (which needs at least one term) raises numpy's error with the reported `kth` and size |
| `Topics.TopWordsNoTerms` | topik/models/base_model_output.py:34-37 | with no terms, every topic's list is empty whatever `topn` is |
| `Topics.TopWordsTopic` | topik/models/base_model_output.py:34-38 | one list per topic; each has the slice's length (exactly `topn` when `0 < topn <= terms`); each pair is `(dz[id][k], id2word[id])`; ids distinct; weights non-increasing; no unselected term outweighs a selected one |
| `Termite.TotalLengthPrefix` | topik/models/base_model_output.py:168-170 | the topics before `k` and topic `k` together hold no more pairs than the table |
| `Termite.FlattenAt` | topik/models/base_model_output.py:168-170 | pair `i` of topic `k` is the row right after the rows of earlier topics, with topic index `k`: topic order and within-topic order are kept |
| `Termite.UniformLength` | topik/models/base_model_output.py:168-170 | topics of `c` pairs each give `topics * c` rows |
| `Termite.TopicRows` | topik/models/base_model_output.py:168-169 | one row per pair of a topic's list, in order, each with that topic's index and the pair's weight and word |
| `Termite.TotalLength` | topik/models/base_model_output.py:168-170 | the row count of the export: no topic's list is longer than it |
| `Termite.Flatten` | topik/models/base_model_output.py:168-170 | the export has one row per pair of the table, and every row's topic index is a 0-based topic position |
| `Termite.TermiteData` | topik/models/base_model_output.py:127-170 | `termite_data` raises exactly what `get_top_words` raises; otherwise it has one row per pair, each tagged with a topic of the matrix; `topn_words` defaults to 15 |
| `Termite.FlattenUniformAt` | topik/models/base_model_output.py:168-170 | with `c` pairs per topic the export has `topics * c` rows and pair `i` of topic `k` is row `k * c + i`, tagged `k` |
| `Termite.UniformTable` | topik/models/base_model_output.py:34-38 | a successful table has one list per topic, each of the slice's length |
| `Termite.TermiteShape` | topik/models/base_model_output.py:127-170 | `termite_data(n)` has `topics * c` rows (`topics * n` when `0 < n <= terms`, 15 for 3 topics and n = 5); row `k * c + i` is pair `i` of topic `k`; weights do not increase within a topic's block |
| `CorpusStats.BowDict` | topik/models/base_model_output.py:98 | `dict(doc)` has exactly the ids the bag mentions as keys |
| `CorpusStats.Get` | topik/models/base_model_output.py:98 | reading a counter gives the stored count of a present key and zero for a missing one |
| `CorpusStats.AddCounts` | topik/models/base_model_output.py:98 | `Counter.update` keeps the keys of both counters and each key reads as the sum of its two counts (a missing key as zero) |
| `CorpusStats.Tally` | topik/models/base_model_output.py:96-100 | the counter's keys are exactly the term ids occurring in some document |
| `CorpusStats.AddCountsSplit` | topik/models/base_model_output.py:98 | `Counter.update` is the update of all keys but one, followed by that key |
| `CorpusStats.UpdateStep` | topik/models/base_model_output.py:98 | adding one more key of `d` to a partial update gives the update over that key as well |
| `CorpusStats.UpdateDone` | topik/models/base_model_output.py:98 | the partial update over every key of `d` is the whole update |
| `CorpusStats.AddNothing` | topik/models/base_model_output.py:98 | updating with an empty counter leaves it unchanged |
| `CorpusStats.CounterUpdate` | topik/models/base_model_output.py:98 | the key-by-key update loop computes `Counter.update` |
| `CorpusStats.TermFrequency` | topik/models/base_model_output.py:96-100 | one pass over the corpus yields the counter of all documents, in order |
| `CorpusStats.BowDictCounts` | topik/models/base_model_output.py:98 | on a bag without repeated ids, `dict(doc)` holds each term's count |
| `CorpusStats.NotInIdsCountsZero` | topik/models/base_model_output.py:98 | a term the bag does not mention counts zero in it |
| `CorpusStats.TallyCounts` | topik/models/base_model_output.py:96-100 | on bags without repeated ids, each counter value is that term's counts summed over all documents |
| `CorpusStats.AddCountsTotal` | topik/models/base_model_output.py:98 | `Counter.update` adds the totals of the two counters |
| `CorpusStats.TotalBelowUpdate` | topik/models/base_model_output.py:98 | setting one key changes the total by the difference of its values |
| `CorpusStats.TotalBelowSame` | topik/models/base_model_output.py:98 | counters that agree on every id have the same total |
| `CorpusStats.TotalBelowEmpty` | topik/models/base_model_output.py:97 | the fresh `Counter()` totals zero |
| `CorpusStats.BowDictTotal` | topik/models/base_model_output.py:98 | on a bag without repeated ids, `dict(doc)` totals the bag's counts |
| `CorpusStats.TallyTotal` | topik/models/base_model_output.py:96-100 | conservation: the term frequencies add up to the sum of every count in the corpus |
| `CorpusStats.DocLengths` | topik/models/base_model_output.py:107-110 | unpacking raises exactly on an empty corpus; otherwise there is one entry per document |
| `CorpusStats.DistinctIdsCount` | topik/models/base_model_output.py:108 | a bag without repeated ids mentions as many ids as it has pairs |
| `CorpusStats.LengthBelowTotal` | topik/models/base_model_output.py:108 | with every count at least one, a bag has no more pairs than tokens |
| `CorpusStats.DocLengthsMeaning` | topik/models/base_model_output.py:107-110 | on a corpus holding document `i`, entry `i` is that document's id and `len(doc)`: its number of distinct terms when no id repeats, at most its token total when every count is positive |
| `CorpusStats.AddCountsFromEmpty` | topik/models/base_model_output.py:97-98 | updating the empty counter with `d` gives `d` |
| `CorpusStats.ExampleDicts` | topik/models/base_model_output.py:98 | `dict(doc)` of the two example bags |
| `CorpusStats.ExampleSum` | topik/models/base_model_output.py:98 | the two example dictionaries add up to {a:3, b:1, c:3} |
| `CorpusStats.ExampleTally` | topik/models/base_model_output.py:96-100 | the example corpus has frequencies {a:3, b:1, c:3} |
| `CorpusStats.ExampleLengths` | topik/models/base_model_output.py:107-110 | the example corpus has lengths 2 and 2, while its documents hold 3 and 4 tokens |
| `Frames.Position` | topik/models/base_model_output.py:120-124 | a present label is found at a position holding it |
| `Frames.Column` | topik/models/base_model_output.py:120-124 | `df[label]` has one cell per index entry |
| `Frames.Aligned` | topik/models/base_model_output.py:89-90 | a series reindexed on the frame has one cell per index entry |
| `Frames.WithColumn` | topik/models/base_model_output.py:89-90 | column assignment keeps the frame well formed and its index unchanged |
| `Frames.WithColumnEffect` | topik/models/base_model_output.py:89-90 | after `df[l] = series`, `df[l]` is the series aligned on the index (NaN where absent), every other column is unchanged, and a new label goes last |
| `Frames.PositionUnique` | topik/models/base_model_output.py:120-124 | with distinct labels, a label's position is the one holding it |
| `Frames.Frame.SetColumn` | topik/models/base_model_output.py:89-90 | assignment changes the frame in place to the table with that column set |
| `Visualization.DropLast` | topik/models/base_model_output.py:122-123 | `iloc[:, :-n]` keeps the leading columns in order, all but the last `n` |
| `Visualization.CountSeries` | topik/models/base_model_output.py:100 | `pd.Series(dict(tf))` has the counter's keys, each with its count |
| `Visualization.WordSeries` | topik/models/base_model_output.py:93-94 | `_get_vocab` has the dictionary's ids as keys, each with its word |
| `Visualization.Rows` | topik/models/base_model_output.py:123 | `iloc` keeps one row per document holding each remaining column's cell |
| `Visualization.LengthSeries` | topik/models/base_model_output.py:107-110 | with distinct ids, the length series maps each document id to its length and holds no other key |
| `Visualization.TermDataTable` | topik/models/base_model_output.py:84-91 | the term table keeps the topic-term index and carries `term_frequency` and `term` |
| `Visualization.DocDataTable` | topik/models/base_model_output.py:102-105 | the document table raises exactly on an empty corpus; otherwise it keeps the document index and carries `doc_length` |
| `Visualization.Project` | topik/models/base_model_output.py:120-124 | `vocab` and `term_frequency` follow the term index, each `topic_term_dists` row has one cell per term, and `doc_topic_dists` and `doc_lengths` follow the document index with one cell per topic column |
| `Visualization.VisPayload` | topik/models/base_model_output.py:116-125 | `to_py_lda_vis` raises exactly on an empty corpus, with the unpacking error |
| `Visualization.GetTermData` | topik/models/base_model_output.py:84-91 | the caller's topic-term frame itself gains `term_frequency` (the corpus counter) and then `term` (the vocabulary) |
| `Visualization.GetDocData` | topik/models/base_model_output.py:102-110 | on an empty corpus it raises and the frame is unchanged; otherwise the caller's document-topic frame itself gains `doc_length` |
| `Visualization.ToPyLdaVis` | topik/models/base_model_output.py:116-125 | the result is the payload or error of the two tables built from the frames and the corpus; on an empty corpus neither frame changes; otherwise the term frame gains `term_frequency` and `term` and the document frame gains `doc_length` |
| `Visualization.PayloadAlignment` | topik/models/base_model_output.py:116-125 | for a non-empty corpus: `vocab`, `term_frequency` and each `topic_term_dists` row follow the term index; `topic_term_dists` is exactly the topic columns, topics by terms; `doc_topic_dists` rows and `doc_lengths` follow the document index, each document with its length |
| `Visualization.TermTableColumns` | topik/models/base_model_output.py:84-91 | the term table keeps the topic columns first, with `term_frequency` and `term` read by term id (NaN where absent) |
| `Visualization.DocTableColumns` | topik/models/base_model_output.py:102-110 | the document table keeps the topic columns first, with `doc_length` read by document id (NaN where absent) |
| `Persistence.Persistor.StoreModel` | topik/models/base_model_output.py:71-73 | storing sets one name's record |
| `Persistence.Save` | topik/models/base_model_output.py:71-73 | the record `{class, saved_data}` is filed under the model's name, and no other entry changes |
| `Persistence.LoadModel` | topik/models/base_model_output.py:177-191 | `NameError` exactly when the name is not in the catalogue |
| `Persistence.LoadModelCases` | topik/models/base_model_output.py:186-190 | success exactly when the name is present and its class registered, returning `registry[class](saved_data)`; an unregistered class fails naming that class |
| `Persistence.SaveThenLoad` | topik/models/base_model_output.py:186-190 | after `save`, loading that name rebuilds through the saved class and arguments, and every other name loads as before |

## Left out

- Weights are mathematical reals. numpy floating point (rounding, NaN weights) is not modelled.
- The order numpy gives equal weights is unspecified. The model fixes it: lower term id first.
- `self._corpus.save(filename)` (line 74) is not modelled. Neither is the JSON file behind `Persistor(filename)` (line 185) or the `_persistor` property (lines 172-174). The store is a map of names to records.
- `get_model_name_with_parameters`, `doc_topic_dists`, `_get_topic_term_dists` and `_get_doc_topic_dists` belong to the concrete model classes. They are not part of this model. Their results are parameters: the model name, and the two frames.
- `registered_models` is filled by `topik.models`, which is not part of this model. It is a parameter mapping class names to constructors. A constructor that rejects its keyword arguments is not modelled: constructors are total functions.
- `term_topic_matrix` (lines 76-77) reads an attribute and returns nothing. It has no effect to model.
- The abstract-method machinery, the unreachable docstring and `raise` after `return` (lines 39-47), and the doctest-only imports (lines 9-10) are not modelled.
- Frames.WithColumn: a frame with no rows is modelled like any other, keeping its empty index and getting an empty column. pandas instead makes such a frame adopt the index of an assigned non-empty series, with NaN in its existing columns. `WithColumnEffect`, `Frame.SetColumn`, `TermDataTable`, `DocDataTable` and the payload lemmas therefore do not describe that case. For example, a term frame with no rows gives an empty `vocab`, where pandas gives one entry per vocabulary word.
- Frames.Table.Wellformed assumes distinct column labels. pandas allows repeated labels, and frames with them are not modelled.
- Termite.TermiteData: `termite_data` is modelled over the base class's `get_top_words`. Concrete models may override that method (it is declared abstract at line 30). `Flatten` and `FlattenAt` hold for any table.
- pandas details are not modelled: the index labels that the payload's Series carry, and the dtype change to float when a NaN lands in an integer column.
- `Visualization.GetDocData` and `Visualization.ToPyLdaVis` require distinct document ids. A corpus that repeats an id gives a length series with a duplicated index label, and how pandas aligns such a series is not modelled; the requires excludes that corpus.
- The text of numpy's error message is not modelled; `KthOutOfBounds` carries the two numbers it reports.
- The vocabulary is given as a map from term id to word; the corpus's own dictionary object is not modelled.
