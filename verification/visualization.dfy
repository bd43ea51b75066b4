/**
 * `_get_term_data`, `_get_doc_data` and `to_py_lda_vis`: the merged term and
 * document tables, and the five-field record handed to pyLDAvis.
 */
module Visualization {
  import opened Results
  import opened Frames
  import opened Corpus
  import CorpusStats

  const TermFrequencyLabel: Label := Named("term_frequency")
  const TermLabel: Label := Named("term")
  const DocLengthLabel: Label := Named("doc_length")

  /** The pyLDAvis input; each field lists the values of a pandas object in its index order. */
  datatype Payload = Payload(
    vocab: seq<Cell>,
    termFrequency: seq<Cell>,
    topicTermDists: seq<seq<Cell>>,
    docTopicDists: seq<seq<Cell>>,
    docLengths: seq<Cell>)

  /** The term-frequency counter as a series of counts. */
  function CountSeries(tf: map<TermId, nat>): (s: map<TermId, Cell>)
    ensures s.Keys == tf.Keys
    ensures forall t :: t in tf ==> s[t] == Count(tf[t])
  {
    map t | t in tf :: Count(tf[t])
  }

  /** `_get_vocab`: the vocabulary as a series of words. */
  function WordSeries(vocab: map<TermId, string>): (s: map<TermId, Cell>)
    ensures s.Keys == vocab.Keys
    ensures forall t :: t in vocab ==> s[t] == Text(vocab[t])
  {
    map t | t in vocab :: Text(vocab[t])
  }

  /** No two documents of the corpus share an id. */
  predicate UniqueDocIds(c: Corpus)
  {
    forall i, j :: 0 <= i < j < |c| ==> c[i].id != c[j].id
  }

  /** `pd.Series(doc_lengths, index=id_index)`: each document's length keyed by its id. */
  function LengthSeries(lengths: seq<(DocId, nat)>): (s: map<DocId, Cell>)
    requires forall i, j :: 0 <= i < j < |lengths| ==> lengths[i].0 != lengths[j].0
    ensures forall j :: 0 <= j < |lengths| ==> lengths[j].0 in s && s[lengths[j].0] == Count(lengths[j].1)
    ensures forall id :: id in s ==> exists j :: 0 <= j < |lengths| && lengths[j].0 == id
  {
    map i | 0 <= i < |lengths| :: lengths[i].0 := Count(lengths[i].1)
  }

  /** The term table: the topic-term table with `term_frequency` and then `term` assigned. */
  function TermDataTable(ttd: Table<TermId>, tf: map<TermId, nat>, vocab: map<TermId, string>): (r: Table<TermId>)
    requires ttd.Wellformed()
    ensures r.Wellformed() && r.index == ttd.index
    ensures TermFrequencyLabel in r.labels && TermLabel in r.labels
  {
    WithColumn(WithColumn(ttd, TermFrequencyLabel, CountSeries(tf)), TermLabel, WordSeries(vocab))
  }

  /**
   * The document table: the document-topic table with `doc_length` assigned,
   * or the error computing the lengths raises on an empty corpus.
   */
  function DocDataTable(dtd: Table<DocId>, c: Corpus): (r: Result<Table<DocId>, CorpusStats.LengthsError>)
    requires dtd.Wellformed() && UniqueDocIds(c)
    ensures r.Failure? <==> c == []
    ensures r.Success? ==> r.value.Wellformed() && r.value.index == dtd.index && DocLengthLabel in r.value.labels
  {
    match CorpusStats.DocLengths(c)
    case Failure(e) => Failure(e)
    case Success(lengths) => Success(WithColumn(dtd, DocLengthLabel, LengthSeries(lengths)))
  }

  /** `iloc[:, :-n]` on a list of columns: all but the last `n`, or none when there are fewer. */
  function DropLast<T>(s: seq<T>, n: nat): (r: seq<T>)
    ensures |r| == if n <= |s| then |s| - n else 0
    ensures forall i :: 0 <= i < |r| ==> r[i] == s[i]
  {
    if n <= |s| then s[..|s| - n] else []
  }

  /** Column-major cells as rows: row `i` holds every column's cell `i`. */
  function Rows(cols: seq<seq<Cell>>, n: nat): (rows: seq<seq<Cell>>)
    requires forall j :: 0 <= j < |cols| ==> |cols[j]| == n
    ensures |rows| == n
    ensures forall i, j :: 0 <= i < n && 0 <= j < |cols| ==> |rows[i]| == |cols| && rows[i][j] == cols[j][i]
  {
    seq(n, i requires 0 <= i < n => seq(|cols|, j requires 0 <= j < |cols| => cols[j][i]))
  }

  /**
   * The dictionary built by `to_py_lda_vis` from the two tables. The term
   * table without its last two columns, transposed, is the list of its
   * columns; the document table without its last column stays one row per document.
   */
  function Project(term: Table<TermId>, doc: Table<DocId>): (p: Payload)
    requires term.Wellformed() && doc.Wellformed()
    requires TermLabel in term.labels && TermFrequencyLabel in term.labels && DocLengthLabel in doc.labels
    ensures |p.vocab| == |term.index| && |p.termFrequency| == |term.index|
    ensures forall k :: 0 <= k < |p.topicTermDists| ==> |p.topicTermDists[k]| == |term.index|
    ensures |p.docTopicDists| == |doc.index| && |p.docLengths| == |doc.index|
    ensures forall d :: 0 <= d < |doc.index| ==> |p.docTopicDists[d]| == |doc.columns| - 1
  {
    Payload(
      Column(term, TermLabel),
      Column(term, TermFrequencyLabel),
      DropLast(term.columns, 2),
      Rows(DropLast(doc.columns, 1), |doc.index|),
      Column(doc, DocLengthLabel))
  }

  /** The record `to_py_lda_vis` returns, or the error it raises first. */
  function VisPayload(ttd: Table<TermId>, dtd: Table<DocId>, c: Corpus, vocab: map<TermId, string>)
    : (r: Result<Payload, CorpusStats.LengthsError>)
    requires ttd.Wellformed() && dtd.Wellformed() && UniqueDocIds(c)
    ensures r.Failure? <==> c == []
    ensures r.Failure? ==> r.error == CorpusStats.EmptyCorpus
  {
    match DocDataTable(dtd, c)
    case Failure(e) => Failure(e)
    case Success(doc) => Success(Project(TermDataTable(ttd, CorpusStats.Tally(c), vocab), doc))
  }

  /** `_get_term_data`: assigns the two columns to the frame `_get_topic_term_dists` returned. */
  method GetTermData(ttd: Frame<TermId>, c: Corpus, vocab: map<TermId, string>) returns (df: Frame<TermId>)
    requires ttd.table.Wellformed()
    modifies ttd
    ensures df == ttd
    ensures df.table == TermDataTable(old(ttd.table), CorpusStats.Tally(c), vocab)
  {
    var tf := CorpusStats.TermFrequency(c);
    df := ttd;
    df.SetColumn(TermFrequencyLabel, CountSeries(tf));
    df.SetColumn(TermLabel, WordSeries(vocab));
  }

  /**
   * `_get_doc_data`: assigns the length column to the frame
   * `_get_doc_topic_dists` returned; when computing the lengths raises, the
   * frame is left as it was.
   */
  method GetDocData(dtd: Frame<DocId>, c: Corpus) returns (r: Result<Frame<DocId>, CorpusStats.LengthsError>)
    requires dtd.table.Wellformed() && UniqueDocIds(c)
    modifies dtd
    ensures r.Failure? <==> c == []
    ensures r.Failure? ==> r.error == CorpusStats.EmptyCorpus && dtd.table == old(dtd.table)
    ensures r.Success? ==> r.value == dtd && dtd.table == DocDataTable(old(dtd.table), c).value
  {
    var lengths := CorpusStats.DocLengths(c);
    if lengths.Failure? {
      return Failure(lengths.error);
    }
    dtd.SetColumn(DocLengthLabel, LengthSeries(lengths.value));
    return Success(dtd);
  }

  /**
   * `to_py_lda_vis`: builds the document table, then the term table, in
   * place, and projects them. On an empty corpus the first step raises, so
   * neither frame changes.
   */
  method ToPyLdaVis(ttd: Frame<TermId>, dtd: Frame<DocId>, c: Corpus, vocab: map<TermId, string>)
    returns (r: Result<Payload, CorpusStats.LengthsError>)
    requires ttd.table.Wellformed() && dtd.table.Wellformed() && UniqueDocIds(c)
    modifies ttd, dtd
    ensures r == VisPayload(old(ttd.table), old(dtd.table), c, vocab)
    ensures c == [] ==> ttd.table == old(ttd.table) && dtd.table == old(dtd.table)
    ensures c != [] ==> ttd.table == TermDataTable(old(ttd.table), CorpusStats.Tally(c), vocab)
    ensures c != [] ==> dtd.table == DocDataTable(old(dtd.table), c).value
  {
    var doc := GetDocData(dtd, c);
    if doc.Failure? {
      return Failure(doc.error);
    }
    var docDf := doc.value;
    var termDf := GetTermData(ttd, c, vocab);
    r := Success(Payload(
      Column(termDf.table, TermLabel),
      Column(termDf.table, TermFrequencyLabel),
      DropLast(termDf.table.columns, 2),
      Rows(DropLast(docDf.table.columns, 1), |docDf.table.index|),
      Column(docDf.table, DocLengthLabel)));
  }

  /** The topic-term table carries only topic columns. */
  predicate TopicColumnsOnly<K>(t: Table<K>)
  {
    forall l :: l in t.labels ==> l.Topic?
  }

  /**
   * Field alignment of the payload built from a topic-term table, a
   * document-topic table and a non-empty corpus: `vocab`, `term_frequency`
   * and every row of `topic_term_dists` follow the term table's index;
   * `topic_term_dists` is its topic columns, one row per topic;
   * `doc_topic_dists` and `doc_lengths` follow the document table's index,
   * with each document's length (NaN for an id the corpus lacks).
   */
  lemma PayloadAlignment(ttd: Table<TermId>, dtd: Table<DocId>, c: Corpus, vocab: map<TermId, string>)
    requires ttd.Wellformed() && dtd.Wellformed() && UniqueDocIds(c)
    requires TopicColumnsOnly(ttd) && TopicColumnsOnly(dtd)
    ensures c != [] ==> var tf, p := CorpusStats.Tally(c), VisPayload(ttd, dtd, c, vocab).value;
      && p.topicTermDists == ttd.columns
      && |p.vocab| == |ttd.index| && |p.termFrequency| == |ttd.index|
      && (forall i :: 0 <= i < |ttd.index| ==>
            p.vocab[i] == (if ttd.index[i] in vocab then Text(vocab[ttd.index[i]]) else Missing))
      && (forall i :: 0 <= i < |ttd.index| ==>
            p.termFrequency[i] == (if ttd.index[i] in tf then Count(tf[ttd.index[i]]) else Missing))
      && |p.docTopicDists| == |dtd.index| && |p.docLengths| == |dtd.index|
      && (forall d :: 0 <= d < |dtd.index| ==> |p.docTopicDists[d]| == |dtd.columns|)
      && (forall d, k :: 0 <= d < |dtd.index| && 0 <= k < |dtd.columns| ==> p.docTopicDists[d][k] == dtd.columns[k][d])
      && (forall d, j :: 0 <= d < |dtd.index| && 0 <= j < |c| && c[j].id == dtd.index[d] ==>
            p.docLengths[d] == Count(|c[j].bow|))
      && (forall d :: 0 <= d < |dtd.index| && (forall j :: 0 <= j < |c| ==> c[j].id != dtd.index[d]) ==>
            p.docLengths[d] == Missing)
  {
    if c != [] {
      TermTableColumns(ttd, CorpusStats.Tally(c), vocab);
      DocTableColumns(dtd, c);
    }
  }

  /** The term table keeps the topic columns first and reads `term_frequency` and `term` by term id. */
  lemma TermTableColumns(ttd: Table<TermId>, tf: map<TermId, nat>, vocab: map<TermId, string>)
    requires ttd.Wellformed() && TopicColumnsOnly(ttd)
    ensures var term := TermDataTable(ttd, tf, vocab);
      && DropLast(term.columns, 2) == ttd.columns
      && (forall i :: 0 <= i < |ttd.index| ==>
            Column(term, TermLabel)[i] == (if ttd.index[i] in vocab then Text(vocab[ttd.index[i]]) else Missing))
      && (forall i :: 0 <= i < |ttd.index| ==>
            Column(term, TermFrequencyLabel)[i] == (if ttd.index[i] in tf then Count(tf[ttd.index[i]]) else Missing))
  {
    var withTf := WithColumn(ttd, TermFrequencyLabel, CountSeries(tf));
    WithColumnEffect(ttd, TermFrequencyLabel, CountSeries(tf));
    WithColumnEffect(withTf, TermLabel, WordSeries(vocab));
    var term := WithColumn(withTf, TermLabel, WordSeries(vocab));
    assert term.columns == ttd.columns + [Column(withTf, TermFrequencyLabel), Column(term, TermLabel)];
  }

  /** The document table keeps the topic columns first and reads `doc_length` by document id. */
  lemma DocTableColumns(dtd: Table<DocId>, c: Corpus)
    requires dtd.Wellformed() && UniqueDocIds(c) && TopicColumnsOnly(dtd) && c != []
    ensures var doc := DocDataTable(dtd, c).value;
      && DropLast(doc.columns, 1) == dtd.columns
      && (forall d, j :: 0 <= d < |dtd.index| && 0 <= j < |c| && c[j].id == dtd.index[d] ==>
            Column(doc, DocLengthLabel)[d] == Count(|c[j].bow|))
      && (forall d :: 0 <= d < |dtd.index| && (forall j :: 0 <= j < |c| ==> c[j].id != dtd.index[d]) ==>
            Column(doc, DocLengthLabel)[d] == Missing)
  {
    var lengths := CorpusStats.DocLengths(c).value;
    assert forall j :: 0 <= j < |c| ==> lengths[j] == (c[j].id, |c[j].bow|);
    WithColumnEffect(dtd, DocLengthLabel, LengthSeries(lengths));
  }
}
