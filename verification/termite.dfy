/**
 * `termite_data`: the top-words table flattened into long-format rows
 * (topic index, weight, word), topic by topic.
 */
module Termite {
  import opened Results
  import opened Corpus
  import opened Topics

  datatype Row = Row(topic: nat, weight: real, word: string)

  /** The rows `{"topic": k, "weight": weight, "word": word}` of one topic's list. */
  function TopicRows(k: nat, words: TopicWords): (rows: seq<Row>)
    ensures |rows| == |words|
    ensures forall r :: r in rows ==> r.topic == k
    ensures forall i :: 0 <= i < |words| ==> rows[i].weight == words[i].0 && rows[i].word == words[i].1
  {
    seq(|words|, i requires 0 <= i < |words| => Row(k, words[i].0, words[i].1))
  }

  /** The total number of pairs in the table: no topic's list is longer. */
  function TotalLength(tw: seq<TopicWords>): (total: nat)
    ensures forall k :: 0 <= k < |tw| ==> |tw[k]| <= total
  {
    if tw == [] then 0
    else
      var front := tw[..|tw| - 1];
      assert forall k :: 0 <= k < |front| ==> front[k] == tw[k];
      TotalLength(front) + |tw[|tw| - 1]|
  }

  /**
   * `chain.from_iterable` over `enumerate(top_words)`: one row per pair of the
   * table, each tagged with the index of a topic of the table.
   */
  function Flatten(tw: seq<TopicWords>): (rows: seq<Row>)
    ensures |rows| == TotalLength(tw)
    ensures forall r :: r in rows ==> r.topic < |tw|
  {
    if tw == [] then [] else Flatten(tw[..|tw| - 1]) + TopicRows(|tw| - 1, tw[|tw| - 1])
  }

  lemma {:induction false} TotalLengthPrefix(tw: seq<TopicWords>, k: nat)
    requires k < |tw|
    ensures TotalLength(tw[..k]) + |tw[k]| <= TotalLength(tw)
    decreases |tw|
  {
    var last := |tw| - 1;
    if k < last {
      assert tw[..last][..k] == tw[..k];
      TotalLengthPrefix(tw[..last], k);
    } else {
      assert tw[..k] == tw[..last];
    }
  }

  /**
   * Pair `i` of topic `k` becomes the row at offset `TotalLength(tw[..k]) + i`,
   * with topic index `k`: the rows are the concatenation of the topics' lists
   * in topic order, each list in its own order.
   */
  lemma {:induction false} FlattenAt(tw: seq<TopicWords>, k: nat, i: nat)
    requires k < |tw| && i < |tw[k]|
    ensures TotalLength(tw[..k]) + i < |Flatten(tw)|
    ensures Flatten(tw)[TotalLength(tw[..k]) + i] == Row(k, tw[k][i].0, tw[k][i].1)
    decreases |tw|
  {
    TotalLengthPrefix(tw, k);
    var last := |tw| - 1;
    var front := tw[..last];
    assert Flatten(tw) == Flatten(front) + TopicRows(last, tw[last]);
    if k < last {
      assert front[..k] == tw[..k];
      FlattenAt(front, k, i);
    } else {
      assert tw[..k] == front;
    }
  }

  /** When every topic keeps `c` pairs, the table holds `|tw| * c` rows. */
  lemma {:induction false} UniformLength(tw: seq<TopicWords>, c: nat)
    requires forall k :: 0 <= k < |tw| ==> |tw[k]| == c
    ensures TotalLength(tw) == |tw| * c
  {
    if tw != [] {
      UniformLength(tw[..|tw| - 1], c);
    }
  }

  /**
   * What `termite_data(topn_words)` returns or raises (15 words per topic by
   * default): it raises exactly what `get_top_words` raises, and otherwise
   * holds one row per pair, each tagged with a topic of the matrix.
   */
  function TermiteData(m: Matrix, vocab: map<TermId, string>, topnWords: int := 15): (r: Result<seq<Row>, TopWordsError>)
    requires m.Valid()
    ensures r.Success? <==> TopWords(m, vocab, topnWords).Success?
    ensures r.Failure? ==> r.error == TopWords(m, vocab, topnWords).error
    ensures r.Success? ==> |r.value| == TotalLength(TopWords(m, vocab, topnWords).value)
    ensures r.Success? ==> forall row :: row in r.value ==> row.topic < m.topics
  {
    match TopWords(m, vocab, topnWords)
    case Failure(e) => Failure(e)
    case Success(tw) => Success(Flatten(tw))
  }

  /** With `c` pairs per topic, pair `i` of topic `k` is row `k * c + i`. */
  lemma FlattenUniformAt(tw: seq<TopicWords>, c: nat, k: nat, i: nat)
    requires forall j :: 0 <= j < |tw| ==> |tw[j]| == c
    requires k < |tw| && i < c
    ensures |Flatten(tw)| == |tw| * c
    ensures k * c + i < |Flatten(tw)|
    ensures Flatten(tw)[k * c + i] == Row(k, tw[k][i].0, tw[k][i].1)
  {
    UniformLength(tw, c);
    assert forall j :: 0 <= j < |tw[..k]| ==> |tw[..k][j]| == c;
    UniformLength(tw[..k], c);
    FlattenAt(tw, k, i);
  }

  /** Every list of a successful table has the slice's length. */
  lemma UniformTable(m: Matrix, vocab: map<TermId, string>, topnWords: int)
    requires m.Valid() && TopWords(m, vocab, topnWords).Success? && m.topics > 0
    ensures PartitionAccepts(m.terms, topnWords)
    ensures |TopWords(m, vocab, topnWords).value| == m.topics
    ensures forall j :: 0 <= j < m.topics ==> |TopWords(m, vocab, topnWords).value[j]| == SliceLength(m.terms, topnWords)
  {
    TopWordsTopic(m, vocab, topnWords, 0);
    forall j | 0 <= j < m.topics ensures |TopWords(m, vocab, topnWords).value[j]| == SliceLength(m.terms, topnWords) {
      TopWordsTopic(m, vocab, topnWords, j);
    }
  }

  /**
   * A successful `termite_data(n)` has `topics * c` rows, where `c` is the
   * per-topic list length (`n` itself when `0 < n <= terms`); row `k * c + i`
   * is pair `i` of topic `k`, so every topic index appears exactly `c` times
   * in a contiguous block whose weights do not increase.
   */
  lemma TermiteShape(m: Matrix, vocab: map<TermId, string>, topnWords: int, k: nat, i: nat)
    requires m.Valid() && TermiteData(m, vocab, topnWords).Success?
    requires k < m.topics && i < SliceLength(m.terms, topnWords)
    ensures |TopWords(m, vocab, topnWords).value| == m.topics
    ensures |TopWords(m, vocab, topnWords).value[k]| == SliceLength(m.terms, topnWords)
    ensures var rows, c, w := TermiteData(m, vocab, topnWords).value, SliceLength(m.terms, topnWords), TopWords(m, vocab, topnWords).value[k];
      && |rows| == m.topics * c
      && (0 < topnWords <= m.terms ==> |rows| == m.topics * topnWords)
      && k * c + i < |rows|
      && rows[k * c + i] == Row(k, w[i].0, w[i].1)
      && (i + 1 < c ==> k * c + i + 1 < |rows| && rows[k * c + i].weight >= rows[k * c + i + 1].weight)
  {
    assert TopWords(m, vocab, topnWords).Success?;
    var tw := TopWords(m, vocab, topnWords).value;
    var c := SliceLength(m.terms, topnWords);
    UniformTable(m, vocab, topnWords);
    FlattenUniformAt(tw, c, k, i);
    if i + 1 < c {
      FlattenUniformAt(tw, c, k, i + 1);
      TopWordsTopic(m, vocab, topnWords, k);
      assert tw[k][i].0 >= tw[k][i + 1].0;
    }
  }
}
