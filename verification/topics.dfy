/**
 * `get_top_words`: for every topic (a column of the term-by-topic weight
 * matrix `dz`) the best-weighted terms, heaviest first, as (weight, word) pairs.
 */
module Topics {
  import opened Results
  import opened Corpus
  import Ranking

  /** The term-by-topic weight matrix `dz`: `cells[t][k]` is the weight of term `t` in topic `k`. */
  datatype Matrix = Matrix(terms: nat, topics: nat, cells: seq<seq<real>>) {

    predicate Valid()
    {
      |cells| == terms && forall t :: 0 <= t < |cells| ==> |cells[t]| == topics
    }

    /** Topic `k` as a vector over the terms: row `k` of `dz.T`. */
    function Column(k: nat): (col: seq<real>)
      requires Valid() && k < topics
      ensures |col| == terms
      ensures forall t :: 0 <= t < terms ==> col[t] == cells[t][k]
    {
      seq(terms, t requires 0 <= t < terms => cells[t][k])
    }
  }

  /**
   * The exceptions the loop can raise: numpy's `ValueError` "kth(=kth) out of
   * bounds (size)" and the vocabulary's `KeyError`.
   */
  datatype TopWordsError = KthOutOfBounds(kth: int, size: nat) | UnknownTermId(id: TermId)

  type TopicWords = seq<(real, string)>

  /**
   * `np.argpartition(topic, -topn)` on a length-`n` array: an empty array is
   * accepted whatever `kth` is; otherwise `kth = -topn` must lie in `[-n, n-1]`.
   */
  predicate PartitionAccepts(n: nat, topn: int): (ok: bool)
    ensures ok <==> n == 0 || 0 < topn <= n || (topn <= 0 && -topn < n)
  {
    n == 0 || -(n as int) <= -topn < n
  }

  /**
   * The `kth` numpy checks and reports: a negative one counted from the end,
   * that is plus `n`. On a non-empty array the partition is accepted exactly
   * when it names a position of the array.
   */
  function ReportedKth(n: nat, topn: int): (kth: int)
    ensures 0 < n ==> (PartitionAccepts(n, topn) <==> 0 <= kth < n)
    ensures kth == if topn > 0 then n - topn else -topn
  {
    if -topn < 0 then -topn + n else -topn
  }

  /** The length of the slice `[-topn:]` of a length-`n` sequence, when the partition was accepted. */
  function SliceLength(n: nat, topn: int): (c: nat)
    requires PartitionAccepts(n, topn)
    ensures c <= n
    ensures 0 < n ==> 1 <= c
    ensures 0 < topn <= n ==> c == topn
    ensures topn == 0 ==> c == n
  {
    if n == 0 then 0 else if topn > 0 then topn else n + topn
  }

  /** The ids the partition and the reversed argsort leave, best first. */
  function SelectedIds(col: seq<real>, topn: int): (ids: seq<nat>)
    requires PartitionAccepts(|col|, topn)
    ensures |ids| == SliceLength(|col|, topn) && Ranking.InRange(col, ids)
  {
    Ranking.TopIds(col, SliceLength(|col|, topn))
  }

  /**
   * The comprehension `[(topic[id], id2word[id]) for id in ids]`: fails on the
   * first id the vocabulary lacks.
   */
  function Words(col: seq<real>, ids: seq<nat>, vocab: map<TermId, string>): (r: Result<TopicWords, TopWordsError>)
    requires Ranking.InRange(col, ids)
    ensures r.Success? <==> forall i :: 0 <= i < |ids| ==> ids[i] in vocab
    ensures r.Success? ==> |r.value| == |ids|
    ensures r.Success? ==> forall i :: 0 <= i < |ids| ==> r.value[i] == (col[ids[i]], vocab[ids[i]])
    ensures r.Failure? ==> exists j :: (0 <= j < |ids| && r.error == UnknownTermId(ids[j]) &&
      ids[j] !in vocab && forall i :: 0 <= i < j ==> ids[i] in vocab)
  {
    if ids == [] then Success([])
    else if ids[0] !in vocab then Failure(UnknownTermId(ids[0]))
    else
      match Words(col, ids[1..], vocab)
      case Failure(e) =>
        assert forall i :: 1 <= i < |ids| ==> ids[i] == ids[1..][i - 1];
        Failure(e)
      case Success(rest) =>
        assert forall i :: 1 <= i < |ids| ==> ids[i] == ids[1..][i - 1];
        Success([(col[ids[0]], vocab[ids[0]])] + rest)
  }

  /** One pass of the loop body, for topic `k`. */
  function TopicEntry(m: Matrix, vocab: map<TermId, string>, topn: int, k: nat): (r: Result<TopicWords, TopWordsError>)
    requires m.Valid() && k < m.topics
    ensures (r.Failure? && r.error.KthOutOfBounds?) <==> !PartitionAccepts(m.terms, topn)
    ensures r.Failure? && r.error.KthOutOfBounds? ==> r.error == KthOutOfBounds(ReportedKth(m.terms, topn), m.terms)
    ensures r.Success? ==> PartitionAccepts(m.terms, topn) && |r.value| == SliceLength(m.terms, topn)
  {
    var col := m.Column(k);
    if !PartitionAccepts(|col|, topn) then Failure(KthOutOfBounds(ReportedKth(|col|, topn), |col|))
    else Words(col, SelectedIds(col, topn), vocab)
  }

  /** The table after the loop has handled topics `0 .. k-1`, or the exception it raised. */
  function TopWordsUpTo(m: Matrix, vocab: map<TermId, string>, topn: int, k: nat): (r: Result<seq<TopicWords>, TopWordsError>)
    requires m.Valid() && k <= m.topics
    ensures r.Success? ==> |r.value| == k
  {
    if k == 0 then Success([])
    else
      match TopWordsUpTo(m, vocab, topn, k - 1)
      case Failure(e) => Failure(e)
      case Success(acc) =>
        match TopicEntry(m, vocab, topn, k - 1)
        case Failure(e) => Failure(e)
        case Success(w) => Success(acc + [w])
  }

  /** What `get_top_words(topn)` returns or raises. */
  function TopWords(m: Matrix, vocab: map<TermId, string>, topn: int): (r: Result<seq<TopicWords>, TopWordsError>)
    requires m.Valid()
    ensures r.Success? ==> |r.value| == m.topics
    ensures m.topics == 0 ==> r == Success([])
  {
    TopWordsUpTo(m, vocab, topn, m.topics)
  }

  lemma {:induction false} FailureStays(m: Matrix, vocab: map<TermId, string>, topn: int, j: nat, k: nat)
    requires m.Valid() && j <= k <= m.topics && TopWordsUpTo(m, vocab, topn, j).Failure?
    ensures TopWordsUpTo(m, vocab, topn, k) == TopWordsUpTo(m, vocab, topn, j)
    decreases k - j
  {
    if j < k {
      FailureStays(m, vocab, topn, j, k - 1);
    }
  }

  method GetTopWords(m: Matrix, vocab: map<TermId, string>, topn: int) returns (r: Result<seq<TopicWords>, TopWordsError>)
    requires m.Valid()
    ensures r == TopWords(m, vocab, topn)
  {
    var top: seq<TopicWords> := [];
    var k := 0;
    while k < m.topics
      invariant 0 <= k <= m.topics
      invariant TopWordsUpTo(m, vocab, topn, k) == Success(top)
    {
      var col := m.Column(k);
      if !PartitionAccepts(|col|, topn) {
        r := Failure(KthOutOfBounds(ReportedKth(|col|, topn), |col|));
        FailureStays(m, vocab, topn, k + 1, m.topics);
        return;
      }
      var words := Words(col, SelectedIds(col, topn), vocab);
      if words.Failure? {
        r := Failure(words.error);
        FailureStays(m, vocab, topn, k + 1, m.topics);
        return;
      }
      top := top + [words.value];
      k := k + 1;
    }
    r := Success(top);
  }

  /** The table after `k` topics holds one list per topic, in column order. */
  lemma {:induction false} UpToEntries(m: Matrix, vocab: map<TermId, string>, topn: int, k: nat)
    requires m.Valid() && k <= m.topics && TopWordsUpTo(m, vocab, topn, k).Success?
    ensures |TopWordsUpTo(m, vocab, topn, k).value| == k
    ensures forall j :: 0 <= j < k ==> TopicEntry(m, vocab, topn, j) == Success(TopWordsUpTo(m, vocab, topn, k).value[j])
  {
    if k > 0 {
      UpToEntries(m, vocab, topn, k - 1);
    }
  }

  /** Every topic raises unless numpy accepts the partition and the vocabulary knows the selected ids. */
  lemma {:induction false} UpToSucceeds(m: Matrix, vocab: map<TermId, string>, topn: int, k: nat)
    requires m.Valid() && k <= m.topics
    requires forall j :: 0 <= j < k ==> TopicEntry(m, vocab, topn, j).Success?
    ensures TopWordsUpTo(m, vocab, topn, k).Success?
  {
    if k > 0 {
      UpToSucceeds(m, vocab, topn, k - 1);
    }
  }

  /**
   * `get_top_words` succeeds exactly when there are no topics, or when numpy
   * accepts `kth = -topn` and every selected id has a word.
   */
  lemma TopWordsSucceeds(m: Matrix, vocab: map<TermId, string>, topn: int)
    requires m.Valid()
    ensures TopWords(m, vocab, topn).Success? <==>
      (m.topics == 0 ||
       (PartitionAccepts(m.terms, topn) &&
        forall k, i :: 0 <= k < m.topics && 0 <= i < SliceLength(m.terms, topn) ==>
          SelectedIds(m.Column(k), topn)[i] in vocab))
  {
    if TopWords(m, vocab, topn).Success? {
      UpToEntries(m, vocab, topn, m.topics);
      if m.topics > 0 {
        assert TopicEntry(m, vocab, topn, 0).Success?;
        forall k, i | 0 <= k < m.topics && 0 <= i < SliceLength(m.terms, topn)
          ensures SelectedIds(m.Column(k), topn)[i] in vocab
        {
          assert TopicEntry(m, vocab, topn, k).Success?;
        }
      }
    } else if m.topics > 0 && PartitionAccepts(m.terms, topn) {
      if forall j :: 0 <= j < m.topics ==> TopicEntry(m, vocab, topn, j).Success? {
        UpToSucceeds(m, vocab, topn, m.topics);
      }
    }
  }

  /**
   * A matrix with at least one topic and at least one term, and a `topn`
   * numpy rejects, raises numpy's error on the first topic.
   */
  lemma {:induction false} TopWordsBadTopn(m: Matrix, vocab: map<TermId, string>, topn: int)
    requires m.Valid() && m.topics > 0 && !PartitionAccepts(m.terms, topn)
    ensures m.terms > 0
    ensures TopWords(m, vocab, topn) == Failure(KthOutOfBounds(ReportedKth(m.terms, topn), m.terms))
  {
    FailureStays(m, vocab, topn, 1, m.topics);
  }

  /** With no terms, every topic's list is empty, whatever `topn` is. */
  lemma TopWordsNoTerms(m: Matrix, vocab: map<TermId, string>, topn: int)
    requires m.Valid() && m.terms == 0
    ensures TopWords(m, vocab, topn) == Success(seq(m.topics, k => []))
  {
    TopWordsSucceeds(m, vocab, topn);
    var w := TopWords(m, vocab, topn).value;
    forall k | 0 <= k < m.topics ensures w[k] == [] {
      TopWordsTopic(m, vocab, topn, k);
    }
    assert w == seq(m.topics, k => []);
  }

  /**
   * Each topic's list: as many pairs as the slice keeps (exactly `topn` when
   * `0 < topn <= terms`), each pair the matrix cell and the vocabulary word of
   * a selected id, distinct ids, weights non-increasing, and no term left out
   * that outweighs a selected one.
   */
  lemma TopWordsTopic(m: Matrix, vocab: map<TermId, string>, topn: int, k: nat)
    requires m.Valid() && k < m.topics && TopWords(m, vocab, topn).Success?
    ensures PartitionAccepts(m.terms, topn)
    ensures |TopWords(m, vocab, topn).value| == m.topics
    ensures var w, ids := TopWords(m, vocab, topn).value[k], SelectedIds(m.Column(k), topn);
      && |w| == |ids| == SliceLength(m.terms, topn)
      && (0 < topn <= m.terms ==> |w| == topn)
      && (forall i :: 0 <= i < |w| ==> ids[i] < m.terms && ids[i] in vocab && w[i] == (m.cells[ids[i]][k], vocab[ids[i]]))
      && (forall i, j :: 0 <= i < j < |w| ==> ids[i] != ids[j] && w[i].0 >= w[j].0)
      && (forall i, u :: 0 <= i < |w| && 0 <= u < m.terms && u !in ids ==> w[i].0 >= m.cells[u][k])
  {
    UpToEntries(m, vocab, topn, m.topics);
    var col := m.Column(k);
    assert TopicEntry(m, vocab, topn, k).Success?;
    Ranking.TopIdsSelect(col, SliceLength(|col|, topn));
  }
}
