/**
 * Statistics the result layer derives from the corpus: per-term totals
 * (`_get_term_frequency`) and per-document lengths (`_get_doc_lengths`).
 */
module CorpusStats {

  import opened Results
  import opened Corpus

  /** The term ids a bag of words mentions. */
  function Ids(bow: seq<(TermId, nat)>): set<TermId>
  {
    set i | 0 <= i < |bow| :: bow[i].0
  }

  /** No term id occurs twice in the bag (the usual shape of a bag of words). */
  predicate DistinctIds(bow: seq<(TermId, nat)>)
  {
    forall i, j :: 0 <= i < j < |bow| ==> bow[i].0 != bow[j].0
  }

  /** `dict(doc)`: a later pair for the same id overwrites an earlier one. */
  function BowDict(bow: seq<(TermId, nat)>): (d: map<TermId, nat>)
    ensures d.Keys == Ids(bow)
  {
    if bow == [] then map[]
    else
      var front, last := bow[..|bow| - 1], bow[|bow| - 1];
      assert Ids(bow) == Ids(front) + {last.0} by {
        assert forall i :: 0 <= i < |front| ==> front[i] == bow[i];
      }
      BowDict(front)[last.0 := last.1]
  }

  /** `counter[k]`: a missing key reads as zero. */
  function Get(m: map<TermId, nat>, k: TermId): (count: nat)
    ensures k in m ==> count == m[k]
    ensures k !in m ==> count == 0
  {
    if k in m then m[k] else 0
  }

  /** `Counter.update(d)`: adds every count of `d`, keeping keys whose count is zero. */
  function AddCounts(acc: map<TermId, nat>, d: map<TermId, nat>): (r: map<TermId, nat>)
    ensures r.Keys == acc.Keys + d.Keys
    ensures forall k :: Get(r, k) == Get(acc, k) + Get(d, k)
  {
    map k | k in acc.Keys + d.Keys :: Get(acc, k) + Get(d, k)
  }

  /**
   * The counter after the documents of `c` have been added in order; its keys
   * are exactly the ids that occur in some document.
   */
  function Tally(c: Corpus): (tf: map<TermId, nat>)
    ensures forall t :: t in tf <==> exists i :: 0 <= i < |c| && t in Ids(c[i].bow)
  {
    if c == [] then map[]
    else
      var front := c[..|c| - 1];
      assert forall i :: 0 <= i < |front| ==> front[i] == c[i];
      AddCounts(Tally(front), BowDict(c[|c| - 1].bow))
  }

  /** The entries of `d` whose keys lie in `keys`. */
  function Restrict(d: map<TermId, nat>, keys: set<TermId>): map<TermId, nat>
  {
    map k | k in keys && k in d :: d[k]
  }

  /** Adding a counter is adding all of it but one key, then that key. */
  lemma AddCountsSplit(acc: map<TermId, nat>, d: map<TermId, nat>, k: TermId)
    requires k in d
    ensures AddCounts(acc, d) == AddCounts(acc, d - {k})[k := Get(acc, k) + d[k]]
  {
    var l, r := AddCounts(acc, d), AddCounts(acc, d - {k})[k := Get(acc, k) + d[k]];
    assert l.Keys == r.Keys;
    forall j | j in l ensures l[j] == r[j] {
    }
  }

  /** Adding the entry of one more key of `d` to a partial update. */
  lemma UpdateStep(tf: map<TermId, nat>, d: map<TermId, nat>, rest: set<TermId>, k: TermId)
    requires rest <= d.Keys && k in rest
    ensures var r := AddCounts(tf, Restrict(d, d.Keys - rest));
      r[k := Get(r, k) + d[k]] == AddCounts(tf, Restrict(d, d.Keys - (rest - {k})))
  {
    var done := d.Keys - rest;
    assert d.Keys - (rest - {k}) == done + {k};
    var part: map<TermId, nat> := Restrict(d, done + {k});
    assert part - {k} == Restrict(d, done);
    assert part[k] == d[k];
    assert Get(AddCounts(tf, Restrict(d, done)), k) == Get(tf, k) by {
      assert k !in Restrict(d, done);
    }
    AddCountsSplit(tf, part, k);
  }

  /** The partial update over every key of `d` is the whole update. */
  lemma UpdateDone(tf: map<TermId, nat>, d: map<TermId, nat>)
    ensures AddCounts(tf, Restrict(d, d.Keys - {})) == AddCounts(tf, d)
  {
    assert Restrict(d, d.Keys - {}) == d;
  }

  /** Updating with an empty counter changes nothing. */
  lemma AddNothing(tf: map<TermId, nat>)
    ensures AddCounts(tf, map[]) == tf
  {
    var r := AddCounts(tf, map[]);
    assert r.Keys == tf.Keys;
    forall j | j in r ensures r[j] == tf[j] {
      assert Get(r, j) == Get(tf, j);
    }
  }

  /** `tf.update(d)`, one key at a time. */
  method CounterUpdate(tf: map<TermId, nat>, d: map<TermId, nat>) returns (r: map<TermId, nat>)
    ensures r == AddCounts(tf, d)
  {
    r := tf;
    var rest := d.Keys;
    assert Restrict(d, d.Keys - d.Keys) == map[];
    AddNothing(tf);
    while rest != {}
      invariant rest <= d.Keys
      invariant r == AddCounts(tf, Restrict(d, d.Keys - rest))
      decreases rest
    {
      var k :| k in rest;
      UpdateStep(tf, d, rest, k);
      r := r[k := Get(r, k) + d[k]];
      rest := rest - {k};
    }
    UpdateDone(tf, d);
  }

  /** `_get_term_frequency`: one pass over the corpus accumulating a counter. */
  method TermFrequency(c: Corpus) returns (tf: map<TermId, nat>)
    ensures tf == Tally(c)
  {
    tf := map[];
    var i := 0;
    while i < |c|
      invariant 0 <= i <= |c|
      invariant tf == Tally(c[..i])
    {
      assert c[..i + 1][..i] == c[..i];
      tf := CounterUpdate(tf, BowDict(c[i].bow));
      i := i + 1;
    }
    assert c[..|c|] == c;
  }

  /** How much of term `t` the bag of words holds, summing over its pairs. */
  function CountIn(bow: seq<(TermId, nat)>, t: TermId): nat
  {
    if bow == [] then 0
    else CountIn(bow[..|bow| - 1], t) + (if bow[|bow| - 1].0 == t then bow[|bow| - 1].1 else 0)
  }

  /** How much of term `t` the whole corpus holds. */
  function Occurrences(c: Corpus, t: TermId): nat
  {
    if c == [] then 0 else Occurrences(c[..|c| - 1], t) + CountIn(c[|c| - 1].bow, t)
  }

  /** The sum of every count in the bag of words. */
  function BowTotal(bow: seq<(TermId, nat)>): nat
  {
    if bow == [] then 0 else BowTotal(bow[..|bow| - 1]) + bow[|bow| - 1].1
  }

  /** The sum of every count in the corpus. */
  function CorpusTotal(c: Corpus): nat
  {
    if c == [] then 0 else CorpusTotal(c[..|c| - 1]) + BowTotal(c[|c| - 1].bow)
  }

  /** Every document's bag of words lists each term once. */
  predicate WellFormedBags(c: Corpus)
  {
    forall i :: 0 <= i < |c| ==> DistinctIds(c[i].bow)
  }

  lemma {:induction false} BowDictCounts(bow: seq<(TermId, nat)>, t: TermId)
    requires DistinctIds(bow)
    ensures Get(BowDict(bow), t) == CountIn(bow, t)
  {
    if bow != [] {
      var front, last := bow[..|bow| - 1], bow[|bow| - 1];
      assert DistinctIds(front);
      BowDictCounts(front, t);
      if last.0 == t {
        assert t !in Ids(front);
        NotInIdsCountsZero(front, t);
      }
    }
  }

  lemma {:induction false} NotInIdsCountsZero(bow: seq<(TermId, nat)>, t: TermId)
    requires t !in Ids(bow)
    ensures CountIn(bow, t) == 0
  {
    if bow != [] {
      var front := bow[..|bow| - 1];
      assert Ids(front) <= Ids(bow) by {
        assert forall i :: 0 <= i < |front| ==> front[i] == bow[i];
      }
      NotInIdsCountsZero(front, t);
    }
  }

  /**
   * On well-formed bags, each counter value is the corpus-wide sum of that
   * term's counts.
   */
  lemma {:induction false} TallyCounts(c: Corpus, t: TermId)
    requires WellFormedBags(c)
    ensures Get(Tally(c), t) == Occurrences(c, t)
  {
    if c != [] {
      var front := c[..|c| - 1];
      assert WellFormedBags(front) by {
        assert forall i :: 0 <= i < |front| ==> front[i] == c[i];
      }
      TallyCounts(front, t);
      BowDictCounts(c[|c| - 1].bow, t);
    }
  }

  /** The sum of the counter's values for the ids below `bound`. */
  function TotalBelow(m: map<TermId, nat>, bound: nat): nat
  {
    if bound == 0 then 0 else TotalBelow(m, bound - 1) + Get(m, bound - 1)
  }

  /** Every id of the corpus lies below `bound`. */
  predicate IdsBelow(c: Corpus, bound: nat)
  {
    forall i, j :: 0 <= i < |c| && 0 <= j < |c[i].bow| ==> c[i].bow[j].0 < bound
  }

  lemma {:induction false} AddCountsTotal(acc: map<TermId, nat>, d: map<TermId, nat>, bound: nat)
    ensures TotalBelow(AddCounts(acc, d), bound) == TotalBelow(acc, bound) + TotalBelow(d, bound)
  {
    if bound > 0 {
      AddCountsTotal(acc, d, bound - 1);
    }
  }

  lemma {:induction false} TotalBelowUpdate(m: map<TermId, nat>, k: TermId, v: nat, bound: nat)
    requires k < bound
    ensures TotalBelow(m[k := v], bound) == TotalBelow(m, bound) - Get(m, k) + v
  {
    if k < bound - 1 {
      TotalBelowUpdate(m, k, v, bound - 1);
    } else {
      TotalBelowSame(m, m[k := v], bound - 1);
    }
  }

  lemma {:induction false} TotalBelowSame(m: map<TermId, nat>, m': map<TermId, nat>, bound: nat)
    requires forall t :: 0 <= t < bound ==> Get(m, t) == Get(m', t)
    ensures TotalBelow(m, bound) == TotalBelow(m', bound)
  {
    if bound > 0 {
      TotalBelowSame(m, m', bound - 1);
    }
  }

  lemma {:induction false} BowDictTotal(bow: seq<(TermId, nat)>, bound: nat)
    requires DistinctIds(bow)
    requires forall j :: 0 <= j < |bow| ==> bow[j].0 < bound
    ensures TotalBelow(BowDict(bow), bound) == BowTotal(bow)
  {
    if bow == [] {
      TotalBelowSame(map[], BowDict(bow), bound);
      TotalBelowEmpty(bound);
    } else {
      var front, last := bow[..|bow| - 1], bow[|bow| - 1];
      assert DistinctIds(front);
      BowDictTotal(front, bound);
      assert last.0 !in Ids(front);
      TotalBelowUpdate(BowDict(front), last.0, last.1, bound);
    }
  }

  lemma {:induction false} TotalBelowEmpty(bound: nat)
    ensures TotalBelow(map[], bound) == 0
  {
    if bound > 0 {
      TotalBelowEmpty(bound - 1);
    }
  }

  /**
   * Conservation: on well-formed bags the counter's values add up to the
   * corpus's grand total of counts.
   */
  lemma {:induction false} TallyTotal(c: Corpus, bound: nat)
    requires WellFormedBags(c) && IdsBelow(c, bound)
    ensures TotalBelow(Tally(c), bound) == CorpusTotal(c)
  {
    if c == [] {
      TotalBelowEmpty(bound);
    } else {
      var front := c[..|c| - 1];
      assert WellFormedBags(front) && IdsBelow(front, bound) by {
        assert forall i :: 0 <= i < |front| ==> front[i] == c[i];
      }
      TallyTotal(front, bound);
      AddCountsTotal(Tally(front), BowDict(c[|c| - 1].bow), bound);
      BowDictTotal(c[|c| - 1].bow, bound);
    }
  }

  /** The `ValueError` raised when `zip(*[])` leaves nothing to unpack into the id and length names. */
  datatype LengthsError = EmptyCorpus

  /**
   * `_get_doc_lengths`: `(id, len(doc))` for each document, in corpus order;
   * an empty corpus raises instead of giving an empty series.
   */
  function DocLengths(c: Corpus): (r: Result<seq<(DocId, nat)>, LengthsError>)
    ensures r.Failure? <==> c == []
    ensures r.Failure? ==> r.error == EmptyCorpus
    ensures r.Success? ==> |r.value| == |c|
  {
    if c == [] then Failure(EmptyCorpus)
    else Success(seq(|c|, i requires 0 <= i < |c| => (c[i].id, |c[i].bow|)))
  }

  lemma {:induction false} DistinctIdsCount(bow: seq<(TermId, nat)>)
    requires DistinctIds(bow)
    ensures |Ids(bow)| == |bow|
  {
    if bow != [] {
      var front, last := bow[..|bow| - 1], bow[|bow| - 1];
      assert DistinctIds(front);
      DistinctIdsCount(front);
      assert Ids(bow) == Ids(front) + {last.0} by {
        assert forall i :: 0 <= i < |front| ==> front[i] == bow[i];
      }
    }
  }

  /**
   * Entry `i` is document `i`'s id with the number of pairs in its bag: on a
   * well-formed bag that is the number of distinct terms, and it never exceeds
   * the token total when every count is at least one.
   */
  lemma DocLengthsMeaning(c: Corpus, i: nat)
    requires i < |c|
    ensures DocLengths(c).Success?
    ensures DocLengths(c).value[i].0 == c[i].id
    ensures DistinctIds(c[i].bow) ==> DocLengths(c).value[i].1 == |BowDict(c[i].bow).Keys|
    ensures (forall j :: 0 <= j < |c[i].bow| ==> c[i].bow[j].1 >= 1) ==> DocLengths(c).value[i].1 <= BowTotal(c[i].bow)
  {
    if DistinctIds(c[i].bow) {
      DistinctIdsCount(c[i].bow);
    }
    if forall j :: 0 <= j < |c[i].bow| ==> c[i].bow[j].1 >= 1 {
      LengthBelowTotal(c[i].bow);
    }
  }

  lemma {:induction false} LengthBelowTotal(bow: seq<(TermId, nat)>)
    requires forall j :: 0 <= j < |bow| ==> bow[j].1 >= 1
    ensures |bow| <= BowTotal(bow)
  {
    if bow != [] {
      LengthBelowTotal(bow[..|bow| - 1]);
    }
  }

  /** The two-document corpus {a:2, b:1}, {a:1, c:3}, with a, b, c = 0, 1, 2. */
  const ExampleDocs: Corpus := [Document("doc0", [(0, 2), (1, 1)]), Document("doc1", [(0, 1), (2, 3)])]

  /** Its frequencies are {a:3, b:1, c:3}. */
  lemma ExampleTally()
    ensures Tally(ExampleDocs) == map[0 := 3, 1 := 1, 2 := 3]
  {
    var d0 := BowDict(ExampleDocs[0].bow);
    ExampleDicts();
    assert ExampleDocs[..1][..0] == [];
    AddCountsFromEmpty(d0);
    assert Tally(ExampleDocs[..1]) == d0;
    ExampleSum();
  }

  /** Its lengths are 2 and 2: pairs per document, though the documents hold 3 and 4 tokens. */
  lemma ExampleLengths()
    ensures DocLengths(ExampleDocs) == Success([("doc0", 2), ("doc1", 2)])
    ensures BowTotal(ExampleDocs[0].bow) == 3 && BowTotal(ExampleDocs[1].bow) == 4
  {
    assert DocLengths(ExampleDocs).value == [("doc0", 2), ("doc1", 2)];
    assert [(0, 2), (1, 1)][..1] == [(0, 2)];
    assert [(0, 1), (2, 3)][..1] == [(0, 1)];
  }

  lemma AddCountsFromEmpty(d: map<TermId, nat>)
    ensures AddCounts(map[], d) == d
  {
    var r := AddCounts(map[], d);
    assert r.Keys == d.Keys;
    forall j | j in r ensures r[j] == d[j] {
    }
  }

  lemma ExampleSum()
    ensures AddCounts(map[0 := 2, 1 := 1], map[0 := 1, 2 := 3]) == map[0 := 3, 1 := 1, 2 := 3]
  {
    var sum := AddCounts(map[0 := 2, 1 := 1], map[0 := 1, 2 := 3]);
    assert sum.Keys == {0, 1, 2};
    assert sum[0] == 3 && sum[1] == 1 && sum[2] == 3;
  }

  lemma ExampleDicts()
    ensures BowDict([(0, 2), (1, 1)]) == map[0 := 2, 1 := 1]
    ensures BowDict([(0, 1), (2, 3)]) == map[0 := 1, 2 := 3]
  {
    assert [(0, 2), (1, 1)][..1] == [(0, 2)];
    assert [(0, 2)][..0] == [];
    assert [(0, 1), (2, 3)][..1] == [(0, 1)];
    assert [(0, 1)][..0] == [];
  }
}
