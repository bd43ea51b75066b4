/**
 * The slice of a pandas DataFrame the result layer relies on: an index of
 * row keys, labelled columns aligned with it, and column assignment
 * `df[label] = series`, which aligns the series on the index.
 */
module Frames {

  /** A column label: a topic number, or a name such as "term". */
  datatype Label = Topic(k: nat) | Named(name: string)

  /** A cell: a weight, a count, a word, or NaN where the assigned series had no entry. */
  datatype Cell = Weight(w: real) | Count(n: nat) | Text(s: string) | Missing

  /** `columns[j][i]` is the cell of row `index[i]` under `labels[j]`. */
  datatype Table<K> = Table(index: seq<K>, labels: seq<Label>, columns: seq<seq<Cell>>) {

    predicate Wellformed()
    {
      && |labels| == |columns|
      && (forall j :: 0 <= j < |columns| ==> |columns[j]| == |index|)
      && (forall i, j :: 0 <= i < j < |labels| ==> labels[i] != labels[j])
    }
  }

  /** Where `l` sits among the labels. */
  function Position(labels: seq<Label>, l: Label): (j: nat)
    requires l in labels
    ensures j < |labels| && labels[j] == l
  {
    if labels[0] == l then 0 else 1 + Position(labels[1..], l)
  }

  /** `df[l]`. */
  function Column<K>(t: Table<K>, l: Label): (c: seq<Cell>)
    requires t.Wellformed() && l in t.labels
    ensures |c| == |t.index|
  {
    t.columns[Position(t.labels, l)]
  }

  /** A series reindexed on `index`: its value for each row key, NaN where it has none. */
  function Aligned<K(==)>(index: seq<K>, series: map<K, Cell>): (c: seq<Cell>)
    ensures |c| == |index|
  {
    seq(|index|, i requires 0 <= i < |index| => if index[i] in series then series[index[i]] else Missing)
  }

  /** The table after `df[l] = series`: an existing column is replaced in place, a new one appended. */
  function WithColumn<K(==)>(t: Table<K>, l: Label, series: map<K, Cell>): (r: Table<K>)
    requires t.Wellformed()
    ensures r.Wellformed() && r.index == t.index
    ensures l in r.labels && forall l' :: l' in t.labels ==> l' in r.labels
  {
    var c := Aligned(t.index, series);
    if l in t.labels then t.(columns := t.columns[Position(t.labels, l) := c])
    else t.(labels := t.labels + [l], columns := t.columns + [c])
  }

  /**
   * Column assignment keeps the table well formed and the index unchanged;
   * afterwards `df[l]` is the aligned series, every other column reads as
   * before, and a label the table lacked goes last.
   */
  lemma WithColumnEffect<K>(t: Table<K>, l: Label, series: map<K, Cell>)
    requires t.Wellformed()
    ensures var r := WithColumn(t, l, series);
      && r.Wellformed()
      && r.index == t.index
      && l in r.labels
      && Column(r, l) == Aligned(t.index, series)
      && (forall i :: 0 <= i < |t.index| ==>
            Column(r, l)[i] == if t.index[i] in series then series[t.index[i]] else Missing)
      && (forall l' :: l' != l ==> (l' in r.labels <==> l' in t.labels))
      && (forall l' :: l' != l && l' in t.labels ==> Column(r, l') == Column(t, l'))
      && (l !in t.labels ==> r.labels == t.labels + [l] && r.columns[..|t.columns|] == t.columns)
  {
    var r := WithColumn(t, l, series);
    forall l' | l' != l && l' in t.labels ensures Column(r, l') == Column(t, l') {
      PositionUnique(r.labels, l', Position(t.labels, l'));
    }
    if l !in t.labels {
      PositionUnique(r.labels, l, |t.labels|);
    }
  }

  lemma PositionUnique(labels: seq<Label>, l: Label, j: nat)
    requires j < |labels| && labels[j] == l
    requires forall a, b :: 0 <= a < b < |labels| ==> labels[a] != labels[b]
    ensures Position(labels, l) == j
  {
    var p := Position(labels, l);
  }

  /** A DataFrame object: callers holding it see its columns change in place. */
  class Frame<K(==)> {
    var table: Table<K>

    /** `self[l] = series`. */
    method SetColumn(l: Label, series: map<K, Cell>)
      requires table.Wellformed()
      modifies this
      ensures table == WithColumn(old(table), l, series)
      ensures table.Wellformed()
    {
      WithColumnEffect(table, l, series);
      table := WithColumn(table, l, series);
    }
  }
}
