/** The grouping engine: `df.groupby(key)` followed by one calculator call per
    group, collected into a dictionary keyed by the group label. */
module Grouping {
  import opened Seqs
  import opened Text
  import opened Deliveries

  function HasKey(key: Ball -> string, k: string): Ball -> bool
  {
    (b: Ball) => key(b) == k
  }

  function KeyIn(key: Ball -> string, ks: set<string>): Ball -> bool
  {
    (b: Ball) => key(b) in ks
  }

  /** The group labels present in a slice. */
  function Keys(rows: seq<Ball>, key: Ball -> string): set<string>
  {
    set b | b in rows :: key(b)
  }

  /** The rows of the group labelled `k`. */
  function Group(rows: seq<Ball>, key: Ball -> string, k: string): seq<Ball>
  {
    Filter(rows, HasKey(key, k))
  }

  /** The dictionary the grouping loop builds: every label present maps to the
      calculator applied to that label's rows. */
  function Grouped<S>(rows: seq<Ball>, key: Ball -> string, stats: seq<Ball> -> S): map<string, S>
  {
    map k | k in Keys(rows, key) :: stats(Group(rows, key, k))
  }

  /** The grouped dictionary has one key per label present. */
  lemma GroupedKeys<S>(rows: seq<Ball>, key: Ball -> string, stats: seq<Ball> -> S)
    ensures Grouped(rows, key, stats).Keys == Keys(rows, key)
  {
  }

  /** `for name, data in df.groupby(key): out[name] = stats(data)`. The labels
      are visited in ascending order, as `groupby` yields them. */
  method GroupRecords<S>(rows: seq<Ball>, key: Ball -> string, stats: seq<Ball> -> S)
    returns (out: map<string, S>)
    ensures out.Keys == Keys(rows, key)
    ensures forall k :: k in out ==> out[k] == stats(Group(rows, key, k))
    ensures out == Grouped(rows, key, stats)
  {
    var labels := Column(rows, key);
    var names := SortedUnique(labels);
    assert Elements(names) == Keys(rows, key) by {
      forall k | k in Keys(rows, key) ensures k in Elements(labels) {
        var b :| b in rows && key(b) == k;
        var i :| 0 <= i < |rows| && rows[i] == b;
        assert labels[i] == k;
      }
    }
    out := map[];
    var i := 0;
    while i < |names|
      invariant 0 <= i <= |names|
      invariant out.Keys == Elements(names[..i])
      invariant forall k :: k in out ==> out[k] == stats(Group(rows, key, k))
    {
      out := out[names[i] := stats(Group(rows, key, names[i]))];
      assert names[..i + 1] == names[..i] + [names[i]];
      i := i + 1;
    }
    assert names[..i] == names;
  }

  /** The label of a row depends only on its match. */
  predicate PerMatch(rows: seq<Ball>, key: Ball -> string)
  {
    forall a, b :: a in rows && b in rows && a.id == b.id ==> key(a) == key(b)
  }

  predicate Distinct(ks: seq<string>)
  {
    forall i, j :: 0 <= i < j < |ks| ==> ks[i] != ks[j]
  }

  /** The sum, over the labels `ks`, of the number of matches in each group. */
  function MatchesOver(rows: seq<Ball>, key: Ball -> string, ks: seq<string>): int
  {
    if ks == [] then 0 else |Ids(Group(rows, key, ks[0]))| + MatchesOver(rows, key, ks[1..])
  }

  lemma {:induction false} MatchesOverSelected(rows: seq<Ball>, key: Ball -> string, ks: seq<string>)
    requires PerMatch(rows, key) && Distinct(ks)
    ensures MatchesOver(rows, key, ks) == |Ids(Filter(rows, KeyIn(key, Elements(ks))))|
  {
    if ks == [] {
      assert Elements(ks) == {};
      FilterNone(rows, KeyIn(key, Elements(ks)));
    } else {
      var k, rest := ks[0], ks[1..];
      assert Distinct(rest);
      MatchesOverSelected(rows, key, rest);
      assert k !in Elements(rest) by {
        assert forall j :: 0 <= j < |rest| ==> rest[j] == ks[j + 1] != ks[0];
      }
      assert Elements(ks) == {k} + Elements(rest) by {
        assert ks == [k] + rest;
      }
      var sel := Filter(rows, KeyIn(key, Elements(ks)));
      FilterFilter(rows, KeyIn(key, Elements(ks)), HasKey(key, k), HasKey(key, k));
      FilterFilter(rows, KeyIn(key, Elements(ks)), Not(HasKey(key, k)), KeyIn(key, Elements(rest)));
      IdsSplit(sel, HasKey(key, k));
    }
  }

  /** When the label is a property of the match (the opponent, the season),
      the groups' match counts add up to the slice's match count. */
  lemma MatchesAddUp(rows: seq<Ball>, key: Ball -> string, ks: seq<string>)
    requires PerMatch(rows, key) && Distinct(ks)
    requires Elements(ks) == Keys(rows, key)
    ensures MatchesOver(rows, key, ks) == |Ids(rows)|
  {
    MatchesOverSelected(rows, key, ks);
    FilterAll(rows, KeyIn(key, Elements(ks)));
  }
}
