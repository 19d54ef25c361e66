/** The top-N pruning of the streaming activation upload: for every source
    of the set, one delete that removes the rows outranked by at least
    `top_n` rows of the same feature, judged against the table as the
    delete starts, with a commit after each source. */
module Pruning {
  import opened Base
  import opened Text
  import opened Store
  import opened Activations

  /** Two rows describe the same feature: same model, layer and index. */
  predicate SameFeature(x: ActivationRow, y: ActivationRow)
  {
    x.modelId == y.modelId && x.layer == y.layer && x.index == y.index
  }

  /** The ids of the rows of `a`'s feature with a strictly larger `maxValue`:
      the correlated `COUNT(*)` of the delete counts these. */
  function Outranking(m: map<string, ActivationRow>, a: ActivationRow): set<string>
  {
    set id | id in m && SameFeature(m[id], a) && m[id].maxValue > a.maxValue
  }

  /** Whether the delete of one of the sources in `layers` removes `a`. */
  predicate Doomed(m: map<string, ActivationRow>, a: ActivationRow, modelId: string, layers: set<string>, topN: int)
  {
    a.modelId == modelId && a.layer in layers && |Outranking(m, a)| >= topN
  }

  /** The rows counted against a row are rows of the table, and a row is
      never counted against itself. */
  lemma OutrankingSpec(m: map<string, ActivationRow>, a: ActivationRow)
    ensures Outranking(m, a) <= m.Keys
    ensures forall id :: id in m && m[id] == a ==> id !in Outranking(m, a)
  {
  }

  /** Only rows of the model and of a pruned source are deleted; a table
      with fewer than `topN` rows loses none; a `topN` of 0 or less deletes
      every row of the pruned sources. */
  lemma DoomedSpec(m: map<string, ActivationRow>, a: ActivationRow, modelId: string, layers: set<string>, topN: int)
    ensures Doomed(m, a, modelId, layers, topN) ==> a.modelId == modelId && a.layer in layers
    ensures |m| < topN ==> !Doomed(m, a, modelId, layers, topN)
    ensures topN <= 0 ==> (Doomed(m, a, modelId, layers, topN) <==> a.modelId == modelId && a.layer in layers)
  {
    SubsetCard(Outranking(m, a), m.Keys, a.index);
  }

  /** The table after the deletes of the sources in `layers`, each judged
      against `m`. */
  function PruneLayers(m: map<string, ActivationRow>, modelId: string, layers: set<string>, topN: int): (r: map<string, ActivationRow>)
    ensures forall id :: id in r <==> id in m && !Doomed(m, m[id], modelId, layers, topN)
    ensures forall id :: id in r ==> r[id] == m[id]
  {
    map id | id in m && !Doomed(m, m[id], modelId, layers, topN) :: m[id]
  }

  /** The sources the pruning visits: `SELECT DISTINCT layer` over the
      model's rows whose layer is in the source set. */
  function SetLayers(m: map<string, ActivationRow>, modelId: string, setName: string): set<string>
  {
    set id | id in m && ClearedRow(m[id], modelId, setName) :: m[id].layer
  }

  /** The whole pruning of a source set, as one relation on the table as it
      was before: a row goes exactly when it belongs to the model and the
      set and at least `topN` rows of its feature have a larger `maxValue`;
      every other row stays as it was. */
  function Prune(m: map<string, ActivationRow>, modelId: string, setName: string, topN: int): (r: map<string, ActivationRow>)
    ensures forall id :: id in r <==>
              id in m && !(ClearedRow(m[id], modelId, setName) && |Outranking(m, m[id])| >= topN)
    ensures forall id :: id in r ==> r[id] == m[id]
  {
    var layers := SetLayers(m, modelId, setName);
    assert forall id :: id in m && m[id].modelId == modelId ==>
             (m[id].layer in layers <==> ClearedRow(m[id], modelId, setName));
    PruneLayers(m, modelId, layers, topN)
  }

  /** The deletes of distinct sources do not see each other: pruning one more
      source after some others is pruning them all against the first table. */
  lemma PruneStep(m: map<string, ActivationRow>, modelId: string, done: set<string>, layer: string, topN: int)
    requires layer !in done
    ensures PruneLayers(PruneLayers(m, modelId, done, topN), modelId, {layer}, topN)
         == PruneLayers(m, modelId, done + {layer}, topN)
  {
    var m1 := PruneLayers(m, modelId, done, topN);
    var m2 := PruneLayers(m1, modelId, {layer}, topN);
    var all := PruneLayers(m, modelId, done + {layer}, topN);
    forall id | id in m
      ensures id in m2 <==> id in all
    {
      if m[id].layer == layer {
        assert id in m1;
        UntouchedFeature(m, modelId, done, topN, m[id]);
      }
    }
    assert m2.Keys == all.Keys;
  }

  /** The rows of a feature outside the pruned sources are all still there,
      so a row of that feature is outranked by the same rows as before. */
  lemma UntouchedFeature(m: map<string, ActivationRow>, modelId: string, done: set<string>, topN: int, a: ActivationRow)
    requires a.layer !in done
    ensures Outranking(PruneLayers(m, modelId, done, topN), a) == Outranking(m, a)
  {
    var m1 := PruneLayers(m, modelId, done, topN);
    forall id | id in m && SameFeature(m[id], a) ensures id in m1 {
    }
  }

  /** `|a| <= |b|` for `a <= b`, with `<` when `b` has an element `a` lacks. */
  lemma SubsetCard<T>(a: set<T>, b: set<T>, x: T)
    requires a <= b
    ensures |a| <= |b|
    ensures x in b && x !in a ==> |a| < |b|
  {
    assert b == a + (b - a);
    assert a * (b - a) == {};
    if x in b && x !in a {
      assert x in b - a;
    }
  }

  /** Within a feature of the pruned source set, every surviving row has a
      `maxValue` at least that of every deleted row. */
  lemma SurvivorsDominate(m: map<string, ActivationRow>, modelId: string, setName: string, topN: int, s: string, d: string)
    requires s in Prune(m, modelId, setName, topN)
    requires d in m && d !in Prune(m, modelId, setName, topN)
    requires SameFeature(m[s], m[d])
    ensures m[s].maxValue >= m[d].maxValue
  {
    if m[s].maxValue < m[d].maxValue {
      assert Outranking(m, m[d]) <= Outranking(m, m[s]);
      SubsetCard(Outranking(m, m[d]), Outranking(m, m[s]), d);
    }
  }

  /** A second pruning with the same arguments deletes nothing. */
  lemma PruneIdempotent(m: map<string, ActivationRow>, modelId: string, setName: string, topN: int)
    ensures Prune(Prune(m, modelId, setName, topN), modelId, setName, topN) == Prune(m, modelId, setName, topN)
  {
    var r := Prune(m, modelId, setName, topN);
    var r2 := Prune(r, modelId, setName, topN);
    forall id | id in r
      ensures id in r2
    {
      assert Outranking(r, r[id]) <= Outranking(m, m[id]);
      SubsetCard(Outranking(r, r[id]), Outranking(m, m[id]), id);
    }
    assert r2.Keys == r.Keys;
  }

  /** Ties are kept: two rows of one feature with the same `maxValue`
      both survive a pruning to the top 1. */
  lemma TiesExceedTopN()
    ensures var row := ActivationRow("m", "0-s", "7", "u", [], [], 5.0, 0.0, 0);
            var m := map["a" := row, "b" := row];
            |Prune(m, "m", "s", 1)| == 2
  {
    var row := ActivationRow("m", "0-s", "7", "u", [], [], 5.0, 0.0, 0);
    var m := map["a" := row, "b" := row];
    assert Outranking(m, row) == {};
    var r := Prune(m, "m", "s", 1);
    assert r.Keys == {"a", "b"};
  }

  /** Pruning `{3, 5, 1}` to the top 1 leaves only the row with 5. */
  lemma KeepsTopOne()
    ensures var row := ActivationRow("m", "0-s", "7", "u", [], [], 0.0, 0.0, 0);
            var m := map["a" := row.(maxValue := 3.0), "b" := row.(maxValue := 5.0), "c" := row.(maxValue := 1.0)];
            Prune(m, "m", "s", 1).Keys == {"b"}
  {
    var row := ActivationRow("m", "0-s", "7", "u", [], [], 0.0, 0.0, 0);
    var m := map["a" := row.(maxValue := 3.0), "b" := row.(maxValue := 5.0), "c" := row.(maxValue := 1.0)];
    assert Outranking(m, m["a"]) == {"b"};
    assert Outranking(m, m["b"]) == {};
    assert Outranking(m, m["c"]) == {"a", "b"};
    LikeSuffixIsEndsWith("0-s", "-s");
    assert SetPattern("s") == "%" + "-s";
    assert ClearedRow(row, "m", "s");
  }

  /** The ids of the rows of `a`'s feature. */
  function Feature(m: map<string, ActivationRow>, a: ActivationRow): set<string>
  {
    set id | id in m && SameFeature(m[id], a)
  }

  /** The rows of the feature a pruning to the top `k` keeps. */
  function Kept(m: map<string, ActivationRow>, a: ActivationRow, k: int): set<string>
  {
    set id | id in Feature(m, a) && |Outranking(m, m[id])| < k
  }

  /** No two rows of the feature share a `maxValue`. */
  ghost predicate DistinctValues(m: map<string, ActivationRow>, a: ActivationRow)
  {
    forall x, y :: x in Feature(m, a) && y in Feature(m, a) && x != y ==> m[x].maxValue != m[y].maxValue
  }

  /** A row of the feature with the largest `maxValue`. */
  lemma {:induction false} TopRow(m: map<string, ActivationRow>, ids: set<string>) returns (x: string)
    requires ids != {} && ids <= m.Keys
    ensures x in ids && forall y :: y in ids ==> m[y].maxValue <= m[x].maxValue
    decreases |ids|
  {
    var y :| y in ids;
    if ids == {y} {
      x := y;
    } else {
      x := TopRow(m, ids - {y});
      if m[x].maxValue < m[y].maxValue {
        x := y;
      }
    }
  }

  /** With distinct values, the top `k` of a feature of `n` rows are exactly
      `min(n, k)` rows: removing the top row lowers every other row's count
      of larger rows by one. */
  lemma {:induction false} KeptCount(m: map<string, ActivationRow>, a: ActivationRow, k: int)
    requires k >= 0 && DistinctValues(m, a)
    ensures |Kept(m, a, k)| == Min(|Feature(m, a)|, k)
    decreases |Feature(m, a)|
  {
    var f := Feature(m, a);
    if k == 0 {
      assert Kept(m, a, k) == {};
    } else if f == {} {
      assert Kept(m, a, k) == {};
    } else {
      var x := TopRow(m, f);
      DropTop(m, a, k, x);
      KeptCount(m - {x}, a, k - 1);
    }
  }

  /** Removing the top row `x` of a feature: the others keep distinct values
      and each is outranked by one row fewer, so the top `k` are `x` and the
      top `k - 1` of the others. */
  lemma DropTop(m: map<string, ActivationRow>, a: ActivationRow, k: int, x: string)
    requires DistinctValues(m, a) && x in Feature(m, a)
    requires forall y :: y in Feature(m, a) ==> m[y].maxValue <= m[x].maxValue
    requires k > 0
    ensures Feature(m - {x}, a) == Feature(m, a) - {x}
    ensures DistinctValues(m - {x}, a)
    ensures Kept(m, a, k) == Kept(m - {x}, a, k - 1) + {x}
    ensures x !in Kept(m - {x}, a, k - 1)
  {
    var f := Feature(m, a);
    var m' := m - {x};
    assert Feature(m', a) == f - {x};
    forall id | id in f && id != x
      ensures |Outranking(m, m[id])| == |Outranking(m', m[id])| + 1
    {
      OutrankedByTop(m, a, x, id);
    }
    assert Outranking(m, m[x]) == {};
    assert Kept(m, a, k) == Kept(m', a, k - 1) + {x};
  }

  /** The top row outranks every other row of its feature. */
  lemma OutrankedByTop(m: map<string, ActivationRow>, a: ActivationRow, x: string, id: string)
    requires DistinctValues(m, a) && x in Feature(m, a)
    requires forall y :: y in Feature(m, a) ==> m[y].maxValue <= m[x].maxValue
    requires id in Feature(m, a) && id != x
    ensures |Outranking(m, m[id])| == |Outranking(m - {x}, m[id])| + 1
  {
    assert Outranking(m, m[id]) == Outranking(m - {x}, m[id]) + {x};
    assert x !in Outranking(m - {x}, m[id]);
  }

  /** When the rows of a feature of the pruned set have distinct values,
      exactly `min(n, topN)` of its `n` rows survive. */
  lemma DistinctValuesKeepTopN(m: map<string, ActivationRow>, modelId: string, setName: string, topN: int, a: ActivationRow)
    requires topN >= 0 && ClearedRow(a, modelId, setName) && DistinctValues(m, a)
    ensures Feature(Prune(m, modelId, setName, topN), a) == Kept(m, a, topN)
    ensures |Feature(Prune(m, modelId, setName, topN), a)| == Min(|Feature(m, a)|, topN)
  {
    KeptCount(m, a, topN);
    var r := Prune(m, modelId, setName, topN);
    forall id | id in m && SameFeature(m[id], a)
      ensures ClearedRow(m[id], modelId, setName)
    {
    }
    assert Feature(r, a) == Kept(m, a, topN);
  }

  /** The delete for one source, committed. */
  method PruneLayer(db: Database, modelId: string, layer: string, topN: int) returns (deleted: nat)
    modifies db
    requires db.Settled()
    ensures db.Settled()
    ensures db.Current() == old(db.Current()).(activations := PruneLayers(old(db.activations), modelId, {layer}, topN))
    ensures deleted + |db.activations| == |old(db.activations)|
  {
    var doomed := set id | id in db.activations && Doomed(db.activations, db.activations[id], modelId, {layer}, topN);
    var kept := PruneLayers(db.activations, modelId, {layer}, topN);
    assert kept.Keys + doomed == db.activations.Keys;
    assert kept.Keys * doomed == {};
    deleted := |doomed|;
    db.activations := kept;
    db.Commit();
  }

  /** `prune_to_top_n_per_feature`: the sources of the set are listed once,
      then each is pruned and committed in turn; `totalDeleted` is the number
      of rows removed. */
  method PruneToTopN(db: Database, modelId: string, setName: string, topN: int) returns (totalDeleted: nat)
    modifies db
    requires db.Settled()
    ensures db.Settled()
    ensures db.Current() == old(db.Current()).(activations := Prune(old(db.activations), modelId, setName, topN))
    ensures totalDeleted + |db.activations| == |old(db.activations)|
  {
    var sourceIds := SetLayers(db.activations, modelId, setName);
    ghost var done: set<string> := {};
    var remaining := sourceIds;
    totalDeleted := 0;
    assert PruneLayers(old(db.activations), modelId, {}, topN) == old(db.activations);
    while remaining != {}
      invariant db.Settled()
      invariant db.Current() == old(db.Current()).(activations := db.activations)
      invariant done !! remaining && done + remaining == sourceIds
      invariant db.activations == PruneLayers(old(db.activations), modelId, done, topN)
      invariant totalDeleted + |db.activations| == |old(db.activations)|
      decreases remaining
    {
      var layer :| layer in remaining;
      var deleted := PruneLayer(db, modelId, layer, topN);
      PruneStep(old(db.activations), modelId, done, layer, topN);
      totalDeleted := totalDeleted + deleted;
      done := done + {layer};
      remaining := remaining - {layer};
    }
  }
}
