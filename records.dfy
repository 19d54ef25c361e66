/** The parsed batch-file records, the grouping of records by layer, the
    model information read from the first explanation files, and the
    100-record chunks the writers commit in. */
module Records {
  import opened Base
  import opened Text
  import opened Keys

  /** One line of an explanation batch file. Keys read with `.get` are
      optional. */
  datatype ExplanationRecord = ExplanationRecord(
    modelId: string, layer: string, index: int, description: string,
    typeName: Option<string>, explanationModelName: Option<string>)

  /** One line of an activation batch file. */
  datatype ActivationRecord = ActivationRecord(
    modelId: string, layer: string, index: int,
    tokens: seq<string>, values: seq<real>, maxValue: real, minValue: real,
    maxValueTokenIndex: Option<int>)

  /** One line of a feature-statistics batch file. `lists` holds the
      list-valued keys that are present, by name, with `None` for a key
      whose value is `null`. The keys read with a default may be missing,
      `null` or set; `vectorLabel` and `hookName`, read without a default,
      give `None` either way. */
  datatype FeatureRecord = FeatureRecord(
    modelId: string, layer: string, index: int,
    maxActApprox: Field<real>, hasVector: Field<bool>,
    vectorDefaultSteerStrength: Field<real>, vectorLabel: Option<string>,
    fracNonzero: Field<real>, hookName: Option<string>,
    lists: map<string, Option<seq<Json>>>)

  function ExplanationLayer(e: ExplanationRecord): string { e.layer }
  function ExplanationIndex(e: ExplanationRecord): int { e.index }
  function ActivationLayer(a: ActivationRecord): string { a.layer }
  function ActivationIndex(a: ActivationRecord): int { a.index }

  /** Every record's layer field parses. */
  predicate LayersParse<R>(recs: seq<R>, layerOf: R -> string)
  {
    forall i :: 0 <= i < |recs| ==> ExtractLayer(layerOf(recs[i])).Ok?
  }

  /** The records whose layer field gives `l`, in their original order. */
  function InLayer<R>(recs: seq<R>, layerOf: R -> string, l: nat): seq<R>
    decreases |recs|
  {
    if recs == [] then []
    else
      var last := recs[|recs| - 1];
      InLayer(recs[..|recs| - 1], layerOf, l) + (if ExtractLayer(layerOf(last)) == Ok(l) then [last] else [])
  }

  lemma {:induction false} InLayerEmpty<R>(recs: seq<R>, layerOf: R -> string, l: nat)
    ensures InLayer(recs, layerOf, l) == [] <==>
            forall i :: 0 <= i < |recs| ==> ExtractLayer(layerOf(recs[i])) != Ok(l)
    decreases |recs|
  {
    if recs != [] {
      var front := recs[..|recs| - 1];
      InLayerEmpty(front, layerOf, l);
      assert forall i :: 0 <= i < |front| ==> front[i] == recs[i];
    }
  }

  /** A record whose layer field gives `l` is in the records of layer `l`. */
  lemma {:induction false} InLayerHas<R>(recs: seq<R>, layerOf: R -> string, i: nat, l: nat)
    requires i < |recs| && ExtractLayer(layerOf(recs[i])) == Ok(l)
    ensures recs[i] in InLayer(recs, layerOf, l)
    decreases |recs|
  {
    var front := recs[..|recs| - 1];
    if i < |recs| - 1 {
      assert front[i] == recs[i];
      InLayerHas(front, layerOf, i, l);
    }
  }

  /** The layer dictionary built in place: `order` is the key order of the
      dictionary (first appearance), `buckets` the list kept per layer. */
  datatype LayerGroups<R> = LayerGroups(order: seq<nat>, buckets: map<nat, seq<R>>)
  {
    ghost predicate Valid()
    {
      && (forall a, b :: 0 <= a < b < |order| ==> order[a] != order[b])
      && (forall l :: l in buckets <==> l in order)
    }
  }

  /** `groups` holds, for every layer that occurs in `recs`, exactly the
      records of that layer in their original order, and nothing else. */
  ghost predicate GroupsOf<R>(groups: LayerGroups<R>, recs: seq<R>, layerOf: R -> string)
  {
    && groups.Valid()
    && (forall l :: l in groups.buckets ==> groups.buckets[l] == InLayer(recs, layerOf, l))
    && (forall l: nat :: l !in groups.buckets ==> InLayer(recs, layerOf, l) == [])
  }

  /** Appending one record of layer `l` to its bucket, creating the bucket
      at the end of the key order when the layer is new, keeps the groups
      those of the records seen so far. */
  lemma GroupsOfAppend<R>(order: seq<nat>, buckets: map<nat, seq<R>>, seen: seq<R>,
                          layerOf: R -> string, rec: R, l: nat,
                          order': seq<nat>, buckets': map<nat, seq<R>>)
    requires GroupsOf(LayerGroups(order, buckets), seen, layerOf)
    requires ExtractLayer(layerOf(rec)) == Ok(l)
    requires order' == if l in buckets then order else order + [l]
    requires buckets' == buckets[l := (if l in buckets then buckets[l] else []) + [rec]]
    ensures GroupsOf(LayerGroups(order', buckets'), seen + [rec], layerOf)
  {
    var seen' := seen + [rec];
    assert seen'[..|seen|] == seen;
    assert LayerGroups(order', buckets').Valid();
    forall k | k in buckets'
      ensures buckets'[k] == InLayer(seen', layerOf, k)
    {
    }
    forall k: nat | k !in buckets'
      ensures InLayer(seen', layerOf, k) == []
    {
    }
  }

  /** `row(l, x)` for every record `x` of `recs`, in order. */
  function LayerRows<R, T>(l: nat, recs: seq<R>, row: (nat, R) -> T): (r: seq<T>)
    ensures |r| == |recs|
    ensures forall j :: 0 <= j < |recs| ==> r[j] == row(l, recs[j])
  {
    seq(|recs|, j requires 0 <= j < |recs| => row(l, recs[j]))
  }

  lemma LayerRowsStep<R, T>(l: nat, recs: seq<R>, j: nat, row: (nat, R) -> T)
    requires j < |recs|
    ensures LayerRows(l, recs[..j + 1], row) == LayerRows(l, recs[..j], row) + [row(l, recs[j])]
    ensures LayerRows(l, recs[..|recs|], row) == LayerRows(l, recs, row)
  {
    assert recs[..|recs|] == recs;
  }

  lemma LayerRowsAppend<R, T>(l: nat, a: seq<R>, b: seq<R>, row: (nat, R) -> T)
    ensures LayerRows(l, a + b, row) == LayerRows(l, a, row) + LayerRows(l, b, row)
  {
  }

  /** The rows a writer produces when it walks the layers in dictionary
      order and each layer's records in list order. */
  function PerLayer<R, T>(order: seq<nat>, buckets: map<nat, seq<R>>, row: (nat, R) -> T): seq<T>
    requires forall l :: l in order ==> l in buckets
    decreases |order|
  {
    if order == [] then []
    else
      var last := order[|order| - 1];
      PerLayer(order[..|order| - 1], buckets, row) + LayerRows(last, buckets[last], row)
  }

  lemma PerLayerStep<R, T>(order: seq<nat>, buckets: map<nat, seq<R>>, row: (nat, R) -> T, n: nat)
    requires forall l :: l in order ==> l in buckets
    requires n < |order|
    ensures PerLayer(order[..n + 1], buckets, row) == PerLayer(order[..n], buckets, row) + LayerRows(order[n], buckets[order[n]], row)
  {
    assert order[..n + 1][..n] == order[..n];
  }

  /** Every record of every listed layer contributes its row. */
  lemma {:induction false} PerLayerHas<R, T>(order: seq<nat>, buckets: map<nat, seq<R>>, row: (nat, R) -> T, l: nat, k: nat)
    requires forall l :: l in order ==> l in buckets
    requires l in order && k < |buckets[l]|
    ensures row(l, buckets[l][k]) in PerLayer(order, buckets, row)
    decreases |order|
  {
    var last := order[|order| - 1];
    if l == last {
      assert LayerRows(last, buckets[last], row)[k] == row(l, buckets[l][k]);
    } else {
      var front := order[..|order| - 1];
      assert order == front + [last];
      assert l in front;
      PerLayerHas(front, buckets, row, l, k);
    }
  }

  /** Every row a writer produces comes from one record of one listed
      layer. */
  lemma {:induction false} PerLayerFrom<R, T>(order: seq<nat>, buckets: map<nat, seq<R>>, row: (nat, R) -> T, i: nat)
    requires forall l :: l in order ==> l in buckets
    requires i < |PerLayer(order, buckets, row)|
    ensures exists l, k :: l in order && 0 <= k < |buckets[l]| && PerLayer(order, buckets, row)[i] == row(l, buckets[l][k])
    decreases |order|
  {
    var last := order[|order| - 1];
    var front := order[..|order| - 1];
    assert forall l :: l in front ==> l in order;
    var head := PerLayer(front, buckets, row);
    if i < |head| {
      PerLayerFrom(front, buckets, row, i);
      var l, k :| l in front && 0 <= k < |buckets[l]| && head[i] == row(l, buckets[l][k]);
      assert l in order;
    } else {
      var k := i - |head|;
      assert PerLayer(order, buckets, row)[i] == row(last, buckets[last][k]);
    }
  }

  /** The grouping loop of the explanation upload: every record goes to the
      bucket of its extracted layer, files and lines in order. A layer field
      that does not parse aborts the grouping. */
  method GroupByLayer<R>(files: seq<seq<R>>, layerOf: R -> string) returns (r: Result<LayerGroups<R>>)
    ensures r.Ok? <==> LayersParse(Flatten(files), layerOf)
    ensures r.Ok? ==> GroupsOf(r.value, Flatten(files), layerOf)
  {
    var groups: LayerGroups<R> := LayerGroups([], map[]);
    for i := 0 to |files|
      invariant LayersParse(Flatten(files[..i]), layerOf)
      invariant GroupsOf(groups, Flatten(files[..i]), layerOf)
    {
      FlattenStep(files, i);
      var grouped := GroupFile(groups, Flatten(files[..i]), files[i], layerOf);
      if grouped.Err? {
        ghost var j :| 0 <= j < |files[i]| && ExtractLayer(layerOf(files[i][j])).Err?;
        FlattenIndex(files, i, j);
        return Err(grouped.error);
      }
      ParsesAppend(Flatten(files[..i]), files[i], layerOf);
      groups := grouped.value;
    }
    assert files[..|files|] == files;
    return Ok(groups);
  }

  lemma ParsesAppend<R>(a: seq<R>, b: seq<R>, layerOf: R -> string)
    requires LayersParse(a, layerOf) && LayersParse(b, layerOf)
    ensures LayersParse(a + b, layerOf)
  {
    var ab := a + b;
    assert forall k :: |a| <= k < |ab| ==> ab[k] == b[k - |a|];
  }

  /** One more record of a file: the prefix still parses exactly when the
      record's layer does, and a record that does not parse fails the file. */
  lemma ParsesStep<R>(seen: seq<R>, recs: seq<R>, j: nat, layerOf: R -> string)
    requires j < |recs| && LayersParse(recs[..j], layerOf)
    ensures ExtractLayer(layerOf(recs[j])).Ok? ==> LayersParse(recs[..j + 1], layerOf)
    ensures ExtractLayer(layerOf(recs[j])).Err? ==> !LayersParse(recs, layerOf)
    ensures seen + recs[..j] + [recs[j]] == seen + recs[..j + 1]
  {
    assert recs[..j + 1] == recs[..j] + [recs[j]];
  }

  /** The records of one file appended to the layer dictionary in order. */
  method GroupFile<R>(groups: LayerGroups<R>, ghost seen: seq<R>, recs: seq<R>, layerOf: R -> string)
    returns (r: Result<LayerGroups<R>>)
    requires GroupsOf(groups, seen, layerOf)
    ensures r.Ok? <==> LayersParse(recs, layerOf)
    ensures r.Ok? ==> GroupsOf(r.value, seen + recs, layerOf)
  {
    var current := groups;
    assert seen + recs[..0] == seen;
    for j := 0 to |recs|
      invariant LayersParse(recs[..j], layerOf)
      invariant GroupsOf(current, seen + recs[..j], layerOf)
    {
      var step := AddToGroup(current, seen + recs[..j], recs[j], layerOf);
      ParsesStep(seen, recs, j, layerOf);
      if step.Err? {
        return Err(step.error);
      }
      current := step.value;
    }
    assert recs[..|recs|] == recs;
    return Ok(current);
  }

  /** One record appended to the bucket of its layer; a layer not seen
      before gets a new bucket at the end of the key order. A layer field
      that does not parse is the `ValueError` of the grouping. */
  method AddToGroup<R>(groups: LayerGroups<R>, ghost seen: seq<R>, rec: R, layerOf: R -> string)
    returns (r: Result<LayerGroups<R>>)
    requires GroupsOf(groups, seen, layerOf)
    ensures r.Ok? <==> ExtractLayer(layerOf(rec)).Ok?
    ensures r.Ok? ==> GroupsOf(r.value, seen + [rec], layerOf)
    ensures r.Ok? ==> var l := ExtractLayer(layerOf(rec)).value;
      r.value.order == if l in groups.buckets then groups.order else groups.order + [l]
  {
    var layer := ExtractLayer(layerOf(rec));
    if layer.Err? {
      return Err(layer.error);
    }
    var l := layer.value;
    var order := groups.order;
    var buckets := groups.buckets;
    if l !in buckets {
      buckets := buckets[l := []];
      order := order + [l];
    }
    buckets := buckets[l := buckets[l] + [rec]];
    GroupsOfAppend(groups.order, groups.buckets, seen, layerOf, rec, l, order, buckets);
    r := Ok(LayerGroups(order, buckets));
  }

  /** The largest layer among the records, 0 when there are none. */
  function MaxLayer<R>(recs: seq<R>, layerOf: R -> string): nat
  {
    MaxOf(recs, LayerOrZero(layerOf))
  }

  /** The layer a field gives, 0 when it gives none. */
  function LayerOrZero<R>(layerOf: R -> string): R -> nat
  {
    (r: R) => if ExtractLayer(layerOf(r)).Ok? then ExtractLayer(layerOf(r)).value else 0
  }

  /** Python's `max(s) if s else 0` on a set of layers. */
  method MaxOfSet(s: set<nat>) returns (m: nat)
    ensures s == {} ==> m == 0
    ensures s != {} ==> m in s
    ensures forall x :: x in s ==> x <= m
  {
    m := 0;
    var rest := s;
    while rest != {}
      invariant rest <= s
      invariant s == {} ==> m == 0
      invariant s != {} && rest != s ==> m in s
      invariant forall x :: x in s && x !in rest ==> x <= m
      decreases |rest|
    {
      var x :| x in rest;
      if rest == s || x > m {
        m := x;
      }
      rest := rest - {x};
    }
  }

  /** The files the layer count is read from: the first three. */
  function LeadingFiles<R>(files: seq<seq<R>>): seq<seq<R>>
  {
    files[..Min(3, |files|)]
  }

  /** The set of layers of records whose layer fields all parse. */
  function LayerSet<R>(recs: seq<R>, layerOf: R -> string): set<nat>
    requires LayersParse(recs, layerOf)
  {
    set k | 0 <= k < |recs| :: ExtractLayer(layerOf(recs[k])).value
  }

  lemma LayerSetAppend<R>(a: seq<R>, b: seq<R>, layerOf: R -> string)
    requires LayersParse(a, layerOf) && LayersParse(b, layerOf)
    ensures LayersParse(a + b, layerOf)
    ensures LayerSet(a + b, layerOf) == LayerSet(a, layerOf) + LayerSet(b, layerOf)
  {
    var ab := a + b;
    assert forall k :: 0 <= k < |a| ==> ab[k] == a[k];
    assert forall k :: 0 <= k < |b| ==> ab[|a| + k] == b[k];
    forall x | x in LayerSet(ab, layerOf)
      ensures x in LayerSet(a, layerOf) + LayerSet(b, layerOf)
    {
      var k :| 0 <= k < |ab| && ExtractLayer(layerOf(ab[k])).value == x;
      if k >= |a| {
        assert ab[k] == b[k - |a|];
      }
    }
  }

  /** The largest layer is the largest element of the layer set. */
  lemma MaxLayerOfSet<R>(recs: seq<R>, layerOf: R -> string, m: nat)
    requires LayersParse(recs, layerOf) && recs != []
    requires m in LayerSet(recs, layerOf) && forall x :: x in LayerSet(recs, layerOf) ==> x <= m
    ensures m == MaxLayer(recs, layerOf)
  {
    var top := MaxLayer(recs, layerOf);
    MaxOfSpec(recs, LayerOrZero(layerOf));
    var i :| 0 <= i < |recs| && LayerOrZero(layerOf)(recs[i]) == top;
    assert top in LayerSet(recs, layerOf);
    var j :| 0 <= j < |recs| && ExtractLayer(layerOf(recs[j])).value == m;
    assert LayerOrZero(layerOf)(recs[j]) <= top;
  }

  /** The layers of one file, read in order; the first layer field that
      does not parse ends the read with its error. */
  method FileLayers(recs: seq<ExplanationRecord>) returns (r: Result<set<nat>>)
    ensures r.Ok? <==> LayersParse(recs, ExplanationLayer)
    ensures r.Ok? ==> r.value == LayerSet(recs, ExplanationLayer)
  {
    var layers: set<nat> := {};
    for j := 0 to |recs|
      invariant LayersParse(recs[..j], ExplanationLayer)
      invariant layers == LayerSet(recs[..j], ExplanationLayer)
    {
      match ExtractLayer(recs[j].layer)
      case Err(e) =>
        return Err(e);
      case Ok(l) =>
        LayerSetAppend(recs[..j], [recs[j]], ExplanationLayer);
        assert recs[..j + 1] == recs[..j] + [recs[j]];
        layers := layers + {l};
    }
    assert recs[..|recs|] == recs;
    return Ok(layers);
  }

  /** `get_model_info_from_explanations`: the model id of the first record,
      and one more than the largest layer in the first three files. */
  method GetModelInfo(files: seq<seq<ExplanationRecord>>) returns (r: Result<(string, nat)>)
    ensures files == [] || files[0] == [] ==> r.Err?
    ensures files != [] && files[0] != [] ==>
              (r.Ok? <==> LayersParse(Flatten(LeadingFiles(files)), ExplanationLayer))
    ensures r.Ok? ==>
              && r.value.0 == files[0][0].modelId
              && r.value.1 == 1 + MaxLayer(Flatten(LeadingFiles(files)), ExplanationLayer)
  {
    if |files| == 0 {
      return Err("No batch-*.jsonl files found");
    }
    if |files[0]| == 0 {
      return Err("No explanations found in the first file");
    }
    var modelId := files[0][0].modelId;
    var leading := LeadingFiles(files);
    var layers: set<nat> := {};
    for i := 0 to |leading|
      invariant LayersParse(Flatten(leading[..i]), ExplanationLayer)
      invariant layers == LayerSet(Flatten(leading[..i]), ExplanationLayer)
    {
      FlattenStep(leading, i);
      var fileLayers := FileLayers(leading[i]);
      if fileLayers.Err? {
        ghost var j :| 0 <= j < |leading[i]| && ExtractLayer(leading[i][j].layer).Err?;
        FlattenIndex(leading, i, j);
        return Err(fileLayers.error);
      }
      LayerSetAppend(Flatten(leading[..i]), leading[i], ExplanationLayer);
      layers := layers + fileLayers.value;
    }
    assert leading[..|leading|] == leading;
    var maxLayer := MaxOfSet(layers);
    FlattenIndex(leading, 0, 0);
    assert leading[..0] == [];
    assert ExtractLayer(Flatten(leading)[0].layer).value in layers;
    MaxLayerOfSet(Flatten(leading), ExplanationLayer, maxLayer);
    return Ok((modelId, maxLayer + 1));
  }

  /** The consecutive slices `s[i:i+n]` for `i` in `range(0, len(s), n)`. */
  function Chunks<T>(s: seq<T>, n: nat): (cs: seq<seq<T>>)
    requires n > 0
    ensures Flatten(cs) == s
    ensures forall k :: 0 <= k < |cs| ==> 0 < |cs[k]| <= n
    ensures forall k :: 0 <= k < |cs| - 1 ==> |cs[k]| == n
    decreases |s|
  {
    if s == [] then []
    else if |s| <= n then
      assert Flatten([s]) == Flatten([s][..0]) + s;
      [s]
    else
      var rest := Chunks(s[n..], n);
      FlattenAppend([s[..n]], rest);
      assert Flatten([s[..n]]) == Flatten([s[..n]][..0]) + s[..n];
      assert s[..n] + s[n..] == s;
      assert forall k :: 0 < k < |rest| + 1 ==> ([s[..n]] + rest)[k] == rest[k - 1];
      [s[..n]] + rest
  }

  /** A slice of `s[n..]` is the slice of `s` shifted by `n`. */
  lemma SliceOfDrop<T>(s: seq<T>, n: nat, k: nat)
    requires 0 < k && n < |s| && (k - 1) * n < |s| - n
    ensures k * n < |s|
    ensures s[n..][(k - 1) * n..Min((k - 1) * n + n, |s| - n)] == s[k * n..Min(k * n + n, |s|)]
  {
    var lo := (k - 1) * n;
    assert n + lo == k * n by {
      assert (k - 1) * n == k * n - n;
    }
  }

  /** The first chunk is the first `n` elements, or all of them. */
  lemma ChunksHead<T>(s: seq<T>, n: nat)
    requires n > 0 && s != []
    ensures Chunks(s, n)[0] == s[0..Min(n, |s|)]
  {
    if |s| <= n {
      assert Chunks(s, n) == [s];
      assert s[0..|s|] == s;
    }
  }

  /** Past the first chunk, the chunks are those of the rest. */
  lemma ChunksTail<T>(s: seq<T>, n: nat, k: nat)
    requires n > 0 && 0 < k < |Chunks(s, n)|
    ensures |s| > n
    ensures k - 1 < |Chunks(s[n..], n)|
    ensures Chunks(s, n)[k] == Chunks(s[n..], n)[k - 1]
  {
  }

  /** Chunk `k` is the slice starting at `k * n`. */
  lemma {:induction false} ChunkAt<T>(s: seq<T>, n: nat, k: nat)
    requires n > 0 && k < |Chunks(s, n)|
    ensures k * n < |s|
    ensures Chunks(s, n)[k] == s[k * n..Min(k * n + n, |s|)]
    decreases |s|
  {
    if k == 0 {
      ChunksHead(s, n);
    } else {
      ChunksTail(s, n, k);
      ChunkAt(s[n..], n, k - 1);
      SliceOfDrop(s, n, k);
    }
  }
}
