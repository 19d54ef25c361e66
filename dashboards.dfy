/** The dashboard generator's record shaping: a batch of feature dashboards
    becomes a list of Feature records and a list of Activation records; and
    the pieces of its entry point that are plain text: the source id, the
    HuggingFace folder id, the model record's `instruct` flag and the
    "equivalent command" it echoes. */
module Dashboards {
  import opened Base
  import opened Text
  import opened Keys

  // ---------------------------------------------------------------------
  // Identifiers derived in the entry point

  /** `source_id`: `"{layer}-{set}"`, then `"__{suffix}"` only when the
      suffix is neither missing nor empty. */
  function DashboardSourceId(layer: nat, setName: string, suffix: Option<string>): (id: string)
    ensures StartsWith(id, SourceId(layer, setName))
    ensures suffix.None? || suffix.value == [] ==> id == SourceId(layer, setName)
    ensures suffix.Some? && suffix.value != [] ==>
      |id| == |SourceId(layer, setName)| + 2 + |suffix.value| && EndsWith(id, "__" + suffix.value)
  {
    SourceId(layer, setName) + if suffix.Some? && suffix.value != [] then "__" + suffix.value else ""
  }

  /** The uploaders read the generator's layer back out of the source id,
      whatever the set name and suffix. */
  lemma DashboardSourceIdLayer(layer: nat, setName: string, suffix: Option<string>)
    ensures ExtractLayer(DashboardSourceId(layer, setName, suffix)) == Ok(layer)
  {
    var tail := if suffix.Some? && suffix.value != [] then "__" + suffix.value else "";
    assert DashboardSourceId(layer, setName, suffix) == NatToString(layer) + "-" + (setName + tail);
    ExtractLayerOfJoin(layer, setName + tail);
  }

  /** `"/".join(path.split("/")[:-1])`: the path without its last `/`
      segment, and the empty string when the path has no `/`. */
  function HfFolderId(path: string): (r: string)
    ensures r <= path
    ensures '/' !in path ==> r == []
    ensures '/' in path ==> |r| < |path| && path[|r|] == '/' && '/' !in path[|r| + 1..]
  {
    if path == [] then []
    else if path[|path| - 1] == '/' then path[..|path| - 1]
    else
      var r := HfFolderId(path[..|path| - 1]);
      assert path == path[..|path| - 1] + [path[|path| - 1]];
      assert '/' in path ==> '/' in path[..|path| - 1];
      assert '/' in path ==> path[..|path| - 1][|r| + 1..] + [path[|path| - 1]] == path[|r| + 1..];
      r
  }

  /** A folder and a file name without `/` joined by `/` give back the
      folder. */
  lemma {:induction false} HfFolderIdOfJoin(folder: string, file: string)
    requires '/' !in file
    ensures HfFolderId(folder + "/" + file) == folder
    decreases |file|
  {
    var path := folder + "/" + file;
    if file == [] {
      assert path[..|path| - 1] == folder;
    } else {
      assert path[..|path| - 1] == folder + "/" + file[..|file| - 1];
      assert file[|file| - 1] in file;
      HfFolderIdOfJoin(folder, file[..|file| - 1]);
    }
  }

  /** A weights path loses its file name; a bare file name gives the empty
      folder id. */
  lemma HfFolderIdExample()
    ensures HfFolderId("org/repo/params.safetensors") == "org/repo"
    ensures HfFolderId("params.safetensors") == ""
  {
    assert "org/repo/params.safetensors" == "org/repo" + "/" + "params.safetensors";
    HfFolderIdOfJoin("org/repo", "params.safetensors");
  }

  /** The `model.jsonl` record. */
  datatype ModelEntry = ModelEntry(id: string, instruct: bool, displayNameShort: string,
                                   displayName: string, creatorId: string)

  /** The model record: every name field is the model name, and the model
      is instruction-tuned exactly when its name ends with `-it`. */
  function ModelEntryOf(modelName: string, creatorId: string): (m: ModelEntry)
    ensures m.id == m.displayNameShort == m.displayName == modelName
    ensures m.instruct <==> |modelName| >= 3 && modelName[|modelName| - 3..] == "-it"
    ensures m.creatorId == creatorId
  {
    ModelEntry(modelName, EndsWith(modelName, "-it"), modelName, modelName, creatorId)
  }

  // ---------------------------------------------------------------------
  // Record shaping (`process_data`)

  /** One activation of a dashboard as the runner writes it. Keys that may
      be absent are options; `bin_*` and `qualifying_token_index` are
      copied without being looked at. */
  datatype ActivationData = ActivationData(
    tokens: seq<string>, values: seq<real>,
    dfaValues: Option<seq<real>>, dfaTargetIndex: Option<int>, dfaMaxValue: Option<real>,
    lossValues: Option<seq<real>>, logitContributions: Option<Json>,
    binContains: Json, binMax: Json, binMin: Json, qualifyingTokenIndex: Json)

  /** One feature of a dashboard: its index, its optional steering vector,
      its activations, and the statistics fields (neuron alignment,
      correlations, logit strings, histograms, decoder weights) that are
      copied verbatim, by name. */
  datatype FeatureData = FeatureData(featureIndex: int, vector: Option<seq<real>>,
                                     activations: seq<ActivationData>, stats: map<string, Json>)

  /** One batch file. */
  datatype BatchData = BatchData(modelId: string, layer: nat, saeIdSuffix: Option<string>,
                                 features: seq<FeatureData>)

  /** An output Activation record. */
  datatype Activation = Activation(
    tokens: seq<string>, modelId: string, layer: string, index: int,
    maxValue: real, maxValueTokenIndex: nat, minValue: real, values: seq<real>,
    dfaValues: seq<real>, dfaTargetIndex: Option<int>, dfaMaxValue: Option<real>,
    creatorId: string, lossValues: seq<real>, logitContributions: Option<Json>,
    binContains: Json, binMax: Json, binMin: Json, qualifyingTokenIndex: Json)

  /** An output Feature record. */
  datatype Feature = Feature(
    modelId: string, layer: string, index: int, creatorId: string,
    hasVector: bool, vector: seq<real>, hookName: Option<string>,
    stats: map<string, Json>, maxActApprox: real, vectorDefaultSteerStrength: Option<real>)

  function RMax(a: real, b: real): real { if a >= b then a else b }

  /** `max(values)`. */
  function SeqMax(s: seq<real>): (m: real)
    requires |s| > 0
    ensures m in s
    ensures forall x :: x in s ==> x <= m
    decreases |s|
  {
    if |s| == 1 then s[0]
    else
      var front := SeqMax(s[..|s| - 1]);
      assert forall x :: x in s ==> x in s[..|s| - 1] || x == s[|s| - 1];
      RMax(front, s[|s| - 1])
  }

  /** `min(values)`. */
  function SeqMin(s: seq<real>): (m: real)
    requires |s| > 0
    ensures m in s
    ensures forall x :: x in s ==> m <= x
    decreases |s|
  {
    if |s| == 1 then s[0]
    else
      var front := SeqMin(s[..|s| - 1]);
      assert forall x :: x in s ==> x in s[..|s| - 1] || x == s[|s| - 1];
      if s[|s| - 1] < front then s[|s| - 1] else front
  }

  /** `values.index(x)`: the first position holding `x`. */
  function IndexOf(s: seq<real>, x: real): (i: nat)
    requires x in s
    ensures i < |s| && s[i] == x
    ensures forall j :: 0 <= j < i ==> s[j] != x
  {
    if s[0] == x then 0 else 1 + IndexOf(s[1..], x)
  }

  /** `max()` and `min()` raise on an empty list: every activation must
      have values. */
  predicate HaveValues(acts: seq<ActivationData>)
  {
    forall j :: 0 <= j < |acts| ==> |acts[j].values| > 0
  }

  predicate Shapeable(f: FeatureData)
  {
    HaveValues(f.activations)
  }

  predicate AllShapeable(fs: seq<FeatureData>)
  {
    forall i :: 0 <= i < |fs| ==> Shapeable(fs[i])
  }

  lemma HaveValuesPrefix(acts: seq<ActivationData>, n: nat)
    requires HaveValues(acts) && n <= |acts|
    ensures HaveValues(acts[..n])
  {
    assert forall j :: 0 <= j < n ==> acts[..n][j] == acts[j];
  }

  /** The Activation record written for one activation. */
  function ActivationOf(a: ActivationData, modelId: string, sourceId: string, index: int,
                        creatorId: string): Activation
    requires |a.values| > 0
  {
    var top := SeqMax(a.values);
    Activation(a.tokens, modelId, sourceId, index, top, IndexOf(a.values, top), SeqMin(a.values), a.values,
               a.dfaValues.GetOr([]), a.dfaTargetIndex, a.dfaMaxValue, creatorId, a.lossValues.GetOr([]),
               a.logitContributions, a.binContains, a.binMax, a.binMin, a.qualifyingTokenIndex)
  }

  /** An Activation record holds the maximum of the values, the first
      position where it occurs and the minimum, and its optional keys
      default to `[]` or `None`. */
  lemma ActivationOfSpec(a: ActivationData, modelId: string, sourceId: string, index: int, creatorId: string)
    requires |a.values| > 0
    ensures var r := ActivationOf(a, modelId, sourceId, index, creatorId);
      && r.maxValue in a.values && r.minValue in a.values
      && (forall x :: x in a.values ==> r.minValue <= x <= r.maxValue)
      && r.maxValueTokenIndex < |a.values| && a.values[r.maxValueTokenIndex] == r.maxValue
      && (forall j :: 0 <= j < r.maxValueTokenIndex ==> a.values[j] < r.maxValue)
      && r.values == a.values && r.tokens == a.tokens
      && r.modelId == modelId && r.layer == sourceId && r.index == index
      && r.dfaValues == (if a.dfaValues.Some? then a.dfaValues.value else [])
      && r.lossValues == (if a.lossValues.Some? then a.lossValues.value else [])
  {
    var r := ActivationOf(a, modelId, sourceId, index, creatorId);
    forall j | 0 <= j < r.maxValueTokenIndex
      ensures a.values[j] < r.maxValue
    {
      assert a.values[j] in a.values;
    }
  }

  /** The running maximum of the activations' maxima, started at 0. */
  function MaxActApprox(acts: seq<ActivationData>): real
    requires HaveValues(acts)
    decreases |acts|
  {
    if acts == [] then 0.0
    else
      HaveValuesPrefix(acts, |acts| - 1);
      var m := MaxActApprox(acts[..|acts| - 1]);
      var last := SeqMax(acts[|acts| - 1].values);
      if last > m then last else m
  }

  /** The running maximum is at least 0 and at least every activation's
      maximum, and it is 0 or one of those maxima. */
  lemma {:induction false} MaxActApproxSpec(acts: seq<ActivationData>)
    requires HaveValues(acts)
    ensures MaxActApprox(acts) >= 0.0
    ensures forall j :: 0 <= j < |acts| ==> SeqMax(acts[j].values) <= MaxActApprox(acts)
    ensures MaxActApprox(acts) == 0.0 || exists j :: 0 <= j < |acts| && MaxActApprox(acts) == SeqMax(acts[j].values)
    decreases |acts|
  {
    if acts != [] {
      var front := acts[..|acts| - 1];
      HaveValuesPrefix(acts, |acts| - 1);
      MaxActApproxSpec(front);
      assert forall j :: 0 <= j < |front| ==> front[j] == acts[j];
      var m := MaxActApprox(front);
      if m != 0.0 && m >= SeqMax(acts[|acts| - 1].values) {
        var k :| 0 <= k < |front| && m == SeqMax(front[k].values);
        assert MaxActApprox(acts) == SeqMax(acts[k].values);
      }
    }
  }

  /** The Activation records of a feature, in order. */
  function ActivationsOf(acts: seq<ActivationData>, modelId: string, sourceId: string, index: int,
                         creatorId: string): seq<Activation>
    requires HaveValues(acts)
    decreases |acts|
  {
    if acts == [] then []
    else
      HaveValuesPrefix(acts, |acts| - 1);
      ActivationsOf(acts[..|acts| - 1], modelId, sourceId, index, creatorId)
        + [ActivationOf(acts[|acts| - 1], modelId, sourceId, index, creatorId)]
  }

  /** One Activation record per activation, in the same order. */
  lemma {:induction false} ActivationsOfSpec(acts: seq<ActivationData>, modelId: string, sourceId: string,
                                             index: int, creatorId: string)
    requires HaveValues(acts)
    ensures |ActivationsOf(acts, modelId, sourceId, index, creatorId)| == |acts|
    ensures forall j :: 0 <= j < |acts| ==>
      ActivationsOf(acts, modelId, sourceId, index, creatorId)[j] == ActivationOf(acts[j], modelId, sourceId, index, creatorId)
    decreases |acts|
  {
    if acts != [] {
      HaveValuesPrefix(acts, |acts| - 1);
      ActivationsOfSpec(acts[..|acts| - 1], modelId, sourceId, index, creatorId);
    }
  }

  /** One more activation with values: the running maximum takes it in and
      its record is appended. */
  lemma ShapeStep(acts: seq<ActivationData>, j: nat, modelId: string, sourceId: string, index: int,
                  creatorId: string)
    requires j < |acts| && HaveValues(acts[..j]) && |acts[j].values| > 0
    ensures HaveValues(acts[..j + 1])
    ensures MaxActApprox(acts[..j + 1]) ==
      if SeqMax(acts[j].values) > MaxActApprox(acts[..j]) then SeqMax(acts[j].values) else MaxActApprox(acts[..j])
    ensures ActivationsOf(acts[..j + 1], modelId, sourceId, index, creatorId)
      == ActivationsOf(acts[..j], modelId, sourceId, index, creatorId) + [ActivationOf(acts[j], modelId, sourceId, index, creatorId)]
  {
    assert acts[..j + 1][..j] == acts[..j];
    assert forall k :: 0 <= k < j ==> acts[..j + 1][k] == acts[..j][k];
  }

  /** The Feature record written for one feature. */
  function FeatureOf(f: FeatureData, modelId: string, sourceId: string, layer: nat, hookPoint: string,
                     creatorId: string): Feature
    requires Shapeable(f)
  {
    var approx := MaxActApprox(f.activations);
    Feature(modelId, sourceId, f.featureIndex, creatorId,
            f.vector.Some? && |f.vector.value| > 0,
            f.vector.GetOr([]),
            if f.vector.Some? then Some("blocks." + NatToString(layer) + "." + hookPoint) else None,
            f.stats, approx,
            if f.vector.Some? then Some(approx) else None)
  }

  /** A feature's approximate maximum activation is the largest of its
      activations' maxima, or 0 when that is larger or there are none; a
      vector's default steering strength is that same value, set exactly
      when the feature carries a vector; and `hasVector` holds exactly when
      the vector is present and non-empty. */
  lemma FeatureOfSpec(f: FeatureData, modelId: string, sourceId: string, layer: nat, hookPoint: string,
                      creatorId: string)
    requires Shapeable(f)
    ensures var r := FeatureOf(f, modelId, sourceId, layer, hookPoint, creatorId);
      && r.maxActApprox >= 0.0
      && (forall j :: 0 <= j < |f.activations| ==>
            ActivationOf(f.activations[j], modelId, sourceId, f.featureIndex, creatorId).maxValue <= r.maxActApprox)
      && (r.maxActApprox == 0.0 || exists j :: (0 <= j < |f.activations| &&
            r.maxActApprox == ActivationOf(f.activations[j], modelId, sourceId, f.featureIndex, creatorId).maxValue))
      && (f.activations == [] ==> r.maxActApprox == 0.0)
      && (r.vectorDefaultSteerStrength.Some? <==> f.vector.Some?)
      && (r.vectorDefaultSteerStrength.Some? ==> r.vectorDefaultSteerStrength.value == r.maxActApprox)
      && (r.hasVector <==> f.vector.Some? && f.vector.value != [])
      && (r.hookName.Some? <==> f.vector.Some?)
      && r.index == f.featureIndex && r.layer == sourceId && r.stats == f.stats
  {
    MaxActApproxSpec(f.activations);
  }

  /** One feature of `process_data`: the Feature record and its Activation
      records, or the `ValueError` of `max()` on an activation with no
      values. */
  method ProcessFeature(f: FeatureData, modelId: string, sourceId: string, layer: nat, hookPoint: string,
                        creatorId: string) returns (r: Result<(Feature, seq<Activation>)>)
    ensures r.Err? <==> !Shapeable(f)
    ensures r.Ok? ==> r.value.0 == FeatureOf(f, modelId, sourceId, layer, hookPoint, creatorId)
    ensures r.Ok? ==> r.value.1 == ActivationsOf(f.activations, modelId, sourceId, f.featureIndex, creatorId)
  {
    var acts := f.activations;
    var approx := 0.0;
    var out: seq<Activation> := [];
    for j := 0 to |acts|
      invariant HaveValues(acts[..j])
      invariant approx == MaxActApprox(acts[..j])
      invariant out == ActivationsOf(acts[..j], modelId, sourceId, f.featureIndex, creatorId)
    {
      var a := acts[j];
      if |a.values| == 0 {
        return Err("max() arg is an empty sequence");
      }
      ShapeStep(acts, j, modelId, sourceId, f.featureIndex, creatorId);
      var top := SeqMax(a.values);
      if top > approx {
        approx := top;
      }
      out := out + [ActivationOf(a, modelId, sourceId, f.featureIndex, creatorId)];
    }
    assert acts[..|acts|] == acts;
    r := Ok((FeatureOf(f, modelId, sourceId, layer, hookPoint, creatorId), out));
  }

  /** The Activation records of a batch: those of its first feature, then
      those of the next, and so on. */
  function AllActivations(fs: seq<FeatureData>, modelId: string, sourceId: string, creatorId: string): seq<Activation>
    requires AllShapeable(fs)
    decreases |fs|
  {
    if fs == [] then []
    else
      var last := fs[|fs| - 1];
      assert Shapeable(last);
      assert AllShapeable(fs[..|fs| - 1]) by {
        assert forall i :: 0 <= i < |fs| - 1 ==> fs[..|fs| - 1][i] == fs[i];
      }
      AllActivations(fs[..|fs| - 1], modelId, sourceId, creatorId)
        + ActivationsOf(last.activations, modelId, sourceId, last.featureIndex, creatorId)
  }

  /** The number of activations across the features. */
  function ActivationCount(fs: seq<FeatureData>): nat
    decreases |fs|
  {
    if fs == [] then 0 else ActivationCount(fs[..|fs| - 1]) + |fs[|fs| - 1].activations|
  }

  lemma {:induction false} AllActivationsLength(fs: seq<FeatureData>, modelId: string, sourceId: string,
                                                creatorId: string)
    requires AllShapeable(fs)
    ensures |AllActivations(fs, modelId, sourceId, creatorId)| == ActivationCount(fs)
    decreases |fs|
  {
    if fs != [] {
      var last := fs[|fs| - 1];
      assert Shapeable(last);
      assert forall i :: 0 <= i < |fs| - 1 ==> fs[..|fs| - 1][i] == fs[i];
      AllActivationsLength(fs[..|fs| - 1], modelId, sourceId, creatorId);
      ActivationsOfSpec(last.activations, modelId, sourceId, last.featureIndex, creatorId);
    }
  }

  /** A batch yields exactly one Activation record per input activation:
      activation `j` of feature `i` is record `ActivationCount(fs[..i]) + j`. */
  lemma {:induction false} AllActivationsAt(fs: seq<FeatureData>, modelId: string, sourceId: string,
                                            creatorId: string, i: nat, j: nat)
    requires AllShapeable(fs)
    requires i < |fs| && j < |fs[i].activations|
    ensures |AllActivations(fs, modelId, sourceId, creatorId)| == ActivationCount(fs)
    ensures ActivationCount(fs[..i]) + j < ActivationCount(fs)
    ensures AllActivations(fs, modelId, sourceId, creatorId)[ActivationCount(fs[..i]) + j]
      == ActivationOf(fs[i].activations[j], modelId, sourceId, fs[i].featureIndex, creatorId)
    decreases |fs|
  {
    var front := fs[..|fs| - 1];
    var last := fs[|fs| - 1];
    AllActivationsCons(fs, modelId, sourceId, creatorId);
    AllActivationsLength(front, modelId, sourceId, creatorId);
    ActivationsOfSpec(last.activations, modelId, sourceId, last.featureIndex, creatorId);
    var all := AllActivations(fs, modelId, sourceId, creatorId);
    var before := AllActivations(front, modelId, sourceId, creatorId);
    if i == |fs| - 1 {
      assert fs[..i] == front;
      assert all[|before| + j] == ActivationsOf(last.activations, modelId, sourceId, last.featureIndex, creatorId)[j];
    } else {
      assert front[..i] == fs[..i];
      AllActivationsAt(front, modelId, sourceId, creatorId, i, j);
      assert all[ActivationCount(fs[..i]) + j] == before[ActivationCount(fs[..i]) + j];
    }
  }

  /** A batch's records are those of all features but the last, followed by
      those of the last. */
  lemma AllActivationsCons(fs: seq<FeatureData>, modelId: string, sourceId: string, creatorId: string)
    requires AllShapeable(fs) && fs != []
    ensures AllShapeable(fs[..|fs| - 1]) && HaveValues(fs[|fs| - 1].activations)
    ensures AllActivations(fs, modelId, sourceId, creatorId)
      == AllActivations(fs[..|fs| - 1], modelId, sourceId, creatorId)
         + ActivationsOf(fs[|fs| - 1].activations, modelId, sourceId, fs[|fs| - 1].featureIndex, creatorId)
    ensures ActivationCount(fs) == ActivationCount(fs[..|fs| - 1]) + |fs[|fs| - 1].activations|
    ensures |AllActivations(fs, modelId, sourceId, creatorId)| == ActivationCount(fs)
  {
    assert Shapeable(fs[|fs| - 1]);
    assert forall i :: 0 <= i < |fs| - 1 ==> fs[..|fs| - 1][i] == fs[i];
    AllActivationsLength(fs, modelId, sourceId, creatorId);
  }

  /** The Feature records of a batch, in order. */
  function FeaturesOf(fs: seq<FeatureData>, modelId: string, sourceId: string, layer: nat, hookPoint: string,
                      creatorId: string): seq<Feature>
    requires AllShapeable(fs)
    decreases |fs|
  {
    if fs == [] then []
    else
      assert Shapeable(fs[|fs| - 1]);
      assert AllShapeable(fs[..|fs| - 1]) by {
        assert forall i :: 0 <= i < |fs| - 1 ==> fs[..|fs| - 1][i] == fs[i];
      }
      FeaturesOf(fs[..|fs| - 1], modelId, sourceId, layer, hookPoint, creatorId)
        + [FeatureOf(fs[|fs| - 1], modelId, sourceId, layer, hookPoint, creatorId)]
  }

  /** One Feature record per feature, in the same order. */
  lemma {:induction false} FeaturesOfSpec(fs: seq<FeatureData>, modelId: string, sourceId: string, layer: nat,
                                          hookPoint: string, creatorId: string)
    requires AllShapeable(fs)
    ensures |FeaturesOf(fs, modelId, sourceId, layer, hookPoint, creatorId)| == |fs|
    ensures forall i :: 0 <= i < |fs| ==>
      FeaturesOf(fs, modelId, sourceId, layer, hookPoint, creatorId)[i] == FeatureOf(fs[i], modelId, sourceId, layer, hookPoint, creatorId)
    decreases |fs|
  {
    if fs != [] {
      assert forall i :: 0 <= i < |fs| - 1 ==> fs[..|fs| - 1][i] == fs[i];
      FeaturesOfSpec(fs[..|fs| - 1], modelId, sourceId, layer, hookPoint, creatorId);
    }
  }

  /** One more feature: its records are appended. */
  lemma BatchStep(fs: seq<FeatureData>, i: nat, modelId: string, sourceId: string, creatorId: string)
    requires i < |fs| && AllShapeable(fs[..i]) && Shapeable(fs[i])
    ensures AllShapeable(fs[..i + 1])
    ensures AllActivations(fs[..i + 1], modelId, sourceId, creatorId)
      == AllActivations(fs[..i], modelId, sourceId, creatorId)
         + ActivationsOf(fs[i].activations, modelId, sourceId, fs[i].featureIndex, creatorId)
    ensures forall layer: nat, hookPoint: string ::
      FeaturesOf(fs[..i + 1], modelId, sourceId, layer, hookPoint, creatorId)
      == FeaturesOf(fs[..i], modelId, sourceId, layer, hookPoint, creatorId)
         + [FeatureOf(fs[i], modelId, sourceId, layer, hookPoint, creatorId)]
  {
    assert fs[..i + 1][..i] == fs[..i];
    assert forall k :: 0 <= k < i ==> fs[..i + 1][k] == fs[..i][k];
  }

  /** The two record lists `process_data` writes. */
  datatype Shaped = Shaped(activations: seq<Activation>, features: seq<Feature>)

  /** `process_data`: the source id from the batch's layer, the set name
      and the suffix; one Feature record per feature and the Activation
      records of all features, both in input order. An activation without
      values raises, and nothing is written. */
  method ProcessData(batch: BatchData, setName: string, hookPoint: string, creatorId: string)
    returns (r: Result<Shaped>)
    ensures r.Err? <==> !AllShapeable(batch.features)
    ensures r.Ok? ==> |r.value.features| == |batch.features|
    ensures r.Ok? ==> forall i :: 0 <= i < |batch.features| ==>
      r.value.features[i] == FeatureOf(batch.features[i], batch.modelId,
        DashboardSourceId(batch.layer, setName, batch.saeIdSuffix), batch.layer, hookPoint, creatorId)
    ensures r.Ok? ==> (r.value.activations ==
      AllActivations(batch.features, batch.modelId, DashboardSourceId(batch.layer, setName, batch.saeIdSuffix), creatorId))
  {
    var sourceId := DashboardSourceId(batch.layer, setName, batch.saeIdSuffix);
    var fs := batch.features;
    var activations: seq<Activation> := [];
    var features: seq<Feature> := [];
    for i := 0 to |fs|
      invariant AllShapeable(fs[..i])
      invariant features == FeaturesOf(fs[..i], batch.modelId, sourceId, batch.layer, hookPoint, creatorId)
      invariant activations == AllActivations(fs[..i], batch.modelId, sourceId, creatorId)
    {
      var step := ProcessFeature(fs[i], batch.modelId, sourceId, batch.layer, hookPoint, creatorId);
      if step.Err? {
        return Err(step.error);
      }
      BatchStep(fs, i, batch.modelId, sourceId, creatorId);
      activations := activations + step.value.1;
      features := features + [step.value.0];
    }
    assert fs[..|fs|] == fs;
    FeaturesOfSpec(fs, batch.modelId, sourceId, batch.layer, hookPoint, creatorId);
    r := Ok(Shaped(activations, features));
  }

  // ---------------------------------------------------------------------
  // The "equivalent command" echoed by the entry point

  /** A command-line parameter's value: unset (`None`), a boolean, a
      string, or any other value as `str()` renders it. */
  datatype Param = Unset | Switch(on: bool) | Str(s: string) | Rendered(text: string)

  /** `name.replace('_', '-')`. */
  function OptionName(name: string): string
    decreases |name|
  {
    if name == [] then []
    else
      var c := name[|name| - 1];
      OptionName(name[..|name| - 1]) + [if c == '_' then '-' else c]
  }

  /** The option name has the parameter name's length, every `_` turned
      into `-`, and no `_` left. */
  lemma {:induction false} OptionNameSpec(name: string)
    ensures |OptionName(name)| == |name|
    ensures forall i :: 0 <= i < |name| ==> OptionName(name)[i] == if name[i] == '_' then '-' else name[i]
    ensures '_' !in OptionName(name)
    decreases |name|
  {
    if name != [] {
      OptionNameSpec(name[..|name| - 1]);
    }
  }

  /** A string with a space or a single quote in it is wrapped in single
      quotes. */
  function Quoted(s: string): string
  {
    if ' ' in s || '\'' in s then "'" + s + "'" else s
  }

  /** `--name`, with a space before it. */
  function Flag(name: string): string
  {
    " --" + OptionName(name)
  }

  /** The text one parameter adds to the command. As written
      (`corrected` false) a false boolean adds nothing; corrected, it adds
      the `--no-name` form that the option declares. */
  function Argument(name: string, p: Param, corrected: bool): string
  {
    match p
    case Unset => ""
    case Switch(on) => if on then Flag(name) else if corrected then " --no-" + OptionName(name) else ""
    case Str(s) => Flag(name) + "=" + Quoted(s)
    case Rendered(text) => Flag(name) + "=" + text
  }

  /** The argument of each parameter, in order. */
  function Pieces(params: seq<(string, Param)>, corrected: bool): (r: seq<string>)
    ensures |r| == |params|
  {
    seq(|params|, i requires 0 <= i < |params| => Argument(params[i].0, params[i].1, corrected))
  }

  /** The arguments of all parameters, in order. */
  function Arguments(params: seq<(string, Param)>, corrected: bool): string
  {
    Flatten(Pieces(params, corrected))
  }

  const Program := "python generate-dashboards.py"

  /** The command on one line, before it is broken before each option. */
  function CommandLine(params: seq<(string, Param)>, corrected: bool): string
  {
    Program + Arguments(params, corrected)
  }

  lemma ArgumentsAppend(ps: seq<(string, Param)>, qs: seq<(string, Param)>, corrected: bool)
    ensures Arguments(ps + qs, corrected) == Arguments(ps, corrected) + Arguments(qs, corrected)
  {
    assert Pieces(ps + qs, corrected) == Pieces(ps, corrected) + Pieces(qs, corrected);
    FlattenAppend(Pieces(ps, corrected), Pieces(qs, corrected));
  }

  lemma ArgumentsOne(p: (string, Param), corrected: bool)
    ensures Arguments([p], corrected) == Argument(p.0, p.1, corrected)
  {
    var ps := Pieces([p], corrected);
    assert ps == [Argument(p.0, p.1, corrected)];
    assert Flatten(ps) == Flatten(ps[..0]) + ps[0];
    assert ps[..0] == [];
  }

  /** The command is built in parameter order: one more parameter appends
      its argument after those of the parameters before it. */
  lemma ArgumentsStep(params: seq<(string, Param)>, i: nat, corrected: bool)
    requires i < |params|
    ensures Arguments(params[..i + 1], corrected) == Arguments(params[..i], corrected) + Argument(params[i].0, params[i].1, corrected)
  {
    assert params[..i + 1] == params[..i] + [params[i]];
    ArgumentsAppend(params[..i], [params[i]], corrected);
    ArgumentsOne(params[i], corrected);
  }

  /** An unset parameter, and as written a boolean that is false, leaves no
      trace in the command: the command is the one built without it. */
  lemma CommandOmits(params: seq<(string, Param)>, i: nat, corrected: bool)
    requires i < |params| && (params[i].1.Unset? || (params[i].1 == Switch(false) && !corrected))
    ensures CommandLine(params, corrected) == CommandLine(params[..i] + params[i + 1..], corrected)
  {
    assert params == params[..i + 1] + params[i + 1..];
    ArgumentsAppend(params[..i + 1], params[i + 1..], corrected);
    ArgumentsStep(params, i, corrected);
    ArgumentsAppend(params[..i], params[i + 1..], corrected);
  }

  /** As written, `--no-include-original-vectors-in-output` is lost: the
      printed command is the one printed when the option is left unset,
      and an unset option defaults to true. */
  lemma FalseSwitchDropped()
    ensures CommandLine([("include_original_vectors_in_output", Switch(false))], false) == CommandLine([], false)
    ensures CommandLine([("include_original_vectors_in_output", Switch(false))], false)
         == CommandLine([("include_original_vectors_in_output", Unset)], false)
  {
    CommandOmits([("include_original_vectors_in_output", Switch(false))], 0, false);
    CommandOmits([("include_original_vectors_in_output", Unset)], 0, false);
  }

  /** The arguments around parameter `i` add their lengths to its own. */
  lemma ArgumentsLength(params: seq<(string, Param)>, i: nat, corrected: bool)
    requires i < |params|
    ensures |Arguments(params, corrected)|
         == |Arguments(params[..i], corrected)| + |Argument(params[i].0, params[i].1, corrected)| + |Arguments(params[i + 1..], corrected)|
  {
    assert params == params[..i + 1] + params[i + 1..];
    ArgumentsAppend(params[..i + 1], params[i + 1..], corrected);
    ArgumentsStep(params, i, corrected);
  }

  /** Corrected, a false boolean is written `--no-name`, and the commands
      for a true and a false setting of the same boolean differ, so the
      printed command re-runs with the setting it was given. */
  lemma SwitchKept(params: seq<(string, Param)>, i: nat)
    requires i < |params| && params[i].1.Switch?
    ensures Argument(params[i].0, Switch(false), true) == " --no-" + OptionName(params[i].0)
    ensures CommandLine(params[i := (params[i].0, Switch(true))], true)
         != CommandLine(params[i := (params[i].0, Switch(false))], true)
  {
    var on := params[i := (params[i].0, Switch(true))];
    var off := params[i := (params[i].0, Switch(false))];
    ArgumentsLength(on, i, true);
    ArgumentsLength(off, i, true);
    assert on[..i] == off[..i] && on[i + 1..] == off[i + 1..];
    assert |CommandLine(off, true)| == |CommandLine(on, true)| + 3;
  }

  /** A true boolean is a bare `--name`, any other set value is
      `--name=value`, with `_` in the name written `-`; a string holding a
      space or a single quote is wrapped in single quotes. */
  lemma ArgumentShape(name: string, p: Param, corrected: bool)
    ensures p == Switch(true) ==> Argument(name, p, corrected) == Flag(name)
    ensures p.Str? && (' ' in p.s || '\'' in p.s) ==> Argument(name, p, corrected) == Flag(name) + "='" + p.s + "'"
    ensures p.Str? && ' ' !in p.s && '\'' !in p.s ==> Argument(name, p, corrected) == Flag(name) + "=" + p.s
    ensures p.Rendered? ==> Argument(name, p, corrected) == Flag(name) + "=" + p.text
    ensures Flag(name) == " --" + OptionName(name)
  {
    if p.Str? && (' ' in p.s || '\'' in p.s) {
      assert Flag(name) + "=" + ("'" + p.s + "'") == Flag(name) + "='" + p.s + "'";
    }
  }

  /** The command builder: starting from the program name, each set
      parameter adds its argument in order. */
  method BuildCommandLine(params: seq<(string, Param)>, corrected: bool) returns (line: string)
    ensures line == CommandLine(params, corrected)
  {
    line := Program;
    for i := 0 to |params|
      invariant line == Program + Arguments(params[..i], corrected)
    {
      var arg := Argument(params[i].0, params[i].1, corrected);
      CommandLineStep(params, i, line, arg, corrected);
      line := line + arg;
    }
    assert params[..|params|] == params;
  }

  /** One more parameter extends the command line by its argument. */
  lemma CommandLineStep(params: seq<(string, Param)>, i: nat, line: string, arg: string, corrected: bool)
    requires i < |params| && line == Program + Arguments(params[..i], corrected)
    requires arg == Argument(params[i].0, params[i].1, corrected)
    ensures line + arg == Program + Arguments(params[..i + 1], corrected)
  {
    ArgumentsStep(params, i, corrected);
  }

  /** The "equivalent command": the corrected command line, broken onto
      one line per option by replacing every `" --"`. */
  method EquivalentCommand(params: seq<(string, Param)>) returns (command: string)
    ensures command == ReplaceAll(CommandLine(params, true), " --", " \\\n    --")
  {
    var line := BuildCommandLine(params, true);
    command := ReplaceAll(line, " --", " \\\n    --");
  }
}
