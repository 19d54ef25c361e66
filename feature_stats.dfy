/** The feature-statistics upload: every record of every batch file writes
    its statistics columns onto the neuron it names, if that neuron exists;
    no neuron is ever created. */
module FeatureStats {
  import opened Base
  import opened Text
  import opened Keys
  import opened Store
  import opened Records

  /** The source set used when none is given. */
  const DefaultSetName: string := "autointerp-sae"

  /** The columns the update fills from a JSON list, `[]` when the record
      lacks the key. */
  const ListColumns: set<string> := {
    "vector", "topkCosSimIndices", "topkCosSimValues",
    "neuron_alignment_indices", "neuron_alignment_values", "neuron_alignment_l1",
    "correlated_neurons_indices", "correlated_neurons_pearson", "correlated_neurons_l1",
    "correlated_features_indices", "correlated_features_pearson", "correlated_features_l1",
    "neg_str", "neg_values", "pos_str", "pos_values",
    "freq_hist_data_bar_heights", "freq_hist_data_bar_values",
    "logits_hist_data_bar_heights", "logits_hist_data_bar_values",
    "decoder_weights_dist"}

  function FeatureLayer(f: FeatureRecord): string { f.layer }

  /** The statistics columns one record writes: each key the record has is
      copied, a `null` becomes NULL, and each key it lacks takes its
      default. Keys that are not columns are ignored. */
  function StatsOf(f: FeatureRecord): (s: NeuronStats)
    ensures s.hasVector == Some(true) <==> f.hasVector == Present(true)
    ensures s.hasVector.None? <==> f.hasVector.Null?
    ensures s.vectorDefaultSteerStrength.None? <==> f.vectorDefaultSteerStrength.Null?
    ensures f.vectorDefaultSteerStrength.Absent? ==> s.vectorDefaultSteerStrength == Some(10.0)
    ensures f.vectorDefaultSteerStrength.Present? ==> s.vectorDefaultSteerStrength == Some(f.vectorDefaultSteerStrength.value)
    ensures s.fracNonzero.None? <==> f.fracNonzero.Null?
    ensures f.fracNonzero.Absent? ==> s.fracNonzero == Some(0.0)
    ensures f.fracNonzero.Present? ==> s.fracNonzero == Some(f.fracNonzero.value)
    ensures s.vectorLabel == f.vectorLabel && s.hookName == f.hookName
    ensures s.lists.Keys == ListColumns
    ensures forall c :: c in ListColumns && c in f.lists ==> s.lists[c] == f.lists[c]
    ensures forall c :: c in ListColumns && c !in f.lists ==> s.lists[c] == Some([])
  {
    NeuronStats(
      f.hasVector.Get(false),
      f.vectorDefaultSteerStrength.Get(10.0),
      f.vectorLabel,
      f.fracNonzero.Get(0.0),
      f.hookName,
      map c | c in ListColumns :: if c in f.lists then f.lists[c] else Some([]))
  }

  /** The `maxActApprox` a record writes: its own, NULL for a `null`, or 0
      when the key is missing. */
  function MaxActOf(f: FeatureRecord): (v: Option<real>)
    ensures v.None? <==> f.maxActApprox.Null?
    ensures f.maxActApprox.Absent? ==> v == Some(0.0)
    ensures f.maxActApprox.Present? ==> v == Some(f.maxActApprox.value)
  {
    f.maxActApprox.Get(0.0)
  }

  /** A neuron row after one record's `UPDATE`: the statistics columns are
      overwritten, the rest of the row is kept. */
  function WithStats(row: NeuronRow, f: FeatureRecord): (r: NeuronRow)
    ensures r.sourceSetName == row.sourceSetName && r.creatorId == row.creatorId
    ensures r.maxActApprox == MaxActOf(f) && r.stats == Some(StatsOf(f))
  {
    row.(maxActApprox := MaxActOf(f), stats := Some(StatsOf(f)))
  }

  /** The neuron `(model, "{layer}-{set}", str(index))` a record names, or
      the error its layer field raises. */
  function FeatureNeuron(f: FeatureRecord, modelId: string, setName: string): Result<NeuronKey>
  {
    match ExtractLayer(f.layer)
    case Ok(l) => Ok(NeuronKey(modelId, SourceId(l, setName), IntToString(f.index)))
    case Err(e) => Err(e)
  }

  /** The record names a neuron that exists. */
  predicate Resolves(m: map<NeuronKey, NeuronRow>, f: FeatureRecord, modelId: string, setName: string)
  {
    FeatureNeuron(f, modelId, setName).Ok? && FeatureNeuron(f, modelId, setName).value in m
  }

  /** One record's update of the `Neuron` table: the neuron it names, if
      that exists, gets the record's statistics; no other row changes and no
      row is added. */
  function ApplyFeature(m: map<NeuronKey, NeuronRow>, f: FeatureRecord, modelId: string, setName: string): (r: map<NeuronKey, NeuronRow>)
    ensures r.Keys == m.Keys
    ensures Resolves(m, f, modelId, setName) ==>
              var k := FeatureNeuron(f, modelId, setName).value;
              r[k] == WithStats(m[k], f)
    ensures forall k :: k in m && FeatureNeuron(f, modelId, setName) != Ok(k) ==> r[k] == m[k]
  {
    if Resolves(m, f, modelId, setName) then
      var k := FeatureNeuron(f, modelId, setName).value;
      m[k := WithStats(m[k], f)]
    else m
  }

  /** A run of updates, in order. The table keeps its keys: an update never
      creates or removes a neuron. */
  function ApplyFeatures(m: map<NeuronKey, NeuronRow>, fs: seq<FeatureRecord>, modelId: string, setName: string): (r: map<NeuronKey, NeuronRow>)
    ensures r.Keys == m.Keys
    decreases |fs|
  {
    if fs == [] then m
    else ApplyFeature(ApplyFeatures(m, fs[..|fs| - 1], modelId, setName), fs[|fs| - 1], modelId, setName)
  }

  /** How many of the records name a neuron of `m`. */
  function Existing(m: map<NeuronKey, NeuronRow>, fs: seq<FeatureRecord>, modelId: string, setName: string): (n: nat)
    ensures n <= |fs|
    decreases |fs|
  {
    if fs == [] then 0
    else Existing(m, fs[..|fs| - 1], modelId, setName) + (if Resolves(m, fs[|fs| - 1], modelId, setName) then 1 else 0)
  }

  lemma FeatureStep(m: map<NeuronKey, NeuronRow>, fs: seq<FeatureRecord>, f: FeatureRecord, modelId: string, setName: string)
    ensures ApplyFeatures(m, fs + [f], modelId, setName) == ApplyFeature(ApplyFeatures(m, fs, modelId, setName), f, modelId, setName)
    ensures Existing(m, fs + [f], modelId, setName) == Existing(m, fs, modelId, setName) + (if Resolves(m, f, modelId, setName) then 1 else 0)
  {
    assert (fs + [f])[..|fs|] == fs;
  }

  /** Whether a record names neuron `k`. */
  function Names(k: NeuronKey, modelId: string, setName: string): FeatureRecord -> bool
  {
    f => FeatureNeuron(f, modelId, setName) == Ok(k)
  }

  /** The last record that names neuron `k`, if any. */
  function LastFor(fs: seq<FeatureRecord>, k: NeuronKey, modelId: string, setName: string): Option<nat>
  {
    LastWhere(fs, Names(k, modelId, setName))
  }

  /** The record found names `k` and no record after it does; when none is
      found, no record names `k`. */
  lemma LastForSpec(fs: seq<FeatureRecord>, k: NeuronKey, modelId: string, setName: string)
    ensures LastFor(fs, k, modelId, setName).Some? ==>
      var i := LastFor(fs, k, modelId, setName).value;
      && i < |fs| && FeatureNeuron(fs[i], modelId, setName) == Ok(k)
      && forall h :: i < h < |fs| ==> FeatureNeuron(fs[h], modelId, setName) != Ok(k)
    ensures LastFor(fs, k, modelId, setName).None? ==> forall h :: 0 <= h < |fs| ==> FeatureNeuron(fs[h], modelId, setName) != Ok(k)
  {
    LastWhereSpec(fs, Names(k, modelId, setName));
    assert forall h :: 0 <= h < |fs| ==> (Names(k, modelId, setName)(fs[h]) <==> FeatureNeuron(fs[h], modelId, setName) == Ok(k));
  }

  /** After a run, a neuron that no record names is as it was, and a neuron
      that records name carries the statistics of the last of them on top
      of its own identity columns. */
  lemma {:induction false} ApplyFeaturesAt(m: map<NeuronKey, NeuronRow>, fs: seq<FeatureRecord>, k: NeuronKey, modelId: string, setName: string)
    requires k in m
    ensures LastFor(fs, k, modelId, setName).None? ==> ApplyFeatures(m, fs, modelId, setName)[k] == m[k]
    ensures LastFor(fs, k, modelId, setName).Some? ==>
      ApplyFeatures(m, fs, modelId, setName)[k] == WithStats(m[k], fs[LastFor(fs, k, modelId, setName).value])
    decreases |fs|
  {
    if fs != [] {
      var front := fs[..|fs| - 1];
      var last := fs[|fs| - 1];
      ApplyFeaturesAt(m, front, k, modelId, setName);
      var prev := ApplyFeatures(m, front, modelId, setName);
      assert k in prev;
      if FeatureNeuron(last, modelId, setName) == Ok(k) {
        assert ApplyFeatures(m, fs, modelId, setName)[k] == WithStats(prev[k], last);
        if LastFor(front, k, modelId, setName).Some? {
          WithStatsOverwrite(m[k], front[LastFor(front, k, modelId, setName).value], last);
        }
      } else {
        assert ApplyFeatures(m, fs, modelId, setName)[k] == prev[k];
        if LastFor(front, k, modelId, setName).Some? {
          assert front[LastFor(front, k, modelId, setName).value] == fs[LastFor(fs, k, modelId, setName).value];
        }
      }
    }
  }

  /** A later update overwrites everything an earlier one wrote. */
  lemma WithStatsOverwrite(row: NeuronRow, f: FeatureRecord, g: FeatureRecord)
    ensures WithStats(WithStats(row, f), g) == WithStats(row, g)
  {
  }

  /** Replaying the same records changes nothing more. */
  lemma ApplyFeaturesIdempotent(m: map<NeuronKey, NeuronRow>, fs: seq<FeatureRecord>, modelId: string, setName: string)
    ensures ApplyFeatures(ApplyFeatures(m, fs, modelId, setName), fs, modelId, setName) == ApplyFeatures(m, fs, modelId, setName)
  {
    var once := ApplyFeatures(m, fs, modelId, setName);
    var twice := ApplyFeatures(once, fs, modelId, setName);
    forall k | k in m ensures twice[k] == once[k] {
      ApplyFeaturesAt(m, fs, k, modelId, setName);
      ApplyFeaturesAt(once, fs, k, modelId, setName);
    }
  }

  /** Whether a record names an existing neuron does not depend on the
      updates made before it, so the count over a run is the count against
      the table the run started from. */
  lemma ResolvesAfter(m: map<NeuronKey, NeuronRow>, fs: seq<FeatureRecord>, f: FeatureRecord, modelId: string, setName: string)
    ensures Resolves(ApplyFeatures(m, fs, modelId, setName), f, modelId, setName) == Resolves(m, f, modelId, setName)
  {
  }

  /** `update_neuron_with_features`, with the failure of the layer parse
      reported as `false` (see `UpdateStepAsWritten`): one `UPDATE` of the
      neuron the record names. It reports whether a row was affected, and
      touches no other neuron and no key column. */
  method UpdateNeuronWithFeatures(db: Database, f: FeatureRecord, modelId: string, setName: string) returns (affected: bool)
    modifies db`neurons
    ensures affected <==> Resolves(old(db.neurons), f, modelId, setName)
    ensures db.neurons.Keys == old(db.neurons).Keys
    ensures forall k :: k in old(db.neurons) && FeatureNeuron(f, modelId, setName) != Ok(k) ==> db.neurons[k] == old(db.neurons)[k]
    ensures affected ==> db.neurons[FeatureNeuron(f, modelId, setName).value] == WithStats(old(db.neurons)[FeatureNeuron(f, modelId, setName).value], f)
    ensures db.neurons == ApplyFeature(old(db.neurons), f, modelId, setName)
  {
    var key := FeatureNeuron(f, modelId, setName);
    if key.Err? {
      return false;
    }
    if key.value !in db.neurons {
      return false;
    }
    db.neurons := db.neurons[key.value := WithStats(db.neurons[key.value], f)];
    return true;
  }

  /** One record's update within a run that started from `start`. */
  method UpdateRecord(db: Database, ghost start: map<NeuronKey, NeuronRow>, ghost done: seq<FeatureRecord>,
                      f: FeatureRecord, total: nat, modelId: string, setName: string) returns (newTotal: nat)
    modifies db`neurons
    requires db.neurons == ApplyFeatures(start, done, modelId, setName)
    requires total == Existing(start, done, modelId, setName)
    ensures db.neurons == ApplyFeatures(start, done + [f], modelId, setName)
    ensures newTotal == Existing(start, done + [f], modelId, setName)
  {
    var affected := UpdateNeuronWithFeatures(db, f, modelId, setName);
    newTotal := if affected then total + 1 else total;
    FeatureStep(start, done, f, modelId, setName);
    ResolvesAfter(start, done, f, modelId, setName);
  }

  /** One batch file: every record's update, then a commit. */
  method UpdateFile(db: Database, ghost start: map<NeuronKey, NeuronRow>, files: seq<seq<FeatureRecord>>, i: nat,
                    total: nat, modelId: string, setName: string) returns (newTotal: nat)
    modifies db
    requires i < |files| && db.Settled()
    requires db.neurons == ApplyFeatures(start, Flatten(files[..i]), modelId, setName)
    requires total == Existing(start, Flatten(files[..i]), modelId, setName)
    ensures db.Settled()
    ensures db.Current() == old(db.Current()).(neurons := db.neurons)
    ensures db.neurons == ApplyFeatures(start, Flatten(files[..i + 1]), modelId, setName)
    ensures newTotal == Existing(start, Flatten(files[..i + 1]), modelId, setName)
  {
    ghost var done := Flatten(files[..i]);
    var file := files[i];
    newTotal := total;
    assert done + file[..0] == done;
    for j := 0 to |file|
      invariant db.neurons == ApplyFeatures(start, done + file[..j], modelId, setName)
      invariant newTotal == Existing(start, done + file[..j], modelId, setName)
      invariant db.Current() == old(db.Current()).(neurons := db.neurons)
      invariant db.committed == old(db.committed)
    {
      newTotal := UpdateRecord(db, start, done + file[..j], file[j], newTotal, modelId, setName);
      PrefixStep(done, file, j);
    }
    db.Commit();
    assert file[..|file|] == file;
    FlattenStep(files, i);
  }

  /** Extending a prefix of `b` behind `a` by one element. */
  lemma PrefixStep<T>(a: seq<T>, b: seq<T>, j: nat)
    requires j < |b|
    ensures a + b[..j + 1] == (a + b[..j]) + [b[j]]
  {
    assert b[..j + 1] == b[..j] + [b[j]];
  }

  /** `update_feature_statistics`. With no batch files, or an empty first
      file, it stops before touching the store. Otherwise the model id of the
      first record, cleaned, is used for every record; the set name defaults
      to `autointerp-sae`; every record updates the neuron it names, files
      are committed one by one, and the count is the number of records whose
      neuron exists. */
  method UpdateFeatureStatistics(db: Database, files: seq<seq<FeatureRecord>>, setName: Option<string>) returns (out: Outcome)
    modifies db
    requires db.Settled()
    ensures db.Settled()
    ensures db.Current() == old(db.Current()).(neurons := db.neurons)
    ensures out.Stopped? <==> files == [] || files[0] == []
    ensures out.Stopped? ==> db.neurons == old(db.neurons)
    ensures !out.Stopped? ==>
      var modelId := CleanModelId(files[0][0].modelId);
      var setId := setName.GetOr(DefaultSetName);
      && out == Completed(Existing(old(db.neurons), Flatten(files), modelId, setId))
      && db.neurons == ApplyFeatures(old(db.neurons), Flatten(files), modelId, setId)
  {
    if files == [] {
      return Stopped("No batch files found");
    }
    if files[0] == [] {
      return Stopped("No features in first file");
    }
    var modelId := CleanModelId(files[0][0].modelId);
    var setId := setName.GetOr(DefaultSetName);
    ghost var start := db.neurons;
    var total := 0;
    assert files[..0] == [];
    for i := 0 to |files|
      invariant db.Settled()
      invariant db.Current() == old(db.Current()).(neurons := db.neurons)
      invariant db.neurons == ApplyFeatures(start, Flatten(files[..i]), modelId, setId)
      invariant total == Existing(start, Flatten(files[..i]), modelId, setId)
    {
      total := UpdateFile(db, start, files, i, total, modelId, setId);
    }
    assert files[..|files|] == files;
    return Completed(total);
  }

  /** `update_neuron_with_features` as written: when the layer field does
      not parse, the handler's message names `feature_index`, which is not
      yet bound, and the `UnboundLocalError` it raises leaves the function
      instead of `False`. */
  function UpdateStepAsWritten(m: map<NeuronKey, NeuronRow>, f: FeatureRecord, modelId: string, setName: string): (r: Result<(map<NeuronKey, NeuronRow>, bool)>)
    ensures r.Err? <==> FeatureNeuron(f, modelId, setName).Err?
    ensures r.Ok? ==> r.value == (ApplyFeature(m, f, modelId, setName), Resolves(m, f, modelId, setName))
  {
    match FeatureNeuron(f, modelId, setName)
    case Err(_) => Err("UnboundLocalError: local variable 'feature_index' referenced before assignment")
    case Ok(k) => Ok((ApplyFeature(m, f, modelId, setName), k in m))
  }

  /** `update_feature_statistics` as written, on the committed table: the
      error of a record whose layer does not parse reaches the outer handler,
      which rolls back the file being processed and abandons the files after
      it. */
  function RunAsWritten(m: map<NeuronKey, NeuronRow>, files: seq<seq<FeatureRecord>>, modelId: string, setName: string): (r: map<NeuronKey, NeuronRow>)
    ensures r.Keys == m.Keys
    ensures files != [] && !LayersParse(files[0], FeatureLayer) ==> r == m
    decreases |files|
  {
    if files == [] then m
    else if LayersParse(files[0], FeatureLayer) then
      RunAsWritten(ApplyFeatures(m, files[0], modelId, setName), files[1..], modelId, setName)
    else m
  }

  /** A first file whose layers all parse is applied whole before the rest. */
  lemma RunAsWrittenStep(m: map<NeuronKey, NeuronRow>, files: seq<seq<FeatureRecord>>, modelId: string, setName: string)
    requires files != [] && LayersParse(files[0], FeatureLayer)
    ensures RunAsWritten(m, files, modelId, setName) == RunAsWritten(ApplyFeatures(m, files[0], modelId, setName), files[1..], modelId, setName)
  {
  }

  /** Where every layer field parses, the program as written does what the
      corrected one does. */
  lemma {:induction false} RunAsWrittenAgrees(m: map<NeuronKey, NeuronRow>, files: seq<seq<FeatureRecord>>, modelId: string, setName: string)
    requires forall i :: 0 <= i < |files| ==> LayersParse(files[i], FeatureLayer)
    ensures RunAsWritten(m, files, modelId, setName) == ApplyFeatures(m, Flatten(files), modelId, setName)
    decreases |files|
  {
    if files != [] {
      var rest := files[1..];
      assert forall i :: 0 <= i < |rest| ==> rest[i] == files[i + 1];
      RunAsWrittenAgrees(ApplyFeatures(m, files[0], modelId, setName), rest, modelId, setName);
      RunAsWrittenStep(m, files, modelId, setName);
      FlattenCons(files);
      ApplyFeaturesAppend(m, files[0], Flatten(rest), modelId, setName);
    }
  }

  lemma {:induction false} ApplyFeaturesAppend(m: map<NeuronKey, NeuronRow>, a: seq<FeatureRecord>, b: seq<FeatureRecord>, modelId: string, setName: string)
    ensures ApplyFeatures(m, a + b, modelId, setName) == ApplyFeatures(ApplyFeatures(m, a, modelId, setName), b, modelId, setName)
    decreases |b|
  {
    if b == [] {
      assert a + b == a;
    } else {
      var front := b[..|b| - 1];
      assert a + b == (a + front) + [b[|b| - 1]];
      FeatureStep(m, a + front, b[|b| - 1], modelId, setName);
      ApplyFeaturesAppend(m, a, front, modelId, setName);
    }
  }

  /** The layer field `abc` does not parse. */
  lemma NoLayerInAbc()
    ensures ExtractLayer("abc").Err?
  {
    assert '-' !in "abc";
    assert ParseInt("abc").None?;
  }

  /** A record with layer `3-x` and index 7 names `(m, "3-s", "7")` in set `s`. */
  lemma LayerThreeNames(f: FeatureRecord)
    requires f.modelId == "m" && f.layer == "3-x" && f.index == 7
    ensures FeatureNeuron(f, "m", "s") == Ok(NeuronKey("m", "3-s", "7"))
  {
    assert NatToString(3) == "3" && NatToString(7) == "7";
    ExtractLayerOfJoin(3, "x");
    assert SourceId(3, "s") == "3-s";
  }

  /** A record naming no neuron followed by one naming `k`: the corrected
      run skips the first and updates `k` from the second. */
  lemma SkipThenUpdate(m: map<NeuronKey, NeuronRow>, bad: FeatureRecord, good: FeatureRecord, k: NeuronKey,
                       modelId: string, setName: string)
    requires FeatureNeuron(bad, modelId, setName).Err? && FeatureNeuron(good, modelId, setName) == Ok(k) && k in m
    ensures ApplyFeatures(m, [bad, good], modelId, setName)[k] == WithStats(m[k], good)
  {
    assert [bad, good] == [bad] + [good];
    assert [bad] == [] + [bad];
    FeatureStep(m, [], bad, modelId, setName);
    FeatureStep(m, [bad], good, modelId, setName);
  }

  /** A file holding a record with layer `abc` before a record for an
      existing neuron: as written, the run updates nothing; the corrected
      run skips the bad record and updates the neuron. */
  lemma UnboundFeatureIndexCounterexample(bad: FeatureRecord, good: FeatureRecord, key: NeuronKey, m: map<NeuronKey, NeuronRow>)
    requires bad == FeatureRecord("m", "abc", 0, Absent, Absent, Absent, None, Absent, None, map[])
    requires good == FeatureRecord("m", "3-x", 7, Present(2.5), Absent, Absent, None, Absent, None, map[])
    requires key == NeuronKey("m", "3-s", "7")
    requires m == map[key := NeuronRow("s", "u", None, None)]
    ensures UpdateStepAsWritten(m, bad, "m", "s").Err?
    ensures RunAsWritten(m, [[bad, good]], "m", "s") == m
    ensures ApplyFeatures(m, Flatten([[bad, good]]), "m", "s")[key].maxActApprox == Some(2.5)
  {
    NoLayerInAbc();
    LayerThreeNames(good);
    assert !LayersParse([bad, good], FeatureLayer) by {
      assert FeatureLayer([bad, good][0]) == "abc";
    }
    assert Flatten([[bad, good]]) == [bad, good] by {
      assert [[bad, good]][..0] == [];
    }
    SkipThenUpdate(m, bad, good, key, "m", "s");
  }
}
