/** `upload_explanations_complete`: detect the model, make sure every row
    the explanations depend on exists, group the records by layer, create
    their neurons, then insert the explanations (and, when asked for, the
    activations of the sibling directory). */
module Upload {
  import opened Base
  import opened Text
  import opened Keys
  import opened Store
  import opened Records
  import opened Guarantor
  import opened Writers

  /** The model can be detected: there is a first record, and every layer
      field of the first three files parses. */
  ghost predicate ModelInfoOk(files: seq<seq<ExplanationRecord>>)
  {
    files != [] && files[0] != [] && LayersParse(Flatten(LeadingFiles(files)), ExplanationLayer)
  }

  /** After an upload, an explanation record has its neuron and its
      explanation row, both keyed by the run's model id and set name. */
  ghost predicate ExplanationUploaded(t: Tables, modelId: string, setName: string, e: ExplanationRecord)
  {
    match ExtractLayer(e.layer)
    case Ok(l) =>
      && NeuronFor(modelId, setName, l, e.index) in t.neurons
      && ExplanationId(modelId, l, IntToString(e.index)) in t.explanations
    case Err(_) => false
  }

  ghost predicate ActivationUploaded(t: Tables, modelId: string, setName: string, a: ActivationRecord)
  {
    match ExtractLayer(a.layer)
    case Ok(l) =>
      && NeuronFor(modelId, setName, l, a.index) in t.neurons
      && LegacyActivationId(modelId, l, IntToString(a.index)) in t.activations
    case Err(_) => false
  }

  /** Every record of the explanation files was uploaded. */
  ghost predicate AllExplanationsUploaded(t: Tables, modelId: string, setName: string, files: seq<seq<ExplanationRecord>>)
  {
    forall k :: 0 <= k < |Flatten(files)| ==> ExplanationUploaded(t, modelId, setName, Flatten(files)[k])
  }

  /** Every record of the activation files, when there are any, was
      uploaded. */
  ghost predicate AllActivationsUploaded(t: Tables, modelId: string, setName: string,
                                         activationFiles: Option<seq<seq<ActivationRecord>>>)
  {
    activationFiles.Some? ==>
      forall k :: 0 <= k < |Flatten(activationFiles.value)| ==>
        ActivationUploaded(t, modelId, setName, Flatten(activationFiles.value)[k])
  }

  /** What a successful run of the writing steps leaves behind in `t`:
      every record of both kinds of files uploaded, and each table grown by
      its insert count from the sizes it had before. */
  ghost predicate RecordsUploaded(t: Tables, modelId: string, setName: string,
                                  files: seq<seq<ExplanationRecord>>,
                                  activationFiles: Option<seq<seq<ActivationRecord>>>,
                                  sizesBefore: (nat, nat), counts: (nat, nat))
  {
    && AllExplanationsUploaded(t, modelId, setName, files)
    && AllActivationsUploaded(t, modelId, setName, activationFiles)
    && |t.explanations| == sizesBefore.0 + counts.0
    && |t.activations| == sizesBefore.1 + counts.1
  }

  /** Every layer field of both kinds of files parses. */
  ghost predicate RecordsParse(files: seq<seq<ExplanationRecord>>, activationFiles: Option<seq<seq<ActivationRecord>>>)
  {
    && LayersParse(Flatten(files), ExplanationLayer)
    && (activationFiles.Some? ==> LayersParse(Flatten(activationFiles.value), ActivationLayer))
  }

  /** A grouped record sits in the bucket of its layer. */
  lemma GroupedRecord<R>(groups: LayerGroups<R>, recs: seq<R>, layerOf: R -> string, i: nat)
    requires GroupsOf(groups, recs, layerOf)
    requires i < |recs| && ExtractLayer(layerOf(recs[i])).Ok?
    ensures ExtractLayer(layerOf(recs[i])).value in groups.buckets
    ensures recs[i] in groups.buckets[ExtractLayer(layerOf(recs[i])).value]
  {
    var l := ExtractLayer(layerOf(recs[i])).value;
    InLayerHas(recs, layerOf, i, l);
  }

  /** Every row written for the records of a bucket has its key in the
      table afterwards. */
  lemma BucketRowPresent<R, K, V>(m: map<K, V>, groups: LayerGroups<R>, row: (nat, R) -> (K, V), l: nat, k: nat)
    requires groups.Valid()
    requires l in groups.buckets && k < |groups.buckets[l]|
    ensures row(l, groups.buckets[l][k]).0 in InsertAbsent(m, PerLayer(groups.order, groups.buckets, row))
  {
    var rows := PerLayer(groups.order, groups.buckets, row);
    PerLayerHas(groups.order, groups.buckets, row, l, k);
    var j :| 0 <= j < |rows| && rows[j] == row(l, groups.buckets[l][k]);
    assert rows[j].0 in RowKeys(rows);
  }

  /** The explanation rows written for grouped records refer to neurons
      that exist, and so do the rows that were there before. */
  lemma ExplanationsResolve(m: map<string, ExplanationRow>, groups: LayerGroups<ExplanationRecord>,
                            modelId: string, setName: string, userId: string, neurons: map<NeuronKey, NeuronRow>)
    requires groups.Valid()
    requires forall id :: id in m ==> ExplanationNeuron(m[id]) in neurons
    requires forall l, k :: l in groups.buckets && 0 <= k < |groups.buckets[l]| ==>
               NeuronFor(modelId, setName, l, ExplanationIndex(groups.buckets[l][k])) in neurons
    ensures var r := InsertAbsent(m, ExplanationRows(groups, modelId, setName, userId));
            forall id :: id in r ==> ExplanationNeuron(r[id]) in neurons
  {
    var entry := ExplanationEntry(modelId, setName, userId);
    var rows := ExplanationRows(groups, modelId, setName, userId);
    var p := (v: ExplanationRow) => ExplanationNeuron(v) in neurons;
    forall i | 0 <= i < |rows|
      ensures p(rows[i].1)
    {
      PerLayerFrom(groups.order, groups.buckets, entry, i);
      var l, k :| l in groups.order && 0 <= k < |groups.buckets[l]| && rows[i] == entry(l, groups.buckets[l][k]);
      assert ExplanationNeuron(rows[i].1) == NeuronFor(modelId, setName, l, ExplanationIndex(groups.buckets[l][k]));
    }
    InsertAbsentKeeps(m, rows, p);
  }

  lemma ActivationsResolve(m: map<string, ActivationRow>, groups: LayerGroups<ActivationRecord>,
                           modelId: string, setName: string, userId: string, neurons: map<NeuronKey, NeuronRow>)
    requires groups.Valid()
    requires forall id :: id in m ==> ActivationNeuron(m[id]) in neurons
    requires forall l, k :: l in groups.buckets && 0 <= k < |groups.buckets[l]| ==>
               NeuronFor(modelId, setName, l, ActivationIndex(groups.buckets[l][k])) in neurons
    ensures var r := InsertAbsent(m, LegacyActivationRows(groups, modelId, setName, userId));
            forall id :: id in r ==> ActivationNeuron(r[id]) in neurons
  {
    var entry := LegacyActivationEntry(modelId, setName, userId);
    var rows := LegacyActivationRows(groups, modelId, setName, userId);
    var p := (v: ActivationRow) => ActivationNeuron(v) in neurons;
    forall i | 0 <= i < |rows|
      ensures p(rows[i].1)
    {
      PerLayerFrom(groups.order, groups.buckets, entry, i);
      var l, k :| l in groups.order && 0 <= k < |groups.buckets[l]| && rows[i] == entry(l, groups.buckets[l][k]);
      assert ActivationNeuron(rows[i].1) == NeuronFor(modelId, setName, l, ActivationIndex(groups.buckets[l][k]));
    }
    InsertAbsentKeeps(m, rows, p);
  }

  /** The rows every later insert of the upload refers to exist: the
      default user, the fallback explanation type and model type, the model
      under its cleaned id, its source set, and a source for every layer
      below `numLayers`. */
  ghost predicate DependenciesExist(t: Tables, cleanId: string, numLayers: nat, setName: string)
  {
    && DefaultUserId in t.users
    && "imported" in t.explanationTypes
    && "unknown" in t.explanationModelTypes
    && cleanId in t.models
    && SourceSetKey(cleanId, setName) in t.sourceSets
    && forall l :: 0 <= l < numLayers ==> SourceId(l, setName) in t.sources
  }

  /** The first three dependency steps: the default user, the explanation
      types and the explanation model types. */
  method EnsureAuthorship(db: Database) returns (userId: string)
    modifies db
    requires db.Settled()
    ensures db.Settled() && userId == DefaultUserId
    ensures db.Current() == old(db.Current()).(users := db.users, explanationTypes := db.explanationTypes,
                                               explanationModelTypes := db.explanationModelTypes)
    ensures DefaultUserId in db.users && "imported" in db.explanationTypes && "unknown" in db.explanationModelTypes
  {
    userId := EnsureUser(db, DefaultUserId);
    assert DefaultUserId in db.users;
    EnsureExplanationTypes(db, userId);
    EnsureExplanationModelTypes(db);
  }

  /** The dependency steps of the complete upload, in the order it runs
      them, each committing on its own: the default user, the explanation
      types, the explanation model types, the model under its cleaned id,
      and the source set with one source per layer. */
  method EnsureDependencies(db: Database, modelId: string, numLayers: nat, setName: string)
    returns (cleanId: string, userId: string)
    modifies db
    requires db.Settled()
    ensures db.Settled()
    ensures userId == DefaultUserId && cleanId == CleanModelId(modelId)
    ensures db.neurons == old(db.neurons) && db.explanations == old(db.explanations) &&
            db.activations == old(db.activations)
    ensures DependenciesExist(db.Current(), cleanId, numLayers, setName)
  {
    userId := EnsureAuthorship(db);
    cleanId := EnsureModel(db, modelId, numLayers, userId);
    assert cleanId in db.models;
    EnsureSourceSet(db, cleanId, setName, numLayers, userId);
    assert SourceSetKey(cleanId, setName) in db.sourceSets;
  }

  /** The writing half of the complete upload: neurons for the explanation
      records, then for the activation records when there are any, then the
      explanations and the activations. */
  method UploadGroups(db: Database, groups: LayerGroups<ExplanationRecord>, actGroups: LayerGroups<ActivationRecord>,
                      modelId: string, setName: string, userId: string) returns (explained: nat, activated: nat)
    modifies db
    requires db.Settled() && groups.Valid() && actGroups.Valid()
    ensures db.Settled()
    ensures db.Current() == old(db.Current()).(neurons := db.neurons, explanations := db.explanations,
                                               activations := db.activations)
    ensures db.neurons == InsertAbsent(InsertAbsent(old(db.neurons),
                                         PerLayer(groups.order, groups.buckets, NeuronEntry(modelId, setName, userId, ExplanationIndex))),
                                       PerLayer(actGroups.order, actGroups.buckets, NeuronEntry(modelId, setName, userId, ActivationIndex)))
    ensures db.explanations == InsertAbsent(old(db.explanations), ExplanationRows(groups, modelId, setName, userId))
    ensures db.activations == InsertAbsent(old(db.activations), LegacyActivationRows(actGroups, modelId, setName, userId))
    ensures explained == Inserted(old(db.explanations), ExplanationRows(groups, modelId, setName, userId))
    ensures activated == Inserted(old(db.activations), LegacyActivationRows(actGroups, modelId, setName, userId))
    ensures forall l, k :: l in groups.buckets && 0 <= k < |groups.buckets[l]| ==>
              var e := groups.buckets[l][k];
              NeuronFor(modelId, setName, l, e.index) in db.neurons &&
              ExplanationId(modelId, l, IntToString(e.index)) in db.explanations
    ensures forall l, k :: l in actGroups.buckets && 0 <= k < |actGroups.buckets[l]| ==>
              var a := actGroups.buckets[l][k];
              NeuronFor(modelId, setName, l, a.index) in db.neurons &&
              LegacyActivationId(modelId, l, IntToString(a.index)) in db.activations
    ensures DependentsResolve(old(db.Current())) ==> DependentsResolve(db.Current())
  {
    EnsureNeurons(db, groups, ExplanationIndex, modelId, setName, userId);
    ghost var neurons1 := db.neurons;
    if actGroups.order != [] {
      EnsureNeurons(db, actGroups, ActivationIndex, modelId, setName, userId);
    }
    assert neurons1.Keys <= db.neurons.Keys;
    explained := InsertExplanations(db, groups, modelId, setName, userId);
    activated := 0;
    if actGroups.order != [] {
      activated := UploadActivations(db, actGroups, modelId, setName, userId);
    } else {
      assert actGroups.buckets == map[];
    }
    forall l, k | l in groups.buckets && 0 <= k < |groups.buckets[l]|
      ensures ExplanationId(modelId, l, IntToString(groups.buckets[l][k].index)) in db.explanations
    {
      BucketRowPresent(old(db.explanations), groups, ExplanationEntry(modelId, setName, userId), l, k);
    }
    forall l, k | l in actGroups.buckets && 0 <= k < |actGroups.buckets[l]|
      ensures LegacyActivationId(modelId, l, IntToString(actGroups.buckets[l][k].index)) in db.activations
    {
      BucketRowPresent(old(db.activations), actGroups, LegacyActivationEntry(modelId, setName, userId), l, k);
    }
    if DependentsResolve(old(db.Current())) {
      ExplanationsResolve(old(db.explanations), groups, modelId, setName, userId, db.neurons);
      ActivationsResolve(old(db.activations), actGroups, modelId, setName, userId, db.neurons);
    }
  }

  /** The grouping and writing part of the complete upload, for a model
      and set already in place: group both kinds of records by layer, and
      write them unless a layer field does not parse. */
  method UploadRecords(db: Database, files: seq<seq<ExplanationRecord>>,
                       activationFiles: Option<seq<seq<ActivationRecord>>>,
                       modelId: string, setName: string, userId: string)
    returns (r: Result<(nat, nat)>)
    modifies db
    requires db.Settled()
    ensures db.Settled()
    ensures db.Current() == old(db.Current()).(neurons := db.neurons, explanations := db.explanations,
                                               activations := db.activations)
    ensures r.Ok? <==> RecordsParse(files, activationFiles)
    ensures r.Err? ==> db.Current() == old(db.Current())
    ensures r.Ok? ==> RecordsUploaded(db.Current(), modelId, setName, files, activationFiles,
                                      (|old(db.explanations)|, |old(db.activations)|), r.value)
    ensures DependentsResolve(old(db.Current())) ==> DependentsResolve(db.Current())
  {
    var grouped := GroupByLayer(files, ExplanationLayer);
    if grouped.Err? {
      return Err(grouped.error);
    }
    var groups := grouped.value;
    var actGroups: LayerGroups<ActivationRecord> := LayerGroups([], map[]);
    if activationFiles.Some? {
      var actGrouped := GroupByLayer(activationFiles.value, ActivationLayer);
      if actGrouped.Err? {
        return Err(actGrouped.error);
      }
      actGroups := actGrouped.value;
    }
    var explained, activated := UploadGroups(db, groups, actGroups, modelId, setName, userId);
    InsertedGrowth(old(db.explanations), ExplanationRows(groups, modelId, setName, userId));
    InsertedGrowth(old(db.activations), LegacyActivationRows(actGroups, modelId, setName, userId));
    forall k | 0 <= k < |Flatten(files)|
      ensures ExplanationUploaded(db.Current(), modelId, setName, Flatten(files)[k])
    {
      GroupedRecord(groups, Flatten(files), ExplanationLayer, k);
    }
    if activationFiles.Some? {
      forall k | 0 <= k < |Flatten(activationFiles.value)|
        ensures ActivationUploaded(db.Current(), modelId, setName, Flatten(activationFiles.value)[k])
      {
        GroupedRecord(actGroups, Flatten(activationFiles.value), ActivationLayer, k);
      }
    }
    return Ok((explained, activated));
  }

  /** `upload_explanations_complete`. A model that cannot be detected ends
      the run before anything is written; a layer field that does not parse
      while grouping ends it after the dependency steps, which have already
      committed, and before any neuron is written. The result is the pair
      of insert counts. */
  method UploadExplanationsComplete(db: Database, files: seq<seq<ExplanationRecord>>, setNameArg: Option<string>,
                                    activationFiles: Option<seq<seq<ActivationRecord>>>)
    returns (r: Result<(nat, nat)>)
    modifies db
    requires db.Settled()
    ensures db.Settled()
    ensures r.Ok? <==> ModelInfoOk(files) && RecordsParse(files, activationFiles)
    ensures !ModelInfoOk(files) ==> db.Current() == old(db.Current())
    ensures r.Err? ==> db.neurons == old(db.neurons) && db.explanations == old(db.explanations) &&
                       db.activations == old(db.activations)
    ensures ModelInfoOk(files) ==>
              DependenciesExist(db.Current(), CleanModelId(files[0][0].modelId),
                                1 + MaxLayer(Flatten(LeadingFiles(files)), ExplanationLayer), setNameArg.GetOr(DefaultSetName))
    ensures r.Ok? ==> RecordsUploaded(db.Current(), CleanModelId(files[0][0].modelId), setNameArg.GetOr(DefaultSetName),
                                      files, activationFiles, (|old(db.explanations)|, |old(db.activations)|), r.value)
    ensures DependentsResolve(old(db.Current())) ==> DependentsResolve(db.Current())
  {
    var info := GetModelInfo(files);
    if info.Err? {
      return Err(info.error);
    }
    var setName := setNameArg.GetOr(DefaultSetName);
    var modelId, userId := EnsureDependencies(db, info.value.0, info.value.1, setName);
    assert DependentsResolve(db.Current()) == DependentsResolve(old(db.Current()));
    r := UploadRecords(db, files, activationFiles, modelId, setName, userId);
  }
}
