/** The writers of the explanation upload: explanations, and the older
    activation uploader, each inserting with `ON CONFLICT (id) DO NOTHING`
    in chunks of 100 records with a commit after every chunk; and the
    end-to-end upload that runs the guarantor steps before them. */
module Writers {
  import opened Base
  import opened Text
  import opened Keys
  import opened Store
  import opened Records
  import opened Guarantor

  const ChunkSize: nat := 100

  /** The explanation row offered for one record of layer `l`: its id is
      built from the integer layer, its `layer` column holds the source id. */
  function ExplanationEntry(modelId: string, setName: string, userId: string): (nat, ExplanationRecord) -> (string, ExplanationRow)
  {
    (l: nat, e: ExplanationRecord) =>
      (ExplanationId(modelId, l, IntToString(e.index)),
       ExplanationRow(modelId, SourceId(l, setName), IntToString(e.index), e.description,
                      e.typeName.GetOr("imported"), e.explanationModelName.GetOr("unknown"), userId))
  }

  /** The explanation row of a record of layer `l`: keyed by the explanation
      id, naming the record's neuron, whose source id gives `l` back, with
      the record's description, the `imported` and `unknown` fallbacks for
      missing types, and the user as author. */
  lemma ExplanationEntrySpec(modelId: string, setName: string, userId: string, l: nat, e: ExplanationRecord)
    ensures var entry := ExplanationEntry(modelId, setName, userId)(l, e);
            && entry.0 == ExplanationId(modelId, l, IntToString(e.index))
            && NeuronKey(entry.1.modelId, entry.1.layer, entry.1.index) == NeuronFor(modelId, setName, l, e.index)
            && ExtractLayer(entry.1.layer) == Ok(l)
            && entry.1.description == e.description && entry.1.authorId == userId
            && (e.typeName.None? ==> entry.1.typeName == "imported")
            && (e.typeName.Some? ==> entry.1.typeName == e.typeName.value)
            && (e.explanationModelName.None? ==> entry.1.explanationModelName == "unknown")
            && (e.explanationModelName.Some? ==> entry.1.explanationModelName == e.explanationModelName.value)
  {
    SourceIdSpec(l, setName);
  }

  /** The activation row the older uploader offers for one record: its id
      has no file or line position. */
  function LegacyActivationEntry(modelId: string, setName: string, userId: string): (nat, ActivationRecord) -> (string, ActivationRow)
  {
    (l: nat, a: ActivationRecord) =>
      (LegacyActivationId(modelId, l, IntToString(a.index)),
       ActivationRow(modelId, SourceId(l, setName), IntToString(a.index), userId,
                     a.tokens, a.values, a.maxValue, a.minValue, a.maxValueTokenIndex.GetOr(0)))
  }

  /** The older uploader's row of a record of layer `l`: keyed by the
      position-free activation id, naming the record's neuron, whose source
      id gives `l` back, with the record's values and the user as creator;
      a missing `maxValueTokenIndex` is 0. */
  lemma LegacyActivationEntrySpec(modelId: string, setName: string, userId: string, l: nat, a: ActivationRecord)
    ensures var entry := LegacyActivationEntry(modelId, setName, userId)(l, a);
            && entry.0 == LegacyActivationId(modelId, l, IntToString(a.index))
            && NeuronKey(entry.1.modelId, entry.1.layer, entry.1.index) == NeuronFor(modelId, setName, l, a.index)
            && ExtractLayer(entry.1.layer) == Ok(l)
            && entry.1.creatorId == userId
            && entry.1.tokens == a.tokens && entry.1.values == a.values
            && entry.1.maxValue == a.maxValue && entry.1.minValue == a.minValue
            && (a.maxValueTokenIndex.None? ==> entry.1.maxValueTokenIndex == 0)
            && (a.maxValueTokenIndex.Some? ==> entry.1.maxValueTokenIndex == a.maxValueTokenIndex.value)
  {
    SourceIdSpec(l, setName);
  }

  /** All explanation rows of an upload, layer by layer. */
  function ExplanationRows(groups: LayerGroups<ExplanationRecord>, modelId: string, setName: string, userId: string): seq<(string, ExplanationRow)>
    requires forall l :: l in groups.order ==> l in groups.buckets
  {
    PerLayer(groups.order, groups.buckets, ExplanationEntry(modelId, setName, userId))
  }

  function LegacyActivationRows(groups: LayerGroups<ActivationRecord>, modelId: string, setName: string, userId: string): seq<(string, ActivationRow)>
    requires forall l :: l in groups.order ==> l in groups.buckets
  {
    PerLayer(groups.order, groups.buckets, LegacyActivationEntry(modelId, setName, userId))
  }

  /** Inserting the rows of one more chunk is inserting the rows of all
      chunks so far. */
  lemma ChunkStep<R, K, V>(m: map<K, V>, l: nat, chunks: seq<seq<R>>, c: nat, row: (nat, R) -> (K, V))
    requires c < |chunks|
    ensures InsertAbsent(m, LayerRows(l, Flatten(chunks[..c + 1]), row))
         == InsertAbsent(InsertAbsent(m, LayerRows(l, Flatten(chunks[..c]), row)), LayerRows(l, chunks[c], row))
    ensures Inserted(m, LayerRows(l, Flatten(chunks[..c + 1]), row))
         == Inserted(m, LayerRows(l, Flatten(chunks[..c]), row))
            + Inserted(InsertAbsent(m, LayerRows(l, Flatten(chunks[..c]), row)), LayerRows(l, chunks[c], row))
  {
    FlattenStep(chunks, c);
    LayerRowsAppend(l, Flatten(chunks[..c]), chunks[c], row);
    InsertAbsentAppend(m, LayerRows(l, Flatten(chunks[..c]), row), LayerRows(l, chunks[c], row));
    InsertedAppend(m, LayerRows(l, Flatten(chunks[..c]), row), LayerRows(l, chunks[c], row));
  }

  /** Inserting the rows of one more layer is inserting the rows of all
      layers so far. */
  lemma LayerStep<R, K, V>(m: map<K, V>, order: seq<nat>, buckets: map<nat, seq<R>>, li: nat, row: (nat, R) -> (K, V))
    requires forall l :: l in order ==> l in buckets
    requires li < |order|
    ensures InsertAbsent(m, PerLayer(order[..li + 1], buckets, row))
         == InsertAbsent(InsertAbsent(m, PerLayer(order[..li], buckets, row)), LayerRows(order[li], buckets[order[li]], row))
    ensures Inserted(m, PerLayer(order[..li + 1], buckets, row))
         == Inserted(m, PerLayer(order[..li], buckets, row))
            + Inserted(InsertAbsent(m, PerLayer(order[..li], buckets, row)), LayerRows(order[li], buckets[order[li]], row))
  {
    PerLayerStep(order, buckets, row, li);
    InsertAbsentAppend(m, PerLayer(order[..li], buckets, row), LayerRows(order[li], buckets[order[li]], row));
    InsertedAppend(m, PerLayer(order[..li], buckets, row), LayerRows(order[li], buckets[order[li]], row));
  }

  /** One insert of an explanation with `ON CONFLICT (id) DO NOTHING`;
      `added` is whether a row went in. */
  method InsertExplanation(db: Database, layer: nat, e: ExplanationRecord,
                           modelId: string, setName: string, userId: string) returns (added: bool)
    modifies db`explanations
    ensures db.explanations == InsertOne(old(db.explanations), ExplanationEntry(modelId, setName, userId)(layer, e))
    ensures added <==> ExplanationEntry(modelId, setName, userId)(layer, e).0 !in old(db.explanations)
  {
    var neuronIndex := IntToString(e.index);
    var id := ExplanationId(modelId, layer, neuronIndex);
    added := id !in db.explanations;
    if added {
      db.explanations := db.explanations[id := ExplanationRow(modelId, SourceId(layer, setName), neuronIndex, e.description,
                                                              e.typeName.GetOr("imported"),
                                                              e.explanationModelName.GetOr("unknown"), userId)];
    }
  }

  /** The records of one chunk, in order; the count is of the inserts that
      did not conflict. */
  method InsertExplanationChunk(db: Database, layer: nat, batch: seq<ExplanationRecord>,
                                modelId: string, setName: string, userId: string) returns (inserted: nat)
    modifies db`explanations
    ensures db.Current() == old(db.Current()).(explanations := db.explanations)
    ensures db.explanations == InsertAbsent(old(db.explanations), LayerRows(layer, batch, ExplanationEntry(modelId, setName, userId)))
    ensures inserted == Inserted(old(db.explanations), LayerRows(layer, batch, ExplanationEntry(modelId, setName, userId)))
  {
    var entry := ExplanationEntry(modelId, setName, userId);
    inserted := 0;
    for b := 0 to |batch|
      invariant db.explanations == InsertAbsent(old(db.explanations), LayerRows(layer, batch[..b], entry))
      invariant inserted == Inserted(old(db.explanations), LayerRows(layer, batch[..b], entry))
    {
      LayerRowsStep(layer, batch, b, entry);
      InsertAbsentStep(old(db.explanations), LayerRows(layer, batch[..b], entry), entry(layer, batch[b]));
      InsertedStep(old(db.explanations), LayerRows(layer, batch[..b], entry), entry(layer, batch[b]));
      var added := InsertExplanation(db, layer, batch[b], modelId, setName, userId);
      if added {
        inserted := inserted + 1;
      }
    }
    assert batch[..|batch|] == batch;
  }

  /** One layer of `insert_explanations`: the layer's list in consecutive
      chunks of 100, committed one by one. */
  method InsertLayerExplanations(db: Database, layer: nat, recs: seq<ExplanationRecord>,
                                 modelId: string, setName: string, userId: string) returns (inserted: nat)
    modifies db
    requires db.Settled()
    ensures db.Settled()
    ensures db.Current() == old(db.Current()).(explanations := db.explanations)
    ensures db.explanations == InsertAbsent(old(db.explanations), LayerRows(layer, recs, ExplanationEntry(modelId, setName, userId)))
    ensures inserted == Inserted(old(db.explanations), LayerRows(layer, recs, ExplanationEntry(modelId, setName, userId)))
  {
    var entry := ExplanationEntry(modelId, setName, userId);
    var chunks := Chunks(recs, ChunkSize);
    inserted := 0;
    for c := 0 to |chunks|
      invariant db.Settled()
      invariant db.Current() == old(db.Current()).(explanations := db.explanations)
      invariant db.explanations == InsertAbsent(old(db.explanations), LayerRows(layer, Flatten(chunks[..c]), entry))
      invariant inserted == Inserted(old(db.explanations), LayerRows(layer, Flatten(chunks[..c]), entry))
    {
      var n := InsertExplanationChunk(db, layer, chunks[c], modelId, setName, userId);
      inserted := inserted + n;
      db.Commit();
      ChunkStep(old(db.explanations), layer, chunks, c, entry);
    }
    assert chunks[..|chunks|] == chunks;
  }

  /** `insert_explanations`: every layer in dictionary order. The count is
      the number of explanation ids that were new. */
  method InsertExplanations(db: Database, groups: LayerGroups<ExplanationRecord>,
                            modelId: string, setName: string, userId: string) returns (total: nat)
    modifies db
    requires db.Settled() && groups.Valid()
    ensures db.Settled()
    ensures db.Current() == old(db.Current()).(explanations := db.explanations)
    ensures db.explanations == InsertAbsent(old(db.explanations), ExplanationRows(groups, modelId, setName, userId))
    ensures total == Inserted(old(db.explanations), ExplanationRows(groups, modelId, setName, userId))
  {
    var entry := ExplanationEntry(modelId, setName, userId);
    total := 0;
    for li := 0 to |groups.order|
      invariant db.Settled()
      invariant db.Current() == old(db.Current()).(explanations := db.explanations)
      invariant db.explanations == InsertAbsent(old(db.explanations), PerLayer(groups.order[..li], groups.buckets, entry))
      invariant total == Inserted(old(db.explanations), PerLayer(groups.order[..li], groups.buckets, entry))
    {
      var layer := groups.order[li];
      var n := InsertLayerExplanations(db, layer, groups.buckets[layer], modelId, setName, userId);
      total := total + n;
      LayerStep(old(db.explanations), groups.order, groups.buckets, li, entry);
    }
    assert groups.order[..|groups.order|] == groups.order;
  }

  /** One insert of the older activation uploader. */
  method InsertLegacyActivation(db: Database, layer: nat, a: ActivationRecord,
                                modelId: string, setName: string, userId: string) returns (added: bool)
    modifies db`activations
    ensures db.activations == InsertOne(old(db.activations), LegacyActivationEntry(modelId, setName, userId)(layer, a))
    ensures added <==> LegacyActivationEntry(modelId, setName, userId)(layer, a).0 !in old(db.activations)
  {
    var neuronIndex := IntToString(a.index);
    var id := LegacyActivationId(modelId, layer, neuronIndex);
    added := id !in db.activations;
    if added {
      db.activations := db.activations[id := ActivationRow(modelId, SourceId(layer, setName), neuronIndex, userId,
                                                           a.tokens, a.values, a.maxValue, a.minValue,
                                                           a.maxValueTokenIndex.GetOr(0))];
    }
  }

  /** The records of one chunk of the older activation uploader. */
  method InsertLegacyActivationChunk(db: Database, layer: nat, batch: seq<ActivationRecord>,
                                     modelId: string, setName: string, userId: string) returns (inserted: nat)
    modifies db`activations
    ensures db.Current() == old(db.Current()).(activations := db.activations)
    ensures db.activations == InsertAbsent(old(db.activations), LayerRows(layer, batch, LegacyActivationEntry(modelId, setName, userId)))
    ensures inserted == Inserted(old(db.activations), LayerRows(layer, batch, LegacyActivationEntry(modelId, setName, userId)))
  {
    var entry := LegacyActivationEntry(modelId, setName, userId);
    inserted := 0;
    for b := 0 to |batch|
      invariant db.activations == InsertAbsent(old(db.activations), LayerRows(layer, batch[..b], entry))
      invariant inserted == Inserted(old(db.activations), LayerRows(layer, batch[..b], entry))
    {
      LayerRowsStep(layer, batch, b, entry);
      InsertAbsentStep(old(db.activations), LayerRows(layer, batch[..b], entry), entry(layer, batch[b]));
      InsertedStep(old(db.activations), LayerRows(layer, batch[..b], entry), entry(layer, batch[b]));
      var added := InsertLegacyActivation(db, layer, batch[b], modelId, setName, userId);
      if added {
        inserted := inserted + 1;
      }
    }
    assert batch[..|batch|] == batch;
  }

  /** One layer of the older `upload_activations`, chunk by chunk. */
  method UploadLayerActivations(db: Database, layer: nat, recs: seq<ActivationRecord>,
                                modelId: string, setName: string, userId: string) returns (inserted: nat)
    modifies db
    requires db.Settled()
    ensures db.Settled()
    ensures db.Current() == old(db.Current()).(activations := db.activations)
    ensures db.activations == InsertAbsent(old(db.activations), LayerRows(layer, recs, LegacyActivationEntry(modelId, setName, userId)))
    ensures inserted == Inserted(old(db.activations), LayerRows(layer, recs, LegacyActivationEntry(modelId, setName, userId)))
  {
    var entry := LegacyActivationEntry(modelId, setName, userId);
    var chunks := Chunks(recs, ChunkSize);
    inserted := 0;
    for c := 0 to |chunks|
      invariant db.Settled()
      invariant db.Current() == old(db.Current()).(activations := db.activations)
      invariant db.activations == InsertAbsent(old(db.activations), LayerRows(layer, Flatten(chunks[..c]), entry))
      invariant inserted == Inserted(old(db.activations), LayerRows(layer, Flatten(chunks[..c]), entry))
    {
      var n := InsertLegacyActivationChunk(db, layer, chunks[c], modelId, setName, userId);
      inserted := inserted + n;
      db.Commit();
      ChunkStep(old(db.activations), layer, chunks, c, entry);
    }
    assert chunks[..|chunks|] == chunks;
  }

  /** The older `upload_activations`. */
  method UploadActivations(db: Database, groups: LayerGroups<ActivationRecord>,
                           modelId: string, setName: string, userId: string) returns (total: nat)
    modifies db
    requires db.Settled() && groups.Valid()
    ensures db.Settled()
    ensures db.Current() == old(db.Current()).(activations := db.activations)
    ensures db.activations == InsertAbsent(old(db.activations), LegacyActivationRows(groups, modelId, setName, userId))
    ensures total == Inserted(old(db.activations), LegacyActivationRows(groups, modelId, setName, userId))
  {
    var entry := LegacyActivationEntry(modelId, setName, userId);
    total := 0;
    for li := 0 to |groups.order|
      invariant db.Settled()
      invariant db.Current() == old(db.Current()).(activations := db.activations)
      invariant db.activations == InsertAbsent(old(db.activations), PerLayer(groups.order[..li], groups.buckets, entry))
      invariant total == Inserted(old(db.activations), PerLayer(groups.order[..li], groups.buckets, entry))
    {
      var layer := groups.order[li];
      var n := UploadLayerActivations(db, layer, groups.buckets[layer], modelId, setName, userId);
      total := total + n;
      LayerStep(old(db.activations), groups.order, groups.buckets, li, entry);
    }
    assert groups.order[..|groups.order|] == groups.order;
  }
}
