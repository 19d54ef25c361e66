/** The create-if-absent steps of the explanation upload: the user, the
    explanation types, the model, the source set with one source per layer,
    and one neuron per uploaded feature. Each step checks for the row and
    inserts it only when it is missing; a row that exists is never replaced. */
module Guarantor {
  import opened Base
  import opened Text
  import opened Keys
  import opened Store
  import opened Records

  const DefaultUserId: string := "akash-realm-local"
  const DefaultSetName: string := "autointerp-sae"

  /** The neuron a record of layer `layer` and index `index` belongs to. */
  function NeuronFor(modelId: string, setName: string, layer: nat, index: int): NeuronKey
  {
    NeuronKey(modelId, SourceId(layer, setName), IntToString(index))
  }

  function NewUser(userId: string): UserRow
  {
    UserRow("Akash Realm Local", "akash@realm.local", "unsubscribe-" + userId)
  }

  /** The default user's row: the fixed name and e-mail, and an unsubscribe
      code that ends with the user id, so different users get different
      codes. */
  lemma NewUserSpec(userId: string)
    ensures NewUser(userId).name == "Akash Realm Local" && NewUser(userId).email == "akash@realm.local"
    ensures StartsWith(NewUser(userId).emailUnsubscribeCode, "unsubscribe-")
    ensures NewUser(userId).emailUnsubscribeCode[|"unsubscribe-"|..] == userId
  {
  }

  /** `ensure_user_exists`. */
  method EnsureUser(db: Database, userId: string) returns (id: string)
    modifies db
    requires db.Settled()
    ensures db.Settled() && id == userId
    ensures db.Current() == old(db.Current()).(users := db.users)
    ensures db.users == InsertOne(old(db.users), (userId, NewUser(userId)))
  {
    if userId in db.users {
      return userId;
    }
    db.users := db.users[userId := NewUser(userId)];
    db.Commit();
    return userId;
  }

  /** The row a new model gets: the raw id in its display name, the layer
      count it was given, and 4096 neurons per layer. */
  function NewModel(rawId: string, numLayers: nat, userId: string): (m: ModelRow)
    ensures m.layers == numLayers && m.neuronsPerLayer == 4096
    ensures m.creatorId == userId && m.owner == userId
  {
    ModelRow(rawId + " (Local)", userId, numLayers, 4096, userId, "PUBLIC")
  }

  /** `ensure_model_exists`: the row is looked up and created under the
      cleaned id, which is returned. */
  method EnsureModel(db: Database, modelId: string, numLayers: nat, userId: string) returns (cleanId: string)
    modifies db
    requires db.Settled()
    ensures db.Settled() && cleanId == CleanModelId(modelId)
    ensures db.Current() == old(db.Current()).(models := db.models)
    ensures db.models == InsertOne(old(db.models), (cleanId, NewModel(modelId, numLayers, userId)))
  {
    cleanId := Lower(ReplaceChar(ReplaceChar(modelId, '/', '-'), '_', '-'));
    if cleanId in db.models {
      return;
    }
    db.models := db.models[cleanId := NewModel(modelId, numLayers, userId)];
    db.Commit();
  }

  /** An existing model keeps its row, whatever layer count the new upload
      detected; a new one is created with that count. */
  lemma EnsureModelKeepsLayers(models: map<string, ModelRow>, modelId: string, numLayers: nat, userId: string)
    ensures var cleanId := CleanModelId(modelId);
            var after := InsertOne(models, (cleanId, NewModel(modelId, numLayers, userId)));
            && cleanId in after
            && (cleanId in models ==> after == models)
            && (cleanId !in models ==> after[cleanId].layers == numLayers && after[cleanId].neuronsPerLayer == 4096)
  {
  }

  function NewSourceSet(modelId: string, userId: string): SourceSetRow
  {
    SourceSetRow("Auto-interpreted SAE features for " + modelId, DefaultUserId, userId, "PUBLIC")
  }

  /** A new source set is public, created by the user, with the default
      creator name and a description that ends with the model id. */
  lemma NewSourceSetSpec(modelId: string, userId: string)
    ensures NewSourceSet(modelId, userId).creatorId == userId
    ensures NewSourceSet(modelId, userId).creatorName == DefaultUserId
    ensures NewSourceSet(modelId, userId).visibility == "PUBLIC"
    ensures EndsWith(NewSourceSet(modelId, userId).description, modelId)
  {
  }

  /** The source rows `ensure_source_set_exists` offers, one per layer
      `0 <= l < n`, in layer order. */
  function LayerSources(modelId: string, setName: string, n: nat, userId: string): (rows: seq<(string, SourceRow)>)
    ensures |rows| == n
    ensures forall l :: 0 <= l < n ==> rows[l] == (SourceId(l, setName), SourceRow(modelId, setName, userId))
  {
    seq(n, l requires 0 <= l < n => (SourceId(l, setName), SourceRow(modelId, setName, userId)))
  }

  /** `ensure_source_set_exists`: the source set, then a source for every
      layer below `numLayers` whose id is not taken yet, committed together. */
  method EnsureSourceSet(db: Database, modelId: string, setName: string, numLayers: nat, userId: string)
    modifies db
    requires db.Settled()
    ensures db.Settled()
    ensures db.Current() == old(db.Current()).(sourceSets := db.sourceSets, sources := db.sources)
    ensures db.sourceSets == InsertOne(old(db.sourceSets), (SourceSetKey(modelId, setName), NewSourceSet(modelId, userId)))
    ensures db.sources == InsertAbsent(old(db.sources), LayerSources(modelId, setName, numLayers, userId))
    ensures forall l :: 0 <= l < numLayers ==> SourceId(l, setName) in db.sources
  {
    var key := SourceSetKey(modelId, setName);
    if key !in db.sourceSets {
      db.sourceSets := db.sourceSets[key := NewSourceSet(modelId, userId)];
    }
    for layer := 0 to numLayers
      invariant db.Current() == old(db.Current()).(sourceSets := db.sourceSets, sources := db.sources)
      invariant db.sourceSets == InsertOne(old(db.sourceSets), (key, NewSourceSet(modelId, userId)))
      invariant db.sources == InsertAbsent(old(db.sources), LayerSources(modelId, setName, layer, userId))
    {
      var sourceId := SourceId(layer, setName);
      InsertAbsentStep(old(db.sources), LayerSources(modelId, setName, layer, userId),
                       (sourceId, SourceRow(modelId, setName, userId)));
      assert LayerSources(modelId, setName, layer + 1, userId)
          == LayerSources(modelId, setName, layer, userId) + [(sourceId, SourceRow(modelId, setName, userId))];
      if sourceId in db.sources {
        continue;
      }
      db.sources := db.sources[sourceId := SourceRow(modelId, setName, userId)];
    }
    db.Commit();
    forall l | 0 <= l < numLayers
      ensures SourceId(l, setName) in db.sources
    {
      assert LayerSources(modelId, setName, numLayers, userId)[l].0 == SourceId(l, setName);
    }
  }

  /** The three explanation types, offered with `ON CONFLICT DO NOTHING`. */
  function ExplanationTypeRows(userId: string): seq<(string, TypeRow)>
  {
    [
      ("np_max-act-logits", TypeRow("Max Activation with Logits", "Neuronpedia max activation with logits explanation", Some(userId), "system")),
      ("oai_token-act-pair", TypeRow("Token Activation Pair", "OpenAI token activation pair explanation", Some(userId), "system")),
      ("imported", TypeRow("Imported", "Imported explanation from external source", Some(userId), "system")) ]
  }

  /** Three types with distinct names, `imported` among them, each created
      by the user and named as created by `system`. */
  lemma ExplanationTypeRowsSpec(userId: string)
    ensures var rows := ExplanationTypeRows(userId);
            && |rows| == 3
            && (forall i, j :: 0 <= i < j < |rows| ==> rows[i].0 != rows[j].0)
            && (exists i :: 0 <= i < |rows| && rows[i].0 == "imported")
            && (forall i :: 0 <= i < |rows| ==> rows[i].1.creatorId == Some(userId) && rows[i].1.creatorName == "system")
  {
    assert ExplanationTypeRows(userId)[2].0 == "imported";
  }

  /** The two explanation model types, which carry no creator. */
  function ExplanationModelTypeRows(): seq<(string, TypeRow)>
  {
    [ ("gpt-4o-mini", TypeRow("GPT-4o Mini", "OpenAI GPT-4o Mini model", None, "system")),
      ("unknown", TypeRow("Unknown", "Unknown explanation model", None, "system")) ]
  }

  /** Two model types with distinct names, `unknown` among them, none with
      a creator id. */
  lemma ExplanationModelTypeRowsSpec()
    ensures var rows := ExplanationModelTypeRows();
            && |rows| == 2
            && rows[0].0 != rows[1].0
            && (exists i :: 0 <= i < |rows| && rows[i].0 == "unknown")
            && (forall i :: 0 <= i < |rows| ==> rows[i].1.creatorId.None? && rows[i].1.creatorName == "system")
  {
    assert ExplanationModelTypeRows()[1].0 == "unknown";
  }

  /** `ensure_explanation_types_exist`. */
  method EnsureExplanationTypes(db: Database, userId: string)
    modifies db
    requires db.Settled()
    ensures db.Settled()
    ensures db.Current() == old(db.Current()).(explanationTypes := db.explanationTypes)
    ensures db.explanationTypes == InsertAbsent(old(db.explanationTypes), ExplanationTypeRows(userId))
    ensures "imported" in db.explanationTypes
  {
    var rows := ExplanationTypeRows(userId);
    for i := 0 to |rows|
      invariant db.Current() == old(db.Current()).(explanationTypes := db.explanationTypes)
      invariant db.explanationTypes == InsertAbsent(old(db.explanationTypes), rows[..i])
    {
      InsertAbsentStep(old(db.explanationTypes), rows[..i], rows[i]);
      assert rows[..i + 1] == rows[..i] + [rows[i]];
      if rows[i].0 !in db.explanationTypes {
        db.explanationTypes := db.explanationTypes[rows[i].0 := rows[i].1];
      }
    }
    assert rows[..|rows|] == rows;
    assert rows[2].0 == "imported";
    db.Commit();
  }

  /** `ensure_explanation_model_types_exist`. */
  method EnsureExplanationModelTypes(db: Database)
    modifies db
    requires db.Settled()
    ensures db.Settled()
    ensures db.Current() == old(db.Current()).(explanationModelTypes := db.explanationModelTypes)
    ensures db.explanationModelTypes == InsertAbsent(old(db.explanationModelTypes), ExplanationModelTypeRows())
    ensures "unknown" in db.explanationModelTypes
  {
    var rows := ExplanationModelTypeRows();
    for i := 0 to |rows|
      invariant db.Current() == old(db.Current()).(explanationModelTypes := db.explanationModelTypes)
      invariant db.explanationModelTypes == InsertAbsent(old(db.explanationModelTypes), rows[..i])
    {
      InsertAbsentStep(old(db.explanationModelTypes), rows[..i], rows[i]);
      assert rows[..i + 1] == rows[..i] + [rows[i]];
      if rows[i].0 !in db.explanationModelTypes {
        db.explanationModelTypes := db.explanationModelTypes[rows[i].0 := rows[i].1];
      }
    }
    assert rows[..|rows|] == rows;
    assert rows[1].0 == "unknown";
    db.Commit();
  }

  /** The neuron row offered for one record. */
  function NeuronEntry<R>(modelId: string, setName: string, userId: string, indexOf: R -> int): (nat, R) -> (NeuronKey, NeuronRow)
  {
    (l: nat, x: R) => (NeuronFor(modelId, setName, l, indexOf(x)), NeuronRow(setName, userId, None, None))
  }

  /** The inner loop of `ensure_neurons_exist`, over the records of one
      layer. */
  method EnsureLayerNeurons<R>(db: Database, layer: nat, recs: seq<R>, indexOf: R -> int,
                               modelId: string, setName: string, userId: string)
    modifies db
    ensures db.committed == old(db.committed)
    ensures db.Current() == old(db.Current()).(neurons := db.neurons)
    ensures db.neurons == InsertAbsent(old(db.neurons), LayerRows(layer, recs, NeuronEntry(modelId, setName, userId, indexOf)))
  {
    var entry := NeuronEntry(modelId, setName, userId, indexOf);
    var sourceId := SourceId(layer, setName);
    for j := 0 to |recs|
      invariant db.committed == old(db.committed)
      invariant db.Current() == old(db.Current()).(neurons := db.neurons)
      invariant db.neurons == InsertAbsent(old(db.neurons), LayerRows(layer, recs[..j], entry))
    {
      var key := NeuronKey(modelId, sourceId, IntToString(indexOf(recs[j])));
      LayerRowsStep(layer, recs, j, entry);
      InsertAbsentStep(old(db.neurons), LayerRows(layer, recs[..j], entry), entry(layer, recs[j]));
      if key !in db.neurons {
        db.neurons := db.neurons[key := NeuronRow(setName, userId, None, None)];
      }
    }
    assert recs[..|recs|] == recs;
  }

  /** `ensure_neurons_exist`: a neuron for every record of every layer, keyed
      by the layer's source id and the record's index; neurons already
      present are left untouched. One commit at the end. */
  method EnsureNeurons<R>(db: Database, groups: LayerGroups<R>, indexOf: R -> int,
                          modelId: string, setName: string, userId: string)
    modifies db
    requires db.Settled() && groups.Valid()
    ensures db.Settled()
    ensures db.Current() == old(db.Current()).(neurons := db.neurons)
    ensures db.neurons == InsertAbsent(old(db.neurons), PerLayer(groups.order, groups.buckets, NeuronEntry(modelId, setName, userId, indexOf)))
    ensures forall l, k :: l in groups.buckets && 0 <= k < |groups.buckets[l]| ==>
              NeuronFor(modelId, setName, l, indexOf(groups.buckets[l][k])) in db.neurons
  {
    var entry := NeuronEntry(modelId, setName, userId, indexOf);
    for li := 0 to |groups.order|
      invariant db.Current() == old(db.Current()).(neurons := db.neurons)
      invariant db.neurons == InsertAbsent(old(db.neurons), PerLayer(groups.order[..li], groups.buckets, entry))
    {
      var layer := groups.order[li];
      EnsureLayerNeurons(db, layer, groups.buckets[layer], indexOf, modelId, setName, userId);
      PerLayerStep(groups.order, groups.buckets, entry, li);
      InsertAbsentAppend(old(db.neurons), PerLayer(groups.order[..li], groups.buckets, entry),
                         LayerRows(layer, groups.buckets[layer], entry));
    }
    assert groups.order[..|groups.order|] == groups.order;
    db.Commit();
    forall l, k | l in groups.buckets && 0 <= k < |groups.buckets[l]|
      ensures NeuronFor(modelId, setName, l, indexOf(groups.buckets[l][k])) in db.neurons
    {
      PerLayerHas(groups.order, groups.buckets, entry, l, k);
    }
  }
}
