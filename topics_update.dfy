/** The `sae_to_topics` updater: entries already in the document whose
    index was loaded and has explanations get a new label, density and
    explanation list; nothing else in the document changes. */
module TopicsUpdate {
  import opened Base
  import opened Text
  import opened Records
  import opened Topics

  /** An entry after its three fields are set: `sae_label`,
      `activation_density`, and `explanations` inside `other` (created as
      `{}` when absent). Every other field, and every other key of `other`,
      is kept. An entry that is not an object, or whose `other` is not one,
      raises `TypeError`. */
  function RefreshedEntry(entry: Json, f: FeatureRecord, es: seq<TopicExplanation>): (r: Result<Json>)
    ensures r.Ok? <==> entry.JObj? && ("other" in entry.fields ==> entry.fields["other"].JObj?)
  {
    match entry
    case JObj(fields) =>
      var labelled := fields["sae_label" := JStr(Label(es))]["activation_density" := Density(f)];
      var other := if "other" in labelled then labelled["other"] else JObj(map[]);
      (match other
       case JObj(o) => Ok(JObj(labelled["other" := JObj(o["explanations" := JArr(FormattedAll(es))])]))
       case _ => Err("TypeError: 'other' does not support item assignment"))
    case _ => Err("TypeError: entry does not support item assignment")
  }

  /** A successful update sets the label, the density and the explanation
      list, adds `other` when missing, and keeps every other field and every
      other key of `other`. */
  lemma RefreshedEntryFields(entry: Json, f: FeatureRecord, es: seq<TopicExplanation>)
    requires RefreshedEntry(entry, f, es).Ok?
    ensures var r := RefreshedEntry(entry, f, es).value;
      && r.JObj?
      && r.fields.Keys == entry.fields.Keys + {"sae_label", "activation_density", "other"}
      && (forall key :: key in entry.fields && key !in {"sae_label", "activation_density", "other"} ==>
            r.fields[key] == entry.fields[key])
      && r.fields["sae_label"] == JStr(Label(es))
      && r.fields["activation_density"] == Density(f)
      && r.fields["other"].JObj?
      && var before := if "other" in entry.fields then entry.fields["other"].fields else map[];
         r.fields["other"].fields == before["explanations" := JArr(FormattedAll(es))]
  {
  }

  /** Updating an entry a second time with the same data changes nothing. */
  lemma RefreshedEntryIdempotent(entry: Json, f: FeatureRecord, es: seq<TopicExplanation>)
    requires RefreshedEntry(entry, f, es).Ok?
    ensures RefreshedEntry(RefreshedEntry(entry, f, es).value, f, es) == RefreshedEntry(entry, f, es)
  {
    var once := RefreshedEntry(entry, f, es).value;
    RefreshedEntryFields(entry, f, es);
    RefreshedEntryFields(once, f, es);
    var twice := RefreshedEntry(once, f, es).value;
    assert twice.fields["other"] == once.fields["other"];
    assert twice.fields == once.fields;
  }

  /** The index is in the document, among the selected indices, and has
      explanations: its entry is updated. */
  predicate Refreshes(k: string, existing: map<string, Json>, selected: set<string>,
                      expl: map<string, seq<TopicExplanation>>)
  {
    k in existing && k in selected && ExplanationsAt(expl, k) != []
  }

  /** The document after the update of the selected indices. The key set is
      the document's own; an entry that is not updated is left exactly as
      it was. */
  function Refreshed(existing: map<string, Json>, selected: set<string>, features: map<string, FeatureRecord>,
                     expl: map<string, seq<TopicExplanation>>): (r: map<string, Json>)
    ensures r.Keys == existing.Keys
    ensures forall k :: k in existing && !Refreshes(k, existing, selected, expl) ==> r[k] == existing[k]
  {
    map k | k in existing ::
      if Refreshes(k, existing, selected, expl) && k in features && RefreshedEntry(existing[k], features[k], ExplanationsAt(expl, k)).Ok?
      then RefreshedEntry(existing[k], features[k], ExplanationsAt(expl, k)).value
      else existing[k]
  }

  /** Some selected entry cannot be updated. */
  predicate Fails(existing: map<string, Json>, selected: set<string>, features: map<string, FeatureRecord>,
                  expl: map<string, seq<TopicExplanation>>)
  {
    exists k :: Refreshes(k, existing, selected, expl) && k in features && RefreshedEntry(existing[k], features[k], ExplanationsAt(expl, k)).Err?
  }

  /** Adding one index to the selection changes at most that index's entry. */
  lemma RefreshedInsert(existing: map<string, Json>, seen: set<string>, features: map<string, FeatureRecord>,
                        expl: map<string, seq<TopicExplanation>>, k: string)
    requires k in existing
    ensures Refreshed(existing, seen + {k}, features, expl)
      == Refreshed(existing, seen, features, expl)[k := Refreshed(existing, seen + {k}, features, expl)[k]]
  {
    var a := Refreshed(existing, seen + {k}, features, expl);
    var b := Refreshed(existing, seen, features, expl)[k := a[k]];
    assert a.Keys == b.Keys;
    forall x | x in a
      ensures a[x] == b[x]
    {
      if x != k {
        assert Refreshes(x, existing, seen + {k}, expl) <==> Refreshes(x, existing, seen, expl);
      }
    }
  }

  /** Adding an index that is not in the document changes nothing. */
  lemma RefreshedSkip(existing: map<string, Json>, seen: set<string>, features: map<string, FeatureRecord>,
                      expl: map<string, seq<TopicExplanation>>, k: string)
    requires k !in existing || ExplanationsAt(expl, k) == []
    ensures Refreshed(existing, seen + {k}, features, expl) == Refreshed(existing, seen, features, expl)
  {
    var a := Refreshed(existing, seen + {k}, features, expl);
    var b := Refreshed(existing, seen, features, expl);
    forall x | x in a
      ensures a[x] == b[x]
    {
      assert Refreshes(x, existing, seen + {k}, expl) <==> Refreshes(x, existing, seen, expl);
    }
  }

  /** Running the update again on its own output, with the same loaded
      data, leaves the document as it is. */
  lemma RefreshedIdempotent(existing: map<string, Json>, selected: set<string>, features: map<string, FeatureRecord>,
                            expl: map<string, seq<TopicExplanation>>)
    ensures var once := Refreshed(existing, selected, features, expl);
      Refreshed(once, selected, features, expl) == once
  {
    var once := Refreshed(existing, selected, features, expl);
    var twice := Refreshed(once, selected, features, expl);
    forall k | k in once
      ensures twice[k] == once[k]
    {
      if Refreshes(k, existing, selected, expl) && k in features
         && RefreshedEntry(existing[k], features[k], ExplanationsAt(expl, k)).Ok? {
        RefreshedEntryIdempotent(existing[k], features[k], ExplanationsAt(expl, k));
      }
    }
  }

  /** The selected indices in the document that have explanations. */
  function UpdatedKeys(existing: map<string, Json>, selected: set<string>,
                       expl: map<string, seq<TopicExplanation>>): set<string>
  {
    set k | k in selected && k in existing && ExplanationsAt(expl, k) != []
  }

  /** The selected indices missing from the document. */
  function SkippedKeys(existing: map<string, Json>, selected: set<string>): set<string>
  {
    set k | k in selected && k !in existing
  }

  /** Adding an index adds it to the updated ones exactly when its entry
      is updated. */
  lemma UpdatedKeysInsert(existing: map<string, Json>, seen: set<string>, expl: map<string, seq<TopicExplanation>>, k: string)
    requires k !in seen
    ensures |UpdatedKeys(existing, seen + {k}, expl)| ==
      |UpdatedKeys(existing, seen, expl)| + if Refreshes(k, existing, {k}, expl) then 1 else 0
  {
    if Refreshes(k, existing, {k}, expl) {
      assert UpdatedKeys(existing, seen + {k}, expl) == UpdatedKeys(existing, seen, expl) + {k};
    } else {
      assert UpdatedKeys(existing, seen + {k}, expl) == UpdatedKeys(existing, seen, expl);
    }
  }

  /** Adding an index adds it to the skipped ones exactly when the document
      lacks it. */
  lemma SkippedKeysInsert(existing: map<string, Json>, seen: set<string>, k: string)
    requires k !in seen
    ensures |SkippedKeys(existing, seen + {k})| == |SkippedKeys(existing, seen)| + if k !in existing then 1 else 0
  {
    if k !in existing {
      assert SkippedKeys(existing, seen + {k}) == SkippedKeys(existing, seen) + {k};
    } else {
      var a, b := SkippedKeys(existing, seen + {k}), SkippedKeys(existing, seen);
      assert forall x :: x in a <==> x in b;
      assert a == b;
    }
  }

  /** Adding an index that does not fail keeps the selection free of
      failures and adds at most that index to each count. */
  lemma SelectOne(existing: map<string, Json>, seen: set<string>, features: map<string, FeatureRecord>,
                  expl: map<string, seq<TopicExplanation>>, k: string)
    requires k !in seen && !Fails(existing, seen, features, expl)
    requires !(Refreshes(k, existing, {k}, expl) && k in features &&
               RefreshedEntry(existing[k], features[k], ExplanationsAt(expl, k)).Err?)
    ensures !Fails(existing, seen + {k}, features, expl)
    ensures |UpdatedKeys(existing, seen + {k}, expl)| ==
      |UpdatedKeys(existing, seen, expl)| + if Refreshes(k, existing, {k}, expl) then 1 else 0
    ensures |SkippedKeys(existing, seen + {k})| == |SkippedKeys(existing, seen)| + if k !in existing then 1 else 0
  {
    UpdatedKeysInsert(existing, seen, expl, k);
    SkippedKeysInsert(existing, seen, k);
    forall x | Refreshes(x, existing, seen + {k}, expl) && x in features
      ensures RefreshedEntry(existing[x], features[x], ExplanationsAt(expl, x)).Ok?
    {
      if x != k {
        assert Refreshes(x, existing, seen, expl);
      }
    }
  }

  /** The updated document and the counts the script reports. */
  datatype Refresh = Refresh(topics: map<string, Json>, updated: nat, skipped: nat)

  /** One index of the update loop, given the keys `seen` before it. */
  method RefreshOne(topics: map<string, Json>, ghost existing: map<string, Json>, ghost seen: set<string>,
                    features: map<string, FeatureRecord>, expl: map<string, seq<TopicExplanation>>, k: string)
    returns (r: Result<map<string, Json>>, updated: bool, skipped: bool)
    requires k !in seen && k in features
    requires topics == Refreshed(existing, seen, features, expl)
    ensures updated <==> r.Ok? && Refreshes(k, existing, {k}, expl)
    ensures skipped <==> k !in existing
    ensures r.Err? <==> Refreshes(k, existing, {k}, expl) && RefreshedEntry(existing[k], features[k], ExplanationsAt(expl, k)).Err?
    ensures r.Ok? ==> r.value == Refreshed(existing, seen + {k}, features, expl)
  {
    if k !in topics {
      RefreshedSkip(existing, seen, features, expl, k);
      return Ok(topics), false, true;
    }
    var es := ExplanationsAt(expl, k);
    if es == [] {
      RefreshedSkip(existing, seen, features, expl, k);
      return Ok(topics), false, false;
    }
    assert topics[k] == existing[k];
    var e := RefreshedEntry(topics[k], features[k], es);
    if e.Err? {
      return Err(e.error), false, false;
    }
    RefreshedInsert(existing, seen, features, expl, k);
    r := Ok(topics[k := e.value]);
    updated, skipped := true, false;
  }

  /** The update loop over the selected indices, in order: indices not in
      the document are skipped and counted, indices without explanations
      are left alone, the others are updated and counted. */
  method RefreshEntries(existing: map<string, Json>, features: map<string, FeatureRecord>,
                        expl: map<string, seq<TopicExplanation>>, ks: seq<string>) returns (r: Result<Refresh>)
    requires forall i, j :: 0 <= i < j < |ks| ==> ks[i] != ks[j]
    requires forall i :: 0 <= i < |ks| ==> ks[i] in features
    ensures var selected := set i | 0 <= i < |ks| :: ks[i];
      && (r.Err? <==> Fails(existing, selected, features, expl))
      && (r.Ok? ==> r.value.topics == Refreshed(existing, selected, features, expl))
      && (r.Ok? ==> r.value.updated == |UpdatedKeys(existing, selected, expl)|)
      && (r.Ok? ==> r.value.skipped == |SkippedKeys(existing, selected)|)
  {
    var topics := existing;
    var updated, skipped := 0, 0;
    ghost var seen: set<string> := {};
    for i := 0 to |ks|
      invariant seen == set j | 0 <= j < i :: ks[j]
      invariant topics == Refreshed(existing, seen, features, expl)
      invariant !Fails(existing, seen, features, expl)
      invariant updated == |UpdatedKeys(existing, seen, expl)|
      invariant skipped == |SkippedKeys(existing, seen)|
    {
      var k := ks[i];
      assert k !in seen;
      var step, u, s := RefreshOne(topics, existing, seen, features, expl, k);
      if step.Err? {
        assert Refreshes(k, existing, set j | 0 <= j < |ks| :: ks[j], expl);
        return Err(step.error);
      }
      SelectOne(existing, seen, features, expl, k);
      topics := step.value;
      updated := updated + if u then 1 else 0;
      skipped := skipped + if s then 1 else 0;
      seen := seen + {k};
      SeenStep(ks, i);
    }
    assert seen == set j | 0 <= j < |ks| :: ks[j];
    return Ok(Refresh(topics, updated, skipped));
  }

  /** The indices of a prefix one longer. */
  lemma SeenStep(ks: seq<string>, i: nat)
    requires i < |ks|
    ensures (set j | 0 <= j < i + 1 :: ks[j]) == (set j | 0 <= j < i :: ks[j]) + {ks[i]}
  {
    var a, b := set j | 0 <= j < i + 1 :: ks[j], set j | 0 <= j < i :: ks[j];
    forall x | x in a
      ensures x in b + {ks[i]}
    {
      var j :| 0 <= j < i + 1 && ks[j] == x;
      if j < i {
        assert x in b;
      }
    }
  }

  /** What the updater writes and reports. */
  datatype UpdateReport = UpdateReport(path: string, topics: map<string, Json>, updated: nat, skipped: nat)

  /** `update_sae_to_topics`, on the loaded document: it loads features and
      explanations as the generator does, updates the selected indices, and
      writes to the output path, which defaults to the input file. The key
      set never changes. With no negative `max_features`, exactly the
      loaded indices in the document that have explanations are updated,
      and the counts are the number of those and of the loaded indices
      missing from the document. */
  method UpdateSaeToTopics(existing: map<string, Json>, existingPath: string, output: Option<string>,
                           featureFiles: seq<seq<FeatureRecord>>, explanationFiles: seq<seq<TopicExplanation>>,
                           maxFeatures: Option<int>) returns (r: Result<UpdateReport>)
    ensures r.Ok? ==> r.value.path == output.GetOr(existingPath)
    ensures r.Ok? ==> r.value.topics.Keys == existing.Keys
    ensures var features := LoadFiles(map[], featureFiles, Target(maxFeatures));
      var expl := Group(map[], Flatten(explanationFiles), features.Keys);
      Target(maxFeatures).None? || Target(maxFeatures).value > 0 ==>
        && (r.Err? <==> Fails(existing, features.Keys, features, expl))
        && (r.Ok? ==> r.value.topics == Refreshed(existing, features.Keys, features, expl))
        && (r.Ok? ==> r.value.updated == |UpdatedKeys(existing, features.Keys, expl)|)
        && (r.Ok? ==> r.value.skipped == |SkippedKeys(existing, features.Keys)|)
  {
    var features, expl := ProcessBatchFiles(featureFiles, explanationFiles, maxFeatures);
    if Target(maxFeatures).Some? && Target(maxFeatures).value > 0 {
      LoadFilesBound(map[], featureFiles, Target(maxFeatures).value);
    }
    var ks := SelectIndices(features, maxFeatures);
    var refresh := RefreshEntries(existing, features, expl, ks);
    if refresh.Err? {
      return Err(refresh.error);
    }
    if Target(maxFeatures).None? || Target(maxFeatures).value > 0 {
      assert (set i | 0 <= i < |ks| :: ks[i]) == features.Keys;
    }
    var path := if output.Some? then output.value else existingPath;
    return Ok(UpdateReport(path, refresh.value.topics, refresh.value.updated, refresh.value.skipped));
  }
}
