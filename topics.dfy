/** The `sae_to_topics` document: loading features and explanations from
    the batch files (shared by the generator and the updater), the numeric
    ordering of feature indices, and the generator's entries. */
module Topics {
  import opened Base
  import opened Text
  import opened Records

  /** One line of an explanation batch file as these scripts read it:
      every key but `index` is read with `.get`. */
  datatype TopicExplanation = TopicExplanation(
    index: int, description: Option<string>, typeName: Option<string>, explanationModelName: Option<string>)

  /** `str(feature['index'])`, the key a record is filed under. */
  function FeatureKey(f: FeatureRecord): string { IntToString(f.index) }

  function ExplanationKey(e: TopicExplanation): string { IntToString(e.index) }

  /** `max_features or float('inf')`: no bound when absent or 0. */
  function Target(maxFeatures: Option<int>): Option<int>
  {
    if maxFeatures.None? || maxFeatures.value == 0 then None else maxFeatures
  }

  /** `len(features_by_index) >= target_features`. */
  predicate Reached(m: map<string, FeatureRecord>, target: Option<int>)
  {
    target.Some? && |m| >= target.value
  }

  /** Every record is filed under its own key. */
  predicate KeyedByIndex(m: map<string, FeatureRecord>)
  {
    forall k :: k in m ==> k == FeatureKey(m[k])
  }

  /** The inner loading loop over one file: each record is filed under its
      key, replacing any earlier one, until the target is reached. */
  function LoadRecords(m: map<string, FeatureRecord>, recs: seq<FeatureRecord>, target: Option<int>): map<string, FeatureRecord>
    decreases |recs|
  {
    if recs == [] then m
    else
      var next := m[FeatureKey(recs[0]) := recs[0]];
      if Reached(next, target) then next else LoadRecords(next, recs[1..], target)
  }

  /** The outer loading loop: file after file, stopping once the target is
      reached. */
  function LoadFiles(m: map<string, FeatureRecord>, files: seq<seq<FeatureRecord>>, target: Option<int>): map<string, FeatureRecord>
    decreases |files|
  {
    if files == [] then m
    else
      var next := LoadRecords(m, files[0], target);
      if Reached(next, target) then next else LoadFiles(next, files[1..], target)
  }

  /** Loading files every record under its own key. */
  lemma {:induction false} LoadRecordsKeyed(m: map<string, FeatureRecord>, recs: seq<FeatureRecord>, target: Option<int>)
    requires KeyedByIndex(m)
    ensures KeyedByIndex(LoadRecords(m, recs, target))
    decreases |recs|
  {
    if recs != [] {
      var next := m[FeatureKey(recs[0]) := recs[0]];
      assert KeyedByIndex(next);
      if !Reached(next, target) {
        LoadRecordsKeyed(next, recs[1..], target);
      }
    }
  }

  lemma {:induction false} LoadFilesKeyed(m: map<string, FeatureRecord>, files: seq<seq<FeatureRecord>>, target: Option<int>)
    requires KeyedByIndex(m)
    ensures KeyedByIndex(LoadFiles(m, files, target))
    decreases |files|
  {
    if files != [] {
      LoadRecordsKeyed(m, files[0], target);
      var next := LoadRecords(m, files[0], target);
      if !Reached(next, target) {
        LoadFilesKeyed(next, files[1..], target);
      }
    }
  }

  /** Filing records in order, each replacing the one before it with the
      same key. */
  function Overwrite(m: map<string, FeatureRecord>, recs: seq<FeatureRecord>): map<string, FeatureRecord>
    decreases |recs|
  {
    if recs == [] then m
    else
      var last := recs[|recs| - 1];
      Overwrite(m, recs[..|recs| - 1])[FeatureKey(last) := last]
  }

  lemma {:induction false} OverwriteAppend(m: map<string, FeatureRecord>, a: seq<FeatureRecord>, b: seq<FeatureRecord>)
    ensures Overwrite(m, a + b) == Overwrite(Overwrite(m, a), b)
    decreases |b|
  {
    if b == [] {
      assert a + b == a;
    } else {
      assert (a + b)[..|a + b| - 1] == a + b[..|b| - 1];
      OverwriteAppend(m, a, b[..|b| - 1]);
    }
  }

  /** The record last filed under `k` in `recs`, if any. */
  function LastWith(recs: seq<FeatureRecord>, k: string): (r: Option<nat>)
    ensures r.Some? ==> r.value < |recs| && FeatureKey(recs[r.value]) == k
    ensures r.Some? ==> forall h :: r.value < h < |recs| ==> FeatureKey(recs[h]) != k
    ensures r.None? ==> forall h :: 0 <= h < |recs| ==> FeatureKey(recs[h]) != k
    decreases |recs|
  {
    if recs == [] then None
    else if FeatureKey(recs[|recs| - 1]) == k then Some(|recs| - 1)
    else LastWith(recs[..|recs| - 1], k)
  }

  /** A later record with the same index replaces an earlier one: under
      each key is the last record with that key, and a key no record has
      keeps what it had. */
  lemma {:induction false} OverwriteAt(m: map<string, FeatureRecord>, recs: seq<FeatureRecord>, k: string)
    ensures LastWith(recs, k).Some? ==> k in Overwrite(m, recs) && Overwrite(m, recs)[k] == recs[LastWith(recs, k).value]
    ensures LastWith(recs, k).None? ==> (k in Overwrite(m, recs) <==> k in m)
    ensures LastWith(recs, k).None? && k in m ==> Overwrite(m, recs)[k] == m[k]
    decreases |recs|
  {
    if recs != [] {
      var front := recs[..|recs| - 1];
      OverwriteAt(m, front, k);
      if FeatureKey(recs[|recs| - 1]) != k && LastWith(front, k).Some? {
        assert front[LastWith(front, k).value] == recs[LastWith(recs, k).value];
      }
    }
  }

  /** One file's loading files a prefix of its records, and stops early
      only once the target is reached. */
  lemma {:induction false} LoadRecordsPrefix(m: map<string, FeatureRecord>, recs: seq<FeatureRecord>, target: Option<int>)
    returns (n: nat)
    ensures n <= |recs| && LoadRecords(m, recs, target) == Overwrite(m, recs[..n])
    ensures n < |recs| ==> Reached(LoadRecords(m, recs, target), target)
    decreases |recs|
  {
    if recs == [] {
      assert recs[..0] == [];
      return 0;
    }
    var next := m[FeatureKey(recs[0]) := recs[0]];
    if Reached(next, target) {
      OverwriteCons(m, recs, 0);
      return 1;
    }
    var rest := LoadRecordsPrefix(next, recs[1..], target);
    n := rest + 1;
    OverwriteCons(m, recs, rest);
  }

  /** Filing a first record and then a prefix of the others is filing a
      prefix of all the records. */
  lemma OverwriteCons(m: map<string, FeatureRecord>, recs: seq<FeatureRecord>, rest: nat)
    requires rest < |recs|
    ensures Overwrite(m[FeatureKey(recs[0]) := recs[0]], recs[1..][..rest]) == Overwrite(m, recs[..rest + 1])
  {
    assert Overwrite(m, recs[..1]) == m[FeatureKey(recs[0]) := recs[0]] by {
      assert recs[..1][..0] == [];
    }
    assert recs[..rest + 1] == recs[..1] + recs[1..][..rest];
    OverwriteAppend(m, recs[..1], recs[1..][..rest]);
  }

  /** The whole loading files a prefix of all records in file order, and
      stops early only once the target is reached. In particular, with no
      target every record is filed. */
  lemma {:induction false} LoadFilesPrefix(m: map<string, FeatureRecord>, files: seq<seq<FeatureRecord>>, target: Option<int>)
    returns (n: nat)
    ensures n <= |Flatten(files)| && LoadFiles(m, files, target) == Overwrite(m, Flatten(files)[..n])
    ensures n < |Flatten(files)| ==> Reached(LoadFiles(m, files, target), target)
    decreases |files|
  {
    if files == [] {
      assert Flatten(files)[..0] == [];
      return 0;
    }
    var k := LoadRecordsPrefix(m, files[0], target);
    var next := LoadRecords(m, files[0], target);
    if Reached(next, target) {
      LoadFilesStop(m, files, target, k);
      return k;
    }
    assert files[0][..k] == files[0];
    var rest := LoadFilesPrefix(next, files[1..], target);
    n := |files[0]| + rest;
    OverwriteJoin(m, files, rest);
  }

  /** The step of `LoadFilesPrefix` that stops inside the first file. */
  lemma LoadFilesStop(m: map<string, FeatureRecord>, files: seq<seq<FeatureRecord>>, target: Option<int>, k: nat)
    requires files != [] && k <= |files[0]|
    requires LoadRecords(m, files[0], target) == Overwrite(m, files[0][..k])
    requires Reached(LoadRecords(m, files[0], target), target)
    ensures k <= |Flatten(files)|
    ensures LoadFiles(m, files, target) == Overwrite(m, Flatten(files)[..k])
    ensures Reached(LoadFiles(m, files, target), target)
  {
    FlattenCons(files);
    AppendPrefix(files[0], Flatten(files[1..]), k);
  }

  /** Filing a whole first file and then a prefix of the rest is filing a
      prefix of all the files. */
  lemma OverwriteJoin(m: map<string, FeatureRecord>, files: seq<seq<FeatureRecord>>, rest: nat)
    requires files != [] && rest <= |Flatten(files[1..])|
    ensures |Flatten(files)| == |files[0]| + |Flatten(files[1..])|
    ensures Overwrite(Overwrite(m, files[0]), Flatten(files[1..])[..rest]) == Overwrite(m, Flatten(files)[..|files[0]| + rest])
  {
    var tail := Flatten(files[1..]);
    var n := |files[0]| + rest;
    FlattenCons(files);
    AppendPrefix(files[0], tail, n);
    assert n - |files[0]| == rest;
    assert Flatten(files)[..n] == files[0] + tail[..rest];
    OverwriteAppend(m, files[0], tail[..rest]);
  }

  /** With a positive `max_features`, no more than that many indices are
      loaded. */
  lemma {:induction false} LoadRecordsBound(m: map<string, FeatureRecord>, recs: seq<FeatureRecord>, t: int)
    requires |m| < t
    ensures |LoadRecords(m, recs, Some(t))| <= t
    ensures |LoadRecords(m, recs, Some(t))| < t ==> !Reached(LoadRecords(m, recs, Some(t)), Some(t))
    decreases |recs|
  {
    if recs != [] {
      var next := m[FeatureKey(recs[0]) := recs[0]];
      assert |next| <= |m| + 1;
      if !Reached(next, Some(t)) {
        LoadRecordsBound(next, recs[1..], t);
      }
    }
  }

  lemma {:induction false} LoadFilesBound(m: map<string, FeatureRecord>, files: seq<seq<FeatureRecord>>, t: int)
    requires |m| < t
    ensures |LoadFiles(m, files, Some(t))| <= t
    decreases |files|
  {
    if files != [] {
      LoadRecordsBound(m, files[0], t);
      var next := LoadRecords(m, files[0], Some(t));
      if !Reached(next, Some(t)) {
        LoadFilesBound(next, files[1..], t);
      }
    }
  }

  /** The inner loop of the feature loading. */
  method LoadFile(m: map<string, FeatureRecord>, recs: seq<FeatureRecord>, target: Option<int>) returns (r: map<string, FeatureRecord>)
    ensures r == LoadRecords(m, recs, target)
  {
    r := m;
    var j := 0;
    while j < |recs|
      invariant 0 <= j <= |recs|
      invariant LoadRecords(r, recs[j..], target) == LoadRecords(m, recs, target)
    {
      assert recs[j..][1..] == recs[j + 1..];
      r := r[FeatureKey(recs[j]) := recs[j]];
      if Reached(r, target) {
        return;
      }
      j := j + 1;
    }
  }

  /** The feature half of `process_batch_files`. */
  method LoadFeatures(files: seq<seq<FeatureRecord>>, maxFeatures: Option<int>) returns (byIndex: map<string, FeatureRecord>)
    ensures byIndex == LoadFiles(map[], files, Target(maxFeatures))
  {
    var target := Target(maxFeatures);
    byIndex := map[];
    var i := 0;
    while i < |files|
      invariant 0 <= i <= |files|
      invariant LoadFiles(byIndex, files[i..], target) == LoadFiles(map[], files, target)
    {
      assert files[i..][1..] == files[i + 1..];
      byIndex := LoadFile(byIndex, files[i], target);
      if Reached(byIndex, target) {
        return;
      }
      i := i + 1;
    }
  }

  /** The explanations of the loaded indices, grouped by index in file and
      line order. */
  function Group(m: map<string, seq<TopicExplanation>>, recs: seq<TopicExplanation>, keys: set<string>): map<string, seq<TopicExplanation>>
    decreases |recs|
  {
    if recs == [] then m
    else
      var prev := Group(m, recs[..|recs| - 1], keys);
      var e := recs[|recs| - 1];
      var k := ExplanationKey(e);
      if k in keys then prev[k := (if k in prev then prev[k] else []) + [e]] else prev
  }

  /** The records with key `k`, in order. */
  function ExplanationsOf(recs: seq<TopicExplanation>, k: string): (r: seq<TopicExplanation>)
    ensures forall i :: 0 <= i < |r| ==> r[i] in recs && ExplanationKey(r[i]) == k
    decreases |recs|
  {
    if recs == [] then []
    else
      var e := recs[|recs| - 1];
      ExplanationsOf(recs[..|recs| - 1], k) + (if ExplanationKey(e) == k then [e] else [])
  }

  /** The grouping holds exactly the loaded indices that have explanations,
      each with all of its explanations in order. */
  lemma {:induction false} GroupSpec(recs: seq<TopicExplanation>, keys: set<string>, k: string)
    ensures k in Group(map[], recs, keys) <==> k in keys && ExplanationsOf(recs, k) != []
    ensures k in Group(map[], recs, keys) ==> Group(map[], recs, keys)[k] == ExplanationsOf(recs, k)
    decreases |recs|
  {
    if recs != [] {
      GroupSpec(recs[..|recs| - 1], keys, k);
    }
  }

  lemma GroupStep(m: map<string, seq<TopicExplanation>>, recs: seq<TopicExplanation>, e: TopicExplanation, keys: set<string>)
    ensures Group(m, recs + [e], keys) ==
      var prev := Group(m, recs, keys);
      var k := ExplanationKey(e);
      if k in keys then prev[k := (if k in prev then prev[k] else []) + [e]] else prev
  {
    assert (recs + [e])[..|recs|] == recs;
  }

  /** One explanation file. */
  method GroupFile(m: map<string, seq<TopicExplanation>>, ghost done: seq<TopicExplanation>, recs: seq<TopicExplanation>,
                   keys: set<string>) returns (r: map<string, seq<TopicExplanation>>)
    requires m == Group(map[], done, keys)
    ensures r == Group(map[], done + recs, keys)
  {
    r := m;
    assert done + recs[..0] == done;
    for j := 0 to |recs|
      invariant r == Group(map[], done + recs[..j], keys)
    {
      var k := ExplanationKey(recs[j]);
      if k in keys {
        r := r[k := (if k in r then r[k] else []) + [recs[j]]];
      }
      assert done + recs[..j + 1] == (done + recs[..j]) + [recs[j]];
      GroupStep(map[], done + recs[..j], recs[j], keys);
    }
    assert recs[..|recs|] == recs;
  }

  /** The explanation half of `process_batch_files`. */
  method LoadExplanations(files: seq<seq<TopicExplanation>>, keys: set<string>) returns (byIndex: map<string, seq<TopicExplanation>>)
    ensures byIndex == Group(map[], Flatten(files), keys)
  {
    byIndex := map[];
    assert files[..0] == [];
    for i := 0 to |files|
      invariant byIndex == Group(map[], Flatten(files[..i]), keys)
    {
      byIndex := GroupFile(byIndex, Flatten(files[..i]), files[i], keys);
      FlattenStep(files, i);
    }
    assert files[..|files|] == files;
  }

  /** `process_batch_files`: features first, stopping at `max_features`,
      then the explanations of the loaded indices. */
  method ProcessBatchFiles(featureFiles: seq<seq<FeatureRecord>>, explanationFiles: seq<seq<TopicExplanation>>,
                           maxFeatures: Option<int>)
    returns (features: map<string, FeatureRecord>, explanations: map<string, seq<TopicExplanation>>)
    ensures features == LoadFiles(map[], featureFiles, Target(maxFeatures))
    ensures KeyedByIndex(features)
    ensures explanations == Group(map[], Flatten(explanationFiles), features.Keys)
  {
    features := LoadFeatures(featureFiles, maxFeatures);
    LoadFilesKeyed(map[], featureFiles, Target(maxFeatures));
    explanations := LoadExplanations(explanationFiles, features.Keys);
  }

  /** `int(k)` for a key that is the text of an integer. */
  function Num(k: string): int
  {
    match ParseInt(k)
    case Some(n) => n
    case None => 0
  }

  /** Keys that are exactly what `str` prints for their integer. */
  predicate Canonical(keys: set<string>)
  {
    forall k :: k in keys ==> k == IntToString(Num(k))
  }

  lemma KeyedIsCanonical(m: map<string, FeatureRecord>)
    requires KeyedByIndex(m)
    ensures Canonical(m.Keys)
  {
    forall k | k in m ensures k == IntToString(Num(k)) {
      ParseIntRoundTrip(m[k].index);
    }
  }

  predicate Ascending(s: seq<string>)
  {
    forall i, j :: 0 <= i < j < |s| ==> Num(s[i]) < Num(s[j])
  }

  /** Places `k` among keys in ascending numeric order. */
  function InsertKey(s: seq<string>, k: string): (r: seq<string>)
    requires Ascending(s)
    requires forall i :: 0 <= i < |s| ==> Num(s[i]) != Num(k)
    ensures Ascending(r) && |r| == |s| + 1
    ensures forall x :: x in r <==> x in s || x == k
    decreases |s|
  {
    if s == [] then [k]
    else if Num(k) < Num(s[0]) then [k] + s
    else
      var rest := InsertKey(s[1..], k);
      assert forall x :: x in rest ==> Num(s[0]) < Num(x) by {
        forall x | x in rest ensures Num(s[0]) < Num(x) {
          if x != k {
            var i :| 0 <= i < |s[1..]| && s[1..][i] == x;
            assert s[i + 1] == x;
          }
        }
      }
      [s[0]] + rest
  }

  /** `sorted(keys, key=int)`. */
  method SortNumerically(keys: set<string>) returns (r: seq<string>)
    requires Canonical(keys)
    ensures Ascending(r) && |r| == |keys|
    ensures forall k :: k in r <==> k in keys
  {
    r := [];
    var rest := keys;
    while rest != {}
      invariant rest <= keys && Ascending(r)
      invariant forall k :: k in r <==> k in keys && k !in rest
      invariant |r| + |rest| == |keys|
      decreases |rest|
    {
      var k :| k in rest;
      forall i | 0 <= i < |r| ensures Num(r[i]) != Num(k) {
        assert r[i] in keys && r[i] != k;
        assert r[i] == IntToString(Num(r[i])) && k == IntToString(Num(k));
      }
      r := InsertKey(r, k);
      rest := rest - {k};
    }
  }

  /** Python's `s[:n]`: a negative `n` drops the last `-n` elements. */
  function PyPrefix<T>(s: seq<T>, n: int): (r: seq<T>)
    ensures n >= |s| ==> r == s
    ensures r <= s
  {
    if n >= 0 then s[..Min(n, |s|)] else s[..Max(0, |s| + n)]
  }

  /** A prefix of an ascending list is ascending and draws on the list. */
  lemma PrefixOfAscending(sorted: seq<string>, ks: seq<string>)
    requires Ascending(sorted) && ks <= sorted
    ensures Ascending(ks)
    ensures forall i :: 0 <= i < |ks| ==> ks[i] in sorted
  {
    assert forall i :: 0 <= i < |ks| ==> ks[i] == sorted[i];
  }

  /** A prefix of an ascending list holds its smallest keys. */
  lemma PrefixKeepsSmallest(sorted: seq<string>, ks: seq<string>, k: string)
    requires Ascending(sorted) && ks <= sorted
    requires k in sorted && k !in ks
    ensures forall i :: 0 <= i < |ks| ==> Num(ks[i]) < Num(k)
  {
    forall i | 0 <= i < |ks| ensures Num(ks[i]) < Num(k) {
      assert ks[i] == sorted[i];
    }
  }

  /** The feature indices in numeric order, cut to `max_features` when it
      is given. */
  method SelectIndices(features: map<string, FeatureRecord>, maxFeatures: Option<int>) returns (ks: seq<string>)
    requires KeyedByIndex(features)
    requires Target(maxFeatures).Some? && Target(maxFeatures).value > 0 ==> |features| <= Target(maxFeatures).value
    ensures Ascending(ks)
    ensures forall i :: 0 <= i < |ks| ==> ks[i] in features
    ensures forall k :: k in features && k !in ks ==> forall i :: 0 <= i < |ks| ==> Num(ks[i]) < Num(k)
    ensures Target(maxFeatures).None? || Target(maxFeatures).value > 0 ==> forall k :: k in features ==> k in ks
  {
    KeyedIsCanonical(features);
    var sorted := SortNumerically(features.Keys);
    ks := sorted;
    if maxFeatures.Some? && maxFeatures.value != 0 {
      ks := PyPrefix(sorted, maxFeatures.value);
    }
    PrefixOfAscending(sorted, ks);
    forall k | k in features && k !in ks
      ensures forall i :: 0 <= i < |ks| ==> Num(ks[i]) < Num(k)
    {
      PrefixKeepsSmallest(sorted, ks, k);
    }
  }

  /** The loop that builds the document: one entry per selected index, in
      the order given. */
  method BuildEntries(features: map<string, FeatureRecord>, expl: map<string, seq<TopicExplanation>>,
                      ghost recs: seq<TopicExplanation>, ks: seq<string>) returns (topics: seq<(string, Json)>)
    requires expl == Group(map[], recs, features.Keys)
    requires forall i :: 0 <= i < |ks| ==> ks[i] in features
    ensures |topics| == |ks|
    ensures forall i :: 0 <= i < |ks| ==> topics[i] == (ks[i], NewEntry(features[ks[i]], ExplanationsOf(recs, ks[i])))
  {
    topics := [];
    for i := 0 to |ks|
      invariant |topics| == i
      invariant forall h :: 0 <= h < i ==> topics[h] == (ks[h], NewEntry(features[ks[h]], ExplanationsOf(recs, ks[h])))
    {
      var k := ks[i];
      var es := ExplanationsAt(expl, k);
      GroupSpec(recs, features.Keys, k);
      topics := topics + [(k, NewEntry(features[k], es))];
    }
  }

  /** `explanations_by_index.get(idx, [])`. */
  function ExplanationsAt(byIndex: map<string, seq<TopicExplanation>>, k: string): seq<TopicExplanation>
  {
    if k in byIndex then byIndex[k] else []
  }

  /** An explanation as listed under `other.explanations`. */
  function Formatted(e: TopicExplanation): Json
  {
    JObj(map[
      "typeName" := JStr(e.typeName.GetOr("unknown")),
      "explanationModelName" := JStr(e.explanationModelName.GetOr("unknown")),
      "description" := JStr(e.description.GetOr(""))])
  }

  /** A formatted explanation has exactly the three keys, with `unknown`,
      `unknown` and the empty text for what the explanation lacks. */
  lemma FormattedSpec(e: TopicExplanation)
    ensures Formatted(e).JObj? && Formatted(e).fields.Keys == {"typeName", "explanationModelName", "description"}
    ensures Formatted(e).fields["typeName"] == JStr(if e.typeName.Some? then e.typeName.value else "unknown")
    ensures Formatted(e).fields["explanationModelName"]
         == JStr(if e.explanationModelName.Some? then e.explanationModelName.value else "unknown")
    ensures Formatted(e).fields["description"] == JStr(if e.description.Some? then e.description.value else "")
  {
  }

  /** The formatted explanations, one per explanation, in order. */
  function FormattedAll(es: seq<TopicExplanation>): (r: seq<Json>)
    ensures |r| == |es| && forall i :: 0 <= i < |es| ==> r[i] == Formatted(es[i])
  {
    seq(|es|, i requires 0 <= i < |es| => Formatted(es[i]))
  }

  /** `sae_label`: the first explanation's description, `unknown` when it
      has none or there is no explanation. */
  function Label(es: seq<TopicExplanation>): (l: string)
    ensures es == [] ==> l == "unknown"
    ensures es != [] && es[0].description.Some? ==> l == es[0].description.value
    ensures es != [] && es[0].description.None? ==> l == "unknown"
  {
    if es == [] then "unknown" else es[0].description.GetOr("unknown")
  }

  /** `activation_density`: the feature's `frac_nonzero`, `null` when it
      is `null`, or 0 when it is missing. */
  function Density(f: FeatureRecord): (d: Json)
    ensures d == JNull <==> f.fracNonzero.Null?
    ensures f.fracNonzero.Absent? ==> d == JNum(0.0)
    ensures f.fracNonzero.Present? ==> d == JNum(f.fracNonzero.value)
  {
    match f.fracNonzero.Get(0.0)
    case Some(v) => JNum(v)
    case None => JNull
  }

  /** A generated entry: the label, the density and the explanations of the
      feature, and fixed values for every other field. */
  function NewEntry(f: FeatureRecord, es: seq<TopicExplanation>): Json
  {
    JObj(map[
      "sae_label" := JStr(Label(es)),
      "sub_topic_label" := JStr("None"),
      "topic_label" := JStr("None"),
      "csp" := JBool(false),
      "detection" := JStr("NONE"),
      "threshold" := JNum(0.0),
      "verified" := JInt(0),
      "display" := JInt(0),
      "other" := JObj(map["explanations" := JArr(FormattedAll(es))]),
      "activation_density" := Density(f)])
  }

  /** The ten fields of a generated entry. */
  lemma NewEntryKeys(f: FeatureRecord, es: seq<TopicExplanation>)
    ensures NewEntry(f, es).JObj?
    ensures NewEntry(f, es).fields.Keys == {"sae_label", "sub_topic_label", "topic_label", "csp", "detection",
                                            "threshold", "verified", "display", "other", "activation_density"}
  {
  }

  /** A generated entry holds the label, the density and the formatted
      explanations of the feature, and fixed values for the fields the
      script does not fill. */
  lemma NewEntrySpec(f: FeatureRecord, es: seq<TopicExplanation>)
    ensures var entry := NewEntry(f, es);
            && entry.JObj?
            && entry.fields["sae_label"] == JStr(Label(es))
            && entry.fields["activation_density"] == Density(f)
            && entry.fields["other"] == JObj(map["explanations" := JArr(FormattedAll(es))])
            && entry.fields["verified"] == JInt(0) && entry.fields["display"] == JInt(0)
            && entry.fields["csp"] == JBool(false)
  {
  }

  /** `generate_sae_to_topics`: one entry per loaded index in ascending
      numeric order (for a negative `max_features`, only the smallest
      indices Python's slice keeps), each built from that index's last
      feature record and its explanations in file and line order. The
      document is returned as its ordered list of (key, entry) pairs. */
  method GenerateSaeToTopics(featureFiles: seq<seq<FeatureRecord>>, explanationFiles: seq<seq<TopicExplanation>>,
                             maxFeatures: Option<int>) returns (topics: seq<(string, Json)>)
    ensures var features := LoadFiles(map[], featureFiles, Target(maxFeatures));
      && (forall i :: 0 <= i < |topics| ==>
            (topics[i].0 in features &&
             topics[i].1 == NewEntry(features[topics[i].0], ExplanationsOf(Flatten(explanationFiles), topics[i].0))))
      && (forall i, j :: 0 <= i < j < |topics| ==> Num(topics[i].0) < Num(topics[j].0))
      && (forall k :: k in features && (forall i :: 0 <= i < |topics| ==> topics[i].0 != k) ==>
            forall i :: 0 <= i < |topics| ==> Num(topics[i].0) < Num(k))
      && (Target(maxFeatures).None? || Target(maxFeatures).value > 0 ==>
            forall k :: k in features ==> exists i :: 0 <= i < |topics| && topics[i].0 == k)
  {
    var features, expl := ProcessBatchFiles(featureFiles, explanationFiles, maxFeatures);
    if Target(maxFeatures).Some? && Target(maxFeatures).value > 0 {
      LoadFilesBound(map[], featureFiles, Target(maxFeatures).value);
    }
    var ks := SelectIndices(features, maxFeatures);
    topics := BuildEntries(features, expl, Flatten(explanationFiles), ks);
    TopicKeys(topics, ks, features, Flatten(explanationFiles));
  }

  /** The document's entries are those of the selected indices and its keys
      are the selected indices: ascending, the smallest loaded ones, and
      every loaded one when all were selected. */
  lemma TopicKeys(topics: seq<(string, Json)>, ks: seq<string>, features: map<string, FeatureRecord>, recs: seq<TopicExplanation>)
    requires |topics| == |ks|
    requires forall i :: 0 <= i < |ks| ==> ks[i] in features
    requires forall i :: 0 <= i < |ks| ==> topics[i] == (ks[i], NewEntry(features[ks[i]], ExplanationsOf(recs, ks[i])))
    requires Ascending(ks)
    requires forall k :: k in features && k !in ks ==> forall i :: 0 <= i < |ks| ==> Num(ks[i]) < Num(k)
    ensures forall i :: 0 <= i < |topics| ==>
              (topics[i].0 in features && topics[i].1 == NewEntry(features[topics[i].0], ExplanationsOf(recs, topics[i].0)))
    ensures forall i, j :: 0 <= i < j < |topics| ==> Num(topics[i].0) < Num(topics[j].0)
    ensures forall k :: k in features && (forall i :: 0 <= i < |topics| ==> topics[i].0 != k) ==>
              forall i :: 0 <= i < |topics| ==> Num(topics[i].0) < Num(k)
    ensures forall k :: k in features && k in ks ==> exists i :: 0 <= i < |topics| && topics[i].0 == k
  {
    forall k | k in features && (forall i :: 0 <= i < |topics| ==> topics[i].0 != k)
      ensures forall i :: 0 <= i < |topics| ==> Num(topics[i].0) < Num(k)
    {
      assert k !in ks;
    }
    forall k | k in features && k in ks ensures exists i :: 0 <= i < |topics| && topics[i].0 == k {
      var i :| 0 <= i < |ks| && ks[i] == k;
      assert topics[i].0 == k;
    }
  }
}
