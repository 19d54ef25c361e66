/** The streaming activation upload: the delete that clears a source set's
    activations, and the upload that inserts every record of every batch
    file under an id carrying its file and line position, skipping records
    whose neuron does not exist and committing after every file. */
module Activations {
  import opened Base
  import opened Text
  import opened Keys
  import opened Store
  import opened Records
  import opened Guarantor

  /** The `layer LIKE '%-{set}'` pattern that selects a source set's rows. */
  function SetPattern(setName: string): string
  {
    "%-" + setName
  }

  /** Whether `clear_existing_activations` deletes a row. */
  predicate ClearedRow(a: ActivationRow, modelId: string, setName: string)
  {
    a.modelId == modelId && Like(a.layer, SetPattern(setName))
  }

  /** The activation table after the delete: the rows of the model in the
      source set are gone, every other row is kept as it was. */
  function Cleared(m: map<string, ActivationRow>, modelId: string, setName: string): (r: map<string, ActivationRow>)
    ensures forall id :: id in r <==> id in m && !ClearedRow(m[id], modelId, setName)
    ensures forall id :: id in r ==> r[id] == m[id]
  {
    map id | id in m && !ClearedRow(m[id], modelId, setName) :: m[id]
  }

  /** For a set name without SQL wildcards, a row is deleted exactly when it
      belongs to the model and its layer ends with `-{set}`. */
  lemma ClearedIsSuffix(m: map<string, ActivationRow>, modelId: string, setName: string, id: string)
    requires NoWildcards(setName) && id in m
    ensures id !in Cleared(m, modelId, setName) <==>
              m[id].modelId == modelId && EndsWith(m[id].layer, "-" + setName)
  {
    assert NoWildcards("-" + setName) by {
      assert forall c :: c in "-" + setName ==> c == '-' || c in setName;
    }
    assert SetPattern(setName) == "%" + ("-" + setName);
    LikeSuffixIsEndsWith(m[id].layer, "-" + setName);
  }

  /** Clearing twice deletes nothing the second time. */
  lemma ClearedIdempotent(m: map<string, ActivationRow>, modelId: string, setName: string)
    ensures Cleared(Cleared(m, modelId, setName), modelId, setName) == Cleared(m, modelId, setName)
  {
  }

  /** `clear_existing_activations`: one delete, committed; `deleted` is the
      number of rows it removed. */
  method ClearExistingActivations(db: Database, modelId: string, setName: string) returns (deleted: nat)
    modifies db
    requires db.Settled()
    ensures db.Settled()
    ensures db.Current() == old(db.Current()).(activations := Cleared(old(db.activations), modelId, setName))
    ensures deleted + |db.activations| == |old(db.activations)|
  {
    var doomed := set id | id in db.activations && ClearedRow(db.activations[id], modelId, setName);
    var kept := Cleared(db.activations, modelId, setName);
    assert kept.Keys + doomed == db.activations.Keys;
    assert kept.Keys * doomed == {};
    deleted := |doomed|;
    db.activations := kept;
    db.Commit();
  }

  /** The row the streaming upload offers for record `j` of file `i` when
      its layer is `l`. */
  function StreamEntry(modelId: string, setName: string, userId: string,
                       i: nat, j: nat, l: nat, a: ActivationRecord): (entry: (string, ActivationRow))
    ensures entry.0 == ActivationId(modelId, l, IntToString(a.index), i, j)
    ensures NeuronKey(entry.1.modelId, entry.1.layer, entry.1.index) == NeuronFor(modelId, setName, l, a.index)
    ensures ExtractLayer(entry.1.layer) == Ok(l) && EndsWith(entry.1.layer, "-" + setName)
    ensures entry.1.creatorId == userId && entry.1.tokens == a.tokens && entry.1.values == a.values
    ensures entry.1.maxValue == a.maxValue && entry.1.minValue == a.minValue
    ensures a.maxValueTokenIndex.None? ==> entry.1.maxValueTokenIndex == 0
    ensures a.maxValueTokenIndex.Some? ==> entry.1.maxValueTokenIndex == a.maxValueTokenIndex.value
  {
    SourceIdSpec(l, setName);
    (ActivationId(modelId, l, IntToString(a.index), i, j),
     ActivationRow(modelId, SourceId(l, setName), IntToString(a.index), userId,
                   a.tokens, a.values, a.maxValue, a.minValue, a.maxValueTokenIndex.GetOr(0)))
  }

  /** What record `j` of file `i` offers: its row when its layer parses and
      its neuron exists, nothing otherwise. */
  function RecordRow(neurons: map<NeuronKey, NeuronRow>, modelId: string, setName: string, userId: string,
                     i: nat, j: nat, a: ActivationRecord): seq<(string, ActivationRow)>
  {
    match ExtractLayer(a.layer)
    case Err(_) => []
    case Ok(l) =>
      if NeuronFor(modelId, setName, l, a.index) in neurons then [StreamEntry(modelId, setName, userId, i, j, l, a)]
      else []
  }

  /** What each record of file `i` offers, by line position. */
  function RecordRows(neurons: map<NeuronKey, NeuronRow>, modelId: string, setName: string, userId: string,
                      i: nat): (nat, ActivationRecord) -> seq<(string, ActivationRow)>
  {
    (j: nat, a: ActivationRecord) => RecordRow(neurons, modelId, setName, userId, i, j, a)
  }

  /** The rows file `i` offers, in line order. */
  function FileRows(neurons: map<NeuronKey, NeuronRow>, modelId: string, setName: string, userId: string,
                    i: nat, recs: seq<ActivationRecord>): seq<(string, ActivationRow)>
  {
    Gather(recs, RecordRows(neurons, modelId, setName, userId, i))
  }

  /** What each file offers, by file position. */
  function FileRowsOf(neurons: map<NeuronKey, NeuronRow>, modelId: string, setName: string, userId: string)
    : (nat, seq<ActivationRecord>) -> seq<(string, ActivationRow)>
  {
    (i: nat, recs: seq<ActivationRecord>) => FileRows(neurons, modelId, setName, userId, i, recs)
  }

  /** The rows a run over `files` offers, file by file. */
  function StreamRows(neurons: map<NeuronKey, NeuronRow>, modelId: string, setName: string, userId: string,
                      files: seq<seq<ActivationRecord>>): seq<(string, ActivationRow)>
  {
    Gather(files, FileRowsOf(neurons, modelId, setName, userId))
  }

  lemma FileRowsStep(neurons: map<NeuronKey, NeuronRow>, modelId: string, setName: string, userId: string,
                     i: nat, recs: seq<ActivationRecord>, j: nat)
    requires j < |recs|
    ensures FileRows(neurons, modelId, setName, userId, i, recs[..j + 1])
         == FileRows(neurons, modelId, setName, userId, i, recs[..j]) + RecordRow(neurons, modelId, setName, userId, i, j, recs[j])
  {
    GatherStep(recs, RecordRows(neurons, modelId, setName, userId, i), j);
  }

  lemma StreamRowsStep(neurons: map<NeuronKey, NeuronRow>, modelId: string, setName: string, userId: string,
                       files: seq<seq<ActivationRecord>>, i: nat)
    requires i < |files|
    ensures StreamRows(neurons, modelId, setName, userId, files[..i + 1])
         == StreamRows(neurons, modelId, setName, userId, files[..i]) + FileRows(neurons, modelId, setName, userId, i, files[i])
  {
    GatherStep(files, FileRowsOf(neurons, modelId, setName, userId), i);
  }

  /** One record: the layer is extracted (a field that does not parse is the
      `ValueError` that ends the upload), the neuron is looked up, and the
      row is inserted with `ON CONFLICT (id) DO NOTHING` only when the
      neuron exists. The count is 1 when a row went in. */
  method StreamRecord(db: Database, i: nat, j: nat, a: ActivationRecord,
                      modelId: string, setName: string, userId: string) returns (r: Result<nat>)
    modifies db`activations
    ensures r.Ok? <==> ExtractLayer(a.layer).Ok?
    ensures r.Ok? ==> db.activations == InsertAbsent(old(db.activations), RecordRow(db.neurons, modelId, setName, userId, i, j, a))
    ensures r.Ok? ==> r.value == Inserted(old(db.activations), RecordRow(db.neurons, modelId, setName, userId, i, j, a))
  {
    var layer := ExtractLayer(a.layer);
    if layer.Err? {
      return Err(layer.error);
    }
    var l := layer.value;
    var sourceId := SourceId(l, setName);
    var featureIndex := IntToString(a.index);
    var id := ActivationId(modelId, l, featureIndex, i, j);
    if NeuronKey(modelId, sourceId, featureIndex) !in db.neurons {
      return Ok(0);
    }
    var row := StreamEntry(modelId, setName, userId, i, j, l, a);
    assert [row][..0] == [];
    if id in db.activations {
      return Ok(0);
    }
    db.activations := db.activations[id := ActivationRow(modelId, sourceId, featureIndex, userId, a.tokens, a.values,
                                                         a.maxValue, a.minValue, a.maxValueTokenIndex.GetOr(0))];
    return Ok(1);
  }

  /** The records of file `i`, in order. */
  method StreamFile(db: Database, i: nat, recs: seq<ActivationRecord>,
                    modelId: string, setName: string, userId: string) returns (r: Result<nat>)
    modifies db`activations
    ensures r.Ok? <==> LayersParse(recs, ActivationLayer)
    ensures r.Ok? ==> db.activations == InsertAbsent(old(db.activations), FileRows(db.neurons, modelId, setName, userId, i, recs))
    ensures r.Ok? ==> r.value == Inserted(old(db.activations), FileRows(db.neurons, modelId, setName, userId, i, recs))
  {
    var inserted := 0;
    assert recs[..0] == [];
    for j := 0 to |recs|
      invariant LayersParse(recs[..j], ActivationLayer)
      invariant db.activations == InsertAbsent(old(db.activations), FileRows(db.neurons, modelId, setName, userId, i, recs[..j]))
      invariant inserted == Inserted(old(db.activations), FileRows(db.neurons, modelId, setName, userId, i, recs[..j]))
    {
      ghost var done := FileRows(db.neurons, modelId, setName, userId, i, recs[..j]);
      ghost var next := RecordRow(db.neurons, modelId, setName, userId, i, j, recs[j]);
      var added := StreamRecord(db, i, j, recs[j], modelId, setName, userId);
      if added.Err? {
        ParsesStep([], recs, j, ActivationLayer);
        return Err(added.error);
      }
      ParsesStep([], recs, j, ActivationLayer);
      inserted := inserted + added.value;
      FileRowsStep(db.neurons, modelId, setName, userId, i, recs, j);
      InsertAbsentAppend(old(db.activations), done, next);
      InsertedAppend(old(db.activations), done, next);
    }
    assert recs[..|recs|] == recs;
    return Ok(inserted);
  }

  /** File `i` of the upload, committed when every record went through and
      rolled back when one raised; `total` is carried across files. */
  method UploadFile(db: Database, ghost start: map<string, ActivationRow>, files: seq<seq<ActivationRecord>>, i: nat,
                    total: nat, modelId: string, setName: string, userId: string) returns (r: Result<nat>)
    modifies db
    requires i < |files| && db.Settled()
    requires db.activations == InsertAbsent(start, StreamRows(db.neurons, modelId, setName, userId, files[..i]))
    requires total == Inserted(start, StreamRows(db.neurons, modelId, setName, userId, files[..i]))
    ensures db.Settled()
    ensures db.Current() == old(db.Current()).(activations := db.activations)
    ensures r.Ok? <==> LayersParse(files[i], ActivationLayer)
    ensures r.Ok? ==> db.activations == InsertAbsent(start, StreamRows(db.neurons, modelId, setName, userId, files[..i + 1]))
    ensures r.Ok? ==> r.value == Inserted(start, StreamRows(db.neurons, modelId, setName, userId, files[..i + 1]))
    ensures r.Err? ==> db.activations == old(db.activations)
  {
    ghost var done := StreamRows(db.neurons, modelId, setName, userId, files[..i]);
    ghost var next := FileRows(db.neurons, modelId, setName, userId, i, files[i]);
    var n := StreamFile(db, i, files[i], modelId, setName, userId);
    if n.Err? {
      db.Rollback();
      return Err(n.error);
    }
    db.Commit();
    StreamRowsStep(db.neurons, modelId, setName, userId, files, i);
    InsertAbsentAppend(start, done, next);
    InsertedAppend(start, done, next);
    return Ok(total + n.value);
  }

  /** Every record of every file has a layer field that parses, stated file
      by file from the back. */
  predicate FilesParse(files: seq<seq<ActivationRecord>>)
    decreases |files|
  {
    files == [] || (FilesParse(files[..|files| - 1]) && LayersParse(files[|files| - 1], ActivationLayer))
  }

  lemma {:induction false} FilesParseSpec(files: seq<seq<ActivationRecord>>)
    ensures FilesParse(files) <==> forall f :: 0 <= f < |files| ==> LayersParse(files[f], ActivationLayer)
    decreases |files|
  {
    if files != [] {
      var front := files[..|files| - 1];
      FilesParseSpec(front);
      assert forall f :: 0 <= f < |front| ==> front[f] == files[f];
    }
  }

  /** Every file before `k` parses and file `k` does not. */
  ghost predicate FirstBadFile(files: seq<seq<ActivationRecord>>, k: nat)
  {
    && k < |files|
    && !LayersParse(files[k], ActivationLayer)
    && forall f :: 0 <= f < k ==> LayersParse(files[f], ActivationLayer)
  }

  /** The upload stopped at file `k`: the files before it went in. */
  ghost predicate StoppedAt(before: map<string, ActivationRow>, after: map<string, ActivationRow>,
                            neurons: map<NeuronKey, NeuronRow>, modelId: string, setName: string, userId: string,
                            files: seq<seq<ActivationRecord>>, k: nat)
  {
    FirstBadFile(files, k) && after == InsertAbsent(before, StreamRows(neurons, modelId, setName, userId, files[..k]))
  }

  /** A failure at file `k` after the files before it went in is a stop at
      `k`. */
  lemma StopsAt(before: map<string, ActivationRow>, after: map<string, ActivationRow>,
                neurons: map<NeuronKey, NeuronRow>, modelId: string, setName: string, userId: string,
                files: seq<seq<ActivationRecord>>, k: nat)
    requires k < |files| && FilesParse(files[..k]) && !LayersParse(files[k], ActivationLayer)
    requires after == InsertAbsent(before, StreamRows(neurons, modelId, setName, userId, files[..k]))
    ensures StoppedAt(before, after, neurons, modelId, setName, userId, files, k)
  {
    FilesParseSpec(files[..k]);
    assert forall f :: 0 <= f < k ==> files[..k][f] == files[f];
  }

  /** `stream_upload_activations`: the files in order, with a commit after
      each. A layer field that does not parse rolls the current file back
      and ends the upload with the error; the files before it stay
      committed. The total is the number of rows that went in. */
  method StreamUploadActivations(db: Database, files: seq<seq<ActivationRecord>>,
                                 modelId: string, setName: string, userId: string) returns (r: Result<nat>)
    modifies db
    requires db.Settled()
    ensures db.Settled()
    ensures db.Current() == old(db.Current()).(activations := db.activations)
    ensures r.Ok? <==> forall f :: 0 <= f < |files| ==> LayersParse(files[f], ActivationLayer)
    ensures r.Ok? ==> db.activations == InsertAbsent(old(db.activations), StreamRows(db.neurons, modelId, setName, userId, files))
    ensures r.Ok? ==> r.value == Inserted(old(db.activations), StreamRows(db.neurons, modelId, setName, userId, files))
    ensures r.Err? ==> exists k: nat :: StoppedAt(old(db.activations), db.activations, db.neurons, modelId, setName, userId, files, k)
  {
    var total := 0;
    assert files[..0] == [];
    for i := 0 to |files|
      invariant db.Settled()
      invariant db.Current() == old(db.Current()).(activations := db.activations)
      invariant FilesParse(files[..i])
      invariant db.activations == InsertAbsent(old(db.activations), StreamRows(db.neurons, modelId, setName, userId, files[..i]))
      invariant total == Inserted(old(db.activations), StreamRows(db.neurons, modelId, setName, userId, files[..i]))
    {
      var n := UploadFile(db, old(db.activations), files, i, total, modelId, setName, userId);
      if n.Err? {
        StopsAt(old(db.activations), db.activations, db.neurons, modelId, setName, userId, files, i);
        return Err(n.error);
      }
      total := n.value;
      assert files[..i + 1][..i] == files[..i];
    }
    assert files[..|files|] == files;
    FilesParseSpec(files);
    return Ok(total);
  }

  /** Record `j` of file `i` offers exactly `row`. */
  ghost predicate Offers(neurons: map<NeuronKey, NeuronRow>, modelId: string, setName: string, userId: string,
                         files: seq<seq<ActivationRecord>>, i: nat, j: nat, row: (string, ActivationRow))
  {
    i < |files| && j < |files[i]| && RecordRow(neurons, modelId, setName, userId, i, j, files[i][j]) == [row]
  }

  /** Every row of a run comes from one record, record `j` of file `i`. */
  lemma StreamRowsOrigin(neurons: map<NeuronKey, NeuronRow>, modelId: string, setName: string, userId: string,
                         files: seq<seq<ActivationRecord>>, k: nat) returns (i: nat, j: nat)
    requires k < |StreamRows(neurons, modelId, setName, userId, files)|
    ensures Offers(neurons, modelId, setName, userId, files, i, j, StreamRows(neurons, modelId, setName, userId, files)[k])
  {
    var h, g;
    i, h := GatherOrigin(files, FileRowsOf(neurons, modelId, setName, userId), k);
    j, g := GatherOrigin(files[i], RecordRows(neurons, modelId, setName, userId, i), h);
  }

  /** Every row a record offers is among the rows of the run, at position
      `k`. */
  lemma StreamRowsHas(neurons: map<NeuronKey, NeuronRow>, modelId: string, setName: string, userId: string,
                      files: seq<seq<ActivationRecord>>, i: nat, j: nat, row: (string, ActivationRow)) returns (k: nat)
    requires Offers(neurons, modelId, setName, userId, files, i, j, row)
    ensures k < |StreamRows(neurons, modelId, setName, userId, files)|
    ensures StreamRows(neurons, modelId, setName, userId, files)[k] == row
  {
    var h := GatherHas(files[i], RecordRows(neurons, modelId, setName, userId, i), j, 0);
    k := GatherHas(files, FileRowsOf(neurons, modelId, setName, userId), i, h);
  }

  /** After the upload, a record whose layer parses and whose neuron exists
      has its activation under the id of its file and line position. */
  lemma UploadedRecordPresent(m: map<string, ActivationRow>, neurons: map<NeuronKey, NeuronRow>,
                              modelId: string, setName: string, userId: string,
                              files: seq<seq<ActivationRecord>>, i: nat, j: nat, l: nat)
    requires i < |files| && j < |files[i]| && ExtractLayer(files[i][j].layer) == Ok(l)
    requires NeuronFor(modelId, setName, l, files[i][j].index) in neurons
    ensures ActivationId(modelId, l, IntToString(files[i][j].index), i, j)
              in InsertAbsent(m, StreamRows(neurons, modelId, setName, userId, files))
  {
    var row := StreamEntry(modelId, setName, userId, i, j, l, files[i][j]);
    var rows := StreamRows(neurons, modelId, setName, userId, files);
    var k := StreamRowsHas(neurons, modelId, setName, userId, files, i, j, row);
    assert row.0 in RowKeys(rows);
  }

  /** A record whose neuron does not exist is skipped: the upload creates
      no row under its id. */
  lemma SkippedRecordAbsent(m: map<string, ActivationRow>, neurons: map<NeuronKey, NeuronRow>,
                            modelId: string, setName: string, userId: string,
                            files: seq<seq<ActivationRecord>>, i: nat, j: nat, l: nat)
    requires i < |files| && j < |files[i]| && ExtractLayer(files[i][j].layer) == Ok(l)
    requires NeuronFor(modelId, setName, l, files[i][j].index) !in neurons
    ensures var id := ActivationId(modelId, l, IntToString(files[i][j].index), i, j);
              id in InsertAbsent(m, StreamRows(neurons, modelId, setName, userId, files)) <==> id in m
  {
    var id := ActivationId(modelId, l, IntToString(files[i][j].index), i, j);
    var rows := StreamRows(neurons, modelId, setName, userId, files);
    if id in RowKeys(rows) {
      var k :| 0 <= k < |rows| && rows[k].0 == id;
      var i', j' := StreamRowsOrigin(neurons, modelId, setName, userId, files, k);
      var rec := files[i'][j'];
      var l' := ExtractLayer(rec.layer).value;
      assert rows[k] == StreamEntry(modelId, setName, userId, i', j', l', rec);
      ActivationIdInjective(modelId, l', IntToString(rec.index), i', j', l, IntToString(files[i][j].index), i, j);
      assert false;
    }
  }

  /** Every row the upload offers refers to an existing neuron, so the
      activation table keeps referring only to existing neurons. */
  lemma {:induction false} StreamRowsResolve(neurons: map<NeuronKey, NeuronRow>, modelId: string, setName: string, userId: string,
                                             files: seq<seq<ActivationRecord>>)
    ensures forall k :: 0 <= k < |StreamRows(neurons, modelId, setName, userId, files)| ==>
              ActivationNeuron(StreamRows(neurons, modelId, setName, userId, files)[k].1) in neurons
  {
    var rows := StreamRows(neurons, modelId, setName, userId, files);
    forall k | 0 <= k < |rows| ensures ActivationNeuron(rows[k].1) in neurons {
      var i, j := StreamRowsOrigin(neurons, modelId, setName, userId, files, k);
    }
  }

  lemma StreamKeepsDependents(t: Tables, modelId: string, setName: string, userId: string,
                              files: seq<seq<ActivationRecord>>)
    requires DependentsResolve(t)
    ensures DependentsResolve(t.(activations := InsertAbsent(t.activations, StreamRows(t.neurons, modelId, setName, userId, files))))
  {
    var rows := StreamRows(t.neurons, modelId, setName, userId, files);
    var p := (a: ActivationRow) => ActivationNeuron(a) in t.neurons;
    StreamRowsResolve(t.neurons, modelId, setName, userId, files);
    assert forall k :: 0 <= k < |rows| ==> p(rows[k].1);
    assert forall id :: id in t.activations ==> p(t.activations[id]);
    InsertAbsentKeeps(t.activations, rows, p);
  }
}