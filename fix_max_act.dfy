/** The `maxActApprox` repair: neurons whose `maxActApprox` is 0 or NULL
    but that have activations get the largest `maxValue` among those
    activations. */
module FixMaxAct {
  import opened Base
  import opened Text
  import opened Store

  /** The optional command-line filters. Python treats an empty string as
      absent. */
  datatype Filter = Filter(modelId: Option<string>, layerPattern: Option<string>)

  predicate Given(o: Option<string>)
  {
    o.Some? && o.value != ""
  }

  /** `n."modelId" = %s`, present only when a model id is given. */
  predicate ModelFilterOk(k: NeuronKey, f: Filter)
  {
    Given(f.modelId) ==> k.modelId == f.modelId.value
  }

  /** `n.layer LIKE '%{pattern}%'`, present only when a pattern is given. */
  predicate LayerFilterOk(k: NeuronKey, f: Filter)
  {
    Given(f.layerPattern) ==> Like(k.layer, "%" + f.layerPattern.value + "%")
  }

  /** `n."maxActApprox" = 0 OR n."maxActApprox" IS NULL`. */
  predicate ZeroOrNull(row: NeuronRow)
  {
    row.maxActApprox == Some(0.0) || row.maxActApprox.None?
  }

  /** The WHERE clause as the script writes it: the conditions are joined
      with `AND` after the unparenthesised `= 0 OR IS NULL`, and since `AND`
      binds tighter than `OR` the filters attach to `IS NULL` alone. */
  predicate SelectedAsWritten(k: NeuronKey, row: NeuronRow, f: Filter): (chosen: bool)
    ensures chosen ==> ZeroOrNull(row)
    ensures row.maxActApprox == Some(0.0) ==> chosen
  {
    row.maxActApprox == Some(0.0) || (row.maxActApprox.None? && ModelFilterOk(k, f) && LayerFilterOk(k, f))
  }

  /** The WHERE clause as intended: the filters constrain every candidate. */
  predicate SelectedIntended(k: NeuronKey, row: NeuronRow, f: Filter): (chosen: bool)
    ensures chosen ==> ZeroOrNull(row) && ModelFilterOk(k, f) && LayerFilterOk(k, f)
    ensures !Given(f.modelId) && !Given(f.layerPattern) ==> (chosen <==> ZeroOrNull(row))
  {
    ZeroOrNull(row) && ModelFilterOk(k, f) && LayerFilterOk(k, f)
  }

  /** As written, a zero neuron is chosen whatever the filters say, a NULL
      neuron only when it passes them, and any other neuron never; the
      intended clause chooses a subset of that. */
  lemma SelectionAsWrittenSpec(k: NeuronKey, row: NeuronRow, f: Filter)
    ensures row.maxActApprox == Some(0.0) ==> SelectedAsWritten(k, row, f)
    ensures row.maxActApprox.None? ==> (SelectedAsWritten(k, row, f) <==> SelectedIntended(k, row, f))
    ensures !ZeroOrNull(row) ==> !SelectedAsWritten(k, row, f) && !SelectedIntended(k, row, f)
    ensures SelectedIntended(k, row, f) ==> SelectedAsWritten(k, row, f)
  {
  }

  /** With a model filter `m`, a neuron of another model whose
      `maxActApprox` is 0 is chosen as written but not as intended. */
  lemma PrecedenceCounterexample()
    ensures
      var k := NeuronKey("other-model", "5-res", "1");
      var row := NeuronRow("res", "u", Some(0.0), None);
      var f := Filter(Some("m"), None);
      SelectedAsWritten(k, row, f) && !SelectedIntended(k, row, f)
  {
  }

  /** The layer filter is a substring test for a pattern free of the `%`
      and `_` wildcards. */
  lemma LayerFilterIsSubstring(k: NeuronKey, f: Filter)
    requires Given(f.layerPattern) && NoWildcards(f.layerPattern.value)
    ensures LayerFilterOk(k, f) <==> Contains(k.layer, f.layerPattern.value)
  {
    LikeInfixIsContains(k.layer, f.layerPattern.value);
  }

  /** The `maxValue`s of the activations the `LEFT JOIN` pairs with neuron
      `k`. */
  function JoinedValues(acts: map<string, ActivationRow>, k: NeuronKey): set<real>
  {
    set id | id in acts && ActivationNeuron(acts[id]) == k :: acts[id].maxValue
  }

  /** Some activation is joined with neuron `k`. */
  predicate HasJoined(acts: map<string, ActivationRow>, k: NeuronKey)
  {
    exists id :: id in acts && ActivationNeuron(acts[id]) == k
  }

  /** Setting one joined activation apart splits the joined values. */
  lemma JoinedValuesRemove(acts: map<string, ActivationRow>, k: NeuronKey, id: string)
    requires id in acts && ActivationNeuron(acts[id]) == k
    ensures JoinedValues(acts, k) == JoinedValues(acts - {id}, k) + {acts[id].maxValue}
  {
    var rest := acts - {id};
    forall v | v in JoinedValues(acts, k)
      ensures v in JoinedValues(rest, k) + {acts[id].maxValue}
    {
      var j :| j in acts && ActivationNeuron(acts[j]) == k && acts[j].maxValue == v;
      if j != id {
        assert j in rest && rest[j] == acts[j];
      }
    }
    forall v | v in JoinedValues(rest, k)
      ensures v in JoinedValues(acts, k)
    {
      var j :| j in rest && ActivationNeuron(rest[j]) == k && rest[j].maxValue == v;
      assert j in acts && acts[j] == rest[j];
    }
  }

  /** `MAX(a."maxValue")` over the activations joined with neuron `k`. */
  ghost function JoinedMax(acts: map<string, ActivationRow>, k: NeuronKey): (m: real)
    requires HasJoined(acts, k)
    ensures m in JoinedValues(acts, k)
    ensures forall v :: v in JoinedValues(acts, k) ==> v <= m
    decreases |acts.Keys|
  {
    var id :| id in acts && ActivationNeuron(acts[id]) == k;
    var rest := acts - {id};
    assert rest.Keys == acts.Keys - {id};
    JoinedValuesRemove(acts, k, id);
    if HasJoined(rest, k) then
      var m := JoinedMax(rest, k);
      if acts[id].maxValue >= m then acts[id].maxValue else m
    else
      acts[id].maxValue
  }

  /** A neuron the query returns: chosen by the WHERE clause and, for
      `HAVING MAX(a."maxValue") IS NOT NULL`, with at least one joined
      activation. */
  ghost predicate Chosen(neurons: map<NeuronKey, NeuronRow>, acts: map<string, ActivationRow>, f: Filter, k: NeuronKey)
  {
    k in neurons && SelectedIntended(k, neurons[k], f) && HasJoined(acts, k)
  }

  /** The neuron table after the repair. */
  ghost function Repaired(neurons: map<NeuronKey, NeuronRow>, acts: map<string, ActivationRow>, f: Filter): (r: map<NeuronKey, NeuronRow>)
    ensures r.Keys == neurons.Keys
  {
    map k | k in neurons ::
      if Chosen(neurons, acts, f, k) then neurons[k].(maxActApprox := Some(JoinedMax(acts, k)))
      else neurons[k]
  }

  /** A chosen neuron's `maxActApprox` becomes a value some joined
      activation has and no joined activation exceeds; every other neuron,
      among them each neuron with a non-zero, non-NULL value and each neuron
      without activations, is unchanged, and no column other than
      `maxActApprox` changes. */
  lemma RepairedSpec(neurons: map<NeuronKey, NeuronRow>, acts: map<string, ActivationRow>, f: Filter, k: NeuronKey)
    requires k in neurons
    ensures !ZeroOrNull(neurons[k]) ==> Repaired(neurons, acts, f)[k] == neurons[k]
    ensures !HasJoined(acts, k) ==> Repaired(neurons, acts, f)[k] == neurons[k]
    ensures !Chosen(neurons, acts, f, k) ==> Repaired(neurons, acts, f)[k] == neurons[k]
    ensures Chosen(neurons, acts, f, k) ==>
      && Repaired(neurons, acts, f)[k].maxActApprox.Some?
      && Repaired(neurons, acts, f)[k].maxActApprox.value in JoinedValues(acts, k)
      && (forall v :: v in JoinedValues(acts, k) ==> v <= Repaired(neurons, acts, f)[k].maxActApprox.value)
    ensures Repaired(neurons, acts, f)[k] == neurons[k].(maxActApprox := Repaired(neurons, acts, f)[k].maxActApprox)
  {
  }

  /** A neuron that would be chosen again after a repair gets the value it
      already holds: a second run changes nothing. */
  lemma RepairIdempotent(neurons: map<NeuronKey, NeuronRow>, acts: map<string, ActivationRow>, f: Filter)
    ensures Repaired(Repaired(neurons, acts, f), acts, f) == Repaired(neurons, acts, f)
  {
    var once := Repaired(neurons, acts, f);
    var twice := Repaired(once, acts, f);
    forall k | k in once ensures twice[k] == once[k] {
      if Chosen(once, acts, f, k) {
        assert Chosen(neurons, acts, f, k);
        assert once[k].maxActApprox == Some(JoinedMax(acts, k));
      }
    }
  }

  /** One row of the query's result. */
  datatype FetchedRow = FetchedRow(neuron: NeuronKey, current: Option<real>, actualMax: real, count: nat)

  /** The rows the `SELECT` returns: one per chosen neuron (GROUP BY), each
      with the `MAX` of its joined `maxValue`s. The row order of the
      `ORDER BY` does not matter to the updates and is not constrained. */
  ghost predicate IsQueryResult(rows: seq<FetchedRow>, neurons: map<NeuronKey, NeuronRow>,
                                acts: map<string, ActivationRow>, f: Filter): (ok: bool)
    ensures ok ==> forall i :: 0 <= i < |rows| ==>
                     && rows[i].neuron in neurons
                     && ZeroOrNull(neurons[rows[i].neuron])
                     && rows[i].actualMax in JoinedValues(acts, rows[i].neuron)
  {
    && (forall i, j :: 0 <= i < j < |rows| ==> rows[i].neuron != rows[j].neuron)
    && (forall i :: 0 <= i < |rows| ==> Chosen(neurons, acts, f, rows[i].neuron))
    && (forall i :: 0 <= i < |rows| ==> rows[i].actualMax == JoinedMax(acts, rows[i].neuron))
    && (forall k :: Chosen(neurons, acts, f, k) ==> exists i :: 0 <= i < |rows| && rows[i].neuron == k)
  }

  /** The `UPDATE`s of the first rows, in order. */
  function UpdatedBy(m: map<NeuronKey, NeuronRow>, rows: seq<FetchedRow>): (r: map<NeuronKey, NeuronRow>)
    ensures r.Keys == m.Keys
    decreases |rows|
  {
    if rows == [] then m
    else
      var prev := UpdatedBy(m, rows[..|rows| - 1]);
      var row := rows[|rows| - 1];
      if row.neuron in prev then prev[row.neuron := prev[row.neuron].(maxActApprox := Some(row.actualMax))] else prev
  }

  /** With distinct neurons, each row's neuron carries that row's value and
      every other neuron is untouched. */
  lemma {:induction false} UpdatedByAt(m: map<NeuronKey, NeuronRow>, rows: seq<FetchedRow>, k: NeuronKey)
    requires k in m
    requires forall i, j :: 0 <= i < j < |rows| ==> rows[i].neuron != rows[j].neuron
    ensures (forall i :: 0 <= i < |rows| ==> rows[i].neuron != k) ==> UpdatedBy(m, rows)[k] == m[k]
    ensures forall i :: 0 <= i < |rows| && rows[i].neuron == k ==>
      UpdatedBy(m, rows)[k] == m[k].(maxActApprox := Some(rows[i].actualMax))
    decreases |rows|
  {
    if rows != [] {
      var front := rows[..|rows| - 1];
      UpdatedByAt(m, front, k);
      forall i | 0 <= i < |rows| && rows[i].neuron == k
        ensures UpdatedBy(m, rows)[k] == m[k].(maxActApprox := Some(rows[i].actualMax))
      {
        if i < |rows| - 1 {
          assert front[i] == rows[i];
        }
      }
    }
  }

  /** Applying the query's rows gives the repaired table. */
  lemma UpdatedByQueryResult(neurons: map<NeuronKey, NeuronRow>, acts: map<string, ActivationRow>, f: Filter, rows: seq<FetchedRow>)
    requires IsQueryResult(rows, neurons, acts, f)
    ensures UpdatedBy(neurons, rows) == Repaired(neurons, acts, f)
  {
    var r := UpdatedBy(neurons, rows);
    var want := Repaired(neurons, acts, f);
    forall k | k in neurons ensures r[k] == want[k] {
      UpdatedByAt(neurons, rows, k);
      if Chosen(neurons, acts, f, k) {
        var i :| 0 <= i < |rows| && rows[i].neuron == k;
        assert r[k] == neurons[k].(maxActApprox := Some(rows[i].actualMax));
      } else {
        assert forall i :: 0 <= i < |rows| ==> rows[i].neuron != k;
      }
    }
  }

  /** One `UPDATE "Neuron" SET "maxActApprox"`, with the row count. */
  method UpdateMaxAct(db: Database, row: FetchedRow) returns (affected: bool)
    modifies db`neurons
    ensures affected <==> row.neuron in old(db.neurons)
    ensures db.neurons.Keys == old(db.neurons).Keys
    ensures affected ==> db.neurons[row.neuron] == old(db.neurons)[row.neuron].(maxActApprox := Some(row.actualMax))
    ensures forall k :: k in old(db.neurons) && k != row.neuron ==> db.neurons[k] == old(db.neurons)[k]
  {
    if row.neuron !in db.neurons {
      return false;
    }
    db.neurons := db.neurons[row.neuron := db.neurons[row.neuron].(maxActApprox := Some(row.actualMax))];
    return true;
  }

  /** The update loop: one `UPDATE` per fetched row, in order, counting
      the rows affected, until the update at `failAt` fails. */
  method RunUpdates(db: Database, rows: seq<FetchedRow>, failAt: Option<nat>) returns (ok: bool, updated: nat)
    modifies db`neurons
    requires forall i :: 0 <= i < |rows| ==> rows[i].neuron in db.neurons
    ensures ok <==> !(failAt.Some? && failAt.value < |rows|)
    ensures ok ==> db.neurons == UpdatedBy(old(db.neurons), rows) && updated == |rows|
  {
    updated := 0;
    for i := 0 to |rows|
      invariant db.neurons == UpdatedBy(old(db.neurons), rows[..i])
      invariant updated == i
      invariant failAt.Some? ==> failAt.value >= i
    {
      if failAt == Some(i) {
        return false, updated;
      }
      var affected := UpdateMaxAct(db, rows[i]);
      if affected {
        updated := updated + 1;
      }
      assert rows[..i + 1][..i] == rows[..i];
    }
    assert rows[..|rows|] == rows;
    return true, updated;
  }

  /** The query sorts its rows by `CAST(n.index AS INTEGER)`, which raises
      when a fetched neuron's index is not an integer. */
  predicate QueryRaises(rows: seq<FetchedRow>)
  {
    exists i :: 0 <= i < |rows| && ParseInt(rows[i].neuron.index).None?
  }

  /** `fix_max_act_approx`, given the rows its query selects, the answer to
      the prompt, and the position of the `UPDATE` that fails, if one does.
      A query that raises on a non-integer index, or a failing update, rolls
      back and changes nothing; nothing changes either when there is nothing
      to fix or the answer is not yes; otherwise all updates are committed
      together and the count is the number of neurons repaired. */
  method FixMaxActApprox(db: Database, f: Filter, rows: seq<FetchedRow>, response: string, failAt: Option<nat>)
    returns (out: Outcome)
    modifies db
    requires db.Settled()
    requires IsQueryResult(rows, db.neurons, db.activations, f)
    ensures db.Settled()
    ensures db.Current() == old(db.Current()).(neurons := db.neurons)
    ensures QueryRaises(rows) ==> out.Raised?
    ensures out.Stopped? <==> !QueryRaises(rows) && (rows == [] || !Confirmed(response))
    ensures out.Raised? <==> QueryRaises(rows) || (rows != [] && Confirmed(response) && failAt.Some? && failAt.value < |rows|)
    ensures !out.Completed? ==> db.neurons == old(db.neurons)
    ensures out.Completed? ==> out.count == |rows| && db.neurons == Repaired(old(db.neurons), old(db.activations), f)
  {
    if exists i :: 0 <= i < |rows| && ParseInt(rows[i].neuron.index).None? {
      db.Rollback();
      return Raised("invalid input syntax for type integer");
    }
    if rows == [] {
      return Stopped("No features need fixing!");
    }
    if !Confirmed(response) {
      return Stopped("Cancelled.");
    }
    var ok, updated := RunUpdates(db, rows, failAt);
    if !ok {
      db.Rollback();
      return Raised("update failed");
    }
    db.Commit();
    UpdatedByQueryResult(old(db.neurons), old(db.activations), f, rows);
    return Completed(updated);
  }
}
