/** The relational store the scripts write to, as in-memory state: one map
    per table, keyed by the table's primary key, and the last committed
    snapshot of all tables. */
module Store {
  import opened Base

  datatype UserRow = UserRow(name: string, email: string, emailUnsubscribeCode: string)

  datatype ModelRow = ModelRow(
    displayName: string, creatorId: string, layers: int, neuronsPerLayer: int,
    owner: string, visibility: string)

  /** `SourceSet` is keyed by (modelId, name). */
  datatype SourceSetKey = SourceSetKey(modelId: string, name: string)

  datatype SourceSetRow = SourceSetRow(
    description: string, creatorName: string, creatorId: string, visibility: string)

  /** `Source` is keyed by its id `"{layer}-{set}"`. */
  datatype SourceRow = SourceRow(modelId: string, setName: string, creatorId: string)

  /** A row of `ExplanationType` or `ExplanationModelType`, keyed by name. */
  datatype TypeRow = TypeRow(
    displayName: string, description: string, creatorId: Option<string>, creatorName: string)

  /** `Neuron` is keyed by (modelId, layer, index); `layer` holds a source id
      and `index` the decimal text of the feature index. */
  datatype NeuronKey = NeuronKey(modelId: string, layer: string, index: string)

  /** The statistics columns the feature-statistics upload writes besides
      `maxActApprox`; `None` is SQL NULL. `lists` holds the columns that
      take a JSON list. */
  datatype NeuronStats = NeuronStats(
    hasVector: Option<bool>,
    vectorDefaultSteerStrength: Option<real>,
    vectorLabel: Option<string>,
    fracNonzero: Option<real>,
    hookName: Option<string>,
    lists: map<string, Option<seq<Json>>>)

  /** A neuron row. `maxActApprox` is `None` for SQL NULL; `stats` is `None`
      until statistics have been written (the columns then hold the schema's
      defaults, which are not part of this model). */
  datatype NeuronRow = NeuronRow(
    sourceSetName: string,
    creatorId: string,
    maxActApprox: Option<real>,
    stats: Option<NeuronStats>)

  datatype ExplanationRow = ExplanationRow(
    modelId: string, layer: string, index: string, description: string,
    typeName: string, explanationModelName: string, authorId: string)

  datatype ActivationRow = ActivationRow(
    modelId: string, layer: string, index: string, creatorId: string,
    tokens: seq<string>, values: seq<real>,
    maxValue: real, minValue: real, maxValueTokenIndex: int)

  /** The neuron an activation or explanation row refers to. */
  function ActivationNeuron(a: ActivationRow): NeuronKey
  {
    NeuronKey(a.modelId, a.layer, a.index)
  }

  function ExplanationNeuron(e: ExplanationRow): NeuronKey
  {
    NeuronKey(e.modelId, e.layer, e.index)
  }

  /** The contents of every table at one moment. */
  datatype Tables = Tables(
    users: map<string, UserRow>,
    models: map<string, ModelRow>,
    sourceSets: map<SourceSetKey, SourceSetRow>,
    sources: map<string, SourceRow>,
    explanationTypes: map<string, TypeRow>,
    explanationModelTypes: map<string, TypeRow>,
    neurons: map<NeuronKey, NeuronRow>,
    explanations: map<string, ExplanationRow>,
    activations: map<string, ActivationRow>)

  /** Referential integrity: every explanation and activation row refers to
      an existing neuron. */
  ghost predicate DependentsResolve(t: Tables)
  {
    && (forall id :: id in t.explanations ==> ExplanationNeuron(t.explanations[id]) in t.neurons)
    && (forall id :: id in t.activations ==> ActivationNeuron(t.activations[id]) in t.neurons)
  }

  /** A connection to the store: the working state of each table, and the
      state as of the last commit. */
  class Database {
    var users: map<string, UserRow>
    var models: map<string, ModelRow>
    var sourceSets: map<SourceSetKey, SourceSetRow>
    var sources: map<string, SourceRow>
    var explanationTypes: map<string, TypeRow>
    var explanationModelTypes: map<string, TypeRow>
    var neurons: map<NeuronKey, NeuronRow>
    var explanations: map<string, ExplanationRow>
    var activations: map<string, ActivationRow>
    var committed: Tables

    function Current(): Tables
      reads this
    {
      Tables(users, models, sourceSets, sources, explanationTypes,
             explanationModelTypes, neurons, explanations, activations)
    }

    /** No uncommitted work is pending. */
    ghost predicate Settled()
      reads this
    {
      committed == Current()
    }

    constructor (initial: Tables)
      ensures Current() == initial && Settled()
    {
      users, models, sourceSets, sources := initial.users, initial.models, initial.sourceSets, initial.sources;
      explanationTypes, explanationModelTypes := initial.explanationTypes, initial.explanationModelTypes;
      neurons, explanations, activations := initial.neurons, initial.explanations, initial.activations;
      committed := initial;
    }

    method Commit()
      modifies this`committed
      ensures Settled()
      ensures Current() == old(Current())
    {
      committed := Current();
    }

    /** Discards the work done since the last commit. */
    method Rollback()
      modifies this
      ensures Current() == old(committed) && Settled()
    {
      users, models, sourceSets, sources := committed.users, committed.models, committed.sourceSets, committed.sources;
      explanationTypes, explanationModelTypes := committed.explanationTypes, committed.explanationModelTypes;
      neurons, explanations, activations := committed.neurons, committed.explanations, committed.activations;
    }
  }

  /** One `INSERT ... ON CONFLICT (key) DO NOTHING`. */
  function InsertOne<K, V>(m: map<K, V>, row: (K, V)): map<K, V>
  {
    if row.0 in m then m else m[row.0 := row.1]
  }

  function RowKeys<K, V>(rows: seq<(K, V)>): set<K>
  {
    set i | 0 <= i < |rows| :: rows[i].0
  }

  /** A run of `INSERT ... ON CONFLICT (key) DO NOTHING`, in order: the keys
      become those of the table and of the rows, rows already present are
      never changed. */
  function InsertAbsent<K, V>(m: map<K, V>, rows: seq<(K, V)>): (r: map<K, V>)
    ensures r.Keys == m.Keys + RowKeys(rows)
    ensures forall k :: k in m ==> r[k] == m[k]
    decreases |rows|
  {
    if rows == [] then m
    else
      var front := rows[..|rows| - 1];
      assert RowKeys(rows) == RowKeys(front) + {rows[|rows| - 1].0} by {
        assert forall i :: 0 <= i < |front| ==> front[i] == rows[i];
      }
      InsertOne(InsertAbsent(m, front), rows[|rows| - 1])
  }

  /** The number of rows such a run actually inserts, counted as the rows
      go in: a row counts when its key is not there yet. */
  function Inserted<K, V>(m: map<K, V>, rows: seq<(K, V)>): nat
    decreases |rows|
  {
    if rows == [] then 0
    else
      var front := rows[..|rows| - 1];
      Inserted(m, front) + (if rows[|rows| - 1].0 in InsertAbsent(m, front) then 0 else 1)
  }

  lemma InsertAbsentStep<K, V>(m: map<K, V>, rows: seq<(K, V)>, row: (K, V))
    ensures InsertAbsent(m, rows + [row]) == InsertOne(InsertAbsent(m, rows), row)
  {
    assert (rows + [row])[..|rows|] == rows;
  }

  lemma {:induction false} InsertAbsentAppend<K, V>(m: map<K, V>, a: seq<(K, V)>, b: seq<(K, V)>)
    ensures InsertAbsent(m, a + b) == InsertAbsent(InsertAbsent(m, a), b)
    decreases |b|
  {
    if b == [] {
      assert a + b == a;
    } else {
      var front := b[..|b| - 1];
      assert a + b == (a + front) + [b[|b| - 1]];
      InsertAbsentStep(m, a + front, b[|b| - 1]);
      InsertAbsentAppend(m, a, front);
    }
  }

  lemma InsertedStep<K, V>(m: map<K, V>, rows: seq<(K, V)>, row: (K, V))
    ensures Inserted(m, rows + [row]) == Inserted(m, rows) + (if row.0 in InsertAbsent(m, rows) then 0 else 1)
  {
    assert (rows + [row])[..|rows|] == rows;
  }

  lemma {:induction false} InsertedAppend<K, V>(m: map<K, V>, a: seq<(K, V)>, b: seq<(K, V)>)
    ensures Inserted(m, a + b) == Inserted(m, a) + Inserted(InsertAbsent(m, a), b)
    decreases |b|
  {
    if b == [] {
      assert a + b == a;
    } else {
      var front := b[..|b| - 1];
      assert a + b == (a + front) + [b[|b| - 1]];
      InsertedStep(m, a + front, b[|b| - 1]);
      InsertAbsentStep(m, a + front, b[|b| - 1]);
      InsertedAppend(m, a, front);
      InsertAbsentAppend(m, a, front);
      InsertedStep(InsertAbsent(m, a), front, b[|b| - 1]);
    }
  }

  lemma RowKeysSplit<K, V>(rows: seq<(K, V)>)
    requires rows != []
    ensures RowKeys(rows) == RowKeys(rows[..|rows| - 1]) + {rows[|rows| - 1].0}
  {
    var front := rows[..|rows| - 1];
    assert forall i :: 0 <= i < |front| ==> front[i] == rows[i];
  }

  lemma RowKeysAppend<K, V>(a: seq<(K, V)>, b: seq<(K, V)>)
    ensures RowKeys(a + b) == RowKeys(a) + RowKeys(b)
  {
    var ab := a + b;
    assert forall i :: 0 <= i < |a| ==> ab[i] == a[i];
    assert forall i :: |a| <= i < |ab| ==> ab[i] == b[i - |a|];
    forall k | k in RowKeys(a) + RowKeys(b)
      ensures k in RowKeys(ab)
    {
      if k in RowKeys(a) {
        var i :| 0 <= i < |a| && a[i].0 == k;
        assert ab[i].0 == k;
      } else {
        var i :| 0 <= i < |b| && b[i].0 == k;
        assert ab[|a| + i].0 == k;
      }
    }
  }

  /** The count is how much the table grows. */
  lemma {:induction false} InsertedGrowth<K, V>(m: map<K, V>, rows: seq<(K, V)>)
    ensures |InsertAbsent(m, rows)| == |m| + Inserted(m, rows)
    decreases |rows|
  {
    if rows != [] {
      var front := rows[..|rows| - 1];
      var row := rows[|rows| - 1];
      InsertedGrowth(m, front);
      var r := InsertAbsent(m, front);
      assert InsertAbsent(m, rows) == InsertOne(r, row);
      if row.0 !in r {
        assert |r[row.0 := row.1]| == |r| + 1;
      }
    }
  }

  /** Rows whose keys are all present already change nothing. */
  lemma {:induction false} InsertAbsentPresent<K, V>(m: map<K, V>, rows: seq<(K, V)>)
    requires RowKeys(rows) <= m.Keys
    ensures InsertAbsent(m, rows) == m
    decreases |rows|
  {
    if rows != [] {
      var front := rows[..|rows| - 1];
      assert RowKeys(front) <= RowKeys(rows) by {
        assert forall i :: 0 <= i < |front| ==> front[i] == rows[i];
      }
      InsertAbsentPresent(m, front);
      assert rows[|rows| - 1].0 in RowKeys(rows);
    }
  }

  /** Replaying the same rows is a no-op that inserts nothing. */
  lemma InsertAbsentIdempotent<K, V>(m: map<K, V>, rows: seq<(K, V)>)
    ensures InsertAbsent(InsertAbsent(m, rows), rows) == InsertAbsent(m, rows)
    ensures Inserted(InsertAbsent(m, rows), rows) == 0
  {
    InsertAbsentPresent(InsertAbsent(m, rows), rows);
    InsertedGrowth(InsertAbsent(m, rows), rows);
  }

  /** For a key not yet in the table, the first row carrying it wins and
      later rows with the same key are dropped. */
  lemma {:induction false} InsertAbsentFirstWins<K, V>(m: map<K, V>, rows: seq<(K, V)>, i: nat)
    requires i < |rows| && rows[i].0 !in m
    requires forall h :: 0 <= h < i ==> rows[h].0 != rows[i].0
    ensures InsertAbsent(m, rows)[rows[i].0] == rows[i].1
    decreases |rows|
  {
    var front := rows[..|rows| - 1];
    if i < |rows| - 1 {
      InsertAbsentFirstWins(m, front, i);
    } else {
      assert rows[i].0 !in RowKeys(front);
    }
  }

  /** A property every inserted row has, and every old row has, holds of
      every row afterwards. */
  lemma InsertAbsentKeeps<K, V>(m: map<K, V>, rows: seq<(K, V)>, p: V -> bool)
    requires forall k :: k in m ==> p(m[k])
    requires forall i :: 0 <= i < |rows| ==> p(rows[i].1)
    ensures forall k :: k in InsertAbsent(m, rows) ==> p(InsertAbsent(m, rows)[k])
    decreases |rows|
  {
    if rows != [] {
      var front := rows[..|rows| - 1];
      assert forall i :: 0 <= i < |front| ==> front[i] == rows[i];
      InsertAbsentKeeps(m, front, p);
    }
  }
}
