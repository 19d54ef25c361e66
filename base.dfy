/** Shared value types: optional values, results with an error message,
    and a JSON value for the documents the ingestion scripts read and write. */
module Base {

  datatype Option<+T> = None | Some(value: T) {
    function GetOr(default: T): T {
      match this
      case Some(v) => v
      case None => default
    }
  }

  /** A key of a parsed JSON object: missing, present with `null`, or
      present with a value. `dict.get(key, default)` gives the default only
      for a missing key; a `null` comes back as `None`. */
  datatype Field<+T> = Absent | Null | Present(value: T) {
    /** `d.get(key, default)`, with `None` for a JSON `null`. */
    function Get(default: T): Option<T> {
      match this
      case Absent => Some(default)
      case Null => None
      case Present(v) => Some(v)
    }
  }

  /** The outcome of a step that the scripts may abandon with an exception
      (a `ValueError`, a `TypeError`, a usage error). */
  datatype Result<+T> = Ok(value: T) | Err(error: string)

  /** How a script's entry point ended: it stopped early with a message
      (and exit status 0), it completed with a count it reports, or an
      exception or `sys.exit(1)` ended it. */
  datatype Outcome = Stopped(message: string) | Completed(count: nat) | Raised(error: string)

  /** A parsed JSON value, as `json.load` returns it. Integers and other
      numbers are kept apart because Python parses them into `int` and
      `float` respectively. */
  datatype Json =
    | JNull
    | JBool(b: bool)
    | JInt(i: int)
    | JNum(r: real)
    | JStr(s: string)
    | JArr(items: seq<Json>)
    | JObj(fields: map<string, Json>)

  /** Python's `min(a, b)` and `max(a, b)` on integers. */
  function Min(a: int, b: int): int { if a <= b then a else b }
  function Max(a: int, b: int): int { if a >= b then a else b }

  /** The largest `f` of the elements, 0 for none. */
  function MaxOf<R>(xs: seq<R>, f: R -> nat): nat
    decreases |xs|
  {
    if xs == [] then 0 else Max(MaxOf(xs[..|xs| - 1], f), f(xs[|xs| - 1]))
  }

  /** `MaxOf` bounds every element's `f` and is the `f` of one of them. */
  lemma {:induction false} MaxOfSpec<R>(xs: seq<R>, f: R -> nat)
    ensures forall i :: 0 <= i < |xs| ==> f(xs[i]) <= MaxOf(xs, f)
    ensures xs != [] ==> exists i :: 0 <= i < |xs| && f(xs[i]) == MaxOf(xs, f)
    decreases |xs|
  {
    if xs != [] {
      var front := xs[..|xs| - 1];
      MaxOfSpec(front, f);
      assert forall i :: 0 <= i < |front| ==> front[i] == xs[i];
      if front != [] && f(xs[|xs| - 1]) < MaxOf(front, f) {
        var i :| 0 <= i < |front| && f(front[i]) == MaxOf(front, f);
        assert f(xs[i]) == MaxOf(xs, f);
      }
    }
  }

  /** The elements of a sequence of sequences, in order. */
  function Flatten<T>(ss: seq<seq<T>>): (r: seq<T>)
    decreases |ss|
  {
    if ss == [] then [] else Flatten(ss[..|ss| - 1]) + ss[|ss| - 1]
  }

  lemma {:induction false} FlattenAppend<T>(ss: seq<seq<T>>, ts: seq<seq<T>>)
    ensures Flatten(ss + ts) == Flatten(ss) + Flatten(ts)
    decreases |ts|
  {
    if ts == [] {
      assert ss + ts == ss;
    } else {
      var front, last := ts[..|ts| - 1], ts[|ts| - 1];
      assert (ss + ts)[..|ss + ts| - 1] == ss + front;
      assert (ss + ts)[|ss + ts| - 1] == last;
      FlattenAppend(ss, front);
      calc {
        Flatten(ss + ts);
        Flatten(ss + front) + last;
        (Flatten(ss) + Flatten(front)) + last;
        Flatten(ss) + (Flatten(front) + last);
        Flatten(ss) + Flatten(ts);
      }
    }
  }

  /** Taking one more sequence appends its elements. */
  lemma FlattenStep<T>(ss: seq<seq<T>>, i: nat)
    requires i < |ss|
    ensures Flatten(ss[..i + 1]) == Flatten(ss[..i]) + ss[i]
  {
    assert ss[..i + 1][..i] == ss[..i];
  }

  /** The first sequence followed by the flattening of the rest. */
  lemma FlattenCons<T>(ss: seq<seq<T>>)
    requires ss != []
    ensures Flatten(ss) == ss[0] + Flatten(ss[1..])
  {
    assert ss == [ss[0]] + ss[1..];
    FlattenAppend([ss[0]], ss[1..]);
    assert [ss[0]][..0] == [];
  }

  /** A prefix of `a + b` is a prefix of `a`, or `a` and a prefix of `b`. */
  lemma AppendPrefix<T>(a: seq<T>, b: seq<T>, n: nat)
    requires n <= |a| + |b|
    ensures n <= |a| ==> (a + b)[..n] == a[..n]
    ensures |a| <= n ==> (a + b)[..n] == a + b[..n - |a|]
  {
  }

  /** Where element `j` of sequence `i` sits in the flattened sequence. */
  lemma FlattenIndex<T>(ss: seq<seq<T>>, i: nat, j: nat)
    requires i < |ss| && j < |ss[i]|
    ensures |Flatten(ss[..i])| + j < |Flatten(ss)|
    ensures Flatten(ss)[|Flatten(ss[..i])| + j] == ss[i][j]
  {
    assert ss == ss[..i + 1] + ss[i + 1..];
    FlattenAppend(ss[..i + 1], ss[i + 1..]);
    FlattenStep(ss, i);
  }

  /** The pieces `f(j, xs[j])` of every element, in order. */
  function Gather<R, T>(xs: seq<R>, f: (nat, R) -> seq<T>): seq<T>
    decreases |xs|
  {
    if xs == [] then [] else Gather(xs[..|xs| - 1], f) + f(|xs| - 1, xs[|xs| - 1])
  }

  /** Taking one more element appends its piece. */
  lemma GatherStep<R, T>(xs: seq<R>, f: (nat, R) -> seq<T>, j: nat)
    requires j < |xs|
    ensures Gather(xs[..j + 1], f) == Gather(xs[..j], f) + f(j, xs[j])
  {
    assert xs[..j + 1][..j] == xs[..j];
  }

  /** Element `h` of the piece of element `j` sits at position `k`. */
  lemma {:induction false} GatherHas<R, T>(xs: seq<R>, f: (nat, R) -> seq<T>, j: nat, h: nat) returns (k: nat)
    requires j < |xs| && h < |f(j, xs[j])|
    ensures k < |Gather(xs, f)| && Gather(xs, f)[k] == f(j, xs[j])[h]
    decreases |xs|
  {
    var n := |xs| - 1;
    var front := Gather(xs[..n], f);
    if j < n {
      assert xs[..n][j] == xs[j];
      k := GatherHas(xs[..n], f, j, h);
    } else {
      k := |front| + h;
    }
  }

  /** Every position comes from one element's piece. */
  lemma {:induction false} GatherOrigin<R, T>(xs: seq<R>, f: (nat, R) -> seq<T>, k: nat) returns (j: nat, h: nat)
    requires k < |Gather(xs, f)|
    ensures j < |xs| && h < |f(j, xs[j])| && Gather(xs, f)[k] == f(j, xs[j])[h]
    decreases |xs|
  {
    var n := |xs| - 1;
    var front := Gather(xs[..n], f);
    if k < |front| {
      j, h := GatherOrigin(xs[..n], f, k);
      assert xs[..n][j] == xs[j];
    } else {
      j, h := n, k - |front|;
    }
  }

  /** The position of the last element satisfying `p`, if any. */
  function LastWhere<T>(xs: seq<T>, p: T -> bool): (r: Option<nat>)
    ensures r.Some? ==> r.value < |xs| && p(xs[r.value])
    decreases |xs|
  {
    if xs == [] then None
    else if p(xs[|xs| - 1]) then Some(|xs| - 1)
    else LastWhere(xs[..|xs| - 1], p)
  }

  /** No element after the one found satisfies `p`; none at all when none
      is found. */
  lemma {:induction false} LastWhereSpec<T>(xs: seq<T>, p: T -> bool)
    ensures LastWhere(xs, p).Some? ==> forall h :: LastWhere(xs, p).value < h < |xs| ==> !p(xs[h])
    ensures LastWhere(xs, p).None? ==> forall h :: 0 <= h < |xs| ==> !p(xs[h])
    decreases |xs|
  {
    if xs != [] && !p(xs[|xs| - 1]) {
      var front := xs[..|xs| - 1];
      LastWhereSpec(front, p);
      assert forall h :: 0 <= h < |front| ==> front[h] == xs[h];
    }
  }
}
