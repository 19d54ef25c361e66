/** The entry points of the streaming activation upload: the command-line
    rules of `main` and `streaming_upload_main`, which optionally clears the
    source set, streams the batch files in and optionally prunes. */
module ActivationsMain {
  import opened Base
  import opened Text
  import opened Keys
  import opened Store
  import opened Records
  import opened Guarantor
  import opened Activations
  import opened Pruning

  /** The arguments `main` passes on: the directory, `top_n` (None when
      pruning is skipped), the source set name if given, and the flag. */
  datatype Args = Args(dir: string, topN: Option<int>, setName: Option<string>, skipPruning: bool)

  predicate IsFlag(arg: string)
  {
    StartsWith(arg, "--")
  }

  /** The first argument that is not a flag. */
  function FirstNonFlag(args: seq<string>): (r: Option<string>)
    ensures r.None? <==> forall k :: 0 <= k < |args| ==> IsFlag(args[k])
    ensures r.Some? ==> exists k :: 0 <= k < |args| && args[k] == r.value && !IsFlag(args[k]) &&
                                  forall h :: 0 <= h < k ==> IsFlag(args[h])
    decreases |args|
  {
    if args == [] then None
    else if !IsFlag(args[0]) then Some(args[0])
    else
      var r := FirstNonFlag(args[1..]);
      assert forall k :: 1 <= k < |args| ==> args[k] == args[1..][k - 1];
      r
  }

  /** The argument rules of `main`. Fewer than two arguments is the usage
      error; `int()` of a `top_n` that does not parse raises. */
  function ParseArgs(argv: seq<string>): (r: Result<Args>)
    ensures |argv| < 2 ==> r.Err?
    ensures r.Ok? ==> r.value.dir == argv[1] && (r.value.skipPruning <==> "--skip-pruning" in argv)
    ensures r.Ok? && r.value.skipPruning ==> r.value.topN.None? && r.value.setName == FirstNonFlag(argv[2..])
    ensures r.Ok? && !r.value.skipPruning ==>
              r.value.topN.Some? &&
              (if |argv| > 2 && !IsFlag(argv[2]) then ParseInt(argv[2]) == r.value.topN else r.value.topN == Some(20)) &&
              r.value.setName == (if |argv| > 3 && !IsFlag(argv[3]) then Some(argv[3]) else None)
    ensures r.Err? && |argv| >= 2 ==>
              "--skip-pruning" !in argv && |argv| > 2 && !IsFlag(argv[2]) && ParseInt(argv[2]).None?
  {
    if |argv| < 2 then Err("usage")
    else if "--skip-pruning" in argv then
      Ok(Args(argv[1], None, FirstNonFlag(argv[2..]), true))
    else
      var setName := if |argv| > 3 && !IsFlag(argv[3]) then Some(argv[3]) else None;
      if |argv| > 2 && !IsFlag(argv[2]) then
        match ParseInt(argv[2])
        case None => Err("invalid literal for int()")
        case Some(n) => Ok(Args(argv[1], Some(n), setName, false))
      else Ok(Args(argv[1], Some(20), setName, false))
  }

  /** `top_n or 20`: a missing `top_n` and a `top_n` of 0 both become 20. */
  function EffectiveTopN(topN: Option<int>): (n: int)
    ensures n != 0
  {
    match topN
    case None => 20
    case Some(k) => if k == 0 then 20 else k
  }

  /** A `top_n` argument of `0` is falsy in Python, so the pruning keeps 20
      rows per feature rather than none. */
  lemma ZeroTopNMeansTwenty()
    ensures var r := ParseArgs(["upload_activations.py", "acts", "0"]);
            r.Ok? && EffectiveTopN(r.value.topN) == 20
  {
    var argv := ["upload_activations.py", "acts", "0"];
    assert "--skip-pruning" !in argv;
    assert !IsFlag(argv[2]) by { assert argv[2][0] == '0'; }
    assert ParseInt(argv[2]) == Some(0) by {
      assert AllDigits(argv[2]) && DigitsValue(argv[2]) == 0 by {
        assert argv[2] == "0" && argv[2][..0] == [];
      }
    }
  }

  /** The activation table once the optional delete has run. */
  function AfterClear(m: map<string, ActivationRow>, response: string, modelId: string, setName: string): map<string, ActivationRow>
  {
    if Confirmed(response) then Cleared(m, modelId, setName) else m
  }

  /** The activation table after a run whose every record parsed: cleared if
      confirmed, streamed in, then pruned unless pruning is skipped. */
  function UploadedTable(m: map<string, ActivationRow>, neurons: map<NeuronKey, NeuronRow>,
                         files: seq<seq<ActivationRecord>>, cleanId: string, setName: string,
                         topN: int, skipPruning: bool, response: string): map<string, ActivationRow>
  {
    var streamed := InsertAbsent(AfterClear(m, response, cleanId, setName),
                                 StreamRows(neurons, cleanId, setName, DefaultUserId, files));
    if skipPruning then streamed else Prune(streamed, cleanId, setName, topN)
  }

  /** `streaming_upload_main`. With no batch files, or an empty first file,
      it stops without touching the store. Otherwise the model id of the
      first record is cleaned, the source set is cleared when the answer is
      yes, the files are streamed in and, unless pruning is skipped, the set
      is pruned to `topN` rows per feature. A layer field that does not
      parse ends the run after the files before it were committed. */
  method StreamingUploadMain(db: Database, files: seq<seq<ActivationRecord>>, topN: int,
                             setNameArg: Option<string>, skipPruning: bool, response: string) returns (out: Outcome)
    modifies db
    requires db.Settled()
    ensures db.Settled()
    ensures db.Current() == old(db.Current()).(activations := db.activations)
    ensures files == [] || files[0] == [] ==> out.Stopped? && db.activations == old(db.activations)
    ensures files != [] && files[0] != [] ==>
              var cleanId := CleanModelId(files[0][0].modelId);
              var setName := setNameArg.GetOr(DefaultSetName);
              && (out.Completed? <==> forall f :: 0 <= f < |files| ==> LayersParse(files[f], ActivationLayer))
              && (out.Completed? ==> db.activations == UploadedTable(old(db.activations), db.neurons, files, cleanId,
                                                                     setName, topN, skipPruning, response))
              && (out.Raised? ==> exists k: nat ::
                    StoppedAt(AfterClear(old(db.activations), response, cleanId, setName), db.activations,
                              db.neurons, cleanId, setName, DefaultUserId, files, k))
  {
    var setName := setNameArg.GetOr(DefaultSetName);
    if files == [] {
      return Stopped("no batch files");
    }
    if files[0] == [] {
      return Stopped("no activations in first file");
    }
    var modelId := files[0][0].modelId;
    var cleanId := Lower(ReplaceChar(ReplaceChar(modelId, '/', '-'), '_', '-'));
    assert cleanId == CleanModelId(modelId);
    out := UploadSet(db, files, cleanId, setName, topN, skipPruning, response);
  }

  /** The body of `streaming_upload_main` once the cleaned model id and the
      set name are known. */
  method UploadSet(db: Database, files: seq<seq<ActivationRecord>>, cleanId: string, setName: string,
                   topN: int, skipPruning: bool, response: string) returns (out: Outcome)
    modifies db
    requires db.Settled()
    ensures db.Settled()
    ensures db.Current() == old(db.Current()).(activations := db.activations)
    ensures out.Completed? <==> forall f :: 0 <= f < |files| ==> LayersParse(files[f], ActivationLayer)
    ensures out.Completed? ==> db.activations == UploadedTable(old(db.activations), db.neurons, files, cleanId,
                                                               setName, topN, skipPruning, response)
    ensures out.Raised? ==> exists k: nat ::
              StoppedAt(AfterClear(old(db.activations), response, cleanId, setName), db.activations,
                        db.neurons, cleanId, setName, DefaultUserId, files, k)
  {
    if Confirmed(response) {
      var _ := ClearExistingActivations(db, cleanId, setName);
    }
    assert db.activations == AfterClear(old(db.activations), response, cleanId, setName);
    var total := StreamUploadActivations(db, files, cleanId, setName, DefaultUserId);
    if total.Err? {
      return Raised(total.error);
    }
    if !skipPruning {
      var _ := PruneToTopN(db, cleanId, setName, topN);
    }
    return Completed(total.value);
  }

  /** `main`: the argument rules, the directory check, then the upload with
      `top_n or 20`. A usage error, a `top_n` that does not parse or a
      missing directory end the program before the store is touched. */
  method UploadActivationsMain(db: Database, argv: seq<string>, dirExists: bool,
                               files: seq<seq<ActivationRecord>>, response: string) returns (out: Outcome)
    modifies db
    requires db.Settled()
    ensures db.Settled()
    ensures db.Current() == old(db.Current()).(activations := db.activations)
    ensures ParseArgs(argv).Err? || !dirExists ==> out.Raised? && db.activations == old(db.activations)
    ensures ParseArgs(argv).Ok? && dirExists && (files == [] || files[0] == []) ==>
              out.Stopped? && db.activations == old(db.activations)
    ensures ParseArgs(argv).Ok? && dirExists && files != [] && files[0] != [] ==>
              var args := ParseArgs(argv).value;
              var cleanId := CleanModelId(files[0][0].modelId);
              var setName := args.setName.GetOr(DefaultSetName);
              && (out.Completed? <==> forall f :: 0 <= f < |files| ==> LayersParse(files[f], ActivationLayer))
              && (out.Completed? ==> db.activations == UploadedTable(old(db.activations), db.neurons, files, cleanId,
                                                                     setName, EffectiveTopN(args.topN),
                                                                     args.skipPruning, response))
              && (out.Raised? ==> exists k: nat ::
                    StoppedAt(AfterClear(old(db.activations), response, cleanId, setName), db.activations,
                              db.neurons, cleanId, setName, DefaultUserId, files, k))
  {
    var args := ParseArgs(argv);
    if args.Err? {
      return Raised(args.error);
    }
    if !dirExists {
      return Raised("directory not found");
    }
    out := StreamingUploadMain(db, files, EffectiveTopN(args.value.topN), args.value.setName, args.value.skipPruning, response);
  }
}
