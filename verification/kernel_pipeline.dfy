/** The pipeline orchestrator (core/kernel/pipeline.py): runs its stages in
    order, records every result, and stops at the first result that failed
    and is blocking. The exception raised there is modelled as the `Halted`
    outcome. */
module KernelPipeline {
  import opened Wrappers
  import opened KernelStages
  import opened KernelErrors

  /** The `details` dict of the halting error: the failed result's error
      and output. */
  datatype HaltDetails<O, E> = HaltDetails(error: Option<E>, output: Option<O>)

  /** How a run ends: every stage ran, or a blocking failure was raised.
      Either way `results` is what the pipeline recorded. */
  datatype RunOutcome<O, E> =
    | Completed(results: seq<StageResult<O, E>>)
    | Halted(error: StageError<HaltDetails<O, E>>, results: seq<StageResult<O, E>>)

  const HaltReason := "Stage failed with blocking=True"

  /** The halt test; it reads the result's own blocking flag. */
  predicate Halts<O, E>(r: StageResult<O, E>) {
    !r.ok && r.blocking
  }

  /** What every stage would return on the context. */
  function AllResults<C, O, E>(stages: seq<StageDefinition<C, O, E>>, context: C): (rs: seq<StageResult<O, E>>)
    ensures |rs| == |stages|
    ensures forall i :: 0 <= i < |stages| ==> rs[i] == stages[i].fn(context)
  {
    seq(|stages|, i requires 0 <= i < |stages| => stages[i].fn(context))
  }

  /** The position of the first halting result, if any. */
  function FirstHalt<O, E>(rs: seq<StageResult<O, E>>): (k: Option<nat>)
    ensures k.Some? ==> k.value < |rs| && Halts(rs[k.value]) && forall i :: 0 <= i < k.value ==> !Halts(rs[i])
    ensures k.None? ==> forall i :: 0 <= i < |rs| ==> !Halts(rs[i])
  {
    if rs == [] then None
    else if Halts(rs[0]) then Some(0)
    else match FirstHalt(rs[1..])
      case None => None
      case Some(k) => Some(k + 1)
  }

  /** The error raised for a halting result of the given stage. */
  function HaltError<C, O, E>(stage: StageDefinition<C, O, E>, r: StageResult<O, E>): StageError<HaltDetails<O, E>> {
    BlockingStageError(stage.name.Value(), HaltReason, Some(HaltDetails(r.error, r.output)))
  }

  /** The specification of a run: all results when none halts; otherwise the
      results up to and including the first halting one, and that stage's
      error. */
  function Run<C, O, E>(stages: seq<StageDefinition<C, O, E>>, context: C): (r: RunOutcome<O, E>)
    ensures |r.results| <= |stages|
    ensures forall i :: 0 <= i < |r.results| ==> r.results[i] == stages[i].fn(context)
    ensures r.Completed? ==> |r.results| == |stages| && forall i :: 0 <= i < |stages| ==> !Halts(r.results[i])
    ensures r.Halted? ==> 0 < |r.results| && Halts(r.results[|r.results| - 1]) &&
                          forall i :: 0 <= i < |r.results| - 1 ==> !Halts(r.results[i])
  {
    var all := AllResults(stages, context);
    match FirstHalt(all)
    case None => Completed(all)
    case Some(k) => Halted(HaltError(stages[k], all[k]), all[..k + 1])
  }

  class Pipeline<C, O, E> {
    const stages: seq<StageDefinition<C, O, E>>
    var results: seq<StageResult<O, E>>

    constructor(stages: seq<StageDefinition<C, O, E>>)
      ensures this.stages == stages && results == []
    {
      this.stages := stages;
      results := [];
    }

    /** execute: starts from no results, runs the stages in order, records
        each result before checking it, and halts at the first blocking
        failure. */
    method Execute(context: C) returns (outcome: RunOutcome<O, E>)
      modifies this
      ensures outcome == Run(stages, context)
      ensures results == outcome.results
    {
      ghost var all := AllResults(stages, context);
      results := [];
      var i := 0;
      while i < |stages|
        invariant 0 <= i <= |stages|
        invariant results == all[..i]
        invariant forall j :: 0 <= j < i ==> !Halts(all[j])
      {
        var result := stages[i].fn(context);
        results := results + [result];
        if !result.ok && result.blocking {
          assert FirstHalt(all) == Some(i);
          outcome := Halted(HaltError(stages[i], result), results);
          return;
        }
        i := i + 1;
      }
      assert all[..i] == all;
      outcome := Completed(results);
    }
  }

  // ---------------------------------------------------------------------------
  // Properties of a run

  /** Without a halt every stage runs: one result per stage, in stage order. */
  lemma CompletedRunsEveryStage<C, O, E>(stages: seq<StageDefinition<C, O, E>>, context: C)
    requires Run(stages, context).Completed?
    ensures |Run(stages, context).results| == |stages|
    ensures forall i :: 0 <= i < |stages| ==> Run(stages, context).results[i] == stages[i].fn(context)
  {
  }

  /** A run completes exactly when no stage returns a blocking failure. */
  lemma CompletesIffNoBlockingFailure<C, O, E>(stages: seq<StageDefinition<C, O, E>>, context: C)
    ensures Run(stages, context).Completed? <==> forall i :: 0 <= i < |stages| ==> !Halts(stages[i].fn(context))
  {
    var all := AllResults(stages, context);
    if !Run(stages, context).Completed? {
      var k := FirstHalt(all).value;
      assert Halts(stages[k].fn(context));
    }
  }

  /** A halted run stopped at the first blocking failure: its results are the
      results of the stages up to and including that one, no later stage
      ran, and the error names that stage. */
  lemma HaltedAtFirstBlockingFailure<C, O, E>(stages: seq<StageDefinition<C, O, E>>, context: C)
    requires Run(stages, context).Halted?
    ensures var o := Run(stages, context);
      var k := |o.results| - 1;
      0 <= k < |stages| &&
      (forall i :: 0 <= i <= k ==> o.results[i] == stages[i].fn(context)) &&
      Halts(o.results[k]) &&
      (forall i :: 0 <= i < k ==> !Halts(o.results[i])) &&
      o.error == BlockingStageError(stages[k].name.Value(), HaltReason,
                                    Some(HaltDetails(o.results[k].error, o.results[k].output)))
  {
  }

  /** The halt decision reads each result's blocking flag, never the
      definition's: changing the declared flags changes nothing. */
  lemma DeclaredBlockingIgnored<C, O, E>(stages1: seq<StageDefinition<C, O, E>>,
                                         stages2: seq<StageDefinition<C, O, E>>, context: C)
    requires |stages1| == |stages2|
    requires forall i :: 0 <= i < |stages1| ==> stages1[i].name == stages2[i].name && stages1[i].fn == stages2[i].fn
    ensures Run(stages1, context) == Run(stages2, context)
  {
    assert AllResults(stages1, context) == AllResults(stages2, context);
  }

  /** The halting error's message names the stage and says `blocking=True`. */
  lemma HaltMessage<C, O, E>(stages: seq<StageDefinition<C, O, E>>, context: C)
    requires Run(stages, context).Halted?
    ensures var m := Run(stages, context).error.Message();
      m[|m| - |"blocking=True"|..] == "blocking=True" &&
      m[..|"Blocking stage '"|] == "Blocking stage '"
  {
    var e := Run(stages, context).error;
    assert e.reason == HaltReason;
    assert HaltReason[|HaltReason| - |"blocking=True"|..] == "blocking=True";
  }

  // ---------------------------------------------------------------------------
  // The three scenarios of the integration tests, over an arbitrary context

  function Succeeds<C>(blocking: bool): C -> StageResult<string, string> {
    (c: C) => StageResult(true, blocking, Some("processed"))
  }

  function Fails<C>(blocking: bool): C -> StageResult<string, string> {
    (c: C) => StageResult(false, blocking, error := Some("intentional failure"))
  }

  /** Stage A succeeds, stage B fails blocking, stage C would succeed: the
      run halts at stage_b with two results. */
  lemma BlockingFailureStops<C>(context: C)
    ensures var o := Run([StageDefinition(StageA, false, Succeeds(false)),
                          StageDefinition(StageB, true, Fails(true)),
                          StageDefinition(StageC, false, Succeeds(false))], context);
      o.Halted? && o.error.stageName == "stage_b" && |o.results| == 2 &&
      o.results[0].ok && !o.results[1].ok
  {
    var stages := [StageDefinition(StageA, false, Succeeds(false)),
                   StageDefinition(StageB, true, Fails(true)),
                   StageDefinition(StageC, false, Succeeds(false))];
    var all := AllResults(stages, context);
    assert !Halts(all[0]) && Halts(all[1]);
    assert FirstHalt(all) == Some(1);
  }

  /** A non-blocking failure in the middle does not stop the run. */
  lemma NonBlockingFailureContinues<C>(context: C)
    ensures var o := Run([StageDefinition(StageA, false, Succeeds(false)),
                          StageDefinition(StageB, false, Fails(false)),
                          StageDefinition(StageC, false, Succeeds(false))], context);
      o.Completed? && |o.results| == 3 && o.results[0].ok && !o.results[1].ok && o.results[2].ok
  {
    var stages := [StageDefinition(StageA, false, Succeeds(false)),
                   StageDefinition(StageB, false, Fails(false)),
                   StageDefinition(StageC, false, Succeeds(false))];
    var all := AllResults(stages, context);
    assert !Halts(all[0]) && !Halts(all[1]) && !Halts(all[2]);
  }

  /** A successful result that is marked blocking does not stop the run. */
  lemma BlockingSuccessContinues<C>(context: C)
    ensures var o := Run([StageDefinition(StageA, false, Succeeds(false)),
                          StageDefinition(StageB, false, Succeeds(true)),
                          StageDefinition(StageC, false, Succeeds(false))], context);
      o.Completed? && |o.results| == 3
  {
    var stages := [StageDefinition(StageA, false, Succeeds(false)),
                   StageDefinition(StageB, false, Succeeds(true)),
                   StageDefinition(StageC, false, Succeeds(false))];
    var all := AllResults(stages, context);
    assert !Halts(all[0]) && !Halts(all[1]) && !Halts(all[2]);
  }
}
