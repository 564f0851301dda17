/** Flow-control errors of the pipeline kernel (core/kernel/errors.py): the
    payload each carries and the message it is raised with. */
module KernelErrors {
  import opened Wrappers

  datatype StageError<D> =
    | BlockingStageError(stageName: string, reason: string, details: Option<D> := None)
    | NonBlockingStageError(stageName: string, reason: string, details: Option<D> := None)
  {
    /** The text the exception is constructed with. */
    function Prefix(): string {
      if BlockingStageError? then "Blocking stage '" else "Non-blocking stage '"
    }

    /** The exception message: `<kind> stage '<stage_name>' failed: <reason>`. */
    function Message(): (m: string)
      ensures |m| == |Prefix()| + |stageName| + |"' failed: "| + |reason|
      ensures m[..|Prefix()|] == Prefix()
      ensures m[|m| - |reason|..] == reason
    {
      Prefix() + stageName + "' failed: " + reason
    }
  }

  /** A blocking failure's message is never a non-blocking failure's. */
  lemma MessageKindsDistinct<D>(b: StageError<D>, n: StageError<D>)
    requires b.BlockingStageError? && n.NonBlockingStageError?
    ensures b.Message() != n.Message()
  {
    assert b.Message()[0] == 'B';
    assert n.Message()[0] == 'N';
  }

  /** The message keeps the stage name and the reason: errors of one kind
      for one stage with the same message have the same reason. */
  lemma MessageDeterminesReason<D>(e1: StageError<D>, e2: StageError<D>)
    requires e1.BlockingStageError? == e2.BlockingStageError? && e1.stageName == e2.stageName
    requires e1.Message() == e2.Message()
    ensures e1.reason == e2.reason
  {
    var h := e1.Prefix() + e1.stageName + "' failed: ";
    assert e1.Message() == h + e1.reason;
    assert e2.Message() == h + e2.reason;
    assert e1.reason == e1.Message()[|h|..];
  }
}
