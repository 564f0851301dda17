/** Stage abstractions of the pipeline kernel (core/kernel/stages.py). */
module KernelStages {
  import opened Wrappers

  /** The closed set of pipeline stages. */
  datatype StageName = StageA | StageB | StageC
  {
    /** The enum member's string value. */
    function Value(): string {
      match this
      case StageA => "stage_a"
      case StageB => "stage_b"
      case StageC => "stage_c"
    }
  }

  /** `StageName(value)`: the member with the given value, if any. */
  function StageNameOf(value: string): (n: Option<StageName>)
    ensures n.Some? ==> n.value.Value() == value
    ensures n.None? ==> forall m: StageName :: m.Value() != value
  {
    if value == "stage_a" then Some(StageA)
    else if value == "stage_b" then Some(StageB)
    else if value == "stage_c" then Some(StageC)
    else None
  }

  /** Exactly three values, one per member: the value identifies the member. */
  lemma StageNameValues(n: StageName)
    ensures n.Value() in ["stage_a", "stage_b", "stage_c"]
    ensures StageNameOf(n.Value()) == Some(n)
  {
  }

  /** The immutable result of running one stage; output and error default
      to None. */
  datatype StageResult<O, E> = StageResult(
    ok: bool,
    blocking: bool,
    output: Option<O> := None,
    error: Option<E> := None)

  /** A stage: its name, its declared blocking flag and its function, a
      total function of the pipeline context. */
  datatype StageDefinition<!C, O, E> = StageDefinition(
    name: StageName,
    blocking: bool,
    fn: C -> StageResult<O, E>)
}
