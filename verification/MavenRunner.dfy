/** internal/maven/runner.go and container_runner.go: the parameters of a Maven goal, and what the end of
    its container means for the step. */
module MavenRunner {
  import opened Text

  datatype StepStatus = StepPassed | StepFailed | StepAborted

  /** How one call of the runner ends: with an error of the runner itself, or with the container's exit
      code and output, and whether the context is done. */
  datatype Maven = RunnerError | Exited(code: int, output: string, contextDone: bool)

  const BUILD_FAILURE := "BUILD FAILURE"

  /** MapContainerResult; a runner error fails the step in the caller. */
  function MavenStatus(m: Maven): StepStatus {
    if m.RunnerError? then StepFailed
    else if m.contextDone then StepAborted
    else if m.code != 0 || Has(m.output, BUILD_FAILURE) then StepFailed
    else StepPassed
  }

  /** A goal passes exactly when its container ended with code 0, the context still open, and the words
      BUILD FAILURE at no position of its output. */
  lemma {:induction false} GoalPassesIff(m: Maven)
    ensures MavenStatus(m) == StepPassed <==>
      m.Exited? && !m.contextDone && m.code == 0 && forall i :: !OccursAt(m.output, "BUILD FAILURE", i)
    ensures MavenStatus(m) == StepAborted <==> m.Exited? && m.contextDone
  {
    if m.Exited? {
      IndexFinds(m.output, BUILD_FAILURE);
    }
  }

  const TAG_FLAG := "--TAG="

  /** Some parameter from position `from` on gives a tag. */
  predicate TagGiven(params: seq<string>) {
    exists i | 0 <= i < |params| :: HasPrefix(params[i], TAG_FLAG)
  }

  function EnsureTag(params: seq<string>, uniqueTag: string): seq<string> {
    if TagGiven(params) then params else [TAG_FLAG + uniqueTag] + params
  }

  /** ensureTagStr. */
  method EnsureTagStr(params: seq<string>, uniqueTag: string) returns (r: seq<string>)
    ensures r == EnsureTag(params, uniqueTag)
    ensures if exists i :: 0 <= i < |params| && "--TAG=" <= params[i] then r == params
            else r == ["--TAG=" + uniqueTag] + params
  {
    for i := 0 to |params|
      invariant forall j :: 0 <= j < i ==> !HasPrefix(params[j], TAG_FLAG) && !("--TAG=" <= params[j])
    {
      assert HasPrefix(params[i], TAG_FLAG) <==> "--TAG=" <= params[i];
      if HasPrefix(params[i], TAG_FLAG) {
        return params;
      }
    }
    r := [TAG_FLAG + uniqueTag];
    r := r + params;
  }

  function SyncParams(): seq<string> {
    ["--AUTHOR=validator-cli"]
  }

  function RollbackParams(tag: string): seq<string> {
    [TAG_FLAG + tag]
  }

  lemma {:induction false} FlagIsPrefix(tag: string)
    ensures HasPrefix(TAG_FLAG + tag, TAG_FLAG)
  {
  }

  /** Sync runs under the run's own tag; rollback keeps exactly the tag it was given. */
  lemma {:induction false} TagOfGoals(tag: string, uniqueTag: string)
    ensures EnsureTag(SyncParams(), uniqueTag) == ["--TAG=" + uniqueTag, "--AUTHOR=validator-cli"]
    ensures EnsureTag(RollbackParams(tag), uniqueTag) == ["--TAG=" + tag]
  {
    assert TAG_FLAG[2] == 'T' && SyncParams()[0][2] == 'A';
    assert !HasPrefix(SyncParams()[0], TAG_FLAG) by {
      assert SyncParams()[0][..6][2] == 'A';
    }
    FlagIsPrefix(tag);
    assert HasPrefix(RollbackParams(tag)[0], TAG_FLAG);
  }

  /** Applying it again, with whatever tag, changes nothing; and some parameter always gives a tag. */
  lemma {:induction false} EnsureTagSettles(params: seq<string>, tag: string, again: string)
    ensures TagGiven(EnsureTag(params, tag)) && EnsureTag(EnsureTag(params, tag), again) == EnsureTag(params, tag)
  {
    FlagIsPrefix(tag);
    assert !TagGiven(params) ==> HasPrefix(EnsureTag(params, tag)[0], TAG_FLAG);
  }
}
