/** internal/orchestrator/cleanup.go under concurrency: any interleaving of Register and RunAll calls, at the
    grain of the mutex sections and of the single cleaners, which run outside the mutex. */
module RegistryProtocol {

  /** A registered entry and a goroutine, by number. */
  type Id = nat
  type Caller = nat

  /** Where a RunAll call is: working on its snapshot, or back with the failed entries. */
  datatype Phase = Executing(snapshot: seq<Id>, next: nat, errs: seq<Id>) | Returned(errs: seq<Id>)

  datatype Ran = Ran(id: Id, failed: bool)

  /** `winner` and `cut` are history: who set `ran`, and how many entries there were then. */
  datatype State = State(entries: seq<Id>, ran: bool, fired: set<Id>, log: seq<Ran>, calls: map<Caller, Phase>,
                         winner: Caller, cut: nat)

  const INIT := State([], false, {}, [], map[], 0, 0)

  /** Register appends under the mutex. Enter is RunAll's mutex section. Execute runs one entry of the
      snapshot, behind its once guard. Return is the end of RunAll. */
  datatype Step = Register(e: Id) | Enter(t: Caller) | Execute(t: Caller, fails: bool) | Return(t: Caller)

  function Reverse(s: seq<Id>): (r: seq<Id>)
    ensures |r| == |s| && forall i :: 0 <= i < |s| ==> r[i] == s[|s| - 1 - i]
  {
    if s == [] then [] else Reverse(s[1..]) + [s[0]]
  }

  predicate Enabled(s: State, step: Step) {
    match step
    case Register(e) => e !in s.entries
    case Enter(t) => t !in s.calls
    case Execute(t, _) => t in s.calls && s.calls[t].Executing? && s.calls[t].next < |s.calls[t].snapshot|
    case Return(t) => t in s.calls && s.calls[t].Executing? && s.calls[t].next >= |s.calls[t].snapshot|
  }

  function Next(s: State, step: Step): State
    requires Enabled(s, step)
  {
    match step
    case Register(e) => s.(entries := s.entries + [e])
    case Enter(t) =>
      if s.ran then s.(calls := s.calls[t := Returned([])])
      else s.(ran := true, calls := s.calls[t := Executing(Reverse(s.entries), 0, [])], winner := t, cut := |s.entries|)
    case Execute(t, fails) =>
      var c := s.calls[t];
      var e := c.snapshot[c.next];
      if e in s.fired then s.(calls := s.calls[t := c.(next := c.next + 1)])
      else s.(fired := s.fired + {e}, log := s.log + [Ran(e, fails)],
              calls := s.calls[t := Executing(c.snapshot, c.next + 1, if fails then c.errs + [e] else c.errs)])
    case Return(t) => s.(calls := s.calls[t := Returned(s.calls[t].errs)])
  }

  function Ids(log: seq<Ran>): seq<Id> {
    seq(|log|, i requires 0 <= i < |log| => log[i].id)
  }

  /** The entries whose cleaner failed, in the order in which they ran. */
  function Failed(log: seq<Ran>): seq<Id> {
    if log == [] then [] else
      var last := log[|log| - 1];
      if last.failed then Failed(log[..|log| - 1]) + [last.id] else Failed(log[..|log| - 1])
  }

  ghost predicate Distinct(s: seq<Id>) {
    forall i, j :: 0 <= i < j < |s| ==> s[i] != s[j]
  }

  /** Before anybody has won. */
  ghost predicate Fresh(s: State) {
    s.fired == {} && s.log == [] && forall t :: t in s.calls ==> s.calls[t] == Returned([])
  }

  /** How far the winner has got is what the log says. */
  ghost predicate Progress(s: State) {
    s.cut <= |s.entries| && s.winner in s.calls &&
    var snapshot := Reverse(s.entries[..s.cut]);
    |s.log| <= |snapshot| && Ids(s.log) == snapshot[..|s.log|] &&
    (forall e :: e in s.fired <==> e in snapshot[..|s.log|]) &&
    match s.calls[s.winner]
    case Executing(snap, next, errs) => snap == snapshot && next == |s.log| && errs == Failed(s.log)
    case Returned(errs) => |s.log| == |snapshot| && errs == Failed(s.log)
  }

  ghost predicate Inv(s: State) {
    Distinct(s.entries) &&
    (if s.ran then Progress(s) && (forall t :: t in s.calls && t != s.winner ==> s.calls[t] == Returned([]))
     else Fresh(s))
  }

  lemma {:induction false} InitInv()
    ensures Inv(INIT)
  {
  }

  lemma {:induction false} ReverseDistinct(s: seq<Id>)
    requires Distinct(s)
    ensures Distinct(Reverse(s))
  {
  }

  lemma {:induction false} EnterKeepsInv(s: State, t: Caller)
    requires Inv(s) && t !in s.calls
    ensures Inv(Next(s, Enter(t)))
  {
    hide Reverse;
    assert s.entries[..|s.entries|] == s.entries;
  }

  lemma {:induction false} RegisterKeepsInv(s: State, e: Id)
    requires Inv(s) && e !in s.entries
    ensures Inv(Next(s, Register(e)))
  {
    hide Reverse;
    var s' := Next(s, Register(e));
    if s.ran {
      assert s'.entries[..s.cut] == s.entries[..s.cut];
    }
  }

  /** The once guard of the entry that is due has not fired. */
  lemma {:induction false} GuardIsFree(s: State, t: Caller)
    requires Inv(s) && t in s.calls && s.calls[t].Executing? && s.calls[t].next < |s.calls[t].snapshot|
    ensures s.ran && t == s.winner && s.calls[t].snapshot[s.calls[t].next] !in s.fired
  {
    hide Reverse;
    var snapshot, n := s.calls[t].snapshot, s.calls[t].next;
    assert Distinct(s.entries[..s.cut]);
    ReverseDistinct(s.entries[..s.cut]);
    assert forall i :: 0 <= i < n ==> snapshot[..n][i] == snapshot[i];
  }

  lemma {:induction false} ExecuteKeepsInv(s: State, t: Caller, fails: bool)
    requires Inv(s) && Enabled(s, Execute(t, fails))
    ensures Inv(Next(s, Execute(t, fails)))
  {
    hide Reverse;
    GuardIsFree(s, t);
    var s' := Next(s, Execute(t, fails));
    var snapshot, n := s.calls[t].snapshot, |s.log|;
    assert snapshot[..n + 1] == snapshot[..n] + [snapshot[n]];
    assert s'.log[..|s'.log| - 1] == s.log;
    assert Ids(s'.log) == Ids(s.log) + [snapshot[n]];
  }

  lemma {:induction false} StepKeepsInv(s: State, step: Step)
    requires Inv(s) && Enabled(s, step)
    ensures Inv(Next(s, step))
  {
    hide Inv, Next;
    match step
    case Register(e) => RegisterKeepsInv(s, e);
    case Enter(t) => EnterKeepsInv(s, t);
    case Execute(t, fails) => ExecuteKeepsInv(s, t, fails);
    case Return(t) => ReturnKeepsInv(s, t);
  }

  lemma {:induction false} ReturnKeepsInv(s: State, t: Caller)
    requires Inv(s) && Enabled(s, Return(t))
    ensures Inv(Next(s, Return(t)))
  {
    hide Reverse;
  }

  // ----- Over whole runs -----

  /** A run: any interleaving of steps, from the empty registry. */
  ghost predicate IsRun(states: seq<State>, steps: seq<Step>) {
    |states| == |steps| + 1 && states[0] == INIT &&
    forall i :: 0 <= i < |steps| ==> Enabled(states[i], steps[i]) && states[i + 1] == Next(states[i], steps[i])
  }

  lemma {:induction false} RunKeepsInv(states: seq<State>, steps: seq<Step>, k: nat)
    requires IsRun(states, steps) && k < |states|
    ensures Inv(states[k])
    decreases k
  {
    hide Inv, Next;
    if k == 0 {
      InitInv();
    } else {
      RunKeepsInv(states, steps, k - 1);
      StepKeepsInv(states[k - 1], steps[k - 1]);
      assert states[k - 1 + 1] == Next(states[k - 1], steps[k - 1]);
    }
  }

  /** Once somebody has won, the winner and the entries it took stay fixed, and entries are only appended. */
  lemma {:induction false} WinnerStays(states: seq<State>, steps: seq<Step>, i: nat, k: nat)
    requires IsRun(states, steps) && i <= k < |states| && states[i].ran
    ensures states[k].ran && states[k].winner == states[i].winner && states[k].cut == states[i].cut
    ensures states[i].entries <= states[k].entries
    decreases k
  {
    if i < k {
      WinnerStays(states, steps, i, k - 1);
      assert states[k - 1 + 1] == Next(states[k - 1], steps[k - 1]);
    }
  }

  /** The RunAll call that finds `ran` unset, at step `i`, is the only one that runs anything. When it has
      returned, every entry registered before its mutex section has run exactly once, in reverse order, even
      if others failed; nothing registered later has run; and it returns exactly the failures. */
  lemma {:induction false} WinnerRunsAllOnce(states: seq<State>, steps: seq<Step>, i: nat, k: nat, t: Caller)
    requires IsRun(states, steps) && i < |steps| && i < k < |states|
    requires steps[i] == Enter(t) && !states[i].ran
    requires t in states[k].calls && states[k].calls[t].Returned?
    ensures Ids(states[k].log) == Reverse(states[i].entries)
    ensures states[k].calls[t] == Returned(Failed(states[k].log))
    ensures forall u :: u in states[k].calls && u != t ==> states[k].calls[u] == Returned([])
    ensures states[i].entries <= states[k].entries
    ensures forall e :: e in states[k].entries[|states[i].entries|..] ==>
      Ran(e, true) !in states[k].log && Ran(e, false) !in states[k].log
  {
    hide Reverse;
    RunKeepsInv(states, steps, k);
    assert states[i + 1] == Next(states[i], steps[i]);
    WinnerStays(states, steps, i + 1, k);
    var s, n := states[k], |states[i].entries|;
    assert s.entries[..n] == states[i].entries;
    assert Ids(s.log) == Reverse(states[i].entries)[..|s.log|] == Reverse(states[i].entries);
    forall e | e in s.entries[n..] ensures Ran(e, true) !in s.log && Ran(e, false) !in s.log {
      LateNotRun(s, n, e);
    }
  }

  lemma {:induction false} LateNotRun(s: State, n: nat, e: Id)
    requires n <= |s.entries| && Distinct(s.entries) && e in s.entries[n..]
    requires Ids(s.log) == Reverse(s.entries[..n])
    ensures Ran(e, true) !in s.log && Ran(e, false) !in s.log
  {
    hide Reverse;
    var j :| n <= j < |s.entries| && s.entries[j] == e;
    forall i | 0 <= i < |s.log| ensures s.log[i].id != e {
      assert Ids(s.log)[i] == Reverse(s.entries[..n])[i] == s.entries[n - 1 - i];
    }
  }

  /** In every state of every run at most one call is executing, only a snapshot prefix has run, and no once
      guard has been found fired. */
  lemma {:induction false} EveryStateIsSafe(states: seq<State>, steps: seq<Step>, k: nat, t: Caller, u: Caller)
    requires IsRun(states, steps) && k < |states|
    requires t in states[k].calls && u in states[k].calls
    ensures states[k].calls[t].Executing? && states[k].calls[u].Executing? ==> t == u
    ensures states[k].calls[t].Executing? && states[k].calls[t].next < |states[k].calls[t].snapshot| ==>
      states[k].calls[t].snapshot[states[k].calls[t].next] !in states[k].fired &&
      Ids(states[k].log) == states[k].calls[t].snapshot[..states[k].calls[t].next]
  {
    hide Reverse;
    RunKeepsInv(states, steps, k);
    if states[k].calls[t].Executing? && states[k].calls[t].next < |states[k].calls[t].snapshot| {
      GuardIsFree(states[k], t);
    }
  }

  /** The winner is never stuck: until it has returned it has a step, and each one brings it closer. */
  lemma {:induction false} WinnerCanMove(s: State)
    requires Inv(s) && s.ran && s.calls[s.winner].Executing?
    ensures Enabled(s, Return(s.winner)) ||
      (Enabled(s, Execute(s.winner, false)) &&
       |Next(s, Execute(s.winner, false)).log| == |s.log| + 1 <= s.cut)
  {
    hide Reverse;
    if s.calls[s.winner].next < |s.calls[s.winner].snapshot| {
      GuardIsFree(s, s.winner);
    }
  }
}
