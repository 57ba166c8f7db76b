/** Whole runs of one chain: what holds after any sequence of dispatches. */
module Chain {
  import opened Types
  import opened PalletSpec
  import opened Registry
  import opened Consistency

  datatype Step = Step(env: Env, origin: Origin, call: Call)

  function After(cfg: Config, s: Storage, step: Step): Outcome {
    Dispatch(cfg, step.env, s, step.origin, step.call)
  }

  function Run(cfg: Config, s: Storage, steps: seq<Step>): Storage {
    if steps == [] then s
    else After(cfg, Run(cfg, s, steps[..|steps| - 1]), steps[|steps| - 1]).storage
  }

  /** What the environment guarantees of a step, and room in the counter if the step may need an id. */
  ghost predicate Legal(cfg: Config, s: Storage, step: Step) {
    && Enumerates(step.env.owners, s)
    && step.call.WellTyped(cfg)
    && (step.call.Allocates() ==> s.count < U32_MAX)
  }

  ghost predicate LegalRun(cfg: Config, s: Storage, steps: seq<Step>) {
    forall t :: 0 <= t < |steps| ==> Legal(cfg, Run(cfg, s, steps[..t]), steps[t])
  }

  /** The state after the first `t` steps. */
  function At(cfg: Config, s: Storage, steps: seq<Step>, t: nat): Storage
    requires t <= |steps|
  {
    Run(cfg, s, steps[..t])
  }

  lemma AtNext(cfg: Config, s: Storage, steps: seq<Step>, t: nat)
    requires t < |steps|
    ensures At(cfg, s, steps, t + 1) == After(cfg, At(cfg, s, steps, t), steps[t]).storage
    ensures LegalRun(cfg, s, steps) ==> Legal(cfg, At(cfg, s, steps, t), steps[t])
  {
    assert steps[..t + 1][..t] == steps[..t];
  }

  lemma AtLast(cfg: Config, s: Storage, steps: seq<Step>, t: nat)
    requires 0 < t <= |steps|
    ensures At(cfg, s, steps, t) == After(cfg, At(cfg, s, steps, t - 1), steps[t - 1]).storage
    ensures LegalRun(cfg, s, steps) ==> Legal(cfg, At(cfg, s, steps, t - 1), steps[t - 1])
  {
    AtNext(cfg, s, steps, t - 1);
  }

  lemma {:induction false} InvariantThroughout(cfg: Config, s: Storage, steps: seq<Step>, t: nat)
    requires Invariant(cfg, s) && LegalRun(cfg, s, steps) && t <= |steps|
    ensures Invariant(cfg, At(cfg, s, steps, t))
  {
    if t > 0 {
      InvariantThroughout(cfg, s, steps, t - 1);
      AtNext(cfg, s, steps, t - 1);
      var step := steps[t - 1];
      InvariantKeptExactly(cfg, step.env, At(cfg, s, steps, t - 1), step.origin, step.call);
    }
  }

  // The run of the registry that the run of the pallet stores

  function RegistryRun(cfg: Config, g: Registry, steps: seq<Step>): Registry {
    if steps == [] then g
    else RegistryStep(cfg, RegistryRun(cfg, g, steps[..|steps| - 1]), steps[|steps| - 1])
  }

  lemma {:induction false} RunRefines(cfg: Config, s: Storage, steps: seq<Step>, t: nat)
    requires Invariant(cfg, s) && LegalRun(cfg, s, steps) && t <= |steps|
    ensures Agreement(At(cfg, s, steps, t))
    ensures Abs(At(cfg, s, steps, t)) == RegistryRun(cfg, Abs(s), steps[..t])
  {
    if t > 0 {
      RunRefines(cfg, s, steps, t - 1);
      RefinesNext(cfg, s, steps, t);
    }
  }

  lemma RefinesNext(cfg: Config, s: Storage, steps: seq<Step>, t: nat)
    requires Invariant(cfg, s) && LegalRun(cfg, s, steps) && 0 < t <= |steps|
    requires Agreement(At(cfg, s, steps, t - 1))
    requires Abs(At(cfg, s, steps, t - 1)) == RegistryRun(cfg, Abs(s), steps[..t - 1])
    ensures Agreement(At(cfg, s, steps, t))
    ensures Abs(At(cfg, s, steps, t)) == RegistryRun(cfg, Abs(s), steps[..t])
  {
    AtLast(cfg, s, steps, t);
    InvariantThroughout(cfg, s, steps, t - 1);
    StepRefines(cfg, At(cfg, s, steps, t - 1), steps[t - 1]);
    RegistryRunLast(cfg, Abs(s), steps, t);
  }

  function RegistryStep(cfg: Config, g: Registry, step: Step): Registry {
    Apply(cfg, step.env.send, g, step.origin, step.call).registry
  }

  lemma StepRefines(cfg: Config, s: Storage, step: Step)
    requires Invariant(cfg, s) && Legal(cfg, s, step)
    ensures Agreement(After(cfg, s, step).storage)
    ensures Abs(After(cfg, s, step).storage) == RegistryStep(cfg, Abs(s), step)
  {
    assert s.count !in s.students;
    PalletRefinesRegistry(cfg, step.env, s, step.origin, step.call);
  }

  lemma RegistryRunLast(cfg: Config, g: Registry, steps: seq<Step>, t: nat)
    requires 0 < t <= |steps|
    ensures RegistryRun(cfg, g, steps[..t]) == RegistryStep(cfg, RegistryRun(cfg, g, steps[..t - 1]), steps[t - 1])
  {
    assert steps[..t][..t - 1] == steps[..t - 1];
  }

  // Ids

  /** The step brings a student onto the chain, under the next id. */
  predicate Arrives(cfg: Config, s: Storage, step: Step) {
    After(cfg, s, step).result.Ok? && step.call.Allocates()
  }

  /** The ids handed out by the successful allocations of a run, in order. */
  function Issued(cfg: Config, s: Storage, steps: seq<Step>): seq<u32> {
    if steps == [] then []
    else
      var before, last := steps[..|steps| - 1], steps[|steps| - 1];
      var now := Run(cfg, s, before);
      Issued(cfg, s, before) + if Arrives(cfg, now, last) then [now.count] else []
  }

  lemma StepIssues(cfg: Config, s: Storage, step: Step)
    requires Legal(cfg, s, step)
    ensures After(cfg, s, step).storage.count == s.count + if Arrives(cfg, s, step) then 1 else 0
  {
    DispatchFrame(cfg, step.env, s, step.origin, step.call);
  }

  /** Ids come out consecutively, so strictly increasing; a rolled-back allocation leaves no gap. */
  lemma {:induction false} IdsAreConsecutive(cfg: Config, s: Storage, steps: seq<Step>, t: nat)
    requires LegalRun(cfg, s, steps) && t <= |steps|
    ensures var ids := Issued(cfg, s, steps[..t]);
            && At(cfg, s, steps, t).count == s.count + |ids|
            && forall i :: 0 <= i < |ids| ==> ids[i] == s.count + i
  {
    if t > 0 {
      IdsAreConsecutive(cfg, s, steps, t - 1);
      CountLast(cfg, s, steps, t);
      IssuedLast(cfg, s, steps, t);
    }
  }

  lemma CountLast(cfg: Config, s: Storage, steps: seq<Step>, t: nat)
    requires LegalRun(cfg, s, steps) && 0 < t <= |steps|
    ensures var before := At(cfg, s, steps, t - 1);
            At(cfg, s, steps, t).count == before.count + if Arrives(cfg, before, steps[t - 1]) then 1 else 0
  {
    AtLast(cfg, s, steps, t);
    StepIssues(cfg, At(cfg, s, steps, t - 1), steps[t - 1]);
  }

  lemma IssuedLast(cfg: Config, s: Storage, steps: seq<Step>, t: nat)
    requires 0 < t <= |steps|
    ensures var before := At(cfg, s, steps, t - 1);
            Issued(cfg, s, steps[..t]) ==
              Issued(cfg, s, steps[..t - 1]) + if Arrives(cfg, before, steps[t - 1]) then [before.count] else []
  {
    assert steps[..t][..t - 1] == steps[..t - 1];
  }

  lemma StepReusesNothing(cfg: Config, s: Storage, step: Step, id: u32)
    requires Legal(cfg, s, step)
    ensures var s' := After(cfg, s, step).storage;
            && s.count <= s'.count
            && (id < s.count && id in s'.students ==>
                  id in s.students && (s.students[id].hasGraduated ==> s'.students[id].hasGraduated))
  {
    DispatchFrame(cfg, step.env, s, step.origin, step.call);
  }

  /**
   * No id comes back: if an id had been handed out by time `t1` and is live at `t2`, it was
   * live at `t1`. A graduation mark once set stays, through every update, as long as the student lives.
   */
  lemma {:induction false} NoReuse(cfg: Config, s: Storage, steps: seq<Step>, t1: nat, t2: nat, id: u32)
    requires LegalRun(cfg, s, steps) && t1 <= t2 <= |steps|
    ensures At(cfg, s, steps, t1).count <= At(cfg, s, steps, t2).count
    ensures id < At(cfg, s, steps, t1).count && id in At(cfg, s, steps, t2).students ==>
              && id in At(cfg, s, steps, t1).students
              && (At(cfg, s, steps, t1).students[id].hasGraduated ==> At(cfg, s, steps, t2).students[id].hasGraduated)
  {
    if t1 < t2 {
      NoReuse(cfg, s, steps, t1, t2 - 1, id);
      AtNext(cfg, s, steps, t2 - 1);
      StepReusesNothing(cfg, At(cfg, s, steps, t2 - 1), steps[t2 - 1], id);
    }
  }

  /** An id that is not live once it has been handed out is never live again. */
  lemma RemovedForGood(cfg: Config, s: Storage, steps: seq<Step>, t1: nat, t2: nat, id: u32)
    requires LegalRun(cfg, s, steps) && t1 <= t2 <= |steps|
    requires id < At(cfg, s, steps, t1).count && id !in At(cfg, s, steps, t1).students
    ensures id !in At(cfg, s, steps, t2).students
  {
    NoReuse(cfg, s, steps, t1, t2, id);
  }

  /** The student `id` is live in both states, with the same owner, and a mark it had it still has. */
  ghost predicate Remains(s: Storage, s': Storage, id: u32)
    requires Agreement(s) && Agreement(s')
  {
    && id in s.students && id in s'.students
    && Abs(s).live[id].owner == Abs(s').live[id].owner
    && (s.students[id].hasGraduated ==> s'.students[id].hasGraduated)
  }

  /** `s'` may come after `s`: of the ids handed out before `s`, those that are live in `s'` were live all along. */
  ghost predicate Later(s: Storage, s': Storage) {
    && Agreement(s) && Agreement(s') && s.count <= s'.count
    && forall id: u32 :: id < s.count && id in s'.students ==> Remains(s, s', id)
  }

  lemma ApplyKeepsOwner(cfg: Config, send: SendOutcome, g: Registry, origin: Origin, call: Call, id: u32)
    requires id in g.live && id != g.next && id in Apply(cfg, send, g, origin, call).registry.live
    ensures Apply(cfg, send, g, origin, call).registry.live[id].owner == g.live[id].owner
  {}

  lemma StepIsLater(cfg: Config, s: Storage, step: Step)
    requires Invariant(cfg, s) && Legal(cfg, s, step)
    ensures Later(s, After(cfg, s, step).storage)
  {
    var s' := After(cfg, s, step).storage;
    StepRefines(cfg, s, step);
    StepReusesNothing(cfg, s, step, 0);
    forall id: u32 | id < s.count && id in s'.students ensures Remains(s, s', id) {
      StepReusesNothing(cfg, s, step, id);
      ApplyKeepsOwner(cfg, step.env.send, Abs(s), step.origin, step.call, id);
    }
  }

  /** No student ever changes hands, comes back or loses its mark. */
  lemma {:induction false} OwnersNeverChange(cfg: Config, s: Storage, steps: seq<Step>, t1: nat, t2: nat)
    requires Invariant(cfg, s) && LegalRun(cfg, s, steps) && t1 <= t2 <= |steps|
    ensures Later(At(cfg, s, steps, t1), At(cfg, s, steps, t2))
  {
    if t1 == t2 {
      InvariantThroughout(cfg, s, steps, t1);
    } else {
      OwnersNeverChange(cfg, s, steps, t1, t2 - 1);
      InvariantThroughout(cfg, s, steps, t2 - 1);
      AtNext(cfg, s, steps, t2 - 1);
      StepIsLater(cfg, At(cfg, s, steps, t2 - 1), steps[t2 - 1]);
    }
  }

  // Counting

  /** The step takes a student off the chain. */
  predicate Leaves(cfg: Config, s: Storage, step: Step) {
    && After(cfg, s, step).result.Ok?
    && (step.call.DeleteStudent? || step.call.DeleteAnyStudent? || step.call.GraduateStudent?)
  }

  function Arrivals(cfg: Config, s: Storage, steps: seq<Step>): nat {
    if steps == [] then 0
    else
      var before, last := steps[..|steps| - 1], steps[|steps| - 1];
      Arrivals(cfg, s, before) + if Arrives(cfg, Run(cfg, s, before), last) then 1 else 0
  }

  function Departures(cfg: Config, s: Storage, steps: seq<Step>): nat {
    if steps == [] then 0
    else
      var before, last := steps[..|steps| - 1], steps[|steps| - 1];
      Departures(cfg, s, before) + if Leaves(cfg, Run(cfg, s, before), last) then 1 else 0
  }

  lemma StepCount(cfg: Config, s: Storage, step: Step)
    requires Invariant(cfg, s)
    ensures |After(cfg, s, step).storage.students| ==
            |s.students| + (if Arrives(cfg, s, step) then 1 else 0) - (if Leaves(cfg, s, step) then 1 else 0)
  {
    var o := After(cfg, s, step);
    DispatchFrame(cfg, step.env, s, step.origin, step.call);
    assert |s.students| == |s.students.Keys| && |o.storage.students| == |o.storage.students.Keys|;
    if Leaves(cfg, s, step) {
      assert o.storage.students.Keys == s.students.Keys - {step.call.id};
    }
  }

  /** The records on the chain are those that came minus those that left. */
  lemma {:induction false} RecordsBalance(cfg: Config, s: Storage, steps: seq<Step>, t: nat)
    requires Invariant(cfg, s) && LegalRun(cfg, s, steps) && t <= |steps|
    ensures |At(cfg, s, steps, t).students| + Departures(cfg, s, steps[..t]) ==
              |s.students| + Arrivals(cfg, s, steps[..t])
  {
    if t > 0 {
      RecordsBalance(cfg, s, steps, t - 1);
      InvariantThroughout(cfg, s, steps, t - 1);
      BalanceNext(cfg, s, steps, t - 1);
    }
  }

  lemma BalanceNext(cfg: Config, s: Storage, steps: seq<Step>, t: nat)
    requires t < |steps| && Invariant(cfg, At(cfg, s, steps, t))
    ensures |At(cfg, s, steps, t + 1).students|
              + Departures(cfg, s, steps[..t + 1]) - Arrivals(cfg, s, steps[..t + 1]) ==
            |At(cfg, s, steps, t).students| + Departures(cfg, s, steps[..t]) - Arrivals(cfg, s, steps[..t])
  {
    AtNext(cfg, s, steps, t);
    StepCount(cfg, At(cfg, s, steps, t), steps[t]);
    TalliesNext(cfg, s, steps, t);
  }

  lemma TalliesNext(cfg: Config, s: Storage, steps: seq<Step>, t: nat)
    requires t < |steps|
    ensures Arrivals(cfg, s, steps[..t + 1]) ==
            Arrivals(cfg, s, steps[..t]) + if Arrives(cfg, At(cfg, s, steps, t), steps[t]) then 1 else 0
    ensures Departures(cfg, s, steps[..t + 1]) ==
            Departures(cfg, s, steps[..t]) + if Leaves(cfg, At(cfg, s, steps, t), steps[t]) then 1 else 0
  {
    assert steps[..t + 1][..t] == steps[..t];
  }

  // Graduation marks

  ghost predicate NoneGraduated(s: Storage) {
    forall id :: id in s.students ==> !s.students[id].hasGraduated
  }

  /** Where nobody calls `receive_student`, nobody is marked, and no graduation is refused for the mark. */
  lemma {:induction false} HomeHasNoGraduates(cfg: Config, s: Storage, steps: seq<Step>, t: nat)
    requires NoneGraduated(s) && t <= |steps|
    requires forall i :: 0 <= i < |steps| ==> !steps[i].call.ReceiveStudent?
    ensures NoneGraduated(At(cfg, s, steps, t))
    ensures t < |steps| ==> After(cfg, At(cfg, s, steps, t), steps[t]).result != Err(AlreadyGraduated)
  {
    if t > 0 {
      HomeHasNoGraduates(cfg, s, steps, t - 1);
      AtNext(cfg, s, steps, t - 1);
      NoneGraduatedKept(cfg, At(cfg, s, steps, t - 1), steps[t - 1]);
    }
    if t < |steps| {
      NoneGraduatedKept(cfg, At(cfg, s, steps, t), steps[t]);
    }
  }

  lemma NoneGraduatedKept(cfg: Config, s: Storage, step: Step)
    requires NoneGraduated(s) && !step.call.ReceiveStudent?
    ensures NoneGraduated(After(cfg, s, step).storage)
    ensures After(cfg, s, step).result != Err(AlreadyGraduated)
  {}
}
