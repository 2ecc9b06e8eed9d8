/** The durable spending budget: any number of processes sharing one state file, each
    able to crash before or after the atomic replace. */
module Spending {

  type Action = string
  type Pid = nat

  datatype Option<+T> = None | Some(value: T)

  // ---- What a call declares --------------------------------------------

  /** What a spend extractor returns. */
  datatype Declared = Undeclared | Nothing | Amount(cents: int) | OtherType | Raised

  datatype Resolved = Spend(cents: Option<nat>) | ContractError

  /** The declared spend in minor units; negative or non-integer amounts are refused. */
  function ResolveSpend(d: Declared): (r: Resolved)
    ensures r == ContractError <==> d.OtherType? || d.Raised? || (d.Amount? && d.cents < 0)
    ensures forall cents: nat :: r == Spend(Some(cents)) <==> d == Amount(cents)
    ensures r == Spend(None) <==> d.Undeclared? || d.Nothing?
  {
    match d
    case Undeclared => Spend(None)
    case Nothing => Spend(None)
    case Amount(cents) => if cents < 0 then ContractError else Spend(Some(cents))
    case _ => ContractError
  }

  // ---- One charge ------------------------------------------------------

  /** The totals the state file holds. */
  datatype Totals = Totals(total: int, perAction: map<Action, int>)

  datatype StateFile = Missing | Corrupt | Stored(totals: Totals)

  const FRESH := Totals(0, map[])

  function Loaded(file: StateFile): Totals
    requires !file.Corrupt?
  {
    if file.Missing? then FRESH else file.totals
  }

  /** A budget: its limit, and whether it is kept per action. */
  datatype Budget = Budget(maxCents: nat, perAction: bool)

  datatype Call = Call(action: Action, spend: nat)

  function Used(b: Budget, t: Totals, action: Action): int {
    if !b.perAction then t.total else if action in t.perAction then t.perAction[action] else 0
  }

  predicate Affordable(b: Budget, t: Totals, c: Call) {
    Used(b, t, c.action) + c.spend <= b.maxCents
  }

  function Charged(b: Budget, t: Totals, c: Call): Totals {
    if b.perAction then t.(perAction := t.perAction[c.action := Used(b, t, c.action) + c.spend])
    else t.(total := t.total + c.spend)
  }

  /** A charge raises the total it counts against by the spend, and touches no other. */
  lemma ChargeMeans(b: Budget, t: Totals, c: Call)
    ensures b.perAction ==>
      && Charged(b, t, c).total == t.total && c.action in Charged(b, t, c).perAction
      && Charged(b, t, c).perAction[c.action] == c.spend + (if c.action in t.perAction then t.perAction[c.action] else 0)
      && forall a :: a != c.action ==>
           && (a in Charged(b, t, c).perAction <==> a in t.perAction)
           && (a in t.perAction ==> Charged(b, t, c).perAction[a] == t.perAction[a])
    ensures !b.perAction ==> Charged(b, t, c).total == t.total + c.spend && Charged(b, t, c).perAction == t.perAction
  {
    hide Affordable;
    if b.perAction {
      var charged := Charged(b, t, c);
      assert charged.perAction == t.perAction[c.action := Used(b, t, c.action) + c.spend];
    }
  }

  /** The in-memory budget of one process. */
  class SpendingBudgetProvider {
    const budget: Budget
    var totals: Totals

    constructor (budget: Budget)
      ensures this.budget == budget && totals == FRESH
    {
      this.budget, totals := budget, FRESH;
    }

    method Decide(action: Action, spend: Option<nat>) returns (allowed: bool)
      modifies this
      ensures allowed <==>
        spend.Some? && budget.maxCents >= spend.value +
          if !budget.perAction then old(totals).total
          else if action in old(totals).perAction then old(totals).perAction[action] else 0
      ensures !allowed ==> totals == old(totals)
      ensures allowed ==> totals == Charged(budget, old(totals), Call(action, spend.value))
    {
      if spend.None? {
        return false;
      }
      if budget.perAction {
        var used := if action in totals.perAction then totals.perAction[action] else 0;
        if used + spend.value > budget.maxCents {
          return false;
        }
        totals := totals.(perAction := totals.perAction[action := used + spend.value]);
        return true;
      }
      if totals.total + spend.value > budget.maxCents {
        return false;
      }
      totals := totals.(total := totals.total + spend.value);
      allowed := true;
    }
  }

  class FileSpendingBudgetProvider {
    const budget: Budget
    var file: StateFile

    constructor (budget: Budget, file: StateFile)
      ensures this.budget == budget && this.file == file
    {
      this.budget, this.file := budget, file;
    }

    /** One whole decision under the lock; `writable` is whether the replace succeeds. */
    method Decide(action: Action, spend: Option<nat>, writable: bool) returns (allowed: bool)
      modifies this
      ensures old(file).Corrupt? || !writable ==> !allowed
      ensures old(file).Missing? && writable ==> (allowed <==> spend.Some? && spend.value <= budget.maxCents)
      ensures old(file).Stored? && writable ==>
        (allowed <==>
           spend.Some? && budget.maxCents >= spend.value +
             if !budget.perAction then old(file).totals.total
             else if action in old(file).totals.perAction then old(file).totals.perAction[action] else 0)
      ensures !allowed ==> file == old(file)
      ensures allowed ==> file == Stored(Charged(budget, Loaded(old(file)), Call(action, spend.value)))
    {
      if spend.None? || file.Corrupt? {
        return false;
      }
      var state := Loaded(file);
      if budget.perAction {
        var used := if action in state.perAction then state.perAction[action] else 0;
        if used + spend.value > budget.maxCents || !writable {
          return false;
        }
        file := Stored(Totals(state.total, state.perAction[action := used + spend.value]));
        return true;
      }
      if state.total + spend.value > budget.maxCents || !writable {
        return false;
      }
      file := Stored(Totals(state.total + spend.value, state.perAction));
      allowed := true;
    }
  }

  // ---- Processes -------------------------------------------------------

  /** Where a process stands in a decision. */
  datatype Phase =
    | Waiting                 // for the lock
    | Locked                  // holds the lock; nothing read
    | HasRead(seen: Totals)   // has read the totals
    | Replaced                // the new totals are on disk; nothing returned
    | Over                    // returned, denied or crashed

  datatype Process = Process(call: Call, phase: Phase)

  /** `returned` are the allowances handed out so far. */
  datatype State = State(file: StateFile, holder: Option<Pid>, processes: map<Pid, Process>, returned: seq<Call>)

  datatype Step = Start(p: Pid, c: Call) | Lock(p: Pid) | Read(p: Pid) | Deny(p: Pid) | Replace(p: Pid) | Return(p: Pid) | Crash(p: Pid)

  function InPhase(s: State, p: Pid, phase: Phase): map<Pid, Process>
    requires p in s.processes
  {
    s.processes[p := s.processes[p].(phase := phase)]
  }

  function Unlocked(s: State, p: Pid): Option<Pid> {
    if s.holder == Some(p) then None else s.holder
  }

  predicate Next(b: Budget, s: State, step: Step, s': State) {
    match step
    case Start(p, c) => p !in s.processes && s' == s.(processes := s.processes[p := Process(c, Waiting)])
    case Lock(p) =>
      && p in s.processes && s.processes[p].phase.Waiting? && s.holder.None?
      && s' == s.(holder := Some(p), processes := InPhase(s, p, Locked))
    case Read(p) =>
      && p in s.processes && s.processes[p].phase.Locked? && !s.file.Corrupt?
      && s' == s.(processes := InPhase(s, p, HasRead(Loaded(s.file))))
    case Deny(p) =>
      && p in s.processes
      && (s.processes[p].phase.HasRead? || (s.processes[p].phase.Locked? && s.file.Corrupt?))
      && (s.processes[p].phase.HasRead? ==> !Affordable(b, s.processes[p].phase.seen, s.processes[p].call))
      && s' == s.(holder := Unlocked(s, p), processes := InPhase(s, p, Over))
    case Replace(p) =>
      && p in s.processes && s.processes[p].phase.HasRead? && Affordable(b, s.processes[p].phase.seen, s.processes[p].call)
      && s' == s.(file := Stored(Charged(b, s.processes[p].phase.seen, s.processes[p].call)), processes := InPhase(s, p, Replaced))
    case Return(p) =>
      && p in s.processes && s.processes[p].phase.Replaced?
      && s' == s.(holder := Unlocked(s, p), processes := InPhase(s, p, Over), returned := s.returned + [s.processes[p].call])
    case Crash(p) =>
      // A dead process loses the lock; what it replaced stays.
      p in s.processes && s' == s.(holder := Unlocked(s, p), processes := InPhase(s, p, Over))
  }

  // ---- What is conserved -----------------------------------------------

  predicate Counts(b: Budget, c: Call, action: Action) { !b.perAction || c.action == action }

  function Counted(b: Budget, c: Call, action: Action): nat {
    if Counts(b, c, action) then c.spend else 0
  }

  /** The spends of the returned allowances that count against `action`. */
  function Spent(b: Budget, calls: seq<Call>, action: Action): nat {
    if calls == [] then 0
    else Spent(b, calls[..|calls| - 1], action) + Counted(b, calls[|calls| - 1], action)
  }

  /** What the lock holder has replaced but not returned yet. */
  function Pending(b: Budget, s: State, action: Action): nat {
    if s.holder.Some? && s.holder.value in s.processes && s.processes[s.holder.value].phase.Replaced?
      && Counts(b, s.processes[s.holder.value].call, action)
    then s.processes[s.holder.value].call.spend else 0
  }

  predicate Busy(phase: Phase) { phase.Locked? || phase.HasRead? || phase.Replaced? }

  /** Only the lock holder is between locking and unlocking, and what it read is on disk. */
  predicate Exclusive(s: State) {
    forall p :: p in s.processes && Busy(s.processes[p].phase) ==> s.holder == Some(p)
  }

  predicate ReadsAreCurrent(s: State) {
    forall p :: p in s.processes && s.processes[p].phase.HasRead? ==>
      !s.file.Corrupt? && s.processes[p].phase.seen == Loaded(s.file)
  }

  ghost predicate Covered(b: Budget, s: State) {
    !s.file.Corrupt? ==>
      forall action :: Spent(b, s.returned, action) + Pending(b, s, action) <= Used(b, Loaded(s.file), action) <= b.maxCents
  }

  ghost predicate Inv(b: Budget, s: State) {
    Exclusive(s) && ReadsAreCurrent(s) && Covered(b, s)
  }

  /** Nothing returned yet, and totals within the budget. */
  ghost predicate Initial(b: Budget, s: State) {
    && s.holder.None? && s.processes == map[] && s.returned == []
    && (!s.file.Corrupt? ==> forall action :: 0 <= Used(b, Loaded(s.file), action) <= b.maxCents)
  }

  ghost predicate Run(b: Budget, states: seq<State>, steps: seq<Step>) {
    && |states| == |steps| + 1 && Initial(b, states[0])
    && forall i :: 0 <= i < |steps| ==> Next(b, states[i], steps[i], states[i + 1])
  }

  lemma SpentMore(b: Budget, calls: seq<Call>, c: Call, action: Action)
    ensures Spent(b, calls + [c], action) == Spent(b, calls, action) + Counted(b, c, action)
  {
    assert (calls + [c])[..|calls|] == calls;
  }

  lemma ChargedUsed(b: Budget, t: Totals, c: Call, action: Action)
    requires Affordable(b, t, c) && Used(b, t, action) <= b.maxCents
    ensures Used(b, Charged(b, t, c), action) == Used(b, t, action) + Counted(b, c, action)
    ensures Used(b, Charged(b, t, c), action) <= b.maxCents
  {
  }

  lemma LocksStayExclusive(b: Budget, s: State, step: Step, s': State)
    requires Exclusive(s) && ReadsAreCurrent(s) && Next(b, s, step, s')
    ensures Exclusive(s') && ReadsAreCurrent(s')
  {
    hide Affordable, Charged;
  }

  /** The pending spend at each step. */
  lemma PendingMoves(b: Budget, s: State, step: Step, s': State, action: Action)
    requires Exclusive(s) && Next(b, s, step, s')
    ensures step.Replace? ==> Pending(b, s, action) == 0 && Pending(b, s', action) == Counted(b, s.processes[step.p].call, action)
    ensures step.Return? ==> Pending(b, s', action) == 0 && Pending(b, s, action) == Counted(b, s.processes[step.p].call, action)
    ensures !step.Replace? ==> Pending(b, s', action) <= Pending(b, s, action)
  {
    hide Affordable, Charged, Loaded;
  }

  lemma CoverageStays(b: Budget, s: State, step: Step, s': State)
    requires Inv(b, s) && Next(b, s, step, s')
    ensures Covered(b, s')
  {
    hide Pending, Spent, Counted, Affordable, Charged, Used;
    if !s'.file.Corrupt? && !s.file.Corrupt? {
      forall action
        ensures Spent(b, s'.returned, action) + Pending(b, s', action) <= Used(b, Loaded(s'.file), action) <= b.maxCents
      {
        PendingMoves(b, s, step, s', action);
        assert Spent(b, s.returned, action) + Pending(b, s, action) <= Used(b, Loaded(s.file), action) <= b.maxCents;
        if step.Replace? {
          ChargedUsed(b, Loaded(s.file), s.processes[step.p].call, action);
        } else if step.Return? {
          SpentMore(b, s.returned, s.processes[step.p].call, action);
        }
      }
    }
  }

  /** Every step, crashes included, keeps the invariant. */
  lemma StepKeeps(b: Budget, s: State, step: Step, s': State)
    requires Inv(b, s) && Next(b, s, step, s')
    ensures Inv(b, s')
  {
    CoverageStays(b, s, step, s');
    hide Covered, Next;
    LocksStayExclusive(b, s, step, s');
  }

  lemma {:induction false} InvariantOverRuns(b: Budget, states: seq<State>, steps: seq<Step>, n: nat)
    requires Run(b, states, steps) && n < |states|
    ensures Inv(b, states[n])
  {
    if n == 0 {
      InitialCovered(b, states[0]);
    } else {
      InvariantOverRuns(b, states, steps, n - 1);
      hide Inv, Next, Initial;
      StepKeeps(b, states[n - 1], steps[n - 1], states[n]);
    }
  }

  lemma InitialCovered(b: Budget, s: State)
    requires Initial(b, s)
    ensures Inv(b, s)
  {
  }

  /** Whatever the interleaving and the crashes: what was handed out is at most what is
      on disk, which is at most the budget, overall or for each action. */
  lemma SpendIsConserved(b: Budget, states: seq<State>, steps: seq<Step>, n: nat, action: Action)
    requires Run(b, states, steps) && n < |states| && !states[n].file.Corrupt?
    ensures Spent(b, states[n].returned, action) <= Used(b, Loaded(states[n].file), action) <= b.maxCents
  {
    InvariantOverRuns(b, states, steps, n);
  }

  // ---- What is not overcharged -----------------------------------------

  /** A run in which no process dies, from no totals. */
  ghost predicate Unbroken(b: Budget, states: seq<State>, steps: seq<Step>) {
    Run(b, states, steps) && states[0].file == Missing && forall i :: 0 <= i < |steps| ==> !steps[i].Crash?
  }

  /** The totals are exactly what was handed out and what is about to be. */
  ghost predicate Exact(b: Budget, s: State) {
    && !s.file.Corrupt? && (s.holder.Some? ==> s.holder.value in s.processes && Busy(s.processes[s.holder.value].phase))
    && forall action :: Used(b, Loaded(s.file), action) == Spent(b, s.returned, action) + Pending(b, s, action)
  }

  lemma PendingStays(b: Budget, s: State, step: Step, s': State, action: Action)
    requires Exclusive(s) && Next(b, s, step, s') && !step.Replace? && !step.Return? && !step.Crash?
    requires s.holder.Some? ==> s.holder.value in s.processes && Busy(s.processes[s.holder.value].phase)
    ensures Pending(b, s', action) == Pending(b, s, action)
  {
    hide Affordable, Charged, Loaded;
  }

  lemma HolderStaysBusy(b: Budget, s: State, step: Step, s': State)
    requires Exclusive(s) && Next(b, s, step, s')
    requires s.holder.Some? ==> s.holder.value in s.processes && Busy(s.processes[s.holder.value].phase)
    ensures s'.holder.Some? ==> s'.holder.value in s'.processes && Busy(s'.processes[s'.holder.value].phase)
  {
    hide Affordable, Charged, Loaded;
  }

  lemma ExactStays(b: Budget, s: State, step: Step, s': State)
    requires Inv(b, s) && Exact(b, s) && Next(b, s, step, s') && !step.Crash?
    ensures Exact(b, s')
  {
    hide Pending, Spent, Counted, Affordable, Charged, Used, Covered;
    HolderStaysBusy(b, s, step, s');
    forall action ensures Used(b, Loaded(s'.file), action) == Spent(b, s'.returned, action) + Pending(b, s', action) {
      PendingMoves(b, s, step, s', action);
      if step.Replace? {
        WithinBudget(b, s, action);
        ChargedUsed(b, Loaded(s.file), s.processes[step.p].call, action);
      } else if step.Return? {
        SpentMore(b, s.returned, s.processes[step.p].call, action);
      } else {
        PendingStays(b, s, step, s', action);
      }
    }
  }

  lemma WithinBudget(b: Budget, s: State, action: Action)
    requires Inv(b, s) && !s.file.Corrupt?
    ensures Used(b, Loaded(s.file), action) <= b.maxCents
  {
  }

  lemma {:induction false} ExactOverRuns(b: Budget, states: seq<State>, steps: seq<Step>, n: nat)
    requires Unbroken(b, states, steps) && n < |states|
    ensures Exact(b, states[n])
  {
    if n > 0 {
      ExactOverRuns(b, states, steps, n - 1);
      InvariantOverRuns(b, states, steps, n - 1);
      hide Inv, Next, Initial, Exact;
      ExactStays(b, states[n - 1], steps[n - 1], states[n]);
    }
  }

  /** A reader allows exactly what still fits, to the last cent, and denies the rest. */
  lemma DecidesExactly(b: Budget, s: State, p: Pid)
    requires p in s.processes && s.processes[p].phase.HasRead?
    ensures var seen, c := s.processes[p].phase.seen, s.processes[p].call;
      var used := if !b.perAction then seen.total else if c.action in seen.perAction then seen.perAction[c.action] else 0;
      && ((exists s' :: Next(b, s, Replace(p), s')) <==> used + c.spend <= b.maxCents)
      && ((exists s' :: Next(b, s, Deny(p), s')) <==> used + c.spend > b.maxCents)
  {
    hide Charged;
    var seen, c := s.processes[p].phase.seen, s.processes[p].call;
    var replaced := s.(file := Stored(Charged(b, seen, c)), processes := InPhase(s, p, Replaced));
    var denied := s.(holder := Unlocked(s, p), processes := InPhase(s, p, Over));
    if Affordable(b, seen, c) {
      assert Next(b, s, Replace(p), replaced);
    } else {
      assert Next(b, s, Deny(p), denied);
    }
  }

  /** While nobody crashes a call is denied only when what was handed out, and it, exceed the budget. */
  lemma DeniedOnlyWhenSpent(b: Budget, states: seq<State>, steps: seq<Step>, n: nat)
    requires Unbroken(b, states, steps) && n < |steps| && steps[n].Deny?
    ensures steps[n].p in states[n].processes
    ensures var c := states[n].processes[steps[n].p].call; Spent(b, states[n].returned, c.action) + c.spend > b.maxCents
  {
    var s, p := states[n], steps[n].p;
    ExactOverRuns(b, states, steps, n);
    InvariantOverRuns(b, states, steps, n);
    assert Next(b, s, steps[n], states[n + 1]);
    hide Run, Spent, Charged, Covered;
    DenierHasNothingPending(b, s, p);
  }

  lemma DenierHasNothingPending(b: Budget, s: State, p: Pid)
    requires Exclusive(s) && p in s.processes && s.processes[p].phase.HasRead?
    ensures Pending(b, s, s.processes[p].call.action) == 0
  {
  }

  /** A crash after the replace leaves a charge that no allowance accounts for: the
      totals may overstate, never understate. */
  lemma CrashOverstates(action: Action)
    ensures var b, c := Budget(10, false), Call(action, 7);
      var s0 := State(Missing, None, map[], []);
      var s1 := State(Missing, None, map[0 := Process(c, Waiting)], []);
      var s2 := State(Missing, Some(0), map[0 := Process(c, Locked)], []);
      var s3 := State(Missing, Some(0), map[0 := Process(c, HasRead(FRESH))], []);
      var s4 := State(Stored(Totals(7, map[])), Some(0), map[0 := Process(c, Replaced)], []);
      var s5 := State(Stored(Totals(7, map[])), None, map[0 := Process(c, Over)], []);
      Run(b, [s0, s1, s2, s3, s4, s5], [Start(0, c), Lock(0), Read(0), Replace(0), Crash(0)])
      && Spent(b, s5.returned, action) == 0 && Used(b, Loaded(s5.file), action) == 7
  {
  }
}
