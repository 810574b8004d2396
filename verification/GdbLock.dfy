// The breakable recursive lock of main/gdb_if.cpp and its scope objects in
// main/gdb_if.hpp. The four functions are methods of a class; the concurrent
// behaviour is a state machine of N tasks whose steps are single tests, reads,
// writes, takes and gives, with any well-nested mix of lock and break scopes.

module GdbLock {
  import opened Common

  /** The FreeRTOS mutex (its holder) and gdb_mutex_lockcount. */
  datatype Shared = Shared(holder: Option<int>, count: int)

  // ---- the four functions, run without interference ------------------------

  function Locked(m: Shared, me: int): Shared {
    Shared(Some(me), m.count + 1)
  }

  function Unlocked(m: Shared, me: int): Shared {
    if m.holder != Some(me) then m
    else if m.count == 1 then Shared(None, 0)
    else m.(count := m.count - 1)
  }

  function Broken(m: Shared, me: int): (Shared, int) {
    if m.holder == Some(me) then (Shared(None, 0), m.count) else (m, 0)
  }

  function Restored(m: Shared, me: int, state: int): Shared {
    if state == 0 then m else Shared(Some(me), state)
  }

  class GdbMutex {
    var holder: Option<int>
    var lockcount: int

    ghost function State(): Shared
      reads this
    {
      Shared(holder, lockcount)
    }

    constructor ()
      ensures State() == Shared(None, 0)
    {
      holder, lockcount := None, 0;
    }

    // A take returns only once the mutex is free.
    method Lock(me: int)
      requires holder == Some(me) || holder == None
      modifies this
      ensures State() == Locked(old(State()), me)
      ensures holder == Some(me) && lockcount == old(lockcount) + 1
    {
      if holder == Some(me) {
        lockcount := lockcount + 1;
      } else {
        holder := Some(me);
        lockcount := lockcount + 1;
      }
    }

    method Unlock(me: int)
      modifies this
      ensures State() == Unlocked(old(State()), me)
      ensures old(holder) != Some(me) ==> holder == old(holder) && lockcount == old(lockcount)
      ensures old(holder) == Some(me) ==>
                lockcount == old(lockcount) - 1 && holder == if lockcount == 0 then None else Some(me)
    {
      if holder == Some(me) {
        lockcount := lockcount - 1;
        if lockcount == 0 {
          holder := None;
        }
      }
    }

    method BreakLock(me: int) returns (state: int)
      modifies this
      ensures (State(), state) == Broken(old(State()), me)
      ensures old(holder) == Some(me) ==> holder == None && lockcount == 0 && state == old(lockcount)
      ensures old(holder) != Some(me) ==> holder == old(holder) && lockcount == old(lockcount) && state == 0
    {
      if holder == Some(me) {
        state := lockcount;
        lockcount := 0;
        holder := None;
      } else {
        state := 0;
      }
    }

    method RestoreLock(me: int, state: int)
      requires holder == None || state == 0
      modifies this
      ensures State() == Restored(old(State()), me, state)
      ensures state != 0 ==> holder == Some(me) && lockcount == state
      ensures state == 0 ==> holder == old(holder) && lockcount == old(lockcount)
    {
      if state != 0 {
        holder := Some(me);
        lockcount := state;
      }
    }
  }

  // ---- N tasks -------------------------------------------------------------

  datatype Scope = LockScope | BreakScope(saved: int)

  /** Where a task is inside one of the functions; a count or state already
      read sits in a local. `dying` marks the break made by destroy(). */
  datatype Pc =
    | Idle
    | LockTest | LockTake | IncRead | IncWrite(n: int)
    | UnlockTest | DecRead | DecWrite(n: int) | ZeroTest | UnlockGive
    | BreakTest(dying: bool) | BreakRead(dying: bool)
    | BreakZero(dying: bool, state: int) | BreakGive(dying: bool, state: int)
    | RestoreTest(state: int) | RestoreTake(state: int) | RestoreWrite(state: int)
    | Dead

  datatype Task = Task(pc: Pc, scopes: seq<Scope>)

  datatype Choice = OpenLock | OpenBreak | CloseScope | Destroy | Go

  /** Lock scopes opened since the innermost break scope. */
  function Depth(scopes: seq<Scope>): nat {
    if |scopes| == 0 || scopes[|scopes| - 1].BreakScope? then 0
    else 1 + Depth(scopes[..|scopes| - 1])
  }

  function Pop(scopes: seq<Scope>): seq<Scope> {
    if |scopes| == 0 then [] else scopes[..|scopes| - 1]
  }

  function Broke(dying: bool, scopes: seq<Scope>, state: int): Task {
    if dying then Task(Dead, scopes) else Task(Idle, scopes + [BreakScope(state)])
  }

  /** One atomic step of a task; a step that cannot be taken changes nothing. */
  function LocalStep(sh: Shared, me: int, t: Task, c: Choice): (Shared, Task) {
    var mine := sh.holder == Some(me);
    match t.pc
    case Idle =>
      (sh, match c
           case OpenLock => t.(pc := LockTest)
           case OpenBreak => t.(pc := BreakTest(false))
           case Destroy => t.(pc := BreakTest(true))
           case CloseScope =>
             if |t.scopes| == 0 then t
             else if t.scopes[|t.scopes| - 1].LockScope? then t.(pc := UnlockTest)
             else t.(pc := RestoreTest(t.scopes[|t.scopes| - 1].saved))
           case Go => t)
    // gdb_lock
    case LockTest => (sh, t.(pc := if mine then IncRead else LockTake))
    case LockTake => if sh.holder == None then (sh.(holder := Some(me)), t.(pc := IncRead)) else (sh, t)
    case IncRead => (sh, t.(pc := IncWrite(sh.count)))
    case IncWrite(n) => (sh.(count := n + 1), Task(Idle, t.scopes + [LockScope]))
    // gdb_unlock
    case UnlockTest => (sh, if mine then t.(pc := DecRead) else Task(Idle, Pop(t.scopes)))
    case DecRead => (sh, t.(pc := DecWrite(sh.count)))
    case DecWrite(n) => (sh.(count := n - 1), t.(pc := ZeroTest))
    case ZeroTest => (sh, if sh.count == 0 then t.(pc := UnlockGive) else Task(Idle, Pop(t.scopes)))
    case UnlockGive => (sh.(holder := None), Task(Idle, Pop(t.scopes)))
    // gdb_breaklock
    case BreakTest(dying) => (sh, if mine then t.(pc := BreakRead(dying)) else Broke(dying, t.scopes, 0))
    case BreakRead(dying) => (sh, t.(pc := BreakZero(dying, sh.count)))
    case BreakZero(dying, state) => (sh.(count := 0), t.(pc := BreakGive(dying, state)))
    case BreakGive(dying, state) => (sh.(holder := None), Broke(dying, t.scopes, state))
    // gdb_restorelock
    case RestoreTest(state) =>
      (sh, if state == 0 then Task(Idle, Pop(t.scopes)) else t.(pc := RestoreTake(state)))
    case RestoreTake(state) =>
      if sh.holder == None then (sh.(holder := Some(me)), t.(pc := RestoreWrite(state))) else (sh, t)
    case RestoreWrite(state) => (sh.(count := state), Task(Idle, Pop(t.scopes)))
    case Dead => (sh, t)
  }

  datatype System = System(shared: Shared, tasks: seq<Task>)

  function Init(n: nat): System {
    System(Shared(None, 0), seq(n, _ => Task(Idle, [])))
  }

  function Next(s: System, me: int, c: Choice): System {
    if 0 <= me < |s.tasks| then
      var (sh, t) := LocalStep(s.shared, me, s.tasks[me], c);
      System(sh, s.tasks[me := t])
    else s
  }

  function Exec(s: System, schedule: seq<(int, Choice)>): System
    decreases |schedule|
  {
    if |schedule| == 0 then s
    else Exec(Next(s, schedule[0].0, schedule[0].1), schedule[1..])
  }

  // ---- the invariant -------------------------------------------------------

  /** Every break scope holds the depth it was opened at. */
  predicate SavedDepths(scopes: seq<Scope>) {
    forall i :: 0 <= i < |scopes| && scopes[i].BreakScope? ==> scopes[i].saved == Depth(scopes[..i])
  }

  predicate TopIs(scopes: seq<Scope>, top: Scope) {
    |scopes| > 0 && scopes[|scopes| - 1] == top
  }

  predicate TaskInv(sh: Shared, me: int, t: Task) {
    var mine := sh.holder == Some(me);
    var depth := Depth(t.scopes);
    && SavedDepths(t.scopes)
    && match t.pc
       case Idle | LockTest | BreakTest(_) => (mine <==> depth > 0) && (mine ==> sh.count == depth)
       case LockTake => !mine && depth == 0
       case IncRead => mine && sh.count == depth
       case IncWrite(n) => mine && sh.count == depth == n
       case UnlockTest | DecRead => mine && sh.count == depth && TopIs(t.scopes, LockScope)
       case DecWrite(n) => mine && sh.count == depth == n && TopIs(t.scopes, LockScope)
       case ZeroTest => mine && sh.count == depth - 1 && TopIs(t.scopes, LockScope)
       case UnlockGive => mine && sh.count == 0 && depth == 1 && TopIs(t.scopes, LockScope)
       case BreakRead(_) => mine && sh.count == depth > 0
       case BreakZero(_, state) => mine && sh.count == depth == state && state > 0
       case BreakGive(_, state) => mine && sh.count == 0 && depth == state && state > 0
       case RestoreTest(state) => !mine && TopIs(t.scopes, BreakScope(state))
       case RestoreTake(state) => !mine && TopIs(t.scopes, BreakScope(state)) && state != 0
       case RestoreWrite(state) => mine && sh.count == 0 && TopIs(t.scopes, BreakScope(state)) && state != 0
       case Dead => !mine
  }

  predicate Inv(s: System) {
    && (s.shared.holder == None ==> s.shared.count == 0)
    && (s.shared.holder.Some? ==> 0 <= s.shared.holder.value < |s.tasks|)
    && forall i :: 0 <= i < |s.tasks| ==> TaskInv(s.shared, i, s.tasks[i])
  }

  /** What a step of another task may do to what `u` sees: nothing while `u`
      holds the mutex, and it neither takes it for `u` nor from `u`. */
  predicate Stable(before: Shared, after: Shared, u: int) {
    && (before.holder == Some(u) <==> after.holder == Some(u))
    && (before.holder == Some(u) ==> after == before)
  }

  lemma SavedAfterPush(scopes: seq<Scope>, top: Scope)
    requires SavedDepths(scopes) && (top.BreakScope? ==> top.saved == Depth(scopes))
    ensures SavedDepths(scopes + [top])
    ensures Depth(scopes + [top]) == if top.LockScope? then Depth(scopes) + 1 else 0
  {
    var pushed := scopes + [top];
    assert pushed[..|scopes|] == scopes;
    forall i | 0 <= i < |pushed| && pushed[i].BreakScope?
      ensures pushed[i].saved == Depth(pushed[..i])
    {
      if i < |scopes| {
        assert pushed[..i] == scopes[..i];
      }
    }
  }

  lemma SavedAfterPop(scopes: seq<Scope>)
    requires SavedDepths(scopes) && |scopes| > 0
    ensures SavedDepths(Pop(scopes))
    ensures scopes[|scopes| - 1].LockScope? ==> Depth(Pop(scopes)) == Depth(scopes) - 1
    ensures scopes[|scopes| - 1].BreakScope? ==> Depth(Pop(scopes)) == scopes[|scopes| - 1].saved
  {
    var popped := Pop(scopes);
    forall i | 0 <= i < |popped| && popped[i].BreakScope?
      ensures popped[i].saved == Depth(popped[..i])
    {
      assert popped[..i] == scopes[..i];
    }
  }

  predicate Kept(sh: Shared, me: int, after: (Shared, Task)) {
    && TaskInv(after.0, me, after.1)
    && (after.0.holder == None ==> after.0.count == 0)
    && (after.0.holder == None || after.0.holder == sh.holder || after.0.holder == Some(me))
  }

  lemma IdleStepKept(sh: Shared, me: int, t: Task, c: Choice)
    requires TaskInv(sh, me, t) && (sh.holder == None ==> sh.count == 0)
    requires t.pc.Idle? || t.pc.Dead?
    ensures Kept(sh, me, LocalStep(sh, me, t, c))
  {
  }

  lemma LockStepKept(sh: Shared, me: int, t: Task, c: Choice)
    requires TaskInv(sh, me, t) && (sh.holder == None ==> sh.count == 0)
    requires t.pc.LockTest? || t.pc.LockTake? || t.pc.IncRead? || t.pc.IncWrite?
    ensures Kept(sh, me, LocalStep(sh, me, t, c))
  {
    SavedAfterPush(t.scopes, LockScope);
  }

  lemma UnlockStepKept(sh: Shared, me: int, t: Task, c: Choice)
    requires TaskInv(sh, me, t) && (sh.holder == None ==> sh.count == 0)
    requires t.pc.UnlockTest? || t.pc.DecRead? || t.pc.DecWrite? || t.pc.ZeroTest? || t.pc.UnlockGive?
    ensures Kept(sh, me, LocalStep(sh, me, t, c))
  {
    SavedAfterPop(t.scopes);
  }

  lemma BreakStepKept(sh: Shared, me: int, t: Task, c: Choice)
    requires TaskInv(sh, me, t) && (sh.holder == None ==> sh.count == 0)
    requires t.pc.BreakTest? || t.pc.BreakRead? || t.pc.BreakZero? || t.pc.BreakGive?
    ensures Kept(sh, me, LocalStep(sh, me, t, c))
  {
    SavedAfterPush(t.scopes, BreakScope(Depth(t.scopes)));
  }

  lemma RestoreStepKept(sh: Shared, me: int, t: Task, c: Choice)
    requires TaskInv(sh, me, t) && (sh.holder == None ==> sh.count == 0)
    requires t.pc.RestoreTest? || t.pc.RestoreTake? || t.pc.RestoreWrite?
    ensures Kept(sh, me, LocalStep(sh, me, t, c))
  {
    SavedAfterPop(t.scopes);
  }

  lemma LocalStepKept(sh: Shared, me: int, t: Task, c: Choice)
    requires TaskInv(sh, me, t) && (sh.holder == None ==> sh.count == 0)
    ensures Kept(sh, me, LocalStep(sh, me, t, c))
  {
    match t.pc
    case Idle | Dead => IdleStepKept(sh, me, t, c);
    case LockTest | LockTake | IncRead | IncWrite(_) => LockStepKept(sh, me, t, c);
    case UnlockTest | DecRead | DecWrite(_) | ZeroTest | UnlockGive => UnlockStepKept(sh, me, t, c);
    case BreakTest(_) | BreakRead(_) | BreakZero(_, _) | BreakGive(_, _) => BreakStepKept(sh, me, t, c);
    case RestoreTest(_) | RestoreTake(_) | RestoreWrite(_) => RestoreStepKept(sh, me, t, c);
  }

  /** A task's "am I the holder" test, and the counter while it is the holder,
      are stable under every step of the other tasks. */
  lemma OthersAreStable(sh: Shared, me: int, t: Task, c: Choice, u: int)
    requires TaskInv(sh, me, t) && u != me
    ensures Stable(sh, LocalStep(sh, me, t, c).0, u)
  {
  }

  lemma NextKeepsInv(s: System, me: int, c: Choice)
    requires Inv(s)
    ensures Inv(Next(s, me, c))
  {
    if 0 <= me < |s.tasks| {
      var s' := Next(s, me, c);
      LocalStepKept(s.shared, me, s.tasks[me], c);
      forall i | 0 <= i < |s.tasks|
        ensures TaskInv(s'.shared, i, s'.tasks[i])
      {
        if i != me {
          OthersAreStable(s.shared, me, s.tasks[me], c, i);
        }
      }
    }
  }

  lemma {:induction false} ExecKeepsInv(s: System, schedule: seq<(int, Choice)>)
    requires Inv(s)
    ensures Inv(Exec(s, schedule)) && |Exec(s, schedule).tasks| == |s.tasks|
    decreases |schedule|
  {
    if |schedule| > 0 {
      NextKeepsInv(s, schedule[0].0, schedule[0].1);
      ExecKeepsInv(Next(s, schedule[0].0, schedule[0].1), schedule[1..]);
    }
  }

  lemma ReachableInv(n: nat, schedule: seq<(int, Choice)>)
    ensures Inv(Exec(Init(n), schedule)) && |Exec(Init(n), schedule).tasks| == n
  {
    ExecKeepsInv(Init(n), schedule);
  }

  // ---- the main results, for every schedule of every number of tasks -------

  /** A task that is between calls and inside a lock scope not broken since. */
  predicate Inside(t: Task) {
    t.pc.Idle? && Depth(t.scopes) > 0
  }

  lemma MutualExclusion(n: nat, schedule: seq<(int, Choice)>, t: int, u: int)
    requires 0 <= t < n && 0 <= u < n
    ensures var s := Exec(Init(n), schedule);
            && |s.tasks| == n
            && (Inside(s.tasks[t]) && Inside(s.tasks[u]) ==> t == u)
  {
    ReachableInv(n, schedule);
  }

  /** Between calls, a task holds the mutex exactly when it is inside a lock
      scope, and then the counter is its lock depth since its innermost break. */
  lemma CounterIsDepth(n: nat, schedule: seq<(int, Choice)>, t: int)
    requires 0 <= t < n
    ensures var s := Exec(Init(n), schedule);
            && |s.tasks| == n
            && (s.tasks[t].pc.Idle? ==>
                  && (s.shared.holder == Some(t) <==> Inside(s.tasks[t]))
                  && (Inside(s.tasks[t]) ==> s.shared.count == Depth(s.tasks[t].scopes)))
  {
    ReachableInv(n, schedule);
  }

  /** A task waiting in select (its innermost scope is a break) and a destroyed
      task never hold the mutex. */
  lemma WaitingOrDeadNeverHolds(n: nat, schedule: seq<(int, Choice)>, t: int)
    requires 0 <= t < n
    ensures var s := Exec(Init(n), schedule);
            && |s.tasks| == n
            && ((s.tasks[t].pc.Idle? && |s.tasks[t].scopes| > 0
                 && s.tasks[t].scopes[|s.tasks[t].scopes| - 1].BreakScope?) || s.tasks[t].pc.Dead?
                ==> s.shared.holder != Some(t))
  {
    ReachableInv(n, schedule);
  }

  /** Closing a break scope puts back the depth its opening took away: when the
      last step of the restore is done, the task stands at the depth saved, and
      holds the mutex with that count unless the depth was zero. */
  lemma RestoreGivesBackTheDepth(n: nat, schedule: seq<(int, Choice)>, t: int, c: Choice)
    requires 0 <= t < n
    requires |Exec(Init(n), schedule).tasks| == n
    requires var pc := Exec(Init(n), schedule).tasks[t].pc;
             pc.RestoreWrite? || (pc.RestoreTest? && pc.state == 0)
    ensures var s := Exec(Init(n), schedule);
            var after := Next(s, t, c);
            var saved := s.tasks[t].pc.state;
            && TopIs(s.tasks[t].scopes, BreakScope(saved))
            && after.tasks[t] == Task(Idle, Pop(s.tasks[t].scopes))
            && Depth(after.tasks[t].scopes) == saved
            && (saved > 0 ==> after.shared == Shared(Some(t), saved))
            && (saved == 0 ==> after.shared.holder != Some(t))
  {
    ReachableInv(n, schedule);
    NextKeepsInv(Exec(Init(n), schedule), t, c);
    SavedAfterPop(Exec(Init(n), schedule).tasks[t].scopes);
  }

  /** Once every task has closed all its scopes or been destroyed, the mutex is
      free and the counter 0. */
  lemma AllClosedMeansFree(n: nat, schedule: seq<(int, Choice)>)
    requires forall t :: 0 <= t < |Exec(Init(n), schedule).tasks| ==>
               var task := Exec(Init(n), schedule).tasks[t];
               task.pc.Dead? || (task.pc.Idle? && task.scopes == [])
    ensures Exec(Init(n), schedule).shared == Shared(None, 0)
  {
    ReachableInv(n, schedule);
    var s := Exec(Init(n), schedule);
    assert s.shared.holder.Some? ==> TaskInv(s.shared, s.shared.holder.value, s.tasks[s.shared.holder.value]);
  }

  /** No reachable state is stuck while a task is alive. */
  lemma NoDeadlock(n: nat, schedule: seq<(int, Choice)>, alive: int)
    requires 0 <= alive < n
    requires |Exec(Init(n), schedule).tasks| == n && !Exec(Init(n), schedule).tasks[alive].pc.Dead?
    ensures exists t, c :: Next(Exec(Init(n), schedule), t, c) != Exec(Init(n), schedule)
  {
    ReachableInv(n, schedule);
    var s := Exec(Init(n), schedule);
    var t := if s.shared.holder.Some? then s.shared.holder.value else alive;
    assert TaskInv(s.shared, t, s.tasks[t]);
    assert Next(s, t, OpenLock).tasks[t] != s.tasks[t];
  }

  // ---- jumps out of lock scopes --------------------------------------------

  /** raise_exception jumps past the destructors of the lock scopes between the raise
      and the block that catches: gdb_unlock is not called for them. Lock scopes are
      all alike, so what a task has lost can be kept at the bottom of its stack:
      `lost[t]` scopes that it will never close. */
  datatype JumpSystem = JumpSystem(s: System, lost: seq<nat>)

  /** Jump(keep): to a block inside `keep` scopes of the task. No break scope is open,
      as nothing is raised while a client waits for input. */
  datatype JumpChoice = Step(c: Choice) | Jump(keep: nat)

  function NextJump(j: JumpSystem, me: int, jc: JumpChoice): JumpSystem
    requires |j.lost| == |j.s.tasks|
  {
    if !(0 <= me < |j.s.tasks|) then j
    else
      var t := j.s.tasks[me];
      match jc
      case Step(c) =>
        if t.pc.Idle? && c == CloseScope && |t.scopes| <= j.lost[me] then j
        else j.(s := Next(j.s, me, c))
      case Jump(keep) =>
        if t.pc.Idle? && Depth(t.scopes) == |t.scopes| && j.lost[me] + keep <= |t.scopes|
        then j.(lost := j.lost[me := |t.scopes| - keep])
        else j
  }

  function ExecJumps(j: JumpSystem, schedule: seq<(int, JumpChoice)>): (r: JumpSystem)
    requires |j.lost| == |j.s.tasks|
    ensures |r.lost| == |r.s.tasks|
    decreases |schedule|
  {
    if |schedule| == 0 then j
    else ExecJumps(NextJump(j, schedule[0].0, schedule[0].1), schedule[1..])
  }

  function InitJumps(n: nat): JumpSystem {
    JumpSystem(Init(n), seq(n, _ => 0))
  }

  /** A task is closing one of its own scopes. */
  predicate Closing(pc: Pc) {
    || pc.UnlockTest? || pc.DecRead? || pc.DecWrite? || pc.ZeroTest? || pc.UnlockGive?
    || pc.RestoreTest? || pc.RestoreTake? || pc.RestoreWrite?
  }

  predicate LostBelow(t: Task, lost: nat) {
    && lost <= |t.scopes|
    && (Closing(t.pc) ==> lost < |t.scopes|)
    && forall i :: 0 <= i < lost ==> t.scopes[i].LockScope?
  }

  predicate JumpInv(j: JumpSystem) {
    && Inv(j.s) && |j.lost| == |j.s.tasks|
    && forall t :: 0 <= t < |j.lost| ==> LostBelow(j.s.tasks[t], j.lost[t])
  }

  lemma {:induction false} DepthOfLocks(scopes: seq<Scope>)
    ensures Depth(scopes) <= |scopes|
    ensures Depth(scopes) == |scopes| <==> forall i :: 0 <= i < |scopes| ==> scopes[i].LockScope?
  {
    if |scopes| > 0 {
      var rest := scopes[..|scopes| - 1];
      DepthOfLocks(rest);
      assert forall i :: 0 <= i < |rest| ==> rest[i] == scopes[i];
    }
  }

  lemma StepKeepsLost(sh: Shared, me: int, t: Task, c: Choice, lost: nat)
    requires LostBelow(t, lost) && !(t.pc.Idle? && c == CloseScope && |t.scopes| <= lost)
    ensures LostBelow(LocalStep(sh, me, t, c).1, lost)
  {
  }

  lemma NextJumpKeepsInv(j: JumpSystem, me: int, jc: JumpChoice)
    requires JumpInv(j)
    ensures JumpInv(NextJump(j, me, jc))
  {
    if 0 <= me < |j.s.tasks| {
      var t := j.s.tasks[me];
      DepthOfLocks(t.scopes);
      match jc {
        case Step(c) =>
          NextKeepsInv(j.s, me, c);
          if !(t.pc.Idle? && c == CloseScope && |t.scopes| <= j.lost[me]) {
            StepKeepsLost(j.s.shared, me, t, c, j.lost[me]);
          }
        case Jump(keep) =>
      }
    }
  }

  lemma {:induction false} JumpsKeepInv(j: JumpSystem, schedule: seq<(int, JumpChoice)>)
    requires JumpInv(j)
    ensures JumpInv(ExecJumps(j, schedule)) && |ExecJumps(j, schedule).lost| == |j.lost|
    decreases |schedule|
  {
    hide JumpInv, NextJump;
    if |schedule| > 0 {
      JumpSizes(j);
      NextJumpKeepsInv(j, schedule[0].0, schedule[0].1);
      JumpSizes(NextJump(j, schedule[0].0, schedule[0].1));
      SameSize(j, schedule[0].0, schedule[0].1);
      JumpsKeepInv(NextJump(j, schedule[0].0, schedule[0].1), schedule[1..]);
    }
  }

  lemma JumpSizes(j: JumpSystem)
    requires JumpInv(j)
    ensures |j.lost| == |j.s.tasks|
  {
  }

  lemma SameSize(j: JumpSystem, me: int, jc: JumpChoice)
    requires |j.lost| == |j.s.tasks|
    ensures |NextJump(j, me, jc).lost| == |j.lost|
  {
  }

  /** The task has closed what is left of its own, or is destroyed. */
  predicate Finished(t: Task, lost: nat) {
    t.pc.Dead? || (t.pc.Idle? && |t.scopes| == lost)
  }

  /** For every schedule of steps and jumps: when all tasks have closed the scopes they
      can still close, the mutex is free if and only if no live task has jumped out of
      a lock scope; otherwise one such task has it for good, with the lost depth. */
  lemma AllClosedMeansFreeExactly(n: nat, schedule: seq<(int, JumpChoice)>)
    requires var j := ExecJumps(InitJumps(n), schedule);
             forall t :: 0 <= t < |j.lost| ==> Finished(j.s.tasks[t], j.lost[t])
    ensures var j := ExecJumps(InitJumps(n), schedule);
            && |j.lost| == |j.s.tasks| == n
            && (j.s.shared == Shared(None, 0) <==>
                  forall t :: 0 <= t < n ==> j.s.tasks[t].pc.Dead? || j.lost[t] == 0)
            && (j.s.shared != Shared(None, 0) ==>
                  exists t :: 0 <= t < n && !j.s.tasks[t].pc.Dead? && j.lost[t] > 0
                              && j.s.shared == Shared(Some(t), j.lost[t]))
  {
    var j := ExecJumps(InitJumps(n), schedule);
    JumpsKeepInv(InitJumps(n), schedule);
    forall t | 0 <= t < n
      ensures !j.s.tasks[t].pc.Dead? ==> Depth(j.s.tasks[t].scopes) == j.lost[t]
      ensures TaskInv(j.s.shared, t, j.s.tasks[t])
    {
      DepthOfLocks(j.s.tasks[t].scopes);
      assert LostBelow(j.s.tasks[t], j.lost[t]);
    }
    var holder := j.s.shared.holder;
    if holder.Some? {
      var h := holder.value;
      assert TaskInv(j.s.shared, h, j.s.tasks[h]) && Finished(j.s.tasks[h], j.lost[h]);
      assert !j.s.tasks[h].pc.Dead? && j.lost[h] > 0;
    } else {
      assert j.s.shared == Shared(None, 0);
      forall t | 0 <= t < n ensures j.s.tasks[t].pc.Dead? || j.lost[t] == 0 {
        assert TaskInv(j.s.shared, t, j.s.tasks[t]) && Finished(j.s.tasks[t], j.lost[t]);
      }
    }
  }

  /** A task that lost a lock scope holds the mutex whenever it is not waiting for
      input, whether or not it has a scope of its own. */
  lemma LostMeansHeld(n: nat, schedule: seq<(int, JumpChoice)>, t: int)
    requires 0 <= t < n
    ensures var j := ExecJumps(InitJumps(n), schedule);
            && |j.lost| == |j.s.tasks| == n
            && (j.lost[t] > 0 && j.s.tasks[t].pc.Idle? && Depth(j.s.tasks[t].scopes) == |j.s.tasks[t].scopes| ==>
                  j.s.shared == Shared(Some(t), |j.s.tasks[t].scopes|) && |j.s.tasks[t].scopes| >= j.lost[t])
  {
    JumpsKeepInv(InitJumps(n), schedule);
  }

  // ---- the functions as runs of the machine --------------------------------

  /** `n` steps of one task with nobody else scheduled: first its choice, then
      the steps that follow. */
  function Alone(sh: Shared, me: int, t: Task, c: Choice, n: nat): (Shared, Task)
    decreases n
  {
    if n == 0 then (sh, t)
    else var (sh', t') := LocalStep(sh, me, t, c); Alone(sh', me, t', Go, n - 1)
  }

  lemma {:induction false} AloneSplit(sh: Shared, me: int, t: Task, c: Choice, n: nat, m: nat)
    requires n > 0
    ensures var (sh', t') := Alone(sh, me, t, c, n);
            Alone(sh, me, t, c, n + m) == Alone(sh', me, t', Go, m)
    decreases n
  {
    if n > 1 {
      var (sh', t') := LocalStep(sh, me, t, c);
      AloneSplit(sh', me, t', Go, n - 1, m);
    }
  }

  function AloneSchedule(me: int, c: Choice, n: nat): seq<(int, Choice)>
    decreases n
  {
    if n == 0 then [] else [(me, c)] + AloneSchedule(me, Go, n - 1)
  }

  lemma {:induction false} AloneIsARun(s: System, me: int, c: Choice, n: nat)
    requires 0 <= me < |s.tasks|
    ensures var (sh, t) := Alone(s.shared, me, s.tasks[me], c, n);
            Exec(s, AloneSchedule(me, c, n)) == System(sh, s.tasks[me := t])
    decreases n
  {
    if n > 0 {
      AloneIsARun(Next(s, me, c), me, Go, n - 1);
      assert AloneSchedule(me, c, n)[1..] == AloneSchedule(me, Go, n - 1);
    }
  }

  /** Run alone, the steps of each function do to the mutex and the counter
      exactly what the function does, and to the scopes what its caller sees. */
  lemma LockAlone(sh: Shared, me: int, t: Task)
    requires t.pc.Idle? && (sh.holder == Some(me) || sh.holder == None)
    ensures Alone(sh, me, t, OpenLock, if sh.holder == Some(me) then 4 else 5)
         == (Locked(sh, me), Task(Idle, t.scopes + [LockScope]))
  {
    AloneSplit(sh, me, t, OpenLock, if sh.holder == Some(me) then 2 else 3, 2);
    var (sh2, t2) := Alone(sh, me, t, OpenLock, if sh.holder == Some(me) then 2 else 3);
    assert (sh2, t2) == (sh.(holder := Some(me)), t.(pc := IncRead));
    assert Alone(sh2, me, t2, Go, 2) == (Locked(sh, me), Task(Idle, t.scopes + [LockScope]));
  }

  lemma UnlockAlone(sh: Shared, me: int, t: Task)
    requires t.pc.Idle? && TopIs(t.scopes, LockScope)
    ensures Alone(sh, me, t, CloseScope, if sh.holder != Some(me) then 2 else if sh.count == 1 then 6 else 5)
         == (Unlocked(sh, me), Task(Idle, Pop(t.scopes)))
  {
    if sh.holder == Some(me) {
      AloneSplit(sh, me, t, CloseScope, 3, if sh.count == 1 then 3 else 2);
      var (sh3, t3) := Alone(sh, me, t, CloseScope, 3);
      assert (sh3, t3) == (sh, t.(pc := DecWrite(sh.count)));
      assert Alone(sh3, me, t3, Go, if sh.count == 1 then 3 else 2) == (Unlocked(sh, me), Task(Idle, Pop(t.scopes)));
    } else {
      assert Alone(sh, me, t, CloseScope, 2) == (sh, Task(Idle, Pop(t.scopes)));
    }
  }

  /** The first three steps of gdb_breaklock for the holder, and the other two. */
  lemma BreakStarts(sh: Shared, me: int, t: Task, dying: bool)
    requires t.pc.Idle? && sh.holder == Some(me)
    ensures Alone(sh, me, t, if dying then Destroy else OpenBreak, 3) == (sh, t.(pc := BreakZero(dying, sh.count)))
  {
    var c := if dying then Destroy else OpenBreak;
    var test, read := t.(pc := BreakTest(dying)), t.(pc := BreakRead(dying));
    var zero := t.(pc := BreakZero(dying, sh.count));
    assert LocalStep(sh, me, t, c) == (sh, test);
    assert LocalStep(sh, me, test, Go) == (sh, read) && LocalStep(sh, me, read, Go) == (sh, zero);
    hide LocalStep;
    assert Alone(sh, me, read, Go, 1) == Alone(sh, me, zero, Go, 0) == (sh, zero);
    assert Alone(sh, me, test, Go, 2) == Alone(sh, me, read, Go, 1);
  }

  lemma BreakGives(sh: Shared, me: int, t: Task, dying: bool)
    requires t.pc == BreakZero(dying, sh.count)
    ensures Alone(sh, me, t, Go, 2) == (Shared(None, 0), Broke(dying, t.scopes, sh.count))
  {
    var give, end := t.(pc := BreakGive(dying, sh.count)), Broke(dying, t.scopes, sh.count);
    assert LocalStep(sh, me, t, Go) == (sh.(count := 0), give);
    assert LocalStep(sh.(count := 0), me, give, Go) == (Shared(None, 0), end);
    hide LocalStep;
    assert Alone(sh.(count := 0), me, give, Go, 1) == Alone(Shared(None, 0), me, end, Go, 0) == (Shared(None, 0), end);
  }

  lemma BreakAlone(sh: Shared, me: int, t: Task)
    requires t.pc.Idle?
    ensures Alone(sh, me, t, OpenBreak, if sh.holder == Some(me) then 5 else 2)
         == (Broken(sh, me).0, Task(Idle, t.scopes + [BreakScope(Broken(sh, me).1)]))
  {
    if sh.holder == Some(me) {
      AloneSplit(sh, me, t, OpenBreak, 3, 2);
      BreakStarts(sh, me, t, false);
      BreakGives(sh, me, t.(pc := BreakZero(false, sh.count)), false);
      hide Alone;
    } else {
      assert Alone(sh, me, t, OpenBreak, 2) == (sh, Task(Idle, t.scopes + [BreakScope(0)]));
    }
  }

  /** destroy() breaks the lock and the task is no more. */
  lemma DestroyAlone(sh: Shared, me: int, t: Task)
    requires t.pc.Idle?
    ensures Alone(sh, me, t, Destroy, if sh.holder == Some(me) then 5 else 2)
         == (if sh.holder == Some(me) then Shared(None, 0) else sh, Task(Dead, t.scopes))
  {
    if sh.holder == Some(me) {
      AloneSplit(sh, me, t, Destroy, 3, 2);
      BreakStarts(sh, me, t, true);
      BreakGives(sh, me, t.(pc := BreakZero(true, sh.count)), true);
      hide Alone;
    } else {
      assert Alone(sh, me, t, Destroy, 2) == (sh, Task(Dead, t.scopes));
    }
  }

  /** A destroyed task stays so, whatever is scheduled. */
  lemma {:induction false} DeadStaysDead(s: System, schedule: seq<(int, Choice)>, t: nat)
    requires t < |s.tasks| && s.tasks[t].pc.Dead?
    ensures |Exec(s, schedule).tasks| == |s.tasks| && Exec(s, schedule).tasks[t] == s.tasks[t]
    decreases |schedule|
  {
    if |schedule| > 0 {
      DeadStaysDead(Next(s, schedule[0].0, schedule[0].1), schedule[1..], t);
    }
  }

  lemma RestoreAlone(sh: Shared, me: int, t: Task, state: int)
    requires t.pc.Idle? && TopIs(t.scopes, BreakScope(state)) && (sh.holder == None || state == 0)
    ensures Alone(sh, me, t, CloseScope, if state == 0 then 2 else 4)
         == (Restored(sh, me, state), Task(Idle, Pop(t.scopes)))
  {
    if state != 0 {
      AloneSplit(sh, me, t, CloseScope, 2, 2);
      var (sh2, t2) := Alone(sh, me, t, CloseScope, 2);
      assert (sh2, t2) == (sh, t.(pc := RestoreTake(state)));
      assert Alone(sh2, me, t2, Go, 2) == (Restored(sh, me, state), Task(Idle, Pop(t.scopes)));
    } else {
      assert Alone(sh, me, t, CloseScope, 2) == (sh, Task(Idle, Pop(t.scopes)));
    }
  }
}
