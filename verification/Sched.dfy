/** The scheduler as a state machine: timer ticks, exec, sleep, waitpid, exit and kill as
    atomic steps over the process list and the trap frame. One thread per process. */
module Sched {
  import opened Basics

  /** TrapFrame; `rest` holds the registers no step looks at. */
  datatype TrapFrame = TrapFrame(rax: nat, rbx: nat, rcx: nat, rdx: nat, rip: nat, cs: nat, rflags: nat, rsp: nat, ss: nat, rest: seq<nat>)
  {
    predicate User() { cs % 4 != 0 }
  }

  const FAILED: nat := 0xFFFF_FFFF_FFFF_FFFF     // (u64)-1

  datatype ThreadState = Ready | Blocked | Dead

  /** A process with its one thread. `dead` is the process state, `state` the thread's. */
  datatype Proc = Proc(dead: bool, state: ThreadState, wakeup: nat, wait: nat, saved: TrapFrame, has: bool)

  /** What the CPU is doing: running the current thread, spinning in the waiting loop of
      SYS_WAITPID, or halted for good. */
  datatype Mode = Running | Waiting(target: nat) | Halted

  /** The kernel's scheduling state. `order` is g_process_list, by pid; pid 0 is no process. */
  datatype State = State(order: seq<nat>, table: map<nat, Proc>, current: nat, frame: TrapFrame, tick: nat, nextPid: nat, mode: Mode)

  // ---- the routines ----------------------------------------------------------

  /** PsFindProcess finds nothing, or a terminated process. */
  predicate Gone(table: map<nat, Proc>, pid: nat) { pid !in table || table[pid].dead }

  /** What a timer tick does to one thread. */
  function Woken(table: map<nat, Proc>, p: Proc, tick: nat): Proc {
    if p.dead || !p.state.Blocked? then p
    else if p.wakeup > 0 && tick >= p.wakeup then p.(state := Ready, wakeup := 0)
    else if p.wait != 0 && Gone(table, p.wait) then p.(state := Ready, wait := 0)
    else p
  }

  function WokenAll(table: map<nat, Proc>, tick: nat): map<nat, Proc> {
    map pid | pid in table :: Woken(table, table[pid], tick)
  }

  /** What the end of process `pid` does to one thread. */
  function Released(p: Proc, pid: nat): Proc {
    if p.state.Blocked? && p.wait == pid then p.(state := Ready, wait := 0) else p
  }

  function ReleasedAll(table: map<nat, Proc>, pid: nat): map<nat, Proc> {
    map x | x in table :: Released(table[x], pid)
  }

  predicate Runnable(table: map<nat, Proc>, pid: nat, current: nat) {
    pid in table && !table[pid].dead && table[pid].state.Ready? && pid != current && table[pid].has
  }

  /** PsScheduleNext: the first runnable thread of the list. */
  function Next(order: seq<nat>, table: map<nat, Proc>, current: nat): (r: Option<nat>)
    ensures r.Some? ==> r.value in order && Runnable(table, r.value, current)
    ensures r.None? ==> forall i :: 0 <= i < |order| ==> !Runnable(table, order[i], current)
  {
    if order == [] then None
    else if Runnable(table, order[0], current) then Some(order[0])
    else Next(order[1..], table, current)
  }

  /** PsCleanupTerminated: the list and the table without terminated processes. */
  function Alive(order: seq<nat>, table: map<nat, Proc>): (o: seq<nat>)
    ensures forall x :: x in o <==> x in order && x in table && !table[x].dead
  {
    if order == [] then []
    else (if order[0] in table && !table[order[0]].dead then [order[0]] else []) + Alive(order[1..], table)
  }

  function Reaped(s: State): State {
    s.(order := Alive(s.order, s.table), table := map pid | pid in s.table && !s.table[pid].dead :: s.table[pid])
  }

  /** Loads the frame of thread `pid` and makes it current. */
  function SwitchTo(s: State, pid: nat): State
    requires pid in s.table
  {
    s.(frame := s.table[pid].saved, table := s.table[pid := s.table[pid].(has := false)], current := pid, mode := Running)
  }

  /** The current thread with its frame saved, blocked for one reason. */
  function Parked(s: State, wakeup: nat, wait: nat, frame: TrapFrame): State
    requires s.current in s.table
  {
    s.(table := s.table[s.current := s.table[s.current].(state := Blocked, wakeup := wakeup, wait := wait, saved := frame, has := true)])
  }

  function Answer(s: State, ret: nat): State { s.(frame := s.frame.(rax := ret)) }

  // ---- the steps -------------------------------------------------------------

  /** PitIrqHandler. In the waiting loop, or halted, the interrupted code is the kernel's. */
  function AfterTick(s: State): State {
    var s1 := s.(tick := s.tick + 1, table := WokenAll(s.table, s.tick + 1));
    if !s.mode.Running? || s.current !in s1.table || s1.table[s.current].dead || !s.frame.User() then s1
    else
      var s2 := Reaped(s1);
      match Next(s2.order, s2.table, s2.current)
      case None => s2
      case Some(n) => SwitchTo(Preempted(s2), n)
  }

  /** The current thread, if ready, with its frame saved. */
  function Preempted(s: State): State {
    if s.current in s.table && s.table[s.current].state.Ready? then
      s.(table := s.table[s.current := s.table[s.current].(saved := s.frame, has := true)])
    else s
  }

  /** What the loader gave SYS_EXEC: nothing (perhaps with a pid used up), or a program. */
  datatype Load = Failure(burned: bool) | Program(rip: nat, rsp: nat, rbx: nat, rcx: nat)

  function ChildFrame(l: Load): TrapFrame
    requires l.Program?
  {
    TrapFrame(0, l.rbx, l.rcx, 0, l.rip, 0x2B, 0x202, l.rsp, 0x23, seq(13, i => 0))
  }

  /** SYS_EXEC: the parent waits for the child, whose pid it will find in rax. */
  function AfterExec(s: State, l: Load): State {
    match l
    case Failure(burned) => Answer(s.(nextPid := if burned then s.nextPid + 1 else s.nextPid), FAILED)
    case Program(_, _, _, _) =>
      var child := s.nextPid;
      var s1 := s.(nextPid := child + 1, order := [child] + s.order,
                   table := s.table[child := Proc(false, Ready, 0, 0, ChildFrame(l), true)]);
      if s.current !in s.table then Answer(s1, child)
      else SwitchTo(Parked(s1, 0, child, s.frame.(rax := child)), child)
  }

  /** SYS_SLEEP, with rbx milliseconds. With nobody else to run, the thread goes on at once. */
  function AfterSleep(s: State): State {
    if s.current !in s.table then Answer(s, FAILED)
    else
      var ticks := if s.frame.rbx / 10 == 0 then 1 else s.frame.rbx / 10;
      var s1 := Parked(s, s.tick + ticks, s.table[s.current].wait, s.frame);
      match Next(s1.order, s1.table, s1.current)
      case None => s1.(table := s1.table[s1.current := s1.table[s1.current].(state := Ready, has := false)])
      case Some(n) => SwitchTo(s1, n)
  }

  /** SYS_WAITPID for the process in rbx. */
  function AfterWaitPid(s: State): State {
    var target := s.frame.rbx;
    if Gone(s.table, target) then Answer(if target in s.table then Reaped(s) else s, 0)
    else if s.current !in s.table then Answer(s, FAILED)
    else
      match Next(s.order, s.table, s.current)
      case None => Parked(s, 0, target, s.frame).(mode := Waiting(target))
      case Some(n) => SwitchTo(Parked(s, 0, target, s.frame), n)
  }

  /** One turn of the waiting loop, after its HLT. */
  function AfterHlt(s: State): State {
    if !s.mode.Waiting? then s
    else
      match Next(s.order, s.table, s.current)
      case Some(n) => SwitchTo(s, n)
      case None =>
        if Gone(s.table, s.mode.target) then Resumed(Reaped(s)) else s
  }

  /** The waiting thread goes on, with 0 in rax. */
  function Resumed(s: State): State {
    if s.current !in s.table then s
    else
      var p := s.table[s.current];
      Answer(s.(frame := p.saved, table := s.table[s.current := p.(has := false, state := Ready, wait := 0)], mode := Running), 0)
  }

  /** SYS_EXIT and SyscallKillCurrentProcess. With nobody to run, the machine halts. */
  function AfterExit(s: State): State {
    var s1 := if s.current in s.table then s.(table := s.table[s.current := s.table[s.current].(dead := true, state := Dead)]) else s;
    var s2 := s1.(table := ReleasedAll(s1.table, if s.current in s.table then s.current else 0));
    match Next(s2.order, s2.table, s2.current)
    case None => s2.(mode := Halted)
    case Some(n) => SwitchTo(s2, n)
  }

  /** A system call that only answers, and user code: the running thread changes its own frame. */
  function AfterUser(s: State, f: TrapFrame): State { s.(frame := f) }

  // ---- runs ------------------------------------------------------------------

  datatype Event = Tick | Exec(load: Load) | Sleep | WaitPid | Hlt | Exit | User(frame: TrapFrame)

  /** Calls and user code need a running thread; HLT needs the waiting loop. */
  predicate Enabled(s: State, e: Event) {
    match e
    case Tick => true
    case Hlt => s.mode.Waiting?
    case User(f) => s.mode.Running? && f.User()
    case _ => s.mode.Running?
  }

  function After(s: State, e: Event): State {
    match e
    case Tick => AfterTick(s)
    case Exec(l) => AfterExec(s, l)
    case Sleep => AfterSleep(s)
    case WaitPid => AfterWaitPid(s)
    case Hlt => AfterHlt(s)
    case Exit => AfterExit(s)
    case User(f) => AfterUser(s, f)
  }

  // ---- the invariant ---------------------------------------------------------

  predicate Live(s: State, pid: nat) { pid in s.table && !s.table[pid].dead }

  /** The CPU holds the thread's frame. */
  predicate OnCpu(s: State, pid: nat) { s.mode.Running? && s.current == pid }

  /** A blocked thread has one reason: a tick still ahead, or a live process to wait for. */
  ghost predicate OneReason(s: State, p: Proc) {
    if p.state.Blocked? then
      || (p.wakeup > s.tick && p.wait == 0)
      || (p.wakeup == 0 && p.wait != 0 && Live(s, p.wait))
    else p.wait == 0
  }

  ghost predicate ProcOk(s: State, pid: nat, p: Proc) {
    && 0 < pid < s.nextPid
    && (p.dead <==> p.state.Dead?)
    && OneReason(s, p)
    && (!p.dead && !OnCpu(s, pid) ==> p.has && p.saved.User())
  }


  ghost predicate ListOk(s: State) {
    Distinct(s.order) && forall x :: x in s.order <==> x in s.table
  }

  ghost predicate Inv(s: State) {
    && ListOk(s) && s.nextPid >= 1
    && (forall pid :: pid in s.table ==> ProcOk(s, pid, s.table[pid]))
    && (s.mode.Running? ==> Live(s, s.current) && s.table[s.current].state.Ready? && s.frame.User())
    && (s.mode.Waiting? ==> s.mode.target != 0 && Live(s, s.current)
                            && (s.table[s.current].state.Blocked? ==> s.table[s.current].wait == s.mode.target))
  }

  /** The user frame of a live thread: in the CPU if it runs, else where it was saved. */
  function Context(s: State, pid: nat): TrapFrame
    requires Live(s, pid)
  {
    if OnCpu(s, pid) then s.frame else s.table[pid].saved
  }

  // ---- every step keeps the invariant and every context -----------------------

  /** No thread is on the CPU: every live one has its frame saved. */
  ghost predicate Stored(s: State) {
    && ListOk(s) && s.nextPid >= 1
    && forall pid :: pid in s.table ==> ProcOk(s.(mode := Halted), pid, s.table[pid])
  }

  const NONE: int := -1

  /** Every live process of both states keeps its context, except `pid`. */
  ghost predicate ContextsKept(s: State, s': State, pid: int) {
    forall q :: q != pid && Live(s, q) && Live(s', q) ==> Context(s', q) == Context(s, q)
  }

  /** No process comes back; live ones only end by exiting. */
  ghost predicate LivesOn(s: State, s': State, pid: int) {
    forall q :: q != pid && Live(s, q) ==> Live(s', q)
  }

  lemma SwitchOk(s: State, n: nat)
    requires Stored(s) && Runnable(s.table, n, s.current)
    ensures Inv(SwitchTo(s, n))
    ensures forall q :: Live(s, q) ==> Live(SwitchTo(s, n), q) && Context(SwitchTo(s, n), q) == s.table[q].saved
    ensures forall q :: Live(SwitchTo(s, n), q) ==> Live(s, q)
  {
    var s' := SwitchTo(s, n);
    forall pid | pid in s'.table ensures ProcOk(s', pid, s'.table[pid]) {
      assert ProcOk(s.(mode := Halted), pid, s.table[pid]);
      assert forall w :: Live(s', w) == Live(s, w);
    }
  }

  /** Parking the running thread stores everything. */
  lemma ParkOk(s: State, wakeup: nat, wait: nat, frame: TrapFrame)
    requires Inv(s) && s.mode.Running? && frame.User()
    requires (wakeup > s.tick && wait == 0) || (wakeup == 0 && wait != 0 && Live(s, wait))
    ensures Stored(Parked(s, wakeup, wait, frame))
    ensures forall q :: Live(Parked(s, wakeup, wait, frame), q) <==> Live(s, q)
    ensures forall q :: Live(s, q) ==>
              Parked(s, wakeup, wait, frame).table[q].saved == if q == s.current then frame else Context(s, q)
  {
    var s' := Parked(s, wakeup, wait, frame);
    assert forall w :: Live(s', w) == Live(s, w);
    forall pid | pid in s'.table ensures ProcOk(s'.(mode := Halted), pid, s'.table[pid]) {
      assert ProcOk(s, pid, s.table[pid]);
    }
  }

  lemma {:induction false} AliveDistinct(order: seq<nat>, table: map<nat, Proc>)
    requires Distinct(order)
    ensures Distinct(Alive(order, table))
  {
    if order != [] {
      assert forall i, j :: 0 <= i < j < |order[1..]| ==> order[1..][i] != order[1..][j];
      AliveDistinct(order[1..], table);
      forall i | 0 <= i < |order[1..]| ensures order[1..][i] != order[0] { assert order[1..][i] == order[i + 1]; }
    }
  }

  /** Reaping only takes terminated processes off the list. */
  lemma ReapOk(s: State)
    requires Inv(s)
    ensures Inv(Reaped(s)) && Reaped(s).mode == s.mode && Reaped(s).current == s.current && Reaped(s).frame == s.frame
    ensures forall q :: Live(Reaped(s), q) <==> Live(s, q)
    ensures forall q :: Live(s, q) ==> Reaped(s).table[q] == s.table[q]
    ensures forall q :: (q in Reaped(s).table <==> Live(s, q)) && (q in Reaped(s).order <==> Live(s, q))
  {
    var s' := Reaped(s);
    AliveDistinct(s.order, s.table);
    assert forall w :: Live(s', w) == Live(s, w);
    forall pid | pid in s'.table ensures ProcOk(s', pid, s'.table[pid]) {
      assert ProcOk(s, pid, s.table[pid]);
    }
  }

  /** The wakeups of a tick. */
  function Ticked(s: State): State { s.(tick := s.tick + 1, table := WokenAll(s.table, s.tick + 1)) }

  lemma TickedOk(s: State)
    requires Inv(s)
    ensures Inv(Ticked(s))
    ensures forall q :: Live(Ticked(s), q) <==> Live(s, q)
    ensures forall q :: Live(s, q) ==> Ticked(s).table[q].saved == s.table[q].saved
  {
    var s' := Ticked(s);
    assert forall w :: Live(s', w) == Live(s, w);
    forall pid | pid in s'.table ensures ProcOk(s', pid, s'.table[pid]) {
      assert ProcOk(s, pid, s.table[pid]);
    }
  }

  lemma PreemptOk(s: State)
    requires Inv(s) && s.mode.Running?
    ensures Stored(Preempted(s)) && Preempted(s).current == s.current && Preempted(s).order == s.order
    ensures forall q :: Live(Preempted(s), q) <==> Live(s, q)
    ensures forall q :: Live(s, q) ==> Preempted(s).table[q].saved == Context(s, q)
    ensures forall q :: Runnable(s.table, q, s.current) ==> Runnable(Preempted(s).table, q, s.current)
  {
    var s' := Preempted(s);
    assert forall w :: Live(s', w) == Live(s, w);
    forall pid | pid in s'.table ensures ProcOk(s'.(mode := Halted), pid, s'.table[pid]) {
      assert ProcOk(s, pid, s.table[pid]);
    }
  }

  /** A timer tick changes nobody's context, whoever it switches to. */
  lemma TickKeeps(s: State)
    requires Inv(s)
    ensures Inv(AfterTick(s)) && ContextsKept(s, AfterTick(s), NONE) && LivesOn(s, AfterTick(s), NONE)
  {
    hide Inv, WokenAll, SwitchTo, Reaped, Preempted, Next;
    var s1 := Ticked(s);
    TickedOk(s);
    ReapOk(s1);
    TickedContexts(s, s1);
    var s2 := Reaped(s1);
    if s.mode.Running? {
      RunningLive(s1);
      match Next(s2.order, s2.table, s2.current)
      case None =>
      case Some(n) =>
        PreemptOk(s2);
        SwitchOk(Preempted(s2), n);
    }
  }

  lemma RunningLive(s: State)
    requires Inv(s) && s.mode.Running?
    ensures Live(s, s.current) && s.frame.User()
  {
  }

  lemma TickedContexts(s: State, s1: State)
    requires s1 == Ticked(s)
    ensures s1.mode == s.mode && s1.current == s.current && s1.frame == s.frame
  {
  }

  /** SYS_EXEC: the parent will find the child's pid in rax, otherwise its frame as it was. */
  lemma ExecKeeps(s: State, l: Load)
    requires Inv(s) && s.mode.Running?
    ensures Inv(AfterExec(s, l)) && ContextsKept(s, AfterExec(s, l), s.current) && LivesOn(s, AfterExec(s, l), NONE)
    ensures Live(AfterExec(s, l), s.current)
    ensures Context(AfterExec(s, l), s.current) == s.frame.(rax := if l.Program? then s.nextPid else FAILED)
    ensures l.Program? ==> Live(AfterExec(s, l), s.nextPid) && Context(AfterExec(s, l), s.nextPid) == ChildFrame(l)
  {
    match l
    case Failure(_) =>
      var s' := AfterExec(s, l);
      forall pid | pid in s'.table ensures ProcOk(s', pid, s'.table[pid]) { assert ProcOk(s, pid, s.table[pid]); }
    case Program(_, _, _, _) =>
      ChildOk(s, l);
      var child := s.nextPid;
      var s1 := WithChild(s, l);
      assert s.current != child by { assert ProcOk(s, s.current, s.table[s.current]); }
      ParkOk(s1, 0, child, s.frame.(rax := child));
      SwitchOk(Parked(s1, 0, child, s.frame.(rax := child)), child);
  }

  function WithChild(s: State, l: Load): State
    requires l.Program?
  {
    s.(nextPid := s.nextPid + 1, order := [s.nextPid] + s.order,
       table := s.table[s.nextPid := Proc(false, Ready, 0, 0, ChildFrame(l), true)])
  }

  lemma ChildOk(s: State, l: Load)
    requires Inv(s) && s.mode.Running? && l.Program?
    ensures Inv(WithChild(s, l)) && s.nextPid !in s.table
    ensures forall q :: Live(WithChild(s, l), q) <==> Live(s, q) || q == s.nextPid
  {
    var s' := WithChild(s, l);
    PidFresh(s);
    forall i, j | 0 <= i < j < |s'.order| ensures s'.order[i] != s'.order[j] {
      assert s'.order[j] == s.order[j - 1];
      assert s.order[j - 1] in s.order;
    }
    assert forall w :: Live(s, w) ==> Live(s', w);
    forall pid | pid in s'.table ensures ProcOk(s', pid, s'.table[pid]) {
      if pid != s.nextPid { assert ProcOk(s, pid, s.table[pid]); }
    }
  }

  lemma PidFresh(s: State)
    requires Inv(s)
    ensures s.nextPid !in s.table
  {
  }

  /** SYS_SLEEP changes no context, whether the thread parks or goes on. */
  lemma SleepKeeps(s: State)
    requires Inv(s) && s.mode.Running?
    ensures Inv(AfterSleep(s)) && ContextsKept(s, AfterSleep(s), NONE) && LivesOn(s, AfterSleep(s), NONE)
  {
    hide Inv, Stored, SwitchTo, Parked, Next, Live;
    var ticks := if s.frame.rbx / 10 == 0 then 1 else s.frame.rbx / 10;
    RunningOk(s);
    ParkOk(s, s.tick + ticks, 0, s.frame);
    var s1 := Parked(s, s.tick + ticks, 0, s.frame);
    ParkedLooks(s, s.tick + ticks, 0, s.frame);
    match Next(s1.order, s1.table, s1.current)
    case None => GoesOn(s, s.tick + ticks);
    case Some(n) => SwitchOk(s1, n);
  }

  lemma RunningOk(s: State)
    requires Inv(s) && s.mode.Running?
    ensures s.current in s.table && s.table[s.current].wait == 0 && s.frame.User() && Live(s, s.current)
  {
    assert ProcOk(s, s.current, s.table[s.current]);
  }

  lemma ParkedLooks(s: State, wakeup: nat, wait: nat, frame: TrapFrame)
    requires s.current in s.table
    ensures Parked(s, wakeup, wait, frame).current == s.current && s.current in Parked(s, wakeup, wait, frame).table
  {
  }

  /** A sleeper with nobody to hand the CPU to goes on. */
  lemma GoesOn(s: State, wakeup: nat)
    requires Inv(s) && s.mode.Running?
    ensures var s1 := Parked(s, wakeup, 0, s.frame);
            var s' := s1.(table := s1.table[s1.current := s1.table[s1.current].(state := Ready, has := false)]);
            Inv(s') && ContextsKept(s, s', NONE) && LivesOn(s, s', NONE)
  {
    var s1 := Parked(s, wakeup, 0, s.frame);
    var s' := s1.(table := s1.table[s1.current := s1.table[s1.current].(state := Ready, has := false)]);
    assert forall w :: Live(s', w) == Live(s, w);
    forall pid | pid in s'.table ensures ProcOk(s', pid, s'.table[pid]) { assert ProcOk(s, pid, s.table[pid]); }
  }

  /** SYS_WAITPID: answered at once, or parked with the frame as it was. */
  lemma WaitPidKeeps(s: State)
    requires Inv(s) && s.mode.Running?
    ensures Inv(AfterWaitPid(s)) && ContextsKept(s, AfterWaitPid(s), s.current) && LivesOn(s, AfterWaitPid(s), NONE)
    ensures Live(AfterWaitPid(s), s.current)
    ensures Context(AfterWaitPid(s), s.current) == if Gone(s.table, s.frame.rbx) then s.frame.(rax := 0) else s.frame
  {
    var target := s.frame.rbx;
    if Gone(s.table, target) {
      ReapOk(s);
      var s1 := if target in s.table then Reaped(s) else s;
      AnswerOk(s1, 0);
    } else {
      assert ProcOk(s, target, s.table[target]);
      ParkOk(s, 0, target, s.frame);
      var s1 := Parked(s, 0, target, s.frame);
      match Next(s.order, s.table, s.current)
      case None => StoredIsWaiting(s1, target);
      case Some(n) => SwitchOk(s1, n);
    }
  }

  lemma AnswerOk(s: State, ret: nat)
    requires Inv(s) && s.mode.Running?
    ensures Inv(Answer(s, ret))
  {
    var s' := Answer(s, ret);
    forall pid | pid in s'.table ensures ProcOk(s', pid, s'.table[pid]) { assert ProcOk(s, pid, s.table[pid]); }
  }

  lemma StoredIsWaiting(s: State, target: nat)
    requires Stored(s) && Live(s, s.current) && s.table[s.current].state.Blocked? && s.table[s.current].wait == target != 0
    ensures Inv(s.(mode := Waiting(target)))
  {
    var s' := s.(mode := Waiting(target));
    forall pid | pid in s'.table ensures ProcOk(s', pid, s'.table[pid]) { assert ProcOk(s.(mode := Halted), pid, s.table[pid]); }
  }

  lemma WaitingIsStored(s: State)
    requires Inv(s) && !s.mode.Running?
    ensures Stored(s)
  {
    forall pid | pid in s.table ensures ProcOk(s.(mode := Halted), pid, s.table[pid]) { assert ProcOk(s, pid, s.table[pid]); }
  }

  /** The waiting loop: hands the CPU on, or resumes its own thread with 0 in rax. */
  lemma HltKeeps(s: State)
    requires Inv(s) && s.mode.Waiting?
    ensures Inv(AfterHlt(s)) && ContextsKept(s, AfterHlt(s), s.current) && LivesOn(s, AfterHlt(s), NONE)
    ensures Live(AfterHlt(s), s.current)
    ensures Context(AfterHlt(s), s.current)
         == if OnCpu(AfterHlt(s), s.current) then s.table[s.current].saved.(rax := 0) else s.table[s.current].saved
  {
    WaitingIsStored(s);
    match Next(s.order, s.table, s.current)
    case Some(n) => SwitchOk(s, n);
    case None =>
      if Gone(s.table, s.mode.target) {
        ReapOk(s);
        ResumeOk(Reaped(s));
      }
  }

  lemma ResumeOk(s: State)
    requires Inv(s) && s.mode.Waiting?
    ensures Inv(Resumed(s)) && OnCpu(Resumed(s), s.current)
    ensures forall q :: Live(Resumed(s), q) <==> Live(s, q)
    ensures forall q :: Live(s, q) ==> Context(Resumed(s), q) == if q == s.current then s.table[q].saved.(rax := 0) else s.table[q].saved
  {
    var s' := Resumed(s);
    assert forall w :: Live(s', w) == Live(s, w);
    forall pid | pid in s'.table ensures ProcOk(s', pid, s'.table[pid]) { assert ProcOk(s, pid, s.table[pid]); }
  }

  /** SYS_EXIT and kill: the process ends, its waiters wake, everybody else keeps the context. */
  lemma ExitKeeps(s: State)
    requires Inv(s) && s.mode.Running?
    ensures Inv(AfterExit(s)) && ContextsKept(s, AfterExit(s), NONE) && LivesOn(s, AfterExit(s), s.current)
    ensures !Live(AfterExit(s), s.current)
    ensures forall q :: Live(s, q) && q != s.current && s.table[q].state.Blocked? && s.table[q].wait == s.current ==>
              AfterExit(s).table[q].state.Ready? && AfterExit(s).table[q].wait == 0
  {
    hide Stored, SwitchTo, Next, ReleasedAll;
    RunningOk(s);
    EndOk(s);
    var s2 := Ended(s);
    match Next(s2.order, s2.table, s2.current)
    case None => HaltOk(s2);
    case Some(n) => SwitchOk(s2, n); SwitchLooks(s2, n);
  }

  lemma SwitchLooks(s: State, n: nat)
    requires n in s.table
    ensures forall q :: q in s.table ==> SwitchTo(s, n).table[q].state == s.table[q].state && SwitchTo(s, n).table[q].wait == s.table[q].wait
  {
  }

  /** The running process ended and its waiters released. */
  function Ended(s: State): State
    requires s.current in s.table
  {
    var s1 := s.(table := s.table[s.current := s.table[s.current].(dead := true, state := Dead)]);
    s1.(table := ReleasedAll(s1.table, s.current))
  }

  lemma EndOk(s: State)
    requires Inv(s) && s.mode.Running?
    ensures s.current in s.table && Stored(Ended(s)) && Ended(s).current == s.current
    ensures forall q :: Live(Ended(s), q) <==> Live(s, q) && q != s.current
    ensures forall q :: Live(Ended(s), q) ==> Ended(s).table[q] == Released(s.table[q], s.current)
    ensures forall q :: Live(s, q) && q != s.current ==> Ended(s).table[q].saved == Context(s, q)
  {
    var s2 := Ended(s);
    assert forall w :: Live(s2, w) <==> Live(s, w) && w != s.current;
    forall pid | pid in s2.table ensures ProcOk(s2.(mode := Halted), pid, s2.table[pid]) {
      assert ProcOk(s, pid, s.table[pid]);
    }
  }

  lemma HaltOk(s: State)
    requires Stored(s)
    ensures Inv(s.(mode := Halted))
  {
    var s' := s.(mode := Halted);
    forall pid | pid in s'.table ensures ProcOk(s', pid, s'.table[pid]) { assert ProcOk(s.(mode := Halted), pid, s.table[pid]); }
  }

  lemma UserKeeps(s: State, f: TrapFrame)
    requires Inv(s) && s.mode.Running? && f.User()
    ensures Inv(AfterUser(s, f)) && ContextsKept(s, AfterUser(s, f), s.current) && LivesOn(s, AfterUser(s, f), NONE)
  {
    var s' := AfterUser(s, f);
    forall pid | pid in s'.table ensures ProcOk(s', pid, s'.table[pid]) { assert ProcOk(s, pid, s.table[pid]); }
  }

  /** Every step from a good state leads to a good state, and only the thread it is about
      can lose its context. */
  lemma StepKeeps(s: State, e: Event)
    requires Inv(s) && Enabled(s, e)
    ensures Inv(After(s, e)) && ContextsKept(s, After(s, e), s.current)
    ensures LivesOn(s, After(s, e), if e.Exit? then s.current else NONE)
  {
    hide Inv, AfterTick, AfterExec, AfterSleep, AfterWaitPid, AfterHlt, AfterExit;
    match e
    case Tick => TickKeeps(s);
    case Exec(l) => ExecKeeps(s, l);
    case Sleep => SleepKeeps(s);
    case WaitPid => WaitPidKeeps(s);
    case Hlt => HltKeeps(s);
    case Exit => ExitKeeps(s);
    case User(f) => UserKeeps(s, f);
  }

  // ---- runs ------------------------------------------------------------------

  /** Every event of the run is enabled where it happens. */
  predicate Run(s: State, es: seq<Event>)
    decreases es
  {
    es == [] || (Enabled(s, es[0]) && Run(After(s, es[0]), es[1..]))
  }

  function End(s: State, es: seq<Event>): State
    decreases es
  {
    if es == [] then s else End(After(s, es[0]), es[1..])
  }

  /** The state main.c hands over: one process, on the CPU. Its saved-frame flag is whatever
      it happens to be. */
  function Boot(saved: TrapFrame, has: bool, frame: TrapFrame): State {
    State([1], map[1 := Proc(false, Ready, 0, 0, saved, has)], 1, frame, 0, 2, Running)
  }

  lemma BootOk(saved: TrapFrame, has: bool, frame: TrapFrame)
    requires frame.User()
    ensures Inv(Boot(saved, has, frame))
  {
  }

  /** The invariant holds in every reachable state. */
  lemma {:induction false} RunKeeps(s: State, es: seq<Event>)
    requires Inv(s) && Run(s, es)
    ensures Inv(End(s, es))
    decreases es
  {
    hide Inv, Enabled, After;
    if es != [] {
      StepKeeps(s, es[0]);
      RunKeeps(After(s, es[0]), es[1..]);
    }
  }

  /** Thread `q` lives through the whole run and is never the current one while a step runs. */
  ghost predicate Descheduled(s: State, es: seq<Event>, q: nat)
    decreases es
  {
    Live(s, q) && (es == [] || (s.current != q && Descheduled(After(s, es[0]), es[1..], q)))
  }

  /** A thread gets back exactly the frame it lost, however long it was off the CPU. */
  lemma {:induction false} FrameComesBack(s: State, es: seq<Event>, q: nat)
    requires Inv(s) && Run(s, es) && Descheduled(s, es, q)
    ensures Live(End(s, es), q) && Context(End(s, es), q) == Context(s, q)
    decreases es
  {
    hide Inv, Enabled, After, Context, Live;
    if es != [] {
      StepKeeps(s, es[0]);
      DescheduledLive(After(s, es[0]), es[1..], q);
      FrameComesBack(After(s, es[0]), es[1..], q);
    }
  }

  lemma DescheduledLive(s: State, es: seq<Event>, q: nat)
    requires Descheduled(s, es, q)
    ensures Live(s, q)
  {
  }

  // ---- sleepers and waiters --------------------------------------------------

  /** A thread asleep until a tick. */
  predicate Asleep(s: State, q: nat) { Live(s, q) && s.table[q].state.Blocked? && s.table[q].wakeup > 0 }

  /** A sleeper is left alone by every step but the tick that reaches its time. */
  lemma SleeperStep(s: State, e: Event, q: nat)
    requires Inv(s) && Enabled(s, e) && Asleep(s, q)
    ensures Live(After(s, e), q)
    ensures if e.Tick? && s.tick + 1 >= s.table[q].wakeup then After(s, e).table[q].state.Ready? && After(s, e).table[q].wakeup == 0
            else After(s, e).table[q] == s.table[q] && (e.Tick? ==> After(s, e).tick == s.tick + 1) && (!e.Tick? ==> After(s, e).tick == s.tick)
  {
    hide Inv, After;
    SleeperFacts(s, q);
    match e
    case Tick => SleeperTick(s, q);
    case Exec(l) => SleeperExec(s, l, q);
    case Sleep => SleeperSleep(s, q);
    case WaitPid => SleeperWaitPid(s, q);
    case Hlt => SleeperHlt(s, q);
    case Exit => SleeperExit(s, q);
    case User(f) => SleeperUser(s, f, q);
  }

  lemma SleeperFacts(s: State, q: nat)
    requires Inv(s) && Asleep(s, q)
    ensures s.table[q].wait == 0 && 0 < q < s.nextPid && q in s.table
    ensures s.mode.Running? ==> q != s.current && Live(s, s.current)
  {
    assert ProcOk(s, q, s.table[q]);
  }

  lemma SleeperTick(s: State, q: nat)
    requires Inv(s) && Asleep(s, q) && s.table[q].wait == 0 && (s.mode.Running? ==> q != s.current)
    ensures Live(After(s, Tick), q) && After(s, Tick).tick == s.tick + 1
    ensures if s.tick + 1 >= s.table[q].wakeup then After(s, Tick).table[q].state.Ready? && After(s, Tick).table[q].wakeup == 0
            else After(s, Tick).table[q] == s.table[q]
  {
    hide Inv, Next;
  }

  lemma SleeperExec(s: State, l: Load, q: nat)
    requires Inv(s) && s.mode.Running? && Asleep(s, q) && q != s.current && q < s.nextPid
    ensures Live(After(s, Exec(l)), q) && After(s, Exec(l)).table[q] == s.table[q] && After(s, Exec(l)).tick == s.tick
  {
    hide Inv;
  }

  lemma SleeperSleep(s: State, q: nat)
    requires Inv(s) && s.mode.Running? && Asleep(s, q) && q != s.current
    ensures Live(After(s, Sleep), q) && After(s, Sleep).table[q] == s.table[q] && After(s, Sleep).tick == s.tick
  {
    hide Inv;
  }

  lemma SleeperWaitPid(s: State, q: nat)
    requires Inv(s) && s.mode.Running? && Asleep(s, q) && q != s.current
    ensures Live(After(s, WaitPid), q) && After(s, WaitPid).table[q] == s.table[q] && After(s, WaitPid).tick == s.tick
  {
    hide Inv;
  }

  lemma SleeperHlt(s: State, q: nat)
    requires Inv(s) && s.mode.Waiting? && Asleep(s, q) && s.table[q].wait == 0
    ensures Live(After(s, Hlt), q) && After(s, Hlt).table[q] == s.table[q] && After(s, Hlt).tick == s.tick
  {
    WaiterTarget(s);
  }

  lemma WaiterTarget(s: State)
    requires Inv(s) && s.mode.Waiting?
    ensures s.table[s.current].state.Blocked? ==> s.table[s.current].wait == s.mode.target && s.table[s.current].wakeup == 0
  {
    assert ProcOk(s, s.current, s.table[s.current]);
  }

  lemma SleeperExit(s: State, q: nat)
    requires Inv(s) && s.mode.Running? && Asleep(s, q) && s.table[q].wait == 0 && q != s.current
    ensures Live(After(s, Exit), q) && After(s, Exit).table[q] == s.table[q] && After(s, Exit).tick == s.tick
  {
    RunningOk(s);
    assert ProcOk(s, s.current, s.table[s.current]);
    hide Inv, Next;
  }

  lemma SleeperUser(s: State, f: TrapFrame, q: nat)
    requires Asleep(s, q)
    ensures Live(After(s, User(f)), q) && After(s, User(f)).table[q] == s.table[q] && After(s, User(f)).tick == s.tick
  {
  }

  function Ticks(es: seq<Event>): nat {
    if es == [] then 0 else Ticks(es[1..]) + if es[0].Tick? then 1 else 0
  }

  /** Over any run, a sleeper sleeps exactly until its time: with fewer ticks it still
      sleeps as it was, and the tick that completes them makes it ready. */
  lemma {:induction false} SleepsUntilDue(s: State, es: seq<Event>, q: nat)
    requires Inv(s) && Run(s, es) && Asleep(s, q) && s.tick + Ticks(es) < s.table[q].wakeup
    ensures Asleep(End(s, es), q) && End(s, es).table[q] == s.table[q] && End(s, es).tick == s.tick + Ticks(es)
    ensures s.tick + Ticks(es) + 1 == s.table[q].wakeup ==>
              Live(After(End(s, es), Tick), q) && After(End(s, es), Tick).table[q].state.Ready?
    decreases es
  {
    hide Inv, Enabled, After;
    if es == [] {
      SleeperStepTick(s, q);
    } else {
      StepKeeps(s, es[0]);
      SleeperStep(s, es[0], q);
      SleepsUntilDue(After(s, es[0]), es[1..], q);
    }
  }

  lemma SleeperStepTick(s: State, q: nat)
    requires Inv(s) && Asleep(s, q)
    ensures s.tick + 1 == s.table[q].wakeup ==> Live(After(s, Tick), q) && After(s, Tick).table[q].state.Ready?
  {
    hide Inv, After;
    SleeperStep(s, Tick, q);
  }

  // ---- who runs next ---------------------------------------------------------

  /** The thread a routine hands the CPU to stands before every other runnable one on the list. */
  lemma {:induction false} NextIsFirst(order: seq<nat>, table: map<nat, Proc>, current: nat)
    ensures match Next(order, table, current)
            case None => true
            case Some(n) => exists i :: 0 <= i < |order| && order[i] == n && forall j :: 0 <= j < i ==> !Runnable(table, order[j], current)
  {
    hide Runnable;
    if order != [] && !Runnable(table, order[0], current) && Next(order[1..], table, current).Some? {
      NextIsFirst(order[1..], table, current);
      var n := Next(order, table, current).value;
      var i :| 0 <= i < |order[1..]| && order[1..][i] == n && forall j :: 0 <= j < i ==> !Runnable(table, order[1..][j], current);
      assert order[i + 1] == n;
      forall j | 0 <= j < i + 1 ensures !Runnable(table, order[j], current) {
        if j > 0 { assert order[1..][j - 1] == order[j]; }
      }
    }
  }

  /** Some thread other than the current one can run. */
  ghost predicate OtherReady(s: State) { exists pid :: Runnable(s.table, pid, s.current) }

  lemma NextSome(s: State)
    requires ListOk(s)
    ensures Next(s.order, s.table, s.current).Some? <==> OtherReady(s)
  {
    if pid :| Runnable(s.table, pid, s.current) { assert pid in s.order; }
  }

  lemma SwitchedTo(s: State, n: nat)
    requires n in s.table
    ensures SwitchTo(s, n).current == n && SwitchTo(s, n).mode.Running? && SwitchTo(s, n).tick == s.tick && SwitchTo(s, n).table.Keys == s.table.Keys
    ensures SwitchTo(s, n).frame == s.table[n].saved
    ensures forall q :: q in s.table && q != n ==> SwitchTo(s, n).table[q] == s.table[q]
  {
  }

  /** A tick takes the CPU from the running thread exactly when another one can run once the sleepers
      that are due have been woken; the one it takes it from waits, ready, with its frame. */
  lemma TickSwitches(s: State)
    requires Inv(s) && s.mode.Running?
    ensures AfterTick(s).tick == s.tick + 1 && AfterTick(s).mode.Running?
    ensures AfterTick(s).current != s.current <==> OtherReady(Ticked(s))
    ensures if OtherReady(Ticked(s)) then
              && Runnable(Ticked(s).table, AfterTick(s).current, s.current)
              && AfterTick(s).frame == Ticked(s).table[AfterTick(s).current].saved
              && Runnable(AfterTick(s).table, s.current, AfterTick(s).current) && AfterTick(s).table[s.current].saved == s.frame
            else AfterTick(s).frame == s.frame
  {
    hide Inv, WokenAll, SwitchTo, Reaped, Next, Stored, Runnable;
    var s1 := Ticked(s);
    TickedOk(s);
    ReapOk(s1);
    TickedContexts(s, s1);
    var s2 := Reaped(s1);
    RunningLive(s1);
    RunningLive(s2);
    ReapedList(s1);
    ReapedRunnable(s1);
    NextSome(s2);
    match Next(s2.order, s2.table, s2.current)
    case None =>
    case Some(n) =>
      NowReady(s2, n);
      PreemptOk(s2);
      SwitchedTo(Preempted(s2), n);
      SameProc(Preempted(s2).table, SwitchTo(Preempted(s2), n).table, s.current, n);
  }

  lemma SameProc(table: map<nat, Proc>, table': map<nat, Proc>, pid: nat, current: nat)
    requires Runnable(table, pid, current) && pid in table' && table'[pid] == table[pid]
    ensures Runnable(table', pid, current)
  {
  }

  lemma ReapedList(s: State)
    requires Inv(s)
    ensures ListOk(Reaped(s)) && Reaped(s).tick == s.tick
  {
    hide Reaped;
    ReapOk(s);
    TickStays(s);
  }

  lemma TickStays(s: State)
    ensures Reaped(s).tick == s.tick
  {
  }

  lemma ReapedRunnable(s: State)
    requires Inv(s)
    ensures forall pid :: Runnable(Reaped(s).table, pid, s.current) <==> Runnable(s.table, pid, s.current)
    ensures OtherReady(Reaped(s)) <==> OtherReady(s)
  {
    hide Inv, Reaped, Alive;
    ReapOk(s);
    forall pid ensures Runnable(Reaped(s).table, pid, s.current) <==> Runnable(s.table, pid, s.current) {
      if Live(s, pid) { assert Reaped(s).table[pid] == s.table[pid]; }
    }
  }

  lemma NowReady(s: State, n: nat)
    requires Inv(s) && s.mode.Running? && Runnable(s.table, n, s.current)
    ensures n in Preempted(s).table && Preempted(s).table[n] == s.table[n] && n != s.current
    ensures Runnable(Preempted(s).table, s.current, n) && Preempted(s).table[s.current].saved == s.frame
  {
  }

  // ---- how long a sleep lasts ---------------------------------------------------

  function Max(a: nat, b: nat): nat { if a < b then b else a }

  /** `d` ticks of ten milliseconds are `ms` milliseconds rounded down, but at least one tick. */
  predicate SleepTicks(ms: nat, d: nat) { 10 * d <= Max(10, ms) < 10 * d + 10 }

  /** SYS_SLEEP parks the thread if and only if another one can run; then for as many ticks as the
      milliseconds in rbx make. Otherwise the thread goes on at once. */
  lemma SleepParks(s: State)
    requires Inv(s) && s.mode.Running?
    ensures Asleep(AfterSleep(s), s.current) <==> OtherReady(s)
    ensures OtherReady(s) ==>
              var d := AfterSleep(s).table[s.current].wakeup - s.tick; d >= 1 && SleepTicks(s.frame.rbx, d)
    ensures !OtherReady(s) ==> OnCpu(AfterSleep(s), s.current) && AfterSleep(s).frame == s.frame
    ensures AfterSleep(s).tick == s.tick
  {
    hide Inv, SwitchTo, Next, Runnable;
    RunningOk(s);
    StartList(s);
    NextSome(s);
    var ticks := if s.frame.rbx / 10 == 0 then 1 else s.frame.rbx / 10;
    var s1 := Parked(s, s.tick + ticks, 0, s.frame);
    ParkedRunnable(s, s.tick + ticks, 0, s.frame);
    NextAlike(s.order, s.table, s1.table, s.current);
    match Next(s1.order, s1.table, s1.current)
    case None =>
    case Some(n) => SwitchedTo(s1, n); NotSelf(s1, n);
  }

  lemma StartList(s: State)
    requires Inv(s)
    ensures ListOk(s)
  {
  }

  lemma NotSelf(s: State, n: nat)
    requires Runnable(s.table, n, s.current)
    ensures n in s.table && n != s.current
  {
  }

  lemma ParkedRunnable(s: State, wakeup: nat, wait: nat, frame: TrapFrame)
    requires s.current in s.table
    ensures forall pid :: Runnable(Parked(s, wakeup, wait, frame).table, pid, s.current) <==> Runnable(s.table, pid, s.current)
  {
  }

  lemma {:induction false} NextAlike(order: seq<nat>, table: map<nat, Proc>, table': map<nat, Proc>, current: nat)
    requires forall pid :: Runnable(table', pid, current) <==> Runnable(table, pid, current)
    ensures Next(order, table', current) == Next(order, table, current)
  {
    hide Runnable;
    if order != [] { NextAlike(order[1..], table, table', current); }
  }

  /** From the call to the wakeup: a thread that asks for `d` ticks' worth of milliseconds, while another
      can run, sleeps through every run of fewer than `d` ticks, and is ready after the `d`th. */
  lemma SleepLasts(s: State, es: seq<Event>, d: nat)
    requires Inv(s) && s.mode.Running? && OtherReady(s) && SleepTicks(s.frame.rbx, d)
    requires Run(AfterSleep(s), es) && Ticks(es) < d
    ensures Asleep(End(AfterSleep(s), es), s.current)
    ensures Ticks(es) + 1 == d ==>
              var s' := After(End(AfterSleep(s), es), Tick); Live(s', s.current) && s'.table[s.current].state.Ready?
  {
    hide Inv, AfterSleep, Run, End, Ticks, After;
    SleepParks(s);
    SleepKeeps(s);
    OneLength(s.frame.rbx, d, AfterSleep(s).table[s.current].wakeup - s.tick);
    SleepsUntilDue(AfterSleep(s), es, s.current);
  }

  lemma OneLength(ms: nat, d: nat, e: nat)
    requires SleepTicks(ms, d) && SleepTicks(ms, e)
    ensures d == e
  {
  }

  // ---- how long a wait lasts ----------------------------------------------------

  /** A thread that waits for the end of process `t`. */
  predicate Waits(s: State, q: nat, t: nat) {
    Live(s, q) && s.table[q].state.Blocked? && s.table[q].wakeup == 0 && s.table[q].wait == t
  }

  /** SYS_WAITPID for a process that has not ended waits for that process. */
  lemma WaitParks(s: State)
    requires Inv(s) && s.mode.Running? && Live(s, s.frame.rbx)
    ensures Waits(AfterWaitPid(s), s.current, s.frame.rbx) && Live(AfterWaitPid(s), s.frame.rbx)
  {
    hide Next;
    RunningOk(s);
    var s1 := Parked(s, 0, s.frame.rbx, s.frame);
    match Next(s.order, s.table, s.current)
    case None =>
    case Some(n) => SwitchedTo(s1, n);
  }

  /** SYS_EXEC runs the child in user mode at its entry point and on its stack, with interrupts on,
      and the parent waits for it. */
  lemma ChildStarts(s: State, l: Load)
    requires Inv(s) && s.mode.Running? && l.Program?
    ensures var s' := AfterExec(s, l);
            && OnCpu(s', s.nextPid) && s.nextPid != s.current && Waits(s', s.current, s.nextPid)
            && s'.frame.rip == l.rip && s'.frame.rsp == l.rsp && s'.frame.rbx == l.rbx && s'.frame.rcx == l.rcx
            && s'.frame.rax == 0 && s'.frame.rdx == 0 && (forall i :: 0 <= i < |s'.frame.rest| ==> s'.frame.rest[i] == 0)
            && s'.frame.User() && s'.frame.ss % 4 == 3 && s'.frame.rflags / 0x200 % 2 == 1
  {
    RunningOk(s);
    PidFresh(s);
    ExecKeeps(s, l);
  }

  lemma WaiterFacts(s: State, q: nat, t: nat)
    requires Inv(s) && Waits(s, q, t)
    ensures Live(s, t) && t != 0 && 0 < q < s.nextPid && q in s.table && (s.mode.Running? ==> q != s.current && Live(s, s.current))
  {
    assert ProcOk(s, q, s.table[q]);
  }

  /** A waiting thread is left alone by every step but the one that ends the process it waits for,
      and that step makes it ready. */
  lemma WaiterStep(s: State, e: Event, q: nat, t: nat)
    requires Inv(s) && Enabled(s, e) && Waits(s, q, t)
    ensures Live(After(s, e), q)
    ensures if e.Exit? && s.current == t then After(s, e).table[q].state.Ready? && After(s, e).table[q].wait == 0 && !Live(After(s, e), t)
            else Waits(After(s, e), q, t) && Live(After(s, e), t)
  {
    hide Inv, After;
    WaiterFacts(s, q, t);
    match e
    case Tick => WaiterTick(s, q, t);
    case Exec(l) => WaiterExec(s, l, q, t);
    case Sleep => WaiterSleep(s, q, t);
    case WaitPid => WaiterWaitPid(s, q, t);
    case Hlt => WaiterHlt(s, q, t);
    case Exit => WaiterExit(s, q, t);
    case User(f) => WaiterUser(s, f, q, t);
  }

  lemma WaiterTick(s: State, q: nat, t: nat)
    requires Inv(s) && Waits(s, q, t) && Live(s, t) && (s.mode.Running? ==> q != s.current)
    ensures Waits(After(s, Tick), q, t) && Live(After(s, Tick), t)
  {
    hide Inv, Next;
  }

  lemma WaiterExec(s: State, l: Load, q: nat, t: nat)
    requires Inv(s) && s.mode.Running? && Waits(s, q, t) && Live(s, t) && q != s.current && q < s.nextPid
    ensures Waits(After(s, Exec(l)), q, t) && Live(After(s, Exec(l)), t)
  {
    hide Inv;
  }

  lemma WaiterSleep(s: State, q: nat, t: nat)
    requires Inv(s) && s.mode.Running? && Waits(s, q, t) && Live(s, t) && q != s.current
    ensures Waits(After(s, Sleep), q, t) && Live(After(s, Sleep), t)
  {
    hide Inv, Next;
  }

  lemma WaiterWaitPid(s: State, q: nat, t: nat)
    requires Inv(s) && s.mode.Running? && Waits(s, q, t) && Live(s, t) && q != s.current
    ensures Waits(After(s, WaitPid), q, t) && Live(After(s, WaitPid), t)
  {
    hide Inv, Next;
  }

  lemma WaiterHlt(s: State, q: nat, t: nat)
    requires Inv(s) && s.mode.Waiting? && Waits(s, q, t) && Live(s, t)
    ensures Waits(After(s, Hlt), q, t) && Live(After(s, Hlt), t)
  {
    HltKeeps(s);
    WaiterTarget(s);
    hide Inv, Next;
  }

  lemma WaiterExit(s: State, q: nat, t: nat)
    requires Inv(s) && s.mode.Running? && Waits(s, q, t) && Live(s, t) && q != s.current
    ensures Live(After(s, Exit), q)
    ensures if s.current == t then After(s, Exit).table[q].state.Ready? && After(s, Exit).table[q].wait == 0 && !Live(After(s, Exit), t)
            else Waits(After(s, Exit), q, t) && Live(After(s, Exit), t)
  {
    RunningOk(s);
    hide Inv, Next;
  }

  lemma WaiterUser(s: State, f: TrapFrame, q: nat, t: nat)
    requires Waits(s, q, t) && Live(s, t)
    ensures Waits(After(s, User(f)), q, t) && Live(After(s, User(f)), t)
  {
  }

  /** No process but the current one ends: `t` lives through the run. */
  ghost predicate LivesThrough(s: State, es: seq<Event>, t: nat)
    decreases es
  {
    Live(s, t) && (es == [] || LivesThrough(After(s, es[0]), es[1..], t))
  }

  /** Over any run, a thread that waits for a process goes on waiting while the process lives, and
      is ready once it has ended. */
  lemma {:induction false} WaitsForEnd(s: State, es: seq<Event>, q: nat, t: nat)
    requires Inv(s) && Run(s, es) && Waits(s, q, t) && LivesThrough(s, es, t)
    ensures Inv(End(s, es)) && Waits(End(s, es), q, t)
    ensures var s' := End(s, es);
            s'.mode.Running? && s'.current == t ==>
              Live(After(s', Exit), q) && After(s', Exit).table[q].state.Ready?
    decreases es
  {
    hide Inv, Enabled, After, Waits, Live;
    if es == [] {
      WaiterEnds(s, q, t);
    } else {
      StepKeeps(s, es[0]);
      StillWaits(s, es[0], es[1..], q, t);
      WaitsForEnd(After(s, es[0]), es[1..], q, t);
    }
  }

  lemma WaiterEnds(s: State, q: nat, t: nat)
    requires Inv(s) && Waits(s, q, t)
    ensures s.mode.Running? && s.current == t ==>
              Live(After(s, Exit), q) && After(s, Exit).table[q].state.Ready?
  {
    hide Inv, After;
    if s.mode.Running? { WaiterStep(s, Exit, q, t); }
  }

  lemma StillWaits(s: State, e: Event, es: seq<Event>, q: nat, t: nat)
    requires Inv(s) && Enabled(s, e) && Waits(s, q, t) && LivesThrough(After(s, e), es, t)
    ensures Waits(After(s, e), q, t)
  {
    hide Inv, After;
    WaiterStep(s, e, q, t);
  }

  /** A process that waits for itself never runs again. */
  lemma {:induction false} SelfWait(s: State, es: seq<Event>, q: nat)
    requires Inv(s) && Run(s, es) && Waits(s, q, q)
    ensures Waits(End(s, es), q, q)
    decreases es
  {
    hide Inv, Enabled, After;
    if es != [] {
      StepKeeps(s, es[0]);
      WaiterFacts(s, q, q);
      WaiterStep(s, es[0], q, q);
      SelfWait(After(s, es[0]), es[1..], q);
    }
  }

  /** SYS_WAITPID for a process that has ended leaves no ended process on the list. */
  lemma WaitReaps(s: State)
    requires Inv(s) && s.mode.Running? && s.frame.rbx in s.table && !Live(s, s.frame.rbx)
    ensures var s' := AfterWaitPid(s);
            OnCpu(s', s.current) && s'.frame == s.frame.(rax := 0) && forall pid :: pid in s'.table <==> Live(s, pid)
  {
    hide Inv, Alive;
    ReapOk(s);
  }

  /** When a process ends, another thread goes on if any can once the waiters are released; else the machine halts. */
  lemma ExitGoesOn(s: State)
    requires Inv(s) && s.mode.Running?
    ensures s.current in s.table
    ensures if OtherReady(Ended(s)) then
              AfterExit(s).mode.Running? && Runnable(Ended(s).table, AfterExit(s).current, s.current)
              && AfterExit(s).frame == Ended(s).table[AfterExit(s).current].saved
            else AfterExit(s).mode.Halted?
  {
    hide Inv, Stored, SwitchTo, Next, ReleasedAll, Runnable;
    RunningOk(s);
    EndOk(s);
    EndedList(s);
    var s2 := Ended(s);
    NextSome(s2);
    match Next(s2.order, s2.table, s2.current)
    case None =>
    case Some(n) => NotSelf(s2, n); SwitchedTo(s2, n);
  }

  lemma EndedList(s: State)
    requires Inv(s) && s.mode.Running?
    ensures s.current in s.table && ListOk(Ended(s))
  {
    RunningOk(s);
    EndOk(s);
    StoredList(Ended(s));
  }

  lemma StoredList(s: State)
    requires Stored(s)
    ensures ListOk(s)
  {
  }

  /** The waiting loop hands the CPU on as soon as another thread can run. */
  lemma HltGoesOn(s: State)
    requires Inv(s) && s.mode.Waiting? && OtherReady(s)
    ensures var s' := AfterHlt(s);
            s'.mode.Running? && Runnable(s.table, s'.current, s.current) && s'.frame == s.table[s'.current].saved
  {
    hide Inv, SwitchTo, Next, Runnable;
    StartList(s);
    NextSome(s);
    var n := Next(s.order, s.table, s.current).value;
    NotSelf(s, n);
    SwitchedTo(s, n);
  }
}
