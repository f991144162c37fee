/** The scheduler at work: handlers that scan the process list and update
    threads and the trap frame in place. Each computes the step of the state machine. */
module Kernel {
  import opened Basics
  import opened Sched

  class Machine {
    var order: seq<nat>              // g_process_list
    var table: map<nat, Proc>        // the processes and their threads
    var current: nat                 // g_current_thread, by the pid of its process; 0 for NULL
    var frame: TrapFrame
    var tick: nat                    // g_tick_count
    var nextPid: nat                 // g_next_pid
    var mode: Mode

    /** The state KeLaunchShell leaves: the shell on the CPU. */
    constructor (saved: TrapFrame, has: bool, first: TrapFrame)
      ensures Now() == Boot(saved, has, first)
    {
      order, table, current, frame := [1], map[1 := Proc(false, Ready, 0, 0, saved, has)], 1, first;
      tick, nextPid, mode := 0, 2, Running;
    }

    ghost function Now(): State
      reads this
    {
      State(order, table, current, frame, tick, nextPid, mode)
    }

    ghost predicate Valid()
      reads this
    {
      ListOk(Now())
    }

    /** PsFindProcess. */
    method Find(pid: nat) returns (found: bool)
      requires Valid()
      ensures found <==> pid in table
    {
      var i := 0;
      while i < |order|
        invariant i <= |order| && forall k :: 0 <= k < i ==> order[k] != pid
      {
        if order[i] == pid { return true; }
        i := i + 1;
      }
      return false;
    }

    /** Whether the awaited process is off the list or has ended. */
    method IsGone(pid: nat) returns (gone: bool)
      requires Valid()
      ensures gone == Gone(table, pid)
    {
      var found := Find(pid);
      gone := !found || table[pid].dead;
    }

    /** PsScheduleNext. */
    method ScheduleNext() returns (next: Option<nat>)
      requires Valid()
      ensures next == Next(order, table, current)
    {
      next := None;
      var i := 0;
      while i < |order|
        invariant i <= |order| && Next(order, table, current) == Next(order[i..], table, current)
      {
        var pid := order[i];
        assert order[i..][1..] == order[i + 1..];
        if !table[pid].dead && table[pid].state.Ready? && pid != current && table[pid].has { return Some(pid); }
        i := i + 1;
      }
    }

    /** PsCleanupTerminated. */
    method CleanupTerminated()
      requires Valid() && 0 !in table
      modifies `order, `table, `current
      ensures order == Reaped(old(Now())).order && table == Reaped(old(Now())).table
      ensures current == if old(current) in old(table) && old(table)[old(current)].dead then 0 else old(current)
      ensures Valid()
    {
      hide Alive, ReapedSoFar;
      ghost var s := Now();
      ReapedNone(s);
      var kept := Sweep(s);
      ReapedEnd(s, table, current);
      order := kept;
      AliveDistinct(s.order, s.table);
    }

    /** Unlinks the terminated processes, one after the other. */
    method Sweep(ghost s: State) returns (kept: seq<nat>)
      requires ListOk(s) && 0 !in s.table && order == s.order && ReapedSoFar(s, 0, table, current)
      modifies `table, `current
      ensures kept == Alive(s.order, s.table) && ReapedSoFar(s, |s.order|, table, current)
    {
      hide Alive, ReapedSoFar, ListOk;
      kept := [];
      var i := 0;
      assert s.order[0..] == s.order;
      while i < |order|
        invariant i <= |order|
        invariant Alive(s.order, s.table) == kept + Alive(s.order[i..], s.table)
        invariant ReapedSoFar(s, i, table, current)
      {
        var pid := order[i];
        ReapedOneMore(s, i, table, current);
        AliveStep(s.order, s.table, i);
        if table[pid].dead {
          if current == pid { current := 0; }
          table := table - {pid};
        } else {
          kept := kept + [pid];
        }
        i := i + 1;
      }
      AliveNone(s.order, s.table);
    }

    lemma AliveNone(o: seq<nat>, t: map<nat, Proc>)
      ensures Alive(o[|o|..], t) == []
    {
    }

    /** The table and the current thread once the first `i` processes have been looked at. */
    ghost predicate ReapedSoFar(s: State, i: nat, now: map<nat, Proc>, cur: nat) {
      && i <= |s.order|
      && (forall p :: p in now <==> p in s.table && !(s.table[p].dead && p in s.order[..i]))
      && (forall p :: p in now ==> now[p] == s.table[p])
      && cur == if s.current in s.order[..i] && s.current in s.table && s.table[s.current].dead then 0 else s.current
    }

    lemma ReapedNone(s: State)
      ensures ReapedSoFar(s, 0, s.table, s.current) && s.order[0..] == s.order
    {
    }

    lemma ReapedOneMore(s: State, i: nat, now: map<nat, Proc>, cur: nat)
      requires ListOk(s) && i < |s.order| && ReapedSoFar(s, i, now, cur) && 0 !in s.table
      ensures s.order[i] in now && s.order[i] in s.table && now[s.order[i]] == s.table[s.order[i]]
      ensures var p := s.order[i];
              if now[p].dead then ReapedSoFar(s, i + 1, now - {p}, if cur == p then 0 else cur) else ReapedSoFar(s, i + 1, now, cur)
    {
      assert s.order[..i + 1] == s.order[..i] + [s.order[i]];
      assert s.order[i] !in s.order[..i];
    }

    lemma AliveStep(o: seq<nat>, t: map<nat, Proc>, i: nat)
      requires i < |o| && o[i] in t
      ensures Alive(o[i..], t) == (if t[o[i]].dead then [] else [o[i]]) + Alive(o[i + 1..], t)
    {
      assert o[i..][1..] == o[i + 1..];
    }

    lemma ReapedEnd(s: State, now: map<nat, Proc>, cur: nat)
      requires ListOk(s) && ReapedSoFar(s, |s.order|, now, cur)
      ensures now == Reaped(s).table && cur == (if s.current in s.table && s.table[s.current].dead then 0 else s.current)
    {
      assert s.order[..|s.order|] == s.order;
    }

    /** Puts the saved frame of the next thread on the CPU and makes that thread the current one. */
    method Switch(next: nat)
      requires next in table
      modifies `frame, `table, `current, `mode
      ensures Now() == SwitchTo(old(Now()), next)
    {
      frame := table[next].saved;
      table := table[next := table[next].(has := false)];
      current := next;
      mode := Running;
    }

    /** PitIrqHandler. */
    method PitIrqHandler()
      requires Inv(Now())
      modifies this
      ensures Now() == AfterTick(old(Now()))
    {
      hide Inv, Next, Alive, ProcOk;
      ghost var s := Now();
      InvList(s);
      tick := tick + 1;
      WakeThreads(s);
      if !mode.Running? || current !in table || table[current].dead { return; }
      if frame.cs % 4 == 0 { return; }
      TickedOk(s);
      InvList(Now());
      CleanupTerminated();
      ReapOk(Ticked(s));
      var next := ScheduleNext();
      if next.None? { return; }
      if table[current].state.Ready? {
        table := table[current := table[current].(saved := frame, has := true)];
      }
      Switch(next.value);
    }

    /** The wakeup scan of the timer. */
    method WakeThreads(ghost s: State)
      requires ListOk(s) && Now() == s.(tick := s.tick + 1)
      modifies `table
      ensures Now() == Ticked(s)
    {
      hide Woken, WokenSoFar, ListOk, Gone;
      WokenNone(s);
      var i := 0;
      while i < |order|
        invariant i <= |order| && Now() == s.(tick := s.tick + 1, table := table) && Valid() && WokenSoFar(s, i, table)
      {
        WokenOneMore(s, i, table);
        WakeThread(order[i], s);
        i := i + 1;
      }
      WokenEnd(s, table);
    }

    lemma WokenNone(s: State)
      ensures WokenSoFar(s, 0, s.table) && (ListOk(s) ==> ListOk(s.(tick := s.tick + 1)))
    {
    }

    lemma WokenEnd(s: State, now: map<nat, Proc>)
      requires ListOk(s) && WokenSoFar(s, |s.order|, now)
      ensures now == WokenAll(s.table, s.tick + 1)
    {
      assert s.order[..|s.order|] == s.order;
    }

    /** The threads of the first `i` processes have been looked at. */
    ghost predicate WokenSoFar(s: State, i: nat, now: map<nat, Proc>) {
      && i <= |s.order| && now.Keys == s.table.Keys
      && forall p :: p in s.table ==> now[p] == if p in s.order[..i] then Woken(s.table, s.table[p], s.tick + 1) else s.table[p]
    }

    lemma WokenOneMore(s: State, i: nat, now: map<nat, Proc>)
      requires ListOk(s) && i < |s.order| && WokenSoFar(s, i, now)
      ensures var p := s.order[i];
              p in now && p in s.table && now[p] == s.table[p] && WokenSoFar(s, i + 1, now[p := Woken(s.table, s.table[p], s.tick + 1)])
      ensures forall w :: Gone(now, w) == Gone(s.table, w)
      ensures ListOk(s.(tick := s.tick + 1, table := now[s.order[i] := Woken(s.table, s.table[s.order[i]], s.tick + 1)]))
    {
      hide Woken;
      assert s.order[..i + 1] == s.order[..i] + [s.order[i]];
      assert s.order[i] !in s.order[..i];
      forall w | w in s.table ensures now[w].dead == s.table[w].dead { WokenDead(s.table, s.table[w], s.tick + 1); }
    }

    lemma WokenDead(t: map<nat, Proc>, p: Proc, now: nat)
      ensures Woken(t, p, now).dead == p.dead
    {
    }

    /** The wakeup of one thread. */
    method WakeThread(pid: nat, ghost s: State)
      requires Valid() && pid in table && pid in s.table && table[pid] == s.table[pid] && tick == s.tick + 1
      requires forall w :: Gone(table, w) == Gone(s.table, w)
      modifies `table
      ensures table == old(table)[pid := Woken(s.table, s.table[pid], s.tick + 1)]
    {
      var p := table[pid];
      if !p.dead && p.state.Blocked? {
        if p.wakeup > 0 && tick >= p.wakeup {
          table := table[pid := p.(state := Ready, wakeup := 0)];
        } else if p.wait != 0 {
          var gone := IsGone(p.wait);
          if gone {
            table := table[pid := p.(state := Ready, wait := 0)];
          }
        }
      }
    }

    /** The waiter scan of SYS_EXIT and SyscallKillCurrentProcess. */
    method ReleaseWaiters(ended: nat)
      requires Valid()
      modifies `table
      ensures Now() == old(Now()).(table := ReleasedAll(old(table), ended))
    {
      ghost var s := Now();
      var i := 0;
      while i < |order|
        invariant i <= |order| && Now() == s.(table := table) && table.Keys == s.table.Keys
        invariant forall p :: p in s.table ==> table[p] == if p in s.order[..i] then Released(s.table[p], ended) else s.table[p]
      {
        var pid := order[i];
        assert pid in s.table && pid !in s.order[..i];
        assert s.order[..i + 1] == s.order[..i] + [pid];
        var p := table[pid];
        if p.state.Blocked? && p.wait == ended {
          table := table[pid := p.(state := Ready, wait := 0)];
        }
        i := i + 1;
      }
      assert s.order[..i] == s.order;
      assert table == ReleasedAll(s.table, ended);
    }

    /** SYS_EXEC, given what the loader answered. */
    method SysExec(l: Load)
      requires Inv(Now()) && mode.Running?
      modifies this
      ensures Now() == AfterExec(old(Now()), l)
    {
      hide Inv;
      match l
      case Failure(burned) =>
        if burned { nextPid := nextPid + 1; }
        frame := frame.(rax := FAILED);
      case Program(rip, rsp, rbx, rcx) =>
        RunningOk(Now());
        var child := nextPid;
        PidFresh(Now());
        nextPid := nextPid + 1;
        order := [child] + order;
        var saved := TrapFrame(0, rbx, rcx, 0, rip, 0x2B, 0x202, rsp, 0x23, seq(13, i => 0));
        table := table[child := Proc(false, Ready, 0, 0, saved, true)];
        var parent := table[current];
        table := table[current := parent.(state := Blocked, wait := child, wakeup := 0, saved := frame.(rax := child), has := true)];
        Switch(child);
    }

    /** SYS_SLEEP. */
    method SysSleep()
      requires Inv(Now()) && mode.Running?
      modifies this
      ensures Now() == AfterSleep(old(Now()))
    {
      hide Next, Inv;
      InvList(Now());
      RunningOk(Now());
      var ticks := frame.rbx / 10;
      if ticks == 0 { ticks := 1; }
      table := table[current := table[current].(wakeup := tick + ticks, state := Blocked, saved := frame, has := true)];
      var next := ScheduleNext();
      if next.Some? {
        Switch(next.value);
      } else {
        table := table[current := table[current].(state := Ready, has := false)];
      }
    }

    /** SYS_WAITPID up to the first HLT of its waiting loop. */
    method SysWaitPid()
      requires Inv(Now()) && mode.Running?
      modifies this
      ensures Now() == AfterWaitPid(old(Now()))
    {
      hide Next, Inv, Alive;
      ghost var s := Now();
      InvList(s);
      RunningOk(s);
      var target := frame.rbx;
      var gone := IsGone(target);
      if gone {
        if target in table { CleanupTerminated(); }
        frame := frame.(rax := 0);
        return;
      }
      var next := ScheduleNext();
      table := table[current := table[current].(state := Blocked, wakeup := 0, wait := target, saved := frame, has := true)];
      if next.None? {
        mode := Waiting(target);
      } else {
        Switch(next.value);
      }
    }

    /** The waiting loop of SYS_WAITPID, from one HLT to the next. */
    method WaitLoop()
      requires Inv(Now()) && mode.Waiting?
      modifies this
      ensures Now() == AfterHlt(old(Now()))
    {
      hide Next, Inv, Alive;
      ghost var s := Now();
      InvList(s);
      WaitingOk(s);
      var target := mode.target;
      var next := ScheduleNext();
      if next.Some? {
        Switch(next.value);
        return;
      }
      var gone := IsGone(target);
      if gone {
        CleanupTerminated();
        var p := table[current];
        frame := p.saved;
        table := table[current := p.(has := false, state := Ready, wait := 0)];
        mode := Running;
        frame := frame.(rax := 0);
      }
    }

    /** SYS_EXIT, and SyscallKillCurrentProcess. */
    method SysExit()
      requires Inv(Now()) && mode.Running?
      modifies this
      ensures Now() == AfterExit(old(Now()))
    {
      hide Next, Inv, ReleasedAll;
      InvList(Now());
      RunningOk(Now());
      table := table[current := table[current].(dead := true, state := Dead)];
      ReleaseWaiters(current);
      SameKeysListed(old(Now()), Now());
      var next := ScheduleNext();
      if next.Some? {
        Switch(next.value);
      } else {
        mode := Halted;
      }
    }
  }

  lemma InvList(s: State)
    requires Inv(s)
    ensures ListOk(s) && 0 !in s.table
  {
  }

  lemma WaitingOk(s: State)
    requires Inv(s) && s.mode.Waiting?
    ensures s.current in s.table && !s.table[s.current].dead
  {
  }

  lemma SameKeysListed(s: State, s': State)
    requires ListOk(s) && s'.order == s.order && s.current in s.table
    requires s'.table == ReleasedAll(s.table[s.current := s.table[s.current].(dead := true, state := Dead)], s.current)
    ensures ListOk(s')
  {
  }
}
