/**
 The scheduler as the kernel runs it: one task table and one record per CPU, updated in place
 by functions that hold the scheduler lock. Each takes exactly one step of the state machine.
 */
module Scheduler {
  import opened Fs
  import opened Sched

  class Table {
    var tasks: seq<Task>
    var cpus: seq<Cpu>

    function View(): System
      reads this
    {
      System(tasks, cpus)
    }

    /** The invariant of the state machine; priorities are bytes. */
    ghost predicate Valid()
      reads this
    {
      Inv(View()) && forall i :: 0 <= i < |tasks| ==> tasks[i].priority < 256
    }

    constructor (n: nat)
      ensures Start(View()) && Valid() && |cpus| == n
    {
      tasks := [];
      cpus := seq(n, i => Cpu(None, None, None, false));
    }

    method ReleasePendingPrev(me: nat)
      requires Valid() && me < |cpus|
      modifies this
      ensures View() == Release(old(View()), me) && Valid()
    {
      ReleaseInv(View(), me);
      var prev := cpus[me].pending;
      cpus := cpus[me := cpus[me].(pending := None)];
      if prev == None || prev == cpus[me].current {
        return;
      }
      if tasks[prev.value].state == Running && tasks[prev.value].owner == me {
        tasks := tasks[prev.value := tasks[prev.value].(state := Ready)];
      }
    }

    /** Does task `i` have a dead child it has not reaped? */
    method HasDeadUnreapedChild(i: nat) returns (r: bool)
      requires i < |tasks|
      ensures r == HasDeadChild(tasks, i)
    {
      var j := 0;
      while j < |tasks|
        invariant j <= |tasks|
        invariant forall k :: 0 <= k < j ==> !(tasks[k].parent == tasks[i].id && tasks[k].state == Dead && !tasks[k].reaped)
      {
        if tasks[j].parent == tasks[i].id && tasks[j].state == Dead && !tasks[j].reaped {
          return true;
        }
        j := j + 1;
      }
      return false;
    }

    method FindTask(id: nat) returns (r: Option<nat>)
      ensures var i := IndexOf(tasks, id, 0); r == if i < |tasks| then Some(i) else None
    {
      var i := 0;
      while i < |tasks|
        invariant i <= |tasks| && IndexOf(tasks, id, 0) == IndexOf(tasks, id, i)
      {
        if tasks[i].id == id { return Some(i); }
        i := i + 1;
      }
      return None;
    }

    /** The wake pass over the whole table, in place. */
    method WakeState(env: Env)
      modifies this`tasks
      ensures tasks == WakePass(old(tasks), 0, env)
    {
      var i := 0;
      while i < |tasks|
        invariant i <= |tasks| && WakePass(tasks, i, env) == WakePass(old(tasks), 0, env)
      {
        var t := tasks[i];
        match t.state {
          case Sleeping =>
            if (t.untilNs != 0 && env.nowNs >= t.untilNs) || env.nowMs >= t.untilMs {
              t := t.(state := Ready, untilNs := 0);
            }
          case Blocked =>
            if t.onInput {
              if env.linePending { t := t.(state := Ready); }
            } else if t.onRaw {
              if env.inputPending { t := t.(state := Ready); }
            } else if t.onChild {
              var has := HasDeadUnreapedChild(i);
              if has { t := t.(state := Ready); }
            }
          case Dead =>
            if !t.reaped {
              var reap := true;
              if t.parent != 0 {
                var p := FindTask(t.parent);
                reap := p == None || tasks[p.value].state == Dead;
              }
              if reap { t := t.(reaped := true); }
            }
          case _ =>
        }
        assert t == WakeOne(tasks, i, env);
        tasks := tasks[i := t];
        i := i + 1;
      }
    }

    /** The scan for the best Ready task of this CPU, in rotation after the current one. */
    method FindBest(me: nat, start: nat) returns (best: Option<nat>)
      requires start <= |tasks| && forall i :: 0 <= i < |tasks| ==> tasks[i].priority < 256
      ensures best == BestOf(tasks, me, start, |tasks|)
    {
      best := None;
      var bestPrio := 0xFFFF_FFFF;
      var bestLocal := false;
      var n := |tasks|;
      var k := 0;
      while k < n
        invariant k <= n && best == BestOf(tasks, me, start, k)
        invariant best.Some? ==> bestLocal && bestPrio == tasks[best.value].priority
        invariant best.None? ==> bestPrio == 0xFFFF_FFFF
      {
        var idx := (start + k) % n;
        RotMod(n, start, k);
        k := k + 1;
        if tasks[idx].state != Ready { continue; }
        if tasks[idx].owner != me { continue; }
        var p := tasks[idx].priority;
        var local := true;
        if p < bestPrio || (p == bestPrio && local && !bestLocal && best.Some?) {
          bestPrio, best, bestLocal := p, Some(idx), local;
        }
      }
    }

    /** Pick the next context; true when a switch has to follow. */
    method PlanSwitch(me: nat, env: Env) returns (switch: bool)
      requires Valid() && me < |cpus| && !cpus[me].switching && cpus[me].pending == None
      modifies this
      ensures View() == Plan(old(View()), me, env) && Valid()
      ensures switch <==> cpus[me].switching
    {
      PlanInv(View(), me, env);
      InvCpu(View(), me);
      hide Inv, InTable, WakePass, BestOf, Pick, Tick;
      if |tasks| == 0 { return false; }
      var cur := cpus[me].current;
      WakeAndTick(me, env);
      var best := FindBest(me, if cur.None? then 0 else cur.value + 1);
      switch := Decide(me, best);
    }

    /** The wake pass, and one tick off the current task's slice. */
    method WakeAndTick(me: nat, env: Env)
      requires me < |cpus| && (cpus[me].current.Some? ==> cpus[me].current.value < |tasks|)
      requires forall i :: 0 <= i < |tasks| ==> tasks[i].priority < 256
      modifies this`tasks
      ensures |tasks| == |old(tasks)| && tasks == Tick(WakePass(old(tasks), 0, env), cpus[me].current)
      ensures forall i :: 0 <= i < |tasks| ==> tasks[i].priority < 256
    {
      hide WakePass;
      var cur := cpus[me].current;
      WakeState(env);
      if cur.Some? && tasks[cur.value].state == Running && tasks[cur.value].slice > 0 {
        tasks := tasks[cur.value := tasks[cur.value].(slice := tasks[cur.value].slice - 1)];
      }
    }

    /** Keep the current task running, or hand the CPU over. */
    method Decide(me: nat, best: Option<nat>) returns (switch: bool)
      requires me < |cpus| && !cpus[me].switching && (best.Some? ==> best.value < |tasks|)
      requires cpus[me].current.Some? ==> cpus[me].current.value < |tasks|
      modifies this
      ensures var (us, out) := Pick(old(tasks), old(cpus)[me], best); tasks == us && cpus == old(cpus)[me := out]
      ensures forall i :: 0 <= i < |tasks| ==> tasks[i].priority == old(tasks)[i].priority
      ensures switch <==> cpus[me].switching
    {
      hide HandOver;
      assert cpus[me := cpus[me]] == cpus;
      var cur := cpus[me].current;
      var running := cur.Some? && tasks[cur.value].state == Running;
      if cur.Some? {
        var t := tasks[cur.value];
        var keep := running && (best.None? || t.priority == PRIO_RT || (t.slice > 0 && tasks[best.value].priority >= t.priority));
        if keep {
          return false;
        }
      } else if best.None? {
        return false;
      }
      if best == cur {
        return false;
      }
      TakeOver(me, best, running);
      return true;
    }

    /** Record the outgoing task for release and install the incoming one. */
    method TakeOver(me: nat, next: Option<nat>, running: bool)
      requires me < |cpus| && (next.Some? ==> next.value < |tasks|)
      requires cpus[me].current.Some? ==> cpus[me].current.value < |tasks|
      requires running <==> cpus[me].current.Some? && tasks[cpus[me].current.value].state == Running
      modifies this
      ensures var (us, out) := HandOver(old(tasks), old(cpus)[me], next); tasks == us && cpus == old(cpus)[me := out] && out.switching
      ensures forall i :: 0 <= i < |tasks| ==> tasks[i].priority == old(tasks)[i].priority
    {
      if running {
        cpus := cpus[me := cpus[me].(pending := cpus[me].current)];
      }
      if next.Some? {
        tasks := tasks[next.value := tasks[next.value].(slice := FreshSlice(tasks[next.value].priority), state := Running)];
      }
      cpus := cpus[me := cpus[me].(current := next, switching := true)];
    }

    /** Reschedule this CPU, up to the release of the lock. */
    method Reschedule(me: nat, env: Env) returns (switch: bool)
      requires Valid() && me < |cpus| && !cpus[me].switching
      modifies this
      ensures View() == Next(old(View()), Preempt(me, env)) && Valid()
      ensures switch <==> cpus[me].switching
    {
      ReleasePendingPrev(me);
      switch := PlanSwitch(me, env);
    }

    /** The naked switch: save the outgoing context, load the incoming one, which must be saved. */
    method ContextSwitch(me: nat)
      requires Valid() && me < |cpus| && cpus[me].switching
      modifies this
      ensures View() == Next(old(View()), Switch(me)) && Valid()
    {
      StepKeeps(View(), Switch(me));
      LoadsSaved(View(), me);
      hide Inv, InTable;
      var cpu := cpus[me];
      if cpu.live.Some? {
        tasks := tasks[cpu.live.value := tasks[cpu.live.value].(saved := true)];
      }
      if cpu.current.Some? {
        tasks := tasks[cpu.current.value := tasks[cpu.current.value].(saved := false)];
      }
      cpus := cpus[me := cpu.(live := cpu.current, switching := false)];
    }

    method YieldCurrent(me: nat)
      requires Valid() && me < |cpus| && !cpus[me].switching
      modifies this
      ensures View() == Next(old(View()), Yield(me)) && Valid()
    {
      StepKeeps(View(), Yield(me));
      var cur := cpus[me].current;
      if cur.Some? && tasks[cur.value].state == Running {
        tasks := tasks[cur.value := tasks[cur.value].(state := Ready)];
      }
    }

    method SleepCurrent(me: nat, untilMs: nat, untilNs: Option<nat>)
      requires Valid() && me < |cpus| && !cpus[me].switching
      modifies this
      ensures View() == Next(old(View()), Sleep(me, untilMs, untilNs)) && Valid()
    {
      StepKeeps(View(), Sleep(me, untilMs, untilNs));
      var cur := cpus[me].current;
      if cur.Some? {
        var t := tasks[cur.value].(state := Sleeping, untilMs := untilMs, onInput := false, onRaw := false);
        if untilNs.Some? { t := t.(untilNs := untilNs.value); }
        tasks := tasks[cur.value := t];
      }
    }

    method BlockCurrent(me: nat, wait: Wait)
      requires Valid() && me < |cpus| && !cpus[me].switching
      modifies this
      ensures View() == Next(old(View()), BlockOn(me, wait)) && Valid()
    {
      StepKeeps(View(), BlockOn(me, wait));
      var cur := cpus[me].current;
      if cur.Some? {
        tasks := tasks[cur.value := Waiting(tasks[cur.value], wait)];
      }
    }

    method RecordExit(me: nat, code: nat)
      requires Valid() && me < |cpus| && !cpus[me].switching
      modifies this
      ensures View() == Next(old(View()), Exit(me, code)) && Valid()
    {
      StepKeeps(View(), Exit(me, code));
      var cur := cpus[me].current;
      if cur.Some? {
        tasks := tasks[cur.value := tasks[cur.value].(state := Dead, exitCode := code, reaped := false)];
      }
    }

    method KillTask(me: nat, id: nat) returns (killed: bool)
      requires Valid() && me < |cpus| && !cpus[me].switching
      modifies this
      ensures View() == Next(old(View()), Kill(me, id)) && Valid()
      ensures killed <==> Victim(old(tasks), id, old(cpus)[me].current, 0) < |old(tasks)|
    {
      StepKeeps(View(), Kill(me, id));
      hide Inv, Plan, Release, SwitchContexts;
      killed := MarkVictim(me, id);
    }

    method MarkVictim(me: nat, id: nat) returns (killed: bool)
      requires me < |cpus| && forall i :: 0 <= i < |tasks| ==> tasks[i].priority < 256
      modifies this`tasks
      ensures View() == Killed(old(View()), me, id)
      ensures killed <==> Victim(old(tasks), id, cpus[me].current, 0) < |old(tasks)|
      ensures forall i :: 0 <= i < |tasks| ==> tasks[i].priority < 256
    {
      var i := 0;
      while i < |tasks|
        invariant i <= |tasks| && tasks == old(tasks)
        invariant Victim(tasks, id, cpus[me].current, 0) == Victim(tasks, id, cpus[me].current, i)
      {
        if tasks[i].id == id && cpus[me].current != Some(i) && tasks[i].state != Dead {
          tasks := tasks[i := tasks[i].(state := Dead, exitCode := 137, reaped := false)];
          return true;
        }
        i := i + 1;
      }
      return false;
    }

    method WakeTaskNow(id: nat) returns (woke: bool)
      requires Valid()
      modifies this
      ensures View() == Next(old(View()), Wake(id)) && Valid()
      ensures woke <==> View() != old(View())
    {
      StepKeeps(View(), Wake(id));
      var t := FindTask(id);
      if t.Some? && tasks[t.value].state == Sleeping {
        tasks := tasks[t.value := tasks[t.value].(state := Ready)];
        assert tasks[t.value].state != old(tasks)[t.value].state;
        return true;
      }
      return false;
    }

    method SpawnTask(id: nat, owner: nat, priority: nat, parent: nat)
      requires Valid() && owner < |cpus| && priority < 256
      modifies this
      ensures View() == Next(old(View()), Spawn(id, owner, priority, parent)) && Valid()
    {
      StepKeeps(View(), Spawn(id, owner, priority, parent));
      tasks := tasks + [NewTask(id, owner, priority, parent)];
    }

    method ChangePriority(id: nat, priority: nat) returns (changed: bool)
      requires Valid() && priority < 256
      modifies this
      ensures View() == Next(old(View()), SetPriority(id, priority)) && Valid()
      ensures changed <==> exists i :: 0 <= i < |old(tasks)| && old(tasks)[i].id == id && old(tasks)[i].state != Dead
    {
      StepKeeps(View(), SetPriority(id, priority));
      hide Inv, Plan, Release, SwitchContexts, Reprioritized;
      changed := Reprioritize(id, priority);
    }

    method Reprioritize(id: nat, priority: nat) returns (changed: bool)
      requires priority < 256 && forall i :: 0 <= i < |tasks| ==> tasks[i].priority < 256
      modifies this`tasks
      ensures View() == Reprioritized(old(View()), id, priority)
      ensures changed <==> exists i :: 0 <= i < |old(tasks)| && old(tasks)[i].id == id && old(tasks)[i].state != Dead
      ensures forall i :: 0 <= i < |tasks| ==> tasks[i].priority < 256
    {
      var i := 0;
      while i < |tasks|
        invariant i <= |tasks| && tasks == old(tasks) && Living(tasks, id, 0) == Living(tasks, id, i)
        invariant forall j :: 0 <= j < i ==> !(tasks[j].id == id && tasks[j].state != Dead)
      {
        if tasks[i].id == id && tasks[i].state != Dead {
          tasks := tasks[i := tasks[i].(priority := priority)];
          return true;
        }
        i := i + 1;
      }
      return false;
    }
  }

  /** The context a planned switch loads is complete in its slot. */
  lemma LoadsSaved(s: System, c: nat)
    requires Inv(s) && c < |s.cpus| && s.cpus[c].switching
    ensures s.cpus[c].current.Some? ==> s.cpus[c].current.value < |s.tasks| && s.tasks[s.cpus[c].current.value].saved
    ensures s.cpus[c].live.Some? ==> s.cpus[c].live.value < |s.tasks| && !s.tasks[s.cpus[c].live.value].saved
  {
  }

  lemma InvCpu(s: System, c: nat)
    requires Inv(s) && c < |s.cpus|
    ensures s.cpus[c].current.Some? ==> s.cpus[c].current.value < |s.tasks|
  {
  }

  lemma RotMod(n: nat, start: nat, k: nat)
    requires start <= n && k < n
    ensures (start + k) % n == Rot(n, start, k)
  {
    var a := start + k;
    var q := a / n;
    assert a == n * q + a % n;
    if start + k < n {
      assert q >= 1 ==> n * q >= n;
      assert q == 0;
    } else {
      assert q >= 2 ==> n * q >= 2 * n;
      assert q <= 0 ==> n * q <= 0;
      assert q == 1;
    }
  }
}
