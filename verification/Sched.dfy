/**
 The multi-CPU scheduler as a state machine. Every function that holds the scheduler lock is
 one step; the switch of machine contexts, which runs after the lock is released, is another.
 */
module Sched {
  import opened Fs

  const PRIO_RT: nat := 0
  const PRIO_NORMAL: nat := 1
  const PRIO_IDLE: nat := 2

  datatype State = Running | Ready | Sleeping | Blocked | Dead

  /** `saved` says that the machine context is in the task's own slot, not on a CPU. */
  datatype Task = Task(id: nat, state: State, owner: nat, priority: nat, slice: nat,
                       untilMs: nat, untilNs: nat, onInput: bool, onRaw: bool, onChild: bool,
                       parent: nat, exitCode: nat, reaped: bool, saved: bool)

  /**
   Indices into the task table; None is the CPU's own idle context. `live` is the context on
   the hardware, which differs from `current` between a pick and the switch it planned.
   */
  datatype Cpu = Cpu(current: Option<nat>, pending: Option<nat>, live: Option<nat>, switching: bool)

  datatype System = System(tasks: seq<Task>, cpus: seq<Cpu>)

  /** What the wake pass reads from outside: the two clocks and the two input queues. */
  datatype Env = Env(nowMs: nat, nowNs: nat, linePending: bool, inputPending: bool)

  datatype Wait = OnInput | OnRawInput | OnChild

  datatype Step =
    | Preempt(cpu: nat, env: Env)
    | Switch(cpu: nat)
    | EnterTask(cpu: nat)
    | Yield(cpu: nat)
    | Sleep(cpu: nat, untilMs: nat, untilNs: Option<nat>)
    | BlockOn(cpu: nat, wait: Wait)
    | Exit(cpu: nat, code: nat)
    | Kill(cpu: nat, id: nat)
    | Wake(id: nat)
    | Spawn(id: nat, owner: nat, priority: nat, parent: nat)
    | SetPriority(id: nat, priority: nat)

  function FreshSlice(priority: nat): (r: nat)
    ensures 1 <= r <= 8
  {
    if priority == PRIO_RT then 1 else if priority == PRIO_NORMAL then 8 else 1
  }

  // ---- the wake pass ----

  function HasDeadChild(ts: seq<Task>, i: nat): bool
    requires i < |ts|
  {
    exists j :: 0 <= j < |ts| && ts[j].parent == ts[i].id && ts[j].state == Dead && !ts[j].reaped
  }

  /** The first task with this id, or the table's length. */
  function IndexOf(ts: seq<Task>, id: nat, i: nat): (r: nat)
    requires i <= |ts|
    ensures i <= r <= |ts| && (r < |ts| ==> ts[r].id == id)
    ensures forall j :: i <= j < r ==> ts[j].id != id
    decreases |ts| - i
  {
    if i == |ts| || ts[i].id == id then i else IndexOf(ts, id, i + 1)
  }

  function Orphan(ts: seq<Task>, t: Task): bool {
    t.parent == 0 || var p := IndexOf(ts, t.parent, 0); p == |ts| || ts[p].state == Dead
  }

  /** What the wake pass makes of one task. */
  function WakeOne(ts: seq<Task>, i: nat, env: Env): (t: Task)
    requires i < |ts|
    ensures t == ts[i].(state := t.state, untilNs := t.untilNs, reaped := t.reaped)
    ensures t.state == ts[i].state || (t.state == Ready && ts[i].state in {Sleeping, Blocked})
  {
    var t := ts[i];
    match t.state
    case Sleeping =>
      if (t.untilNs != 0 && env.nowNs >= t.untilNs) || env.nowMs >= t.untilMs then t.(state := Ready, untilNs := 0) else t
    case Blocked =>
      if t.onInput then (if env.linePending then t.(state := Ready) else t)
      else if t.onRaw then (if env.inputPending then t.(state := Ready) else t)
      else if t.onChild && HasDeadChild(ts, i) then t.(state := Ready)
      else t
    case Dead => if !t.reaped && Orphan(ts, t) then t.(reaped := true) else t
    case _ => t
  }

  /** Waking only ever turns sleepers and blocked tasks Ready. */
  ghost predicate Woken(before: seq<Task>, after: seq<Task>) {
    && |before| == |after|
    && forall i :: 0 <= i < |before| ==>
         && after[i] == before[i].(state := after[i].state, untilNs := after[i].untilNs, reaped := after[i].reaped)
         && (after[i].state == before[i].state || (after[i].state == Ready && before[i].state in {Sleeping, Blocked}))
  }

  /** The pass runs down the table and sees the tasks it has already changed. */
  function WakePass(ts: seq<Task>, i: nat, env: Env): (r: seq<Task>)
    requires i <= |ts|
    ensures Woken(ts, r)
    decreases |ts| - i
  {
    if i == |ts| then ts else WakePass(ts[i := WakeOne(ts, i, env)], i + 1, env)
  }

  // ---- the pick ----

  /** The index `k` places on from `start` in a table of `n`. */
  function Rot(n: nat, start: nat, k: nat): (r: nat)
    requires start <= n && k < n
    ensures r < n
  {
    if start + k < n then start + k else start + k - n
  }

  predicate Eligible(ts: seq<Task>, me: nat, i: nat)
    requires i < |ts|
  {
    ts[i].state == Ready && ts[i].owner == me
  }

  /** The best of the first `k` places: most urgent, and the earliest among equals. */
  function BestOf(ts: seq<Task>, me: nat, start: nat, k: nat): (best: Option<nat>)
    requires start <= |ts| && k <= |ts|
    ensures best.Some? ==> best.value < |ts| && Eligible(ts, me, best.value)
  {
    if k == 0 then None
    else
      var best := BestOf(ts, me, start, k - 1);
      var i := Rot(|ts|, start, k - 1);
      if Eligible(ts, me, i) && (best.None? || ts[i].priority < ts[best.value].priority) then Some(i) else best
  }

  /** Where a task lies in the scan that begins at `start`. */
  function Place(n: nat, start: nat, i: nat): (k: nat)
    requires start <= n && i < n
    ensures k < n && Rot(n, start, k) == i
  {
    if start == n then i else if start <= i then i - start else i + n - start
  }

  /** The scan picks the most urgent Ready task of this CPU, and the first of them in rotation. */
  lemma {:induction false} BestIsFirst(ts: seq<Task>, me: nat, start: nat, k: nat, j: nat)
    requires start <= |ts| && j < k <= |ts| && Eligible(ts, me, Rot(|ts|, start, j))
    ensures var b := BestOf(ts, me, start, k); var i := Rot(|ts|, start, j);
      && b.Some? && ts[b.value].priority <= ts[i].priority
      && (ts[b.value].priority == ts[i].priority ==> Place(|ts|, start, b.value) <= j)
  {
    PlaceRot(|ts|, start, j);
    if j < k - 1 {
      BestIsFirst(ts, me, start, k - 1, j);
    } else {
      BestPlace(ts, me, start, k - 1);
    }
    PlaceRot(|ts|, start, k - 1);
  }

  lemma PlaceRot(n: nat, start: nat, k: nat)
    requires start <= n && k < n
    ensures Place(n, start, Rot(n, start, k)) == k
  {
  }

  lemma {:induction false} BestPlace(ts: seq<Task>, me: nat, start: nat, k: nat)
    requires start <= |ts| && k <= |ts|
    ensures var b := BestOf(ts, me, start, k); b.Some? ==> Place(|ts|, start, b.value) < k
  {
    if k > 0 {
      BestPlace(ts, me, start, k - 1);
      PlaceRot(|ts|, start, k - 1);
    }
  }

  // ---- the steps ----

  /** The deferred half of a handoff: the task this CPU suspended last becomes eligible again. */
  function Release(s: System, me: nat): (r: System)
    requires me < |s.cpus| && (s.cpus[me].pending.Some? ==> s.cpus[me].pending.value < |s.tasks|)
    ensures |r.tasks| == |s.tasks| && r.cpus == s.cpus[me := s.cpus[me].(pending := None)]
  {
    var cpus := s.cpus[me := s.cpus[me].(pending := None)];
    match s.cpus[me].pending
    case None => System(s.tasks, cpus)
    case Some(p) =>
      if s.cpus[me].current != Some(p) && s.tasks[p].state == Running && s.tasks[p].owner == me
      then System(s.tasks[p := s.tasks[p].(state := Ready)], cpus)
      else System(s.tasks, cpus)
  }

  function Tick(ts: seq<Task>, cur: Option<nat>): (r: seq<Task>)
    requires cur.Some? ==> cur.value < |ts|
    ensures |r| == |ts|
  {
    if cur.Some? && ts[cur.value].state == Running && ts[cur.value].slice > 0
    then ts[cur.value := ts[cur.value].(slice := ts[cur.value].slice - 1)]
    else ts
  }

  function StartOf(cur: Option<nat>): nat {
    if cur.None? then 0 else cur.value + 1
  }

  /** Stay on the current task: it runs, and nothing beats it or its slice is not over. */
  predicate Keeps(ts: seq<Task>, cur: nat, best: Option<nat>)
    requires cur < |ts| && (best.Some? ==> best.value < |ts|)
  {
    && ts[cur].state == Running
    && (best.None? || ts[cur].priority == PRIO_RT || (ts[cur].slice > 0 && ts[best.value].priority >= ts[cur].priority))
  }

  /** Hand this CPU over to `next`; the outgoing task stays Running until it is released. */
  function HandOver(ts: seq<Task>, cpu: Cpu, next: Option<nat>): (r: (seq<Task>, Cpu))
    requires cpu.current.Some? ==> cpu.current.value < |ts|
    requires next.Some? ==> next.value < |ts|
    ensures |r.0| == |ts|
  {
    var leaving := cpu.current.Some? && ts[cpu.current.value].state == Running;
    var out := cpu.(current := next, pending := if leaving then cpu.current else cpu.pending, switching := true);
    if next.None? then (ts, out)
    else (ts[next.value := ts[next.value].(slice := FreshSlice(ts[next.value].priority), state := Running)], out)
  }

  function Pick(ts: seq<Task>, cpu: Cpu, best: Option<nat>): (r: (seq<Task>, Cpu))
    requires cpu.current.Some? ==> cpu.current.value < |ts|
    requires best.Some? ==> best.value < |ts|
    ensures |r.0| == |ts|
  {
    if (cpu.current.Some? && Keeps(ts, cpu.current.value, best)) || best == cpu.current then (ts, cpu)
    else HandOver(ts, cpu, best)
  }

  function Plan(s: System, me: nat, env: Env): (r: System)
    requires me < |s.cpus| && (s.cpus[me].current.Some? ==> s.cpus[me].current.value < |s.tasks|)
    ensures |r.tasks| == |s.tasks| && |r.cpus| == |s.cpus|
  {
    if s.tasks == [] then s
    else
      var cpu := s.cpus[me];
      var ts := Tick(WakePass(s.tasks, 0, env), cpu.current);
      var (us, out) := Pick(ts, cpu, BestOf(ts, me, StartOf(cpu.current), |ts|));
      System(us, s.cpus[me := out])
  }

  function Victim(ts: seq<Task>, id: nat, cur: Option<nat>, i: nat): (r: nat)
    requires i <= |ts|
    ensures i <= r <= |ts|
    ensures r < |ts| ==> ts[r].id == id && cur != Some(r) && ts[r].state != Dead
    decreases |ts| - i
  {
    if i == |ts| || (ts[i].id == id && cur != Some(i) && ts[i].state != Dead) then i else Victim(ts, id, cur, i + 1)
  }

  function Living(ts: seq<Task>, id: nat, i: nat): (r: nat)
    requires i <= |ts|
    ensures i <= r <= |ts|
    ensures r < |ts| ==> ts[r].id == id && ts[r].state != Dead
    decreases |ts| - i
  {
    if i == |ts| || (ts[i].id == id && ts[i].state != Dead) then i else Living(ts, id, i + 1)
  }

  function Waiting(t: Task, wait: Wait): Task {
    match wait
    case OnInput => t.(state := Blocked, onInput := true)
    case OnRawInput => t.(state := Blocked, onRaw := true)
    case OnChild => t.(state := Blocked, onChild := true)
  }

  function Asleep(t: Task, untilMs: nat, untilNs: Option<nat>): Task {
    t.(state := Sleeping, untilMs := untilMs, untilNs := if untilNs.None? then t.untilNs else untilNs.value,
       onInput := false, onRaw := false)
  }

  function NewTask(id: nat, owner: nat, priority: nat, parent: nat): Task {
    Task(id, Ready, owner, priority, FreshSlice(priority), 0, 0, false, false, false, parent, 0, false, true)
  }

  function Died(t: Task, code: nat): Task {
    t.(state := Dead, exitCode := code, reaped := false)
  }

  /** The first live task with this id that is not the caller itself dies. */
  function Killed(s: System, c: nat, id: nat): System
    requires c < |s.cpus|
  {
    var v := Victim(s.tasks, id, s.cpus[c].current, 0);
    if v < |s.tasks| then s.(tasks := s.tasks[v := Died(s.tasks[v], 137)]) else s
  }

  function Awoken(s: System, id: nat): System {
    var w := IndexOf(s.tasks, id, 0);
    if w < |s.tasks| && s.tasks[w].state == Sleeping then s.(tasks := s.tasks[w := s.tasks[w].(state := Ready)]) else s
  }

  function Reprioritized(s: System, id: nat, priority: nat): System {
    var i := Living(s.tasks, id, 0);
    if i < |s.tasks| then s.(tasks := s.tasks[i := s.tasks[i].(priority := priority)]) else s
  }

  /** Replace the task this CPU runs; the idle context is never touched. */
  function SetCurrent(s: System, c: nat, t: Task): System
    requires c < |s.cpus| && (s.cpus[c].current.Some? ==> s.cpus[c].current.value < |s.tasks|)
  {
    if s.cpus[c].current.None? then s else s.(tasks := s.tasks[s.cpus[c].current.value := t])
  }

  function CurrentTask(s: System, c: nat): Task
    requires c < |s.cpus| && (s.cpus[c].current.Some? ==> s.cpus[c].current.value < |s.tasks|)
  {
    if s.cpus[c].current.None? then NewTask(0, 0, 0, 0) else s.tasks[s.cpus[c].current.value]
  }

  /** The switch itself: the outgoing context goes to its slot, the incoming one comes from its own. */
  function SwitchContexts(s: System, c: nat): (r: System)
    requires c < |s.cpus|
    requires s.cpus[c].live.Some? ==> s.cpus[c].live.value < |s.tasks|
    requires s.cpus[c].current.Some? ==> s.cpus[c].current.value < |s.tasks|
  {
    var cpu := s.cpus[c];
    var a := if cpu.live.Some? then s.tasks[cpu.live.value := s.tasks[cpu.live.value].(saved := true)] else s.tasks;
    var b := if cpu.current.Some? then a[cpu.current.value := a[cpu.current.value].(saved := false)] else a;
    System(b, s.cpus[c := cpu.(live := cpu.current, switching := false)])
  }

  /** A CPU in the middle of a switch runs with interrupts off and takes no other step. */
  predicate Enabled(s: System, step: Step) {
    match step
    case Switch(c) => c < |s.cpus| && s.cpus[c].switching
    case Wake(_) => true
    case SetPriority(_, _) => true
    case Spawn(_, owner, _, _) => owner < |s.cpus|
    case _ => step.cpu < |s.cpus| && !s.cpus[step.cpu].switching
  }

  function Next(s: System, step: Step): System
    requires InTable(s) && Enabled(s, step)
  {
    match step
    case Preempt(c, env) => Plan(Release(s, c), c, env)
    case Switch(c) => SwitchContexts(s, c)
    case EnterTask(c) => Release(s, c)
    case Yield(c) => if CurrentTask(s, c).state == Running then SetCurrent(s, c, CurrentTask(s, c).(state := Ready)) else s
    case Sleep(c, ms, ns) => SetCurrent(s, c, Asleep(CurrentTask(s, c), ms, ns))
    case BlockOn(c, wait) => SetCurrent(s, c, Waiting(CurrentTask(s, c), wait))
    case Exit(c, code) => SetCurrent(s, c, Died(CurrentTask(s, c), code))
    case Kill(c, id) => Killed(s, c, id)
    case Wake(id) => Awoken(s, id)
    case Spawn(id, owner, priority, parent) => s.(tasks := s.tasks + [NewTask(id, owner, priority, parent)])
    case SetPriority(id, priority) => Reprioritized(s, id, priority)
  }

  // ---- what every step keeps ----

  predicate InTable(s: System) {
    forall c :: 0 <= c < |s.cpus| ==>
      && (s.cpus[c].current.Some? ==> s.cpus[c].current.value < |s.tasks|)
      && (s.cpus[c].pending.Some? ==> s.cpus[c].pending.value < |s.tasks|)
      && (s.cpus[c].live.Some? ==> s.cpus[c].live.value < |s.tasks|)
  }

  /** Every context a CPU names is its own idle context or a task it owns. */
  predicate Owned(s: System)
    requires InTable(s)
  {
    && (forall i :: 0 <= i < |s.tasks| ==> s.tasks[i].owner < |s.cpus|)
    && (forall c :: 0 <= c < |s.cpus| ==>
          && (s.cpus[c].current.Some? ==> s.tasks[s.cpus[c].current.value].owner == c)
          && (s.cpus[c].pending.Some? ==> s.tasks[s.cpus[c].pending.value].owner == c)
          && (s.cpus[c].live.Some? ==> s.tasks[s.cpus[c].live.value].owner == c))
  }

  /** A context is in its slot exactly while its CPU does not have it on the hardware. */
  predicate Located(s: System)
    requires InTable(s) && Owned(s)
  {
    && (forall c :: 0 <= c < |s.cpus| ==> (s.cpus[c].switching <==> s.cpus[c].live != s.cpus[c].current))
    && (forall i :: 0 <= i < |s.tasks| ==> (s.tasks[i].saved <==> s.cpus[s.tasks[i].owner].live != Some(i)))
  }

  /** No Running task is lost: its owner runs it or still has to release it. */
  predicate Accounted(s: System)
    requires InTable(s) && Owned(s)
  {
    forall i :: 0 <= i < |s.tasks| ==>
      && s.tasks[i].slice <= 8
      && (s.tasks[i].state == Running ==>
            s.cpus[s.tasks[i].owner].current == Some(i) || s.cpus[s.tasks[i].owner].pending == Some(i))
  }

  predicate Inv(s: System) {
    InTable(s) && Owned(s) && Located(s) && Accounted(s)
  }

  predicate Start(s: System) {
    s.tasks == [] && forall c :: 0 <= c < |s.cpus| ==> s.cpus[c] == Cpu(None, None, None, false)
  }

  lemma StartInv(s: System)
    requires Start(s)
    ensures Inv(s)
  {
  }

  /** Changes to tasks that no step needs to explain further. */
  ghost predicate Milder(ts: seq<Task>, us: seq<Task>) {
    && |ts| == |us|
    && forall i :: 0 <= i < |ts| ==>
         && us[i].owner == ts[i].owner && us[i].saved == ts[i].saved
         && us[i].slice <= ts[i].slice && (us[i].state == Running ==> ts[i].state == Running)
  }

  lemma MilderInv(s: System, us: seq<Task>)
    requires Inv(s) && Milder(s.tasks, us)
    ensures Inv(System(us, s.cpus))
  {
  }

  lemma WakeTickMild(s: System, c: nat, env: Env)
    requires Inv(s) && c < |s.cpus|
    ensures Milder(s.tasks, Tick(WakePass(s.tasks, 0, env), s.cpus[c].current))
  {
  }

  /** One CPU changes its slots and its own tasks, and accounts for them all. */
  ghost predicate Local(s: System, us: seq<Task>, c: nat, out: Cpu)
    requires c < |s.cpus| && InTable(s)
  {
    && |us| == |s.tasks|
    && (forall i :: 0 <= i < |us| ==> us[i].owner == s.tasks[i].owner && us[i].slice <= 8)
    && (forall i :: 0 <= i < |us| && us[i].owner != c ==> us[i] == s.tasks[i])
    && (out.current.Some? ==> out.current.value < |us| && us[out.current.value].owner == c)
    && (out.pending.Some? ==> out.pending.value < |us| && us[out.pending.value].owner == c)
    && (out.live.Some? ==> out.live.value < |us| && us[out.live.value].owner == c)
    && (out.switching <==> out.live != out.current)
    && (forall i :: 0 <= i < |us| && us[i].owner == c ==> (us[i].saved <==> out.live != Some(i)))
    && (forall i :: 0 <= i < |us| && us[i].owner == c && us[i].state == Running ==> out.current == Some(i) || out.pending == Some(i))
  }

  lemma LocalInv(s: System, us: seq<Task>, c: nat, out: Cpu)
    requires Inv(s) && c < |s.cpus| && Local(s, us, c, out)
    ensures Inv(System(us, s.cpus[c := out]))
  {
    hide Located, Accounted;
    var t := System(us, s.cpus[c := out]);
    assert InTable(t);
    assert Owned(t);
    LocalLocated(s, us, c, out);
    LocalAccounted(s, us, c, out);
  }

  lemma LocalLocated(s: System, us: seq<Task>, c: nat, out: Cpu)
    requires Inv(s) && c < |s.cpus| && Local(s, us, c, out) && var t := System(us, s.cpus[c := out]); InTable(t) && Owned(t)
    ensures Located(System(us, s.cpus[c := out]))
  {
    hide Accounted;
  }

  lemma LocalAccounted(s: System, us: seq<Task>, c: nat, out: Cpu)
    requires Inv(s) && c < |s.cpus| && Local(s, us, c, out) && var t := System(us, s.cpus[c := out]); InTable(t) && Owned(t)
    ensures Accounted(System(us, s.cpus[c := out]))
  {
    hide Located;
  }

  /** The released task, if any, becomes Ready and is nobody's to release any more. */
  lemma ReleaseLocal(s: System, c: nat)
    requires Inv(s) && c < |s.cpus|
    ensures Milder(s.tasks, Release(s, c).tasks) && Local(s, Release(s, c).tasks, c, Release(s, c).cpus[c])
  {
    var r, cpu := Release(s, c), s.cpus[c];
    forall i | 0 <= i < |s.tasks|
      ensures r.tasks[i] == s.tasks[i] || (r.tasks[i] == s.tasks[i].(state := Ready) && s.tasks[i].owner == c)
      ensures s.tasks[i].owner == c && r.tasks[i].state == Running ==> cpu.current == Some(i)
    {
    }
    hide Release;
  }

  lemma ReleaseInv(s: System, c: nat)
    requires Inv(s) && c < |s.cpus|
    ensures Inv(Release(s, c)) && Release(s, c).cpus[c].pending == None
    ensures Milder(s.tasks, Release(s, c).tasks)
  {
    hide Local, Owned, Located, Accounted, Milder;
    ReleaseLocal(s, c);
    var r := Release(s, c);
    LocalInv(s, r.tasks, c, r.cpus[c]);
    assert r == System(r.tasks, s.cpus[c := r.cpus[c]]);
  }

  lemma HandOverLocal(s: System, c: nat, next: Option<nat>)
    requires Inv(s) && c < |s.cpus| && !s.cpus[c].switching && s.cpus[c].pending == None && next != s.cpus[c].current
    requires next.Some? ==> next.value < |s.tasks| && s.tasks[next.value].owner == c
    ensures var (us, out) := HandOver(s.tasks, s.cpus[c], next); Local(s, us, c, out)
  {
  }

  lemma PickInv(s: System, c: nat, best: Option<nat>)
    requires Inv(s) && c < |s.cpus| && !s.cpus[c].switching && s.cpus[c].pending == None
    requires best.Some? ==> best.value < |s.tasks| && s.tasks[best.value].owner == c
    ensures var (us, out) := Pick(s.tasks, s.cpus[c], best); Inv(System(us, s.cpus[c := out]))
  {
    hide HandOver, Local, Owned, Located, Accounted;
    var (us, out) := Pick(s.tasks, s.cpus[c], best);
    if us == s.tasks && out == s.cpus[c] {
      assert s.cpus[c := out] == s.cpus;
    } else {
      HandOverLocal(s, c, best);
      LocalInv(s, us, c, out);
    }
  }

  lemma PlanInv(s: System, c: nat, env: Env)
    requires Inv(s) && c < |s.cpus| && !s.cpus[c].switching && s.cpus[c].pending == None
    ensures Inv(Plan(s, c, env))
  {
    hide Owned, Located, Accounted, Pick, BestOf, Tick;
    if s.tasks != [] {
      WakeTickMild(s, c, env);
      var ts := Tick(WakePass(s.tasks, 0, env), s.cpus[c].current);
      MilderInv(s, ts);
      PickInv(System(ts, s.cpus), c, BestOf(ts, c, StartOf(s.cpus[c].current), |ts|));
    }
  }

  /** A switch changes nothing of a task but whether its context is in its slot. */
  lemma SwitchTask(s: System, c: nat, i: nat)
    requires InTable(s) && c < |s.cpus| && i < |s.tasks|
    ensures var r, cpu := SwitchContexts(s, c), s.cpus[c];
      && |r.tasks| == |s.tasks| && r.cpus == s.cpus[c := cpu.(live := cpu.current, switching := false)]
      && r.tasks[i] == s.tasks[i].(saved := if cpu.current == Some(i) then false else if cpu.live == Some(i) then true else s.tasks[i].saved)
  {
  }

  lemma SwitchLocal(s: System, c: nat)
    requires Inv(s) && c < |s.cpus|
    ensures var r := SwitchContexts(s, c); c < |r.cpus| && Local(s, r.tasks, c, r.cpus[c])
  {
    var r, cpu := SwitchContexts(s, c), s.cpus[c];
    hide SwitchContexts;
    assert |r.tasks| == |s.tasks| && r.cpus[c] == cpu.(live := cpu.current, switching := false) by {
      SwitchShape(s, c);
    }
    forall i | 0 <= i < |s.tasks|
      ensures r.tasks[i] == s.tasks[i].(saved := if cpu.current == Some(i) then false else if cpu.live == Some(i) then true else s.tasks[i].saved)
    {
      SwitchTask(s, c, i);
    }
  }

  lemma SwitchShape(s: System, c: nat)
    requires InTable(s) && c < |s.cpus|
    ensures var r, cpu := SwitchContexts(s, c), s.cpus[c];
      |r.tasks| == |s.tasks| && r.cpus == s.cpus[c := cpu.(live := cpu.current, switching := false)]
  {
  }

  lemma SwitchInv(s: System, c: nat)
    requires Inv(s) && c < |s.cpus|
    ensures Inv(SwitchContexts(s, c))
  {
    hide Local, Owned, Located, Accounted;
    SwitchLocal(s, c);
    var r := SwitchContexts(s, c);
    LocalInv(s, r.tasks, c, r.cpus[c]);
    assert r == System(r.tasks, s.cpus[c := r.cpus[c]]);
  }

  /** Every step of every CPU keeps the invariant. */
  lemma StepKeeps(s: System, step: Step)
    requires Inv(s) && Enabled(s, step)
    ensures Inv(Next(s, step))
  {
    match step
    case Preempt(c, env) =>
      ReleaseInv(s, c);
      PlanInv(Release(s, c), c, env);
    case Switch(c) => SwitchInv(s, c);
    case EnterTask(c) => ReleaseInv(s, c);
    case Spawn(_, _, _, _) => SpawnInv(s, step);
    case _ =>
      TaskStepMild(s, step);
      MilderInv(s, Next(s, step).tasks);
  }

  lemma SpawnInv(s: System, step: Step)
    requires Inv(s) && Enabled(s, step) && step.Spawn?
    ensures Inv(Next(s, step))
  {
  }

  predicate Quiet(step: Step) {
    !step.Preempt? && !step.Switch? && !step.EnterTask? && !step.Spawn?
  }

  lemma TaskStepMild(s: System, step: Step)
    requires Inv(s) && Enabled(s, step) && Quiet(step)
    ensures Milder(s.tasks, Next(s, step).tasks) && Next(s, step).cpus == s.cpus
  {
    hide Milder, Owned, Located, Accounted, Plan, Release, SwitchContexts;
    SameMild(s.tasks);
    if step.Kill? {
      KilledMild(s, step.cpu, step.id);
    } else if step.Wake? {
      AwokenMild(s, step.id);
    } else if step.SetPriority? {
      ReprioritizedMild(s, step.id, step.priority);
    } else if s.cpus[step.cpu].current.Some? {
      var i := s.cpus[step.cpu].current.value;
      UpdateMild(s.tasks, i, Next(s, step).tasks[i]);
    }
  }

  lemma SameMild(ts: seq<Task>)
    ensures Milder(ts, ts)
  {
  }

  lemma UpdateMild(ts: seq<Task>, i: nat, t: Task)
    requires i < |ts| && t.owner == ts[i].owner && t.saved == ts[i].saved && t.slice <= ts[i].slice
    requires t.state == Running ==> ts[i].state == Running
    ensures Milder(ts, ts[i := t])
  {
  }

  lemma KilledMild(s: System, c: nat, id: nat)
    requires c < |s.cpus|
    ensures Milder(s.tasks, Killed(s, c, id).tasks)
  {
    var v := Victim(s.tasks, id, s.cpus[c].current, 0);
    if v < |s.tasks| { UpdateMild(s.tasks, v, Died(s.tasks[v], 137)); }
  }

  lemma AwokenMild(s: System, id: nat)
    ensures Milder(s.tasks, Awoken(s, id).tasks)
  {
    var w := IndexOf(s.tasks, id, 0);
    if w < |s.tasks| { UpdateMild(s.tasks, w, s.tasks[w].(state := Ready)); }
  }

  lemma ReprioritizedMild(s: System, id: nat, priority: nat)
    ensures Milder(s.tasks, Reprioritized(s, id, priority).tasks)
  {
    var i := Living(s.tasks, id, 0);
    if i < |s.tasks| { UpdateMild(s.tasks, i, s.tasks[i].(priority := priority)); }
  }

  // ---- runs ----

  predicate Allowed(s: System, steps: seq<Step>)
    requires Inv(s)
    decreases |steps|
  {
    steps == [] || (Enabled(s, steps[0]) && (StepKeeps(s, steps[0]); Allowed(Next(s, steps[0]), steps[1..])))
  }

  function Run(s: System, steps: seq<Step>): (r: System)
    requires Inv(s) && Allowed(s, steps)
    ensures Inv(r)
    decreases |steps|
  {
    if steps == [] then s else StepKeeps(s, steps[0]); Run(Next(s, steps[0]), steps[1..])
  }

  predicate Uses(cpu: Cpu, t: nat) {
    cpu.current == Some(t) || cpu.pending == Some(t) || cpu.live == Some(t)
  }

  /**
   What the handoff protocol is for: no task is on two CPUs in any role, a CPU switches only
   into a context that is complete in its slot, and no Running task is forgotten.
   */
  ghost predicate ContextSafe(s: System) {
    && (forall c, d, t :: 0 <= c < |s.cpus| && 0 <= d < |s.cpus| && Uses(s.cpus[c], t) && Uses(s.cpus[d], t) ==> c == d)
    && (forall c, t :: 0 <= c < |s.cpus| && 0 <= t < |s.tasks| && s.cpus[c].switching && s.cpus[c].current == Some(t) ==>
          s.tasks[t].saved && forall d :: 0 <= d < |s.cpus| ==> s.cpus[d].live != Some(t))
    && (forall t :: 0 <= t < |s.tasks| && s.tasks[t].state == Running ==>
          exists c :: 0 <= c < |s.cpus| && s.tasks[t].owner == c && Uses(s.cpus[c], t))
  }

  lemma InvSafe(s: System)
    requires Inv(s)
    ensures ContextSafe(s)
  {
    forall c, t | 0 <= c < |s.cpus| && 0 <= t < |s.tasks| && Uses(s.cpus[c], t) ensures s.tasks[t].owner == c {
    }
    forall t | 0 <= t < |s.tasks| && s.tasks[t].state == Running ensures Uses(s.cpus[s.tasks[t].owner], t) {
    }
  }

  /** Context safety in every interleaving, from boot. */
  lemma EveryRunSafe(s: System, steps: seq<Step>)
    requires Start(s)
    ensures Inv(s)
    ensures Allowed(s, steps) ==> ContextSafe(Run(s, steps))
  {
    StartInv(s);
    if Allowed(s, steps) {
      InvSafe(Run(s, steps));
    }
  }

  /** A suspended Running task is eligible again as soon as its CPU reschedules. */
  lemma SuspendedReturns(s: System, c: nat, t: nat)
    requires Inv(s) && c < |s.cpus| && t < |s.tasks| && s.tasks[t].owner == c
    requires s.tasks[t].state == Running && s.cpus[c].current != Some(t)
    ensures Eligible(Release(s, c).tasks, c, t)
  {
  }

  /** Exactly two kinds of step bring a Dead task back: its own sleep or block, on the CPU it still runs on. */
  lemma DeadStays(s: System, step: Step, t: nat)
    requires Inv(s) && Enabled(s, step) && t < |s.tasks| && s.tasks[t].state == Dead
    ensures |Next(s, step).tasks| >= |s.tasks|
    ensures Next(s, step).tasks[t].state != Dead <==> (step.Sleep? || step.BlockOn?) && s.cpus[step.cpu].current == Some(t)
  {
    hide Plan, Release, Owned, Located, Accounted;
    if step.Preempt? {
      DeadNotPicked(s, step.cpu, step.env, t);
    } else if step.EnterTask? {
      DeadNotReleased(s, step.cpu, t);
    }
  }

  lemma DeadNotReleased(s: System, c: nat, t: nat)
    requires InTable(s) && c < |s.cpus| && t < |s.tasks| && s.tasks[t].state == Dead
    ensures Release(s, c).tasks[t].state == Dead
  {
  }

  lemma DeadNotPicked(s: System, c: nat, env: Env, t: nat)
    requires Inv(s) && c < |s.cpus| && t < |s.tasks| && s.tasks[t].state == Dead
    ensures Plan(Release(s, c), c, env).tasks[t].state == Dead
  {
    hide Owned, Located, Accounted;
    DeadNotReleased(s, c, t);
    var p := Release(s, c);
    var woken := WakePass(p.tasks, 0, env);
    assert woken[t].state == Dead;
  }

  /**
   From boot: a task is started on CPU 1, is killed from CPU 0 while it runs, and by sleeping
   and being woken comes back.
   */
  lemma KilledTaskReturns() returns (s: System, steps: seq<Step>)
    ensures Start(s) && Inv(s) && Allowed(s, steps) && |steps| == 6 && steps[3].Kill?
    ensures Allowed(s, steps[..4]) && var d := Run(s, steps[..4]); |d.tasks| == 1 && d.tasks[0].state == Dead
    ensures var r := Run(s, steps); |r.tasks| == 1 && r.tasks[0].state == Ready
  {
    hide Inv, Next, Allowed, Run, Start;
    var s3, d;
    var one, two: seq<Step>;
    s, s3, one := Started();
    d, two := Returns(s3);
    steps := one + two;
    RunOn(s, one, two);
    assert steps[..4] == one + two[..1];
    RunOn(s, one, two[..1]);
  }

  /** Two runs, one after the other. */
  lemma {:induction false} RunOn(s: System, a: seq<Step>, b: seq<Step>)
    requires Inv(s) && Allowed(s, a) && Allowed(Run(s, a), b)
    ensures Allowed(s, a + b) && Run(s, a + b) == Run(Run(s, a), b)
    decreases |a|
  {
    hide Owned, Located, Accounted, Next, Enabled;
    if a == [] {
      assert a + b == b;
    } else {
      StepKeeps(s, a[0]);
      assert (a + b)[0] == a[0] && (a + b)[1..] == a[1..] + b;
      RunOn(Next(s, a[0]), a[1..], b);
    }
  }

  /** The task runs on CPU 1. */
  function Alone(): System {
    System([NewTask(7, 1, PRIO_NORMAL, 0).(state := Running, saved := false)], [Cpu(None, None, None, false), Cpu(Some(0), None, Some(0), false)])
  }

  lemma AloneInv()
    ensures Inv(Alone())
  {
  }

  lemma Started() returns (s: System, s3: System, steps: seq<Step>)
    ensures Start(s) && Inv(s) && |steps| == 3 && Allowed(s, steps) && Run(s, steps) == s3 == Alone()
  {
    hide Allowed, Run, Plan, Release, Owned, Located, Accounted;
    s3 := Alone();
    var idle := Cpu(None, None, None, false);
    var env := Env(0, 0, false, false);
    s := System([], [idle, idle]);
    StartInv(s);
    steps := [Spawn(7, 1, PRIO_NORMAL, 0), Preempt(1, env), Switch(1)];
    var s1 := System([NewTask(7, 1, PRIO_NORMAL, 0)], [idle, idle]);
    var s2 := System([NewTask(7, 1, PRIO_NORMAL, 0).(state := Running)], [idle, Cpu(Some(0), None, None, true)]);
    assert Next(s, steps[0]) == s1;
    assert Next(s1, steps[1]) == s2 by { Picked(env); }
    assert Next(s2, steps[2]) == s3;
    ThreeSteps(s, steps[0], s1, steps[1], s2, steps[2]);
  }

  lemma Picked(env: Env)
    ensures var idle := Cpu(None, None, None, false); var t := NewTask(7, 1, PRIO_NORMAL, 0);
      Plan(Release(System([t], [idle, idle]), 1), 1, env) == System([t.(state := Running)], [idle, Cpu(Some(0), None, None, true)])
  {
    var idle, ts := Cpu(None, None, None, false), [NewTask(7, 1, PRIO_NORMAL, 0)];
    assert Release(System(ts, [idle, idle]), 1) == System(ts, [idle, idle]);
    assert WakePass(ts, 0, env) == ts by {
      assert ts[0 := WakeOne(ts, 0, env)] == ts;
      assert WakePass(ts, 1, env) == ts;
    }
    assert BestOf(ts, 1, 0, 0) == None && BestOf(ts, 1, 0, 1) == Some(0);
  }

  lemma Returns(s: System) returns (d: System, steps: seq<Step>)
    requires s == Alone()
    ensures Inv(s) && |steps| == 3 && steps[0].Kill? && Allowed(s, steps) && Allowed(s, steps[..1])
    ensures d == Run(s, steps[..1]) && |d.tasks| == 1 && d.tasks[0].state == Dead
    ensures var r := Run(s, steps); |r.tasks| == 1 && r.tasks[0].state == Ready
  {
    hide Plan, Release, SwitchContexts, Allowed, Run, Owned, Located, Accounted, WakePass;
    AloneInv();
    steps := [Kill(0, 7), Sleep(1, 5, None), Wake(7)];
    d := System([s.tasks[0].(state := Dead, exitCode := 137)], s.cpus);
    var s2 := System([Asleep(d.tasks[0], 5, None)], s.cpus);
    assert Victim(s.tasks, 7, None, 0) == 0 && Next(s, steps[0]) == d;
    assert Next(d, steps[1]) == s2;
    assert IndexOf(s2.tasks, 7, 0) == 0 && Next(s2, steps[2]).tasks[0].state == Ready;
    ThreeSteps(s, steps[0], d, steps[1], s2, steps[2]);
    assert steps[..1] == [steps[0]];
    OneStep(s, steps[0]);
  }

  lemma OneStep(s: System, a: Step)
    requires Inv(s) && Enabled(s, a)
    ensures Allowed(s, [a]) && Run(s, [a]) == Next(s, a)
  {
    hide Next, Inv, Enabled;
    StepKeeps(s, a);
    assert [a][1..] == [];
  }

  lemma ThreeSteps(s: System, a: Step, s1: System, b: Step, s2: System, c: Step)
    requires Inv(s) && Enabled(s, a) && Next(s, a) == s1
    requires InTable(s1) && Enabled(s1, b) && Next(s1, b) == s2
    requires InTable(s2) && Enabled(s2, c)
    ensures Allowed(s, [a, b, c]) && Run(s, [a, b, c]) == Next(s2, c)
  {
    hide Next, Owned, Located, Accounted;
    StepKeeps(s, a);
    StepKeeps(s1, b);
    assert [a, b, c][1..] == [b, c] && [b, c][1..] == [c];
    OneStep(s2, c);
    assert Allowed(s1, [b, c]) && Run(s1, [b, c]) == Next(s2, c);
  }

  // ---- bounded waiting ----

  /** `w` is a Ready task of normal priority that CPU `c` has not picked. */
  predicate Waits(s: System, c: nat, w: nat) {
    && c < |s.cpus| && w < |s.tasks| && s.cpus[c].current != Some(w)
    && Eligible(s.tasks, c, w) && s.tasks[w].priority == PRIO_NORMAL
  }

  /** No real-time task of this CPU is Ready or current. */
  predicate NoUrgent(ts: seq<Task>, c: nat, cur: Option<nat>) {
    forall i :: 0 <= i < |ts| && ts[i].owner == c && (ts[i].state == Ready || cur == Some(i)) ==> ts[i].priority != PRIO_RT
  }

  /** Reschedules the current task can still outlast. */
  function Left(ts: seq<Task>, cur: Option<nat>): (r: nat)
    requires cur.Some? ==> cur.value < |ts|
    ensures r >= 1
  {
    if cur.Some? && ts[cur.value].state == Running && ts[cur.value].slice > 0 then ts[cur.value].slice else 1
  }

  function Rank(ts: seq<Task>, cur: Option<nat>, w: nat): (r: nat)
    requires w < |ts| && (cur.Some? ==> cur.value < |ts|)
    ensures r >= 1
  {
    8 * Place(|ts|, StartOf(cur), w) + Left(ts, cur)
  }

  lemma RankBound(s: System, c: nat, w: nat)
    requires Inv(s) && Waits(s, c, w)
    ensures Rank(s.tasks, s.cpus[c].current, w) <= 8 * |s.tasks|
  {
  }

  /** Releasing, waking and the tick leave a waiting task waiting and the current one no stronger. */
  lemma PreparedWaits(s: System, c: nat, w: nat, env: Env)
    requires Inv(s) && Waits(s, c, w)
    ensures var cur := s.cpus[c].current; var ts := Tick(WakePass(Release(s, c).tasks, 0, env), cur);
      && |ts| == |s.tasks| && Eligible(ts, c, w) && ts[w].priority == PRIO_NORMAL
      && (cur.Some? ==> ts[cur.value].owner == c && (ts[cur.value].state == Running ==> s.tasks[cur.value].state == Running))
      && (cur.Some? && ts[cur.value].state == Running ==>
           ts[cur.value].slice == if s.tasks[cur.value].slice > 0 then s.tasks[cur.value].slice - 1 else 0)
  {
    var rel := Release(s, c).tasks;
    assert Eligible(rel, c, w);
    var woken := WakePass(rel, 0, env);
    assert Eligible(woken, c, w);
  }

  /** The pick takes `w`, or stays with a task whose slice runs down, or moves nearer to `w`. */
  lemma PickProgress(ts: seq<Task>, cpu: Cpu, c: nat, w: nat)
    requires w < |ts| && Eligible(ts, c, w) && ts[w].priority == PRIO_NORMAL && cpu.current != Some(w)
    requires cpu.current.Some? ==> cpu.current.value < |ts| && ts[cpu.current.value].owner == c
    requires NoUrgent(ts, c, cpu.current)
    ensures var best := BestOf(ts, c, StartOf(cpu.current), |ts|);
      var (us, out) := Pick(ts, cpu, best);
      || out.current == Some(w)
      || (out == cpu && us == ts && cpu.current.Some? && ts[cpu.current.value].state == Running && ts[cpu.current.value].slice > 0)
      || (out.current == best && best.Some? && Place(|ts|, StartOf(cpu.current), best.value) < Place(|ts|, StartOf(cpu.current), w)
          && us[best.value].slice <= 8 && us[w] == ts[w])
  {
    var start := StartOf(cpu.current);
    var best := BestOf(ts, c, start, |ts|);
    BestIsFirst(ts, c, start, |ts|, Place(|ts|, start, w));
    assert ts[best.value].priority == PRIO_NORMAL;
  }

  lemma Nearer(n: nat, start: nat, b: nat, w: nat)
    requires start <= n && b < n && w < n && Place(n, start, b) < Place(n, start, w)
    ensures Place(n, b + 1, w) < Place(n, start, w)
  {
  }

  /** The table as the pick sees it. */
  function Prepared(s: System, c: nat, env: Env): seq<Task>
    requires InTable(s) && c < |s.cpus|
  {
    Tick(WakePass(Release(s, c).tasks, 0, env), s.cpus[c].current)
  }

  /** A reschedule of its CPU picks the waiting task or lowers its rank. */
  lemma RescheduleProgress(s: System, c: nat, w: nat, env: Env)
    requires Inv(s) && Waits(s, c, w) && !s.cpus[c].switching && NoUrgent(Prepared(s, c, env), c, s.cpus[c].current)
    ensures var r := Next(s, Preempt(c, env));
      && |r.cpus| == |s.cpus| && |r.tasks| == |s.tasks| && InTable(r)
      && (r.cpus[c].current == Some(w)
          || (Waits(r, c, w) && Rank(r.tasks, r.cpus[c].current, w) < Rank(s.tasks, s.cpus[c].current, w)))
  {
    hide Owned, Located, Accounted, Release, WakePass, Tick, Pick, NoUrgent, BestOf;
    StepKeeps(s, Preempt(c, env));
    PreparedWaits(s, c, w, env);
    var cpu := Release(s, c).cpus[c];
    var ts := Prepared(s, c, env);
    PickProgress(ts, cpu, c, w);
    var best := BestOf(ts, c, StartOf(cpu.current), |ts|);
    if best.Some? && Place(|ts|, StartOf(cpu.current), best.value) < Place(|ts|, StartOf(cpu.current), w) {
      Nearer(|ts|, StartOf(cpu.current), best.value, w);
    }
  }

  /** Any other step leaves this CPU's current task where it is and no stronger. */
  lemma OtherStep(s: System, step: Step, c: nat)
    requires Inv(s) && Enabled(s, step) && c < |s.cpus| && !step.Spawn? && !(step.Preempt? && step.cpu == c)
    ensures var r := Next(s, step); var cur := s.cpus[c].current;
      && |r.cpus| == |s.cpus| && |r.tasks| == |s.tasks| && r.cpus[c].current == cur
      && (cur.Some? ==> var i := cur.value;
           r.tasks[i].slice <= s.tasks[i].slice && (r.tasks[i].state == Running ==> s.tasks[i].state == Running))
  {
    if step.Preempt? {
      OtherPreempt(s, step.cpu, step.env, c);
    }
    hide Plan, Release;
    if step.EnterTask? {
      ReleaseInv(s, step.cpu);
    } else if Quiet(step) {
      TaskStepMild(s, step);
    }
  }

  lemma OtherPreempt(s: System, d: nat, env: Env, c: nat)
    requires Inv(s) && c < |s.cpus| && d < |s.cpus| && c != d && !s.cpus[d].switching
    ensures var r := Plan(Release(s, d), d, env); var cur := s.cpus[c].current;
      && r.cpus[c] == s.cpus[c]
      && (cur.Some? ==> var i := cur.value;
           r.tasks[i].slice <= s.tasks[i].slice && (r.tasks[i].state == Running ==> s.tasks[i].state == Running))
  {
    hide Plan, Milder, Located, Accounted;
    ReleaseInv(s, d);
    var p := Release(s, d);
    assert Milder(s.tasks, p.tasks);
    if s.cpus[c].current.Some? {
      var i := s.cpus[c].current.value;
      MilderAt(s.tasks, p.tasks, i);
      PlanOthers(p, d, env, i);
    }
    PlanCpus(p, d, env, c);
  }

  lemma MilderAt(ts: seq<Task>, us: seq<Task>, i: nat)
    requires Milder(ts, us) && i < |ts|
    ensures |us| == |ts| && us[i].owner == ts[i].owner && us[i].slice <= ts[i].slice && (us[i].state == Running ==> ts[i].state == Running)
  {
  }

  lemma PlanCpus(s: System, d: nat, env: Env, c: nat)
    requires Inv(s) && c < |s.cpus| && d < |s.cpus| && c != d
    ensures Plan(s, d, env).cpus[c] == s.cpus[c]
  {
    hide Pick, BestOf, Tick, WakePass, Owned, Located, Accounted;
  }

  /** A reschedule makes no task of another CPU run or run longer. */
  lemma PlanOthers(s: System, d: nat, env: Env, i: nat)
    requires Inv(s) && d < |s.cpus| && i < |s.tasks| && s.tasks[i].owner != d
    ensures var r := Plan(s, d, env);
      r.tasks[i].slice <= s.tasks[i].slice && (r.tasks[i].state == Running ==> s.tasks[i].state == Running)
  {
    hide BestOf, Tick, Milder, Located, Accounted, HandOver;
    var cpu := s.cpus[d];
    var ts := Tick(WakePass(s.tasks, 0, env), cpu.current);
    WakeTickMild(s, d, env);
    MilderAt(s.tasks, ts, i);
    var best := BestOf(ts, d, StartOf(cpu.current), |ts|);
    assert best != Some(i);
    HandOverOthers(ts, cpu, best, i);
  }

  lemma HandOverOthers(ts: seq<Task>, cpu: Cpu, best: Option<nat>, i: nat)
    requires cpu.current.Some? ==> cpu.current.value < |ts|
    requires (best.Some? ==> best.value < |ts|) && i < |ts| && best != Some(i)
    ensures HandOver(ts, cpu, best).0[i] == ts[i]
  {
  }

  function Reschedules(steps: seq<Step>, c: nat): nat {
    if steps == [] then 0
    else (if steps[0].Preempt? && steps[0].cpu == c then 1 else 0) + Reschedules(steps[1..], c)
  }

  /**
   `w` waits through the whole run: it stays Ready and unpicked at normal priority, nobody is
   spawned or changes priority, and no real-time task of its CPU competes at a reschedule.
   */
  ghost predicate Starves(s: System, steps: seq<Step>, c: nat, w: nat)
    requires Inv(s)
    decreases |steps|
  {
    && Waits(s, c, w)
    && (steps == [] ||
        (&& Enabled(s, steps[0]) && !steps[0].Spawn? && !steps[0].SetPriority?
         && (steps[0].Preempt? && steps[0].cpu == c ==> NoUrgent(Prepared(s, c, steps[0].env), c, s.cpus[c].current))
         && (StepKeeps(s, steps[0]); Starves(Next(s, steps[0]), steps[1..], c, w))))
  }

  /** Bounded waiting: such a run holds fewer than eight reschedules of the CPU per task. */
  lemma {:induction false} BoundedWaiting(s: System, steps: seq<Step>, c: nat, w: nat)
    requires Inv(s) && Starves(s, steps, c, w)
    ensures Reschedules(steps, c) < Rank(s.tasks, s.cpus[c].current, w) <= 8 * |s.tasks|
    decreases |steps|
  {
    hide Owned, Located, Accounted, NoUrgent, Next, Rank;
    RankBound(s, c, w);
    if steps != [] {
      var step := steps[0];
      StepKeeps(s, step);
      var r := Next(s, step);
      if step.Preempt? && step.cpu == c {
        RescheduleProgress(s, c, w, step.env);
      } else {
        OtherStep(s, step, c);
        RankKept(s, r, c, w);
      }
      BoundedWaiting(r, steps[1..], c, w);
    }
  }

  lemma RankKept(s: System, r: System, c: nat, w: nat)
    requires InTable(s) && InTable(r) && Waits(s, c, w) && Waits(r, c, w)
    requires |r.tasks| == |s.tasks| && r.cpus[c].current == s.cpus[c].current
    requires var cur := s.cpus[c].current; cur.Some? ==> var i := cur.value;
      r.tasks[i].slice <= s.tasks[i].slice && (r.tasks[i].state == Running ==> s.tasks[i].state == Running)
    ensures Rank(r.tasks, r.cpus[c].current, w) <= Rank(s.tasks, s.cpus[c].current, w)
  {
  }
}
