/** Every step of every interleaving keeps the scheduler's invariant. */
module SchedulingProofs {
  import opened Basics
  import opened Scheduling

  /** The same task as far as cores and switching are concerned. */
  predicate Like(a: Task, b: Task) {
    && b == a.(counter := b.counter, state := b.state)
    && (a.state == Running ==> b.state == Running) && (a.state == Zombie <==> b.state == Zombie)
  }

  /** Nothing that another core relies on has changed. */
  predicate Unmoved(s: State, s': State, c: nat)
    requires Sane(s)
  {
    && |s'.cores| == |s.cores| && |s'.tasks| >= |s.tasks|
    && (forall d | 0 <= d < |s.cores| && d != c :: s'.cores[d] == s.cores[d])
    && (forall t | 0 <= t < |s.tasks| && (s.tasks[t].onCpu != c && s.tasks[t].onCpu != -1) ::
          Like(s.tasks[t], s'.tasks[t]))
    && (forall d | 0 <= d < |s.cores| && d != c :: Like(s.tasks[d], s'.tasks[d]))
  }

  lemma OtherCore(s: State, s': State, c: nat, d: nat)
    requires Inv(s) && Sane(s') && Unmoved(s, s', c) && d < |s.cores| && d != c
    ensures CoreOk(s', d)
  {
    assert CoreOk(s, d);
    assert Like(Thread(s, d), Thread(s', d)) && Like(Current(s, d), Current(s', d));
    assert Like(s.tasks[d], s'.tasks[d]);
    assert Target(s, d).Some? ==> Like(s.tasks[Target(s, d).value], s'.tasks[Target(s, d).value]);
  }

  lemma OtherTask(s: State, s': State, c: nat, t: nat)
    requires Inv(s) && Sane(s') && Unmoved(s, s', c) && TasksOk(s')
    requires t < |s.tasks| && s.tasks[t].onCpu != c && s.tasks[t].onCpu != -1
    ensures Placed(s', t)
  {
    assert Placed(s, t) && TaskOk(s.tasks[t], t, |s.cores|) && TaskOk(s'.tasks[t], t, |s.cores|);
    var o := s.tasks[t].onCpu;
    assert CoreOk(s, o) && Like(Thread(s, o), Thread(s', o));
  }

  lemma KeepInv(s: State, s': State, c: nat)
    requires Inv(s) && Sane(s') && c < |s.cores| && Unmoved(s, s', c) && TasksOk(s') && CoreOk(s', c)
    requires forall t | 0 <= t < |s'.tasks| && (t < |s.tasks| ==> s.tasks[t].onCpu == c || s.tasks[t].onCpu == -1) ::
      PlacedOk(s', t)
    ensures Inv(s')
  {
    forall d | 0 <= d < |s'.cores| ensures CoreOk(s', d) {
      if d != c {
        OtherCore(s, s', c, d);
      }
    }
    forall t | 0 <= t < |s'.tasks| ensures Placed(s', t) {
      if t < |s.tasks| && s.tasks[t].onCpu != c && s.tasks[t].onCpu != -1 {
        OtherTask(s, s', c, t);
      } else {
        assert PlacedOk(s', t);
      }
    }
  }

  predicate PlacedOk(s: State, t: nat)
    requires Sane(s) && t < |s.tasks|
  {
    s.tasks[t].onCpu < |s.cores| && Placed(s, t)
  }

  /** A task whose record stays as it is keeps its place while its core stays with its thread and its target. */
  lemma SamePlace(s: State, s': State, c: nat, t: nat)
    requires Inv(s) && Sane(s') && c < |s.cores| == |s'.cores| && t < |s.tasks| && |s.tasks| <= |s'.tasks|
    requires s'.tasks[t] == s.tasks[t] && (s.tasks[t].onCpu == c || s.tasks[t].onCpu == -1)
    requires s'.cores[c].thread == s.cores[c].thread && (Target(s, c).Some? ==> Target(s', c) == Target(s, c))
    ensures PlacedOk(s', t)
  {
    assert Placed(s, t) && TaskOk(s.tasks[t], t, |s.cores|);
  }

  /** Core `c` changed its own data and the records of at most two tasks that only it may change. */
  predicate OnlyTwo(s: State, s': State, c: nat, e: nat, u: nat)
    requires Sane(s)
  {
    && |s'.cores| == |s.cores| && |s'.tasks| == |s.tasks| && e < |s.tasks| && u < |s.tasks|
    && (forall d | 0 <= d < |s.cores| && d != c :: s'.cores[d] == s.cores[d])
    && (forall t | 0 <= t < |s.tasks| && t != e && t != u :: s'.tasks[t] == s.tasks[t])
    && s.tasks[e].onCpu == c && (s.tasks[u].onCpu == c || (s.tasks[u].onCpu == -1 && (|s.cores| <= u || u == c)))
  }

  /** Then no other core notices. */
  lemma TwoUnmoved(s: State, s': State, c: nat, e: nat, u: nat)
    requires Inv(s) && c < |s.cores| && OnlyTwo(s, s', c, e, u)
    requires TaskOk(s'.tasks[e], e, |s.cores|) && TaskOk(s'.tasks[u], u, |s.cores|)
    ensures Unmoved(s, s', c) && TasksOk(s')
  {
    hide CoreOk, Placed;
    assert TaskOk(s.tasks[e], e, |s.cores|) && TaskOk(s.tasks[u], u, |s.cores|);
    forall t | 0 <= t < |s'.tasks| ensures TaskOk(s'.tasks[t], t, |s'.cores|) {
      assert TaskOk(s.tasks[t], t, |s.cores|);
    }
  }

  /** What is left to show of such a step: core `c`, the two tasks, and that the core keeps its thread and its
      target. */
  lemma TwoKeep(s: State, s': State, c: nat, e: nat, u: nat)
    requires Inv(s) && c < |s.cores| && OnlyTwo(s, s', c, e, u) && Sane(s')
    requires TaskOk(s'.tasks[e], e, |s.cores|) && TaskOk(s'.tasks[u], u, |s.cores|)
    requires CoreOk(s', c) && PlacedOk(s', e) && PlacedOk(s', u)
    requires s'.cores[c].thread == s.cores[c].thread && (Target(s, c).Some? ==> Target(s', c) == Target(s, c))
    ensures Inv(s')
  {
    TwoUnmoved(s, s', c, e, u);
    hide CoreOk, Placed, TaskOk, TasksOk, Unmoved, Target, PlacedOk, Sane;
    forall t | 0 <= t < |s'.tasks| && (s.tasks[t].onCpu == c || s.tasks[t].onCpu == -1) ensures PlacedOk(s', t) {
      if t != e && t != u {
        SamePlace(s, s', c, t);
      }
    }
    KeepInv(s, s', c);
  }

  // ---- a thread's own steps

  /** Outside the windows of a switch, the current task is the one the core executes. */
  lemma OwnThread(s: State, c: nat)
    requires Inv(s) && c < |s.cores|
    ensures s.cores[c].current == s.cores[c].thread <==>
      !(Thread(s, c).exit == IdleCurrent || (Top(Thread(s, c)).Some? && Top(Thread(s, c)).value.Switching?))
  {
    assert CoreOk(s, c);
  }

  /** A thread that stays on its core, claims nothing, and changes only its own record. */
  lemma OwnStep(s: State, c: nat, r: Task)
    requires Inv(s) && c < |s.cores| && s.cores[c].current == s.cores[c].thread
    requires Target(s, c).None? && TaskOk(r, s.cores[c].thread, |s.cores|) && r.onCpu == c
    requires r.exit != Gone && r.exit != IdleCurrent && (r.exit == IdleChosen ==> Thread(s, c).exit == IdleChosen)
    requires r.sched == [] || r.sched == [Entered] || r.sched == [Leaving]
    ensures Sane(WithThread(s, c, r)) && Inv(WithThread(s, c, r))
  {
    var s' := WithThread(s, c, r);
    var e := s.cores[c].thread;
    assert CoreOk(s, c) && TaskOk(s.tasks[c], c, |s.cores|);
    TwoKeep(s, s', c, e, e);
  }

  lemma EnterKeeps(s: State, c: nat, t: Task)
    requires Inv(s) && c < |s.cores| && s.cores[c].current == s.cores[c].thread
    requires Thread(s, c).sched == [] && t == Thread(s, c).(counter := t.counter) && t.counter <= 2 * t.priority
    ensures Inv(EnterSchedule(WithCurrent(s, c, t), c))
  {
    assert CoreOk(s, c) && TaskOk(Thread(s, c), s.cores[c].thread, |s.cores|);
    var r := t.(preempt := t.preempt + 1, sched := [Entered]);
    assert t.sched + [Entered] == [Entered];
    OwnStep(s, c, r);
    var s1 := WithCurrent(s, c, t);
    assert s1.tasks[s.cores[c].thread] == t;
    assert EnterSchedule(s1, c).tasks == WithThread(s, c, r).tasks;
  }

  /** Steps of a thread that is neither about to switch nor gone: its own record changes, nothing else. */
  lemma BaseStep(s: State, step: Step)
    requires Inv(s) && Enabled(s, step)
    requires step.Disable? || step.Enable? || step.Yield? || step.Leave? || step.Die? || step.Block?
    ensures Inv(Apply(s, step))
  {
    var c := step.c;
    var e, t := s.cores[c].thread, Thread(s, c);
    assert CoreOk(s, c) && TaskOk(t, e, |s.cores|);
    BaseIs(s, step);
    OwnStep(s, c, BaseRecord(t, step));
  }

  /** The new record of the thread that takes such a step. */
  function BaseRecord(t: Task, step: Step): Task {
    match step
    case Disable(_) => t.(preempt := t.preempt + 1, depth := t.depth + 1)
    case Enable(_) => t.(preempt := t.preempt - 1, depth := if t.depth > 0 then t.depth - 1 else 0)
    case Yield(_) => t.(counter := 0)
    case Leave(_) => t.(preempt := t.preempt - 1, sched := [])
    case Die(_) => t.(state := Zombie)
    case _ => t.(state := Waiting)
  }

  lemma BaseIs(s: State, step: Step)
    requires Sane(s) && Enabled(s, step) && s.cores[step.c].current == s.cores[step.c].thread
    requires |Thread(s, step.c).sched| <= 1
    requires step.Disable? || step.Enable? || step.Yield? || step.Leave? || step.Die? || step.Block?
    ensures Apply(s, step) == WithThread(s, step.c, BaseRecord(Thread(s, step.c), step))
  {
    assert Apply(s, step).tasks == WithThread(s, step.c, BaseRecord(Thread(s, step.c), step)).tasks;
  }

  /** Inside _schedule or a switch, preemption is disabled for the current task: a tick only counts. */
  lemma TickInSwitch(s: State, c: nat)
    requires Inv(s) && c < |s.cores| && (Thread(s, c).sched != [] || Thread(s, c).exit == IdleCurrent)
    ensures Current(s, c).preempt >= 1
    ensures Apply(s, Tick(c)) == WithCurrent(s, c, Tick1(Current(s, c)))
  {
    assert CoreOk(s, c) && TaskOk(Current(s, c), s.cores[c].current, |s.cores|);
  }

  lemma TickKeeps(s: State, c: nat)
    requires Inv(s) && c < |s.cores|
    ensures Inv(ApplyTick(s, c))
  {
    var t := Current(s, c);
    assert CoreOk(s, c) && TaskOk(t, s.cores[c].current, |s.cores|);
    if Thread(s, c).sched != [] || Thread(s, c).exit == IdleCurrent {
      TickInSwitch(s, c);
      CountOnly(s, WithCurrent(s, c, Tick1(t)), c);
    } else if Tick1(t).counter > 0 || t.preempt > 0 {
      CountOnly(s, WithCurrent(s, c, Tick1(t)), c);
    } else {
      EnterKeeps(s, c, t.(counter := 0));
    }
  }

  /** Only counters and Waiting marks changed. */
  lemma CountOnly(s: State, s': State, c: nat)
    requires Inv(s) && c < |s.cores| && s'.cores == s.cores && |s'.tasks| == |s.tasks|
    requires forall t | 0 <= t < |s.tasks| ::
      Like(s.tasks[t], s'.tasks[t]) && s'.tasks[t].counter <= 2 * s.tasks[t].priority
    ensures Sane(s') && Inv(s')
  {
    forall t | 0 <= t < |s'.tasks| ensures TaskOk(s'.tasks[t], t, |s'.cores|) {
      assert TaskOk(s.tasks[t], t, |s.cores|) && Like(s.tasks[t], s'.tasks[t]);
    }
    forall t | 0 <= t < |s.tasks| ensures s'.tasks[t].sched == s.tasks[t].sched {
      assert Like(s.tasks[t], s'.tasks[t]);
    }
    assert Sane(s');
    forall d | 0 <= d < |s'.cores| ensures CoreOk(s', d) {
      LikeCore(s, s', d);
    }
    forall t | 0 <= t < |s'.tasks| ensures Placed(s', t) {
      LikeTask(s, s', t);
    }
  }

  lemma LikeCore(s: State, s': State, d: nat)
    requires Inv(s) && d < |s.cores| && Sane(s') && s'.cores == s.cores && |s'.tasks| == |s.tasks|
    requires forall t | 0 <= t < |s.tasks| :: Like(s.tasks[t], s'.tasks[t])
    ensures CoreOk(s', d)
  {
    assert CoreOk(s, d);
    assert Like(Thread(s, d), Thread(s', d)) && Like(Current(s, d), Current(s', d));
    assert Like(s.tasks[d], s'.tasks[d]);
    assert Target(s, d).Some? ==> Like(s.tasks[Target(s, d).value], s'.tasks[Target(s, d).value]);
  }

  lemma LikeTask(s: State, s': State, t: nat)
    requires Inv(s) && t < |s.tasks| && Sane(s') && s'.cores == s.cores && |s'.tasks| == |s.tasks|
    requires forall u | 0 <= u < |s.tasks| :: Like(s.tasks[u], s'.tasks[u])
    ensures s'.tasks[t].onCpu < |s'.cores| && Placed(s', t)
  {
    assert Placed(s, t) && TaskOk(s.tasks[t], t, |s.cores|) && Like(s.tasks[t], s'.tasks[t]);
    var o := s.tasks[t].onCpu;
    if o >= 0 {
      assert CoreOk(s, o) && Like(Thread(s, o), Thread(s', o));
    }
  }

  lemma WakeKeeps(s: State, c: nat, w: nat)
    requires Inv(s) && Enabled(s, Wake(c, w))
    ensures Inv(Apply(s, Wake(c, w)))
  {
    assert forall t | 0 <= t < |s.tasks| :: TaskOk(s.tasks[t], t, |s.cores|);
    CountOnly(s, Apply(s, Wake(c, w)), c);
  }

  lemma ForkKeeps(s: State, c: nat)
    requires Inv(s) && Enabled(s, Fork(c))
    ensures Inv(Apply(s, Fork(c)))
  {
    ForkFrame(s, c);
    var s' := Apply(s, Fork(c));
    hide CoreOk, Unmoved, Target, Sane, TaskOk, Apply, Enabled;
    forall t | 0 <= t < |s'.tasks| && (t < |s.tasks| ==> s.tasks[t].onCpu == c || s.tasks[t].onCpu == -1)
      ensures PlacedOk(s', t)
    {
      if t < |s.tasks| {
        SamePlace(s, s', c, t);
      }
    }
    KeepInv(s, s', c);
  }

  lemma ForkFrame(s: State, c: nat)
    requires Inv(s) && Enabled(s, Fork(c))
    ensures var s' := Apply(s, Fork(c));
      && Sane(s') && TasksOk(s') && CoreOk(s', c) && Unmoved(s, s', c) && Target(s', c) == Target(s, c)
      && s'.cores == s.cores && s'.tasks == s.tasks + [NewTask(Current(s, c))]
  {
    hide Placed;
    var s' := Apply(s, Fork(c));
    assert CoreOk(s, c) && TaskOk(Current(s, c), s.cores[c].current, |s.cores|);
    forall t | 0 <= t < |s'.tasks| ensures TaskOk(s'.tasks[t], t, |s.cores|) {
      assert t < |s.tasks| ==> TaskOk(s.tasks[t], t, |s.cores|);
    }
  }

  // ---- picking and switching

  lemma RechargeLike(s: State, ts: seq<Task>)
    requires Inv(s) && ts == Select(s.tasks, |s.cores|).0
    ensures Sane(s.(tasks := ts)) && Inv(s.(tasks := ts))
    ensures forall t | 0 <= t < |s.tasks| :: Like(s.tasks[t], ts[t])
    ensures forall t | 0 <= t < |s.tasks| :: ts[t] == s.tasks[t].(counter := ts[t].counter)
  {
    forall t | 0 <= t < |s.tasks| ensures Like(s.tasks[t], ts[t]) && ts[t].counter <= 2 * s.tasks[t].priority {
      assert TaskOk(s.tasks[t], t, |s.cores|);
    }
    CountOnly(s, s.(tasks := ts), 0);
  }

  /** A task that may be claimed is saved inside cpu_switch_to, with preemption disabled. */
  lemma ClaimableParked(s: State, n: nat)
    requires Inv(s) && n < |s.tasks| && s.tasks[n].onCpu == -1 && s.tasks[n].state != Zombie
    ensures s.tasks[n].sched == [Parked] && s.tasks[n].preempt >= 1
  {
    assert Placed(s, n) && TaskOk(s.tasks[n], n, |s.cores|);
  }

  function WithClaim(s: State, c: nat, n: nat): State
    requires Sane(s) && c < |s.cores| && n < |s.tasks| && Thread(s, c).sched != [] && n != s.cores[c].thread
  {
    s.(tasks := s.tasks[n := s.tasks[n].(onCpu := c)][s.cores[c].thread := AtPhase(Thread(s, c), Claimed(n))])
  }

  lemma ClaimKeeps(s: State, c: nat, n: nat)
    requires Inv(s) && c < |s.cores| && Thread(s, c).sched == [Entered]
    requires |s.cores| <= n < |s.tasks| && s.tasks[n].onCpu == -1 && s.tasks[n].state == Running
    ensures n != s.cores[c].thread && n != s.cores[c].current && Inv(WithClaim(s, c, n))
  {
    var e := s.cores[c].thread;
    ClaimableParked(s, n);
    assert CoreOk(s, c) && TaskOk(s.tasks[e], e, |s.cores|) && TaskOk(s.tasks[n], n, |s.cores|);
    var s' := WithClaim(s, c, n);
    assert s'.tasks[e].sched == [Claimed(n)];
    TwoKeep(s, s', c, e, n);
  }

  lemma PickIs(s: State, c: nat, ts: seq<Task>, next: Option<nat>)
    requires Inv(s) && Enabled(s, Pick(c)) && (ts, next) == Select(s.tasks, |s.cores|) && Inv(s.(tasks := ts))
    requires forall t | 0 <= t < |s.tasks| :: ts[t] == s.tasks[t].(counter := ts[t].counter)
    ensures var s1 := s.(tasks := ts);
      && Thread(s1, c).sched == [Entered]
      && (next.Some? && next.value != s1.cores[c].current && next.value != s1.cores[c].thread && next.value < |ts| ==>
            Apply(s, Pick(c)) == WithClaim(s1, c, next.value))
      && (next.None? ==> Apply(s, Pick(c)) == WithThread(s1, c, AtPhase(Thread(s1, c), Leaving)))
  {
    var e := s.cores[c].thread;
    assert TaskOk(s.tasks[e], e, |s.cores|) && ts[e].sched == s.tasks[e].sched;
  }

  lemma PickKeeps(s: State, c: nat)
    requires Inv(s) && Enabled(s, Pick(c))
    ensures Inv(Apply(s, Pick(c)))
  {
    var (ts, next) := Select(s.tasks, |s.cores|);
    var s1 := s.(tasks := ts);
    RechargeLike(s, ts);
    assert forall i | 0 <= i < |s.tasks| :: TaskOk(s.tasks[i], i, |s.cores|);
    SelectIs(s.tasks, |s.cores|);
    hide Apply, Enabled, Select, CoreOk, Placed;
    PickIs(s, c, ts, next);
    if next.Some? {
      ClaimKeeps(s1, c, next.value);
    } else {
      LeavingKeeps(s1, c);
    }
  }

  lemma LeavingKeeps(s: State, c: nat)
    requires Inv(s) && c < |s.cores| && Thread(s, c).sched == [Entered]
    ensures Inv(WithThread(s, c, AtPhase(Thread(s, c), Leaving)))
  {
    assert CoreOk(s, c) && TaskOk(Thread(s, c), s.cores[c].thread, |s.cores|);
    OwnStep(s, c, AtPhase(Thread(s, c), Leaving));
  }

  function WithSwitching(s: State, c: nat, n: nat): State
    requires Sane(s) && c < |s.cores| && Thread(s, c).sched != []
  {
    WithThread(s, c, AtPhase(Thread(s, c), Switching(n))).(cores := s.cores[c := s.cores[c].(current := n)])
  }

  lemma SwitchingKeeps(s: State, c: nat, n: nat)
    requires Inv(s) && c < |s.cores| && Thread(s, c).sched == [Claimed(n)]
    ensures Inv(WithSwitching(s, c, n))
  {
    var s' := WithSwitching(s, c, n);
    var e := s.cores[c].thread;
    assert CoreOk(s, c) && TaskOk(s.tasks[e], e, |s.cores|);
    assert s'.tasks[e].sched == [Switching(n)];
    TwoKeep(s, s', c, e, e);
  }

  lemma SetCurrentKeeps(s: State, c: nat)
    requires Inv(s) && Enabled(s, SetCurrent(c))
    ensures Inv(Apply(s, SetCurrent(c)))
  {
    assert TaskOk(Thread(s, c), s.cores[c].thread, |s.cores|);
    SwitchingKeeps(s, c, Top(Thread(s, c)).value.next);
  }

  /** The old thread goes to sleep off-cpu, and `n`, asleep in a switch until now, runs on its core. */
  lemma LeaveCoreKeeps(s: State, c: nat, prev: Task, n: nat)
    requires Inv(s) && c < |s.cores| && n < |s.tasks| && n != s.cores[c].thread
    requires s.tasks[n].onCpu == c && s.tasks[n].sched == [Parked] && s.cores[c].current == n
    requires |s.cores| <= n || n == c
    requires Asleep(prev) && TaskOk(prev, s.cores[c].thread, |s.cores|)
    requires s.cores[c].thread == c ==> prev.sched == [Parked]
    requires forall t | 0 <= t < |s.tasks| && t != n && t != s.cores[c].thread && s.tasks[t].onCpu == c :: t == c
    ensures Inv(LeaveCore(s, c, prev, n))
  {
    var s' := LeaveCore(s, c, prev, n);
    assert CoreOk(s, c) && TaskOk(s.tasks[n], n, |s.cores|);
    assert s'.tasks[n].sched == [Leaving];
    TwoUnmoved(s, s', c, s.cores[c].thread, n);
    LeaveCorePlaced(s, c, prev, n);
    hide Placed, TaskOk, TasksOk, Unmoved, Target, PlacedOk;
    KeepInv(s, s', c);
  }

  lemma LeaveCorePlaced(s: State, c: nat, prev: Task, n: nat)
    requires Inv(s) && c < |s.cores| && n < |s.tasks| && n != s.cores[c].thread
    requires s.tasks[n].onCpu == c && Asleep(prev) && Sane(LeaveCore(s, c, prev, n))
    requires forall t | 0 <= t < |s.tasks| && t != n && t != s.cores[c].thread && s.tasks[t].onCpu == c :: t == c
    ensures var s' := LeaveCore(s, c, prev, n);
      forall t | 0 <= t < |s'.tasks| && (s.tasks[t].onCpu == c || s.tasks[t].onCpu == -1) :: PlacedOk(s', t)
  {
    hide CoreOk, Unmoved, Target;
    var s' := LeaveCore(s, c, prev, n);
    assert |s'.tasks| == |s.tasks| && TasksOk(s);
    forall t | 0 <= t < |s'.tasks| && (s.tasks[t].onCpu == c || s.tasks[t].onCpu == -1) ensures PlacedOk(s', t) {
      assert Placed(s, t) && TaskOk(s.tasks[t], t, |s.cores|);
    }
  }

  lemma SwitchOutKeeps(s: State, c: nat)
    requires Inv(s) && Enabled(s, SwitchOut(c))
    ensures Inv(Apply(s, SwitchOut(c)))
  {
    var e, t := s.cores[c].thread, Thread(s, c);
    assert CoreOk(s, c) && TaskOk(t, e, |s.cores|);
    var n := Top(t).value.next;
    assert AtPhase(t, Parked).sched == [Parked];
    forall u | 0 <= u < |s.tasks| && u != n && u != e && s.tasks[u].onCpu == c ensures u == c {
      assert Placed(s, u);
    }
    LeaveCoreKeeps(s, c, AtPhase(t, Parked).(onCpu := -1), n);
    assert Apply(s, SwitchOut(c)) == LeaveCore(s, c, AtPhase(t, Parked).(onCpu := -1), n);
  }

  lemma SwitchToIdleKeeps(s: State, c: nat)
    requires Inv(s) && Enabled(s, SwitchToIdle(c))
    ensures Inv(Apply(s, SwitchToIdle(c)))
  {
    var e, t := s.cores[c].thread, Thread(s, c);
    assert CoreOk(s, c) && TaskOk(t, e, |s.cores|);
    forall u | 0 <= u < |s.tasks| && u != e && s.tasks[u].onCpu == c ensures u == c {
      assert Placed(s, u);
    }
    LeaveCoreKeeps(s, c, t.(exit := Gone, onCpu := -1), c);
    assert Apply(s, SwitchToIdle(c)) == LeaveCore(s, c, t.(exit := Gone, onCpu := -1), c);
  }

  lemma ChooseIdleKeeps(s: State, c: nat)
    requires Inv(s) && Enabled(s, ChooseIdle(c))
    ensures Inv(Apply(s, ChooseIdle(c)))
  {
    var s' := Apply(s, ChooseIdle(c));
    var e := s.cores[c].thread;
    assert CoreOk(s, c) && TaskOk(s.tasks[e], e, |s.cores|) && TaskOk(s.tasks[c], c, |s.cores|) && Placed(s, c);
    TwoKeep(s, s', c, e, c);
  }

  lemma SetIdleKeeps(s: State, c: nat)
    requires Inv(s) && Enabled(s, SetIdle(c))
    ensures Inv(Apply(s, SetIdle(c)))
  {
    var s' := Apply(s, SetIdle(c));
    var e := s.cores[c].thread;
    assert CoreOk(s, c) && TaskOk(s.tasks[e], e, |s.cores|);
    TwoKeep(s, s', c, e, e);
  }

  lemma EnterStep(s: State, c: nat)
    requires Inv(s) && Enabled(s, Enter(c))
    ensures Inv(Apply(s, Enter(c)))
  {
    OwnThread(s, c);
    assert TaskOk(Thread(s, c), s.cores[c].thread, |s.cores|);
    EnterKeeps(s, c, Thread(s, c));
    assert WithCurrent(s, c, Thread(s, c)) == s;
  }

  lemma StepKeeps(s: State, step: Step)
    requires Inv(s) && Enabled(s, step)
    ensures Inv(Apply(s, step))
  {
    hide Inv, Enabled;
    match step {
      case Enter(c) => EnterStep(s, c);
      case Tick(c) => TickStep(s, c);
      case Pick(c) => PickKeeps(s, c);
      case SetCurrent(c) => SetCurrentKeeps(s, c);
      case SwitchOut(c) => SwitchOutKeeps(s, c);
      case Fork(c) => ForkKeeps(s, c);
      case ChooseIdle(c) => ChooseIdleKeeps(s, c);
      case SetIdle(c) => SetIdleKeeps(s, c);
      case SwitchToIdle(c) => SwitchToIdleKeeps(s, c);
      case Wake(c, w) => WakeKeeps(s, c, w);
      case _ => BaseStep(s, step);
    }
  }

  lemma TickStep(s: State, c: nat)
    requires Inv(s) && Enabled(s, Tick(c))
    ensures Inv(Apply(s, Tick(c)))
  {
    TickKeeps(s, c);
  }
}
