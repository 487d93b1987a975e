/** The multi-core scheduler as a state machine: every lock-protected region is one step. */
module Scheduling {
  import opened Basics

  datatype RunState = Running | Zombie | Waiting

  /** How far a thread got in an activation of _schedule (Parked: saved inside cpu_switch_to). */
  datatype Phase = Entered | Claimed(next: nat) | Switching(next: nat) | Parked | Leaving

  /** How far a thread got in switch_to_idle. */
  datatype Exit = NotLeaving | IdleChosen | IdleCurrent | Gone

  /**
   * A task record and the control state of its thread: `depth` explicit preempt_disable calls
   * are open, and `sched` lists its activations of _schedule, innermost last.
   */
  datatype Task = Task(state: RunState, counter: int, priority: int, preempt: int, onCpu: int,
    depth: nat, sched: seq<Phase>, exit: Exit)

  /** `current` is the current_task pointer, `thread` the task whose stack the core executes. */
  datatype Core = Core(current: nat, thread: nat)

  /** Task `c` is the idle task of core `c`; the other tasks form the run list, in order. */
  datatype State = State(tasks: seq<Task>, cores: seq<Core>)

  // ---- choosing a task

  predicate Eligible(t: Task) { t.state == Running && t.onCpu == -1 && t.counter >= 0 }

  /** The scan of _schedule up to task `k`: the first eligible task with the largest counter. */
  function Scan(ts: seq<Task>, first: nat, k: nat): (r: Option<nat>)
    requires first <= k <= |ts|
    ensures r.Some? ==> first <= r.value < k
  {
    if k == first then None
    else
      var best := Scan(ts, first, k - 1);
      var c := if best.Some? then ts[best.value].counter else -1;
      if ts[k - 1].state == Running && ts[k - 1].onCpu == -1 && ts[k - 1].counter > c then Some(k - 1) else best
  }

  /** The winner: eligible, no eligible counter is larger, and none as large comes earlier. */
  predicate IsBest(ts: seq<Task>, first: nat, k: nat, r: Option<nat>)
    requires first <= k <= |ts|
  {
    match r
    case None => forall i | first <= i < k :: !Eligible(ts[i])
    case Some(b) =>
      && first <= b < k && Eligible(ts[b])
      && (forall i | first <= i < k && Eligible(ts[i]) :: ts[i].counter <= ts[b].counter)
      && (forall i | first <= i < b && Eligible(ts[i]) :: ts[i].counter < ts[b].counter)
  }

  lemma {:induction false} ScanIsBest(ts: seq<Task>, first: nat, k: nat)
    requires first <= k <= |ts|
    ensures IsBest(ts, first, k, Scan(ts, first, k))
  {
    if first < k {
      ScanIsBest(ts, first, k - 1);
    }
  }

  function Recharged(t: Task): Task { t.(counter := t.counter / 2 + t.priority) }

  /** Half of the counter, rounded down, and the priority; a larger counter and a larger priority give no less, and from
      any counter up to twice the priority it stays there. */
  lemma RechargeMeans(t: Task, u: Task)
    ensures Recharged(t) == t.(counter := Recharged(t).counter)
    ensures 0 <= t.counter - 2 * (Recharged(t).counter - t.priority) <= 1
    ensures t.counter <= u.counter && t.priority <= u.priority ==> Recharged(t).counter <= Recharged(u).counter
    ensures 0 <= t.counter <= 2 * t.priority ==> t.priority <= Recharged(t).counter <= 2 * t.priority
  {}

  function Recharge(ts: seq<Task>, first: nat): (r: seq<Task>)
    requires first <= |ts|
    ensures |r| == |ts| && forall i | 0 <= i < |ts| :: r[i] == if i < first then ts[i] else Recharged(ts[i])
  {
    ts[..first] + seq(|ts| - first, i requires 0 <= i < |ts| - first => Recharged(ts[first + i]))
  }

  /** The task records and the choice with which the loop of _schedule ends. */
  function Select(ts: seq<Task>, first: nat): (r: (seq<Task>, Option<nat>))
    requires first <= |ts|
    ensures |r.0| == |ts| && (r.1.Some? ==> first <= r.1.value < |ts|)
  {
    var best := Scan(ts, first, |ts|);
    if best.Some? && ts[best.value].counter == 0 then
      (Recharge(ts, first), Scan(Recharge(ts, first), first, |ts|))
    else (ts, best)
  }

  predicate SomeEligible(ts: seq<Task>, first: nat)
    requires first <= |ts|
  {
    exists i :: first <= i < |ts| && Eligible(ts[i])
  }

  /** With positive priorities the second pass never sees a largest counter of 0, so two passes are enough. */
  lemma SelectIs(ts: seq<Task>, first: nat)
    requires first <= |ts| && forall i | 0 <= i < |ts| :: ts[i].priority >= 1
    ensures var (us, r) := Select(ts, first);
      && IsBest(us, first, |us|, r) && (r.Some? ==> us[r.value].counter > 0)
      && (r.Some? <==> SomeEligible(ts, first))
  {
    ScanIsBest(ts, first, |ts|);
    var best, us := Scan(ts, first, |ts|), Recharge(ts, first);
    ScanIsBest(us, first, |us|);
    if best.Some? && ts[best.value].counter == 0 {
      assert us[best.value] == Recharged(ts[best.value]);
      assert Eligible(us[best.value]) && us[best.value].counter >= 1;
    }
  }

  // ---- steps

  datatype Step =
    | Disable(c: nat)
    | Enable(c: nat)
    | Yield(c: nat)
    | Enter(c: nat)
    | Tick(c: nat)
    | Pick(c: nat)
    | SetCurrent(c: nat)
    | SwitchOut(c: nat)
    | Leave(c: nat)
    | Fork(c: nat)
    | Die(c: nat)
    | ChooseIdle(c: nat)
    | SetIdle(c: nat)
    | SwitchToIdle(c: nat)
    | Block(c: nat)
    | Wake(c: nat, t: nat)

  /** References stay inside the system. */
  predicate Sane(s: State) {
    && |s.cores| <= |s.tasks|
    && (forall c | 0 <= c < |s.cores| :: s.cores[c].current < |s.tasks| && s.cores[c].thread < |s.tasks|)
    && (forall t, p | 0 <= t < |s.tasks| && p in s.tasks[t].sched ::
          (p.Claimed? || p.Switching?) ==> p.next < |s.tasks|)
  }

  function Thread(s: State, c: nat): Task
    requires Sane(s) && c < |s.cores|
  {
    s.tasks[s.cores[c].thread]
  }

  function Current(s: State, c: nat): Task
    requires Sane(s) && c < |s.cores|
  {
    s.tasks[s.cores[c].current]
  }

  /** The thread runs code outside _schedule and switch_to_idle. */
  predicate AtBase(t: Task) { t.sched == [] && t.exit == NotLeaving }

  function Top(t: Task): Option<Phase> {
    if t.sched == [] then None else Some(t.sched[|t.sched| - 1])
  }

  predicate Enabled(s: State, step: Step)
    requires Sane(s)
  {
    step.c < |s.cores| &&
    var t := Thread(s, step.c);
    match step
    case Disable(_) => AtBase(t) && t.state != Zombie
    case Enable(_) => AtBase(t) && t.depth > 0
    case Yield(_) => AtBase(t)
    case Enter(_) => AtBase(t)
    case Tick(_) => true
    case Pick(_) => Top(t) == Some(Entered)
    case SetCurrent(_) => Top(t).Some? && Top(t).value.Claimed?
    case SwitchOut(_) => Top(t).Some? && Top(t).value.Switching?
    case Leave(_) => Top(t) == Some(Leaving)
    case Fork(_) => AtBase(t) && t.state != Zombie && t.depth > 0
    case Die(c) => AtBase(t) && t.depth > 0 && s.cores[c].current >= |s.cores|
    case ChooseIdle(_) => AtBase(t) && t.state == Zombie && t.depth == 0
    case SetIdle(_) => t.sched == [] && t.exit == IdleChosen
    case SwitchToIdle(_) => t.sched == [] && t.exit == IdleCurrent
    case Block(_) => AtBase(t) && t.state != Zombie
    case Wake(_, w) => w < |s.tasks| && s.tasks[w].state == Waiting
  }

  function WithTask(s: State, t: nat, r: Task): State
    requires t < |s.tasks|
  {
    s.(tasks := s.tasks[t := r])
  }

  function WithCurrent(s: State, c: nat, r: Task): State
    requires Sane(s) && c < |s.cores|
  {
    WithTask(s, s.cores[c].current, r)
  }

  function WithThread(s: State, c: nat, r: Task): State
    requires Sane(s) && c < |s.cores|
  {
    WithTask(s, s.cores[c].thread, r)
  }

  /** The innermost activation of a thread moves on to phase `p`. */
  function AtPhase(t: Task, p: Phase): Task
    requires t.sched != []
  {
    t.(sched := t.sched[|t.sched| - 1 := p])
  }

  /** preempt_disable at the head of _schedule, and the new activation. */
  function EnterSchedule(s: State, c: nat): State
    requires Sane(s) && c < |s.cores|
  {
    var s1 := WithCurrent(s, c, Current(s, c).(preempt := Current(s, c).preempt + 1));
    var t := s1.tasks[s.cores[c].thread];
    s1.(tasks := s1.tasks[s.cores[c].thread := t.(sched := t.sched + [Entered])])
  }

  /** cpu_switch_to: a saved thread comes back to life inside its own switch. */
  function Resumed(t: Task): Task {
    if Top(t) == Some(Parked) then AtPhase(t, Leaving) else t
  }

  function Tick1(t: Task): Task { t.(counter := t.counter - 1) }

  function ApplyTick(s: State, c: nat): State
    requires Sane(s) && c < |s.cores|
  {
    var t := Tick1(Current(s, c));
    if t.counter > 0 || t.preempt > 0 then WithCurrent(s, c, t)
    else
      var s1 := WithCurrent(s, c, t.(counter := 0));
      EnterSchedule(s1, c)
  }

  function ApplyPick(s: State, c: nat): State
    requires Sane(s) && c < |s.cores| && Thread(s, c).sched != []
  {
    var (ts, next) := Select(s.tasks, |s.cores|);
    var e := s.cores[c].thread;
    if next.Some? && next.value != s.cores[c].current then
      var us := ts[next.value := ts[next.value].(onCpu := c)];
      s.(tasks := if us[e].sched != [] then us[e := AtPhase(us[e], Claimed(next.value))] else us)
    else s.(tasks := if ts[e].sched != [] then ts[e := AtPhase(ts[e], Leaving)] else ts)
  }

  /** The rest of switch_to, from prev->on_cpu = -1 on: the core goes on with the stack of `n`. */
  function LeaveCore(s: State, c: nat, prev: Task, n: nat): State
    requires Sane(s) && c < |s.cores| && n < |s.tasks|
  {
    var us := s.tasks[s.cores[c].thread := prev.(onCpu := -1)];
    State(us[n := Resumed(us[n])], s.cores[c := s.cores[c].(thread := n)])
  }

  /** A new task as copy_process leaves it: it starts in ret_from_fork, as if saved inside a switch. */
  function NewTask(parent: Task): Task {
    Task(Running, parent.priority, parent.priority, 1, -1, 0, [Parked], NotLeaving)
  }

  function Apply(s: State, step: Step): State
    requires Sane(s) && Enabled(s, step)
  {
    var c := step.c;
    var cur := Current(s, c);
    match step
    case Disable(_) =>
      var s1 := WithCurrent(s, c, cur.(preempt := cur.preempt + 1));
      WithThread(s1, c, s1.tasks[s.cores[c].thread].(depth := s1.tasks[s.cores[c].thread].depth + 1))
    case Enable(_) =>
      var s1 := WithCurrent(s, c, cur.(preempt := cur.preempt - 1));
      WithThread(s1, c, s1.tasks[s.cores[c].thread].(depth := Thread(s, c).depth - 1))
    case Yield(_) => WithCurrent(s, c, cur.(counter := 0))
    case Enter(_) => EnterSchedule(s, c)
    case Tick(_) => ApplyTick(s, c)
    case Pick(_) => ApplyPick(s, c)
    case SetCurrent(_) =>
      var n := Top(Thread(s, c)).value.next;
      WithThread(s, c, AtPhase(Thread(s, c), Switching(n))).(cores := s.cores[c := s.cores[c].(current := n)])
    case SwitchOut(_) => LeaveCore(s, c, AtPhase(Thread(s, c), Parked), Top(Thread(s, c)).value.next)
    case Leave(_) =>
      var s1 := WithCurrent(s, c, cur.(preempt := cur.preempt - 1));
      var t := s1.tasks[s.cores[c].thread];
      s1.(tasks := s1.tasks[s.cores[c].thread := t.(sched := Thread(s, c).sched[..|Thread(s, c).sched| - 1])])
    case Fork(_) => s.(tasks := s.tasks + [NewTask(cur)])
    case Die(_) => WithCurrent(s, c, cur.(state := Zombie))
    case ChooseIdle(_) =>
      var s1 := WithTask(s, c, s.tasks[c].(onCpu := c));
      s1.(tasks := s1.tasks[s.cores[c].thread := s1.tasks[s.cores[c].thread].(exit := IdleChosen)])
    case SetIdle(_) =>
      WithThread(s, c, Thread(s, c).(exit := IdleCurrent)).(cores := s.cores[c := s.cores[c].(current := c)])
    case SwitchToIdle(_) => LeaveCore(s, c, Thread(s, c).(exit := Gone), c)
    case Block(_) => WithCurrent(s, c, cur.(state := Waiting))
    case Wake(_, w) => WithTask(s, w, s.tasks[w].(state := Running))
  }

  // ---- the invariant

  predicate TaskOk(t: Task, id: nat, n: nat) {
    && |t.sched| <= 1 && t.preempt == t.depth + |t.sched|
    && t.priority >= 1 && t.counter <= 2 * t.priority
    && -1 <= t.onCpu < n
    && (id < n ==> t.state != Zombie && (t.onCpu == -1 || t.onCpu == id))
    && (t.exit != NotLeaving ==> t.state == Zombie)
  }

  /** Saved inside cpu_switch_to, or dead for good. */
  predicate Asleep(t: Task) {
    t.sched == [Parked] || (t.state == Zombie && t.sched == [] && t.exit == Gone)
  }

  /** A task core `c` has claimed and not yet begun to run. */
  predicate Ready(s: State, c: nat, n: nat) {
    && |s.cores| <= n < |s.tasks| && s.tasks[n].state == Running
    && s.tasks[n].onCpu == c && s.tasks[n].sched == [Parked]
  }

  predicate CoreOk(s: State, c: nat)
    requires Sane(s) && c < |s.cores|
  {
    var k, e := s.cores[c], Thread(s, c);
    && e.onCpu == c && e.exit != Gone && e.sched != [Parked]
    && Current(s, c).onCpu == c
    && (if e.exit == IdleCurrent then e.sched == [] && k.current == c && k.thread != c && s.tasks[c].sched == [Parked]
        else match Top(e)
             case Some(Claimed(n)) => k.current == k.thread && Ready(s, c, n)
             case Some(Switching(n)) => k.current == n && Ready(s, c, n)
             case _ => k.current == k.thread)
    && (e.exit == IdleChosen ==> s.tasks[c].onCpu == c && k.thread != c)
    && (k.thread != c ==> s.tasks[c].sched == [Parked])
  }

  /** The task a core is about to switch to. */
  function Target(s: State, c: nat): Option<nat>
    requires Sane(s) && c < |s.cores|
  {
    match Top(Thread(s, c))
    case Some(Claimed(n)) => Some(n)
    case Some(Switching(n)) => Some(n)
    case _ => None
  }

  /** A task runs on the core it names, is about to, or sleeps; an idle task may name its own core while asleep. */
  predicate Placed(s: State, t: nat)
    requires Sane(s) && t < |s.tasks| && s.tasks[t].onCpu < |s.cores|
  {
    var o := s.tasks[t].onCpu;
    if 0 <= o && s.cores[o].thread == t then true
    else Asleep(s.tasks[t]) && (o < 0 || t == o || Target(s, o) == Some(t))
  }

  predicate TasksOk(s: State) {
    forall t | 0 <= t < |s.tasks| :: TaskOk(s.tasks[t], t, |s.cores|)
  }

  predicate Inv(s: State) {
    && Sane(s) && |s.cores| > 0 && TasksOk(s)
    && (forall c | 0 <= c < |s.cores| :: CoreOk(s, c))
    && (forall t | 0 <= t < |s.tasks| :: Placed(s, t))
  }
}
