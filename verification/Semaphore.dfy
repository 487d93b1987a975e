/** Counting semaphores as a machine of locked steps, over any number of tasks. */
module Semaphores {
  import opened Basics

  datatype WaitState = Outside | Looping(inList: bool)

  /**
   * `waiters` is the intrusive list, front first; `runnable[t]` is state == TASK_RUNNING; `pc[t]` is where
   * task t is in sem_wait. The rest is history: the initial count, completed signals and waits, and the
   * time at which each task last joined the list.
   */
  datatype Sem = Sem(count: int, waiters: seq<nat>, runnable: seq<bool>, pc: seq<WaitState>,
    initial: int, signals: nat, completed: nat, joined: seq<nat>, clock: nat)

  datatype Step =
    | Begin(t: nat)
    | Try(t: nat)
    | Signal
    | Elsewhere(t: nat, run: bool)

  predicate Sized(m: Sem) {
    |m.runnable| == |m.pc| == |m.joined| && forall i | 0 <= i < |m.waiters| :: m.waiters[i] < |m.pc|
  }

  /** A task is inside at most one sem_wait, and only there does a semaphore change its state. */
  predicate Enabled(m: Sem, step: Step) {
    match step
    case Begin(t) => t < |m.pc| && m.pc[t] == Outside
    case Try(t) => t < |m.pc| && m.pc[t].Looping?
    case Signal => true
    case Elsewhere(t, _) => t < |m.pc| && m.pc[t] == Outside
  }

  /** list_del of a node that is on the list once. */
  function Without(w: seq<nat>, t: nat): (r: seq<nat>)
    ensures |r| <= |w| && forall i | 0 <= i < |r| :: r[i] in w
  {
    if w == [] then [] else if w[0] == t then w[1..] else [w[0]] + Without(w[1..], t)
  }

  /** The first waiter that is still TASK_WAITING, or the length of the list. */
  function FirstAsleep(w: seq<nat>, runnable: seq<bool>, k: nat := 0): (r: nat)
    requires k <= |w| && forall i | 0 <= i < |w| :: w[i] < |runnable|
    ensures k <= r <= |w| && (forall i | k <= i < r :: runnable[w[i]]) && (r < |w| ==> !runnable[w[r]])
    decreases |w| - k
  {
    if k == |w| || !runnable[w[k]] then k else FirstAsleep(w, runnable, k + 1)
  }

  /** One locked region of sem_wait. */
  function ApplyTry(m: Sem, t: nat): Sem
    requires Sized(m) && t < |m.pc| && m.pc[t].Looping?
  {
    if m.count > 0 then
      m.(count := m.count - 1, waiters := if m.pc[t].inList then Without(m.waiters, t) else m.waiters,
         pc := m.pc[t := Outside], completed := m.completed + 1)
    else
      var m1 :=
        if m.pc[t].inList then m
        else m.(waiters := m.waiters + [t], joined := m.joined[t := m.clock], clock := m.clock + 1);
      m1.(pc := m.pc[t := Looping(true)], runnable := m.runnable[t := false])
  }

  function ApplySignal(m: Sem): Sem
    requires Sized(m)
  {
    var k := FirstAsleep(m.waiters, m.runnable);
    m.(count := m.count + 1, signals := m.signals + 1,
       runnable := if k < |m.waiters| then m.runnable[m.waiters[k] := true] else m.runnable)
  }

  function Apply(m: Sem, step: Step): Sem
    requires Sized(m) && Enabled(m, step)
  {
    match step
    case Begin(t) => m.(pc := m.pc[t := Looping(false)])
    case Try(t) => ApplyTry(m, t)
    case Signal => ApplySignal(m)
    case Elsewhere(t, run) => m.(runnable := m.runnable[t := run])
  }

  // ---- the invariant

  function RunnableWaiters(w: seq<nat>, runnable: seq<bool>): nat
    requires forall i | 0 <= i < |w| :: w[i] < |runnable|
  {
    if w == [] then 0 else (if runnable[w[0]] then 1 else 0) + RunnableWaiters(w[1..], runnable)
  }

  /** The list is in the order of arrival, so it holds nobody twice. */
  predicate InOrder(w: seq<nat>, joined: seq<nat>, clock: nat) {
    && (forall i | 0 <= i < |w| :: w[i] < |joined| && joined[w[i]] < clock)
    && (forall i, j | 0 <= i < j < |w| :: joined[w[i]] < joined[w[j]])
  }

  predicate Inv(m: Sem) {
    && Sized(m)
    && m.count == m.initial + m.signals - m.completed && m.count >= 0
    && InOrder(m.waiters, m.joined, m.clock)
    && (forall t | 0 <= t < |m.pc| :: t in m.waiters <==> m.pc[t] == Looping(true))
    && RunnableWaiters(m.waiters, m.runnable) >= Min(m.count, |m.waiters|)
  }

  lemma {:induction false} RunnableFrame(w: seq<nat>, a: seq<bool>, b: seq<bool>)
    requires |a| == |b| && forall i | 0 <= i < |w| :: w[i] < |a| && a[w[i]] == b[w[i]]
    ensures RunnableWaiters(w, a) == RunnableWaiters(w, b)
  {
    if w != [] {
      RunnableFrame(w[1..], a, b);
    }
  }

  lemma {:induction false} RunnableAll(w: seq<nat>, a: seq<bool>)
    requires forall i | 0 <= i < |w| :: w[i] < |a|
    ensures RunnableWaiters(w, a) <= |w|
    ensures (forall i | 0 <= i < |w| :: a[w[i]]) ==> RunnableWaiters(w, a) == |w|
    ensures RunnableWaiters(w, a) > 0 ==> exists i :: 0 <= i < |w| && a[w[i]]
  {
    if w != [] {
      RunnableAll(w[1..], a);
      assert forall i | 0 <= i < |w[1..]| :: w[1..][i] == w[i + 1];
      if RunnableWaiters(w[1..], a) > 0 {
        var i :| 0 <= i < |w[1..]| && a[w[1..][i]];
        assert a[w[i + 1]];
      }
      if a[w[0]] {
        assert exists i :: 0 <= i < |w| && a[w[i]];
      }
    }
  }

  /** Waking waiter `k` makes one more runnable waiter. */
  lemma {:induction false} RunnableWoken(w: seq<nat>, a: seq<bool>, k: nat)
    requires (forall i | 0 <= i < |w| :: w[i] < |a|) && (forall i, j | 0 <= i < j < |w| :: w[i] != w[j])
    requires k < |w| && !a[w[k]]
    ensures RunnableWaiters(w, a[w[k] := true]) == RunnableWaiters(w, a) + 1
  {
    if k == 0 {
      RunnableFrame(w[1..], a, a[w[0] := true]);
    } else {
      RunnableWoken(w[1..], a, k - 1);
    }
  }

  lemma {:induction false} WithoutAt(w: seq<nat>, t: nat, k: nat)
    requires k < |w| && w[k] == t && forall i | 0 <= i < k :: w[i] != t
    ensures Without(w, t) == w[..k] + w[k + 1..]
  {
    if k > 0 {
      WithoutAt(w[1..], t, k - 1);
    }
  }

  /** Deleting one node keeps the order and every other member. */
  lemma {:induction false} WithoutKeeps(w: seq<nat>, t: nat, joined: seq<nat>, clock: nat)
    requires InOrder(w, joined, clock) && t in w
    ensures var r := Without(w, t);
      InOrder(r, joined, clock) && |r| == |w| - 1 && t !in r && forall u | u != t :: u in r <==> u in w
  {
    TailInOrder(w, joined, clock);
    if w[0] != t {
      WithoutKeeps(w[1..], t, joined, clock);
      var r := Without(w[1..], t);
      forall i | 0 <= i < |r| ensures joined[w[0]] < joined[r[i]] {
        assert r[i] in w[1..];
      }
      ConsInOrder(w[0], r, joined, clock);
      assert Without(w, t) == [w[0]] + r;
    }
  }

  lemma TailInOrder(w: seq<nat>, joined: seq<nat>, clock: nat)
    requires InOrder(w, joined, clock) && w != []
    ensures InOrder(w[1..], joined, clock) && w[0] !in w[1..]
    ensures forall x :: x in w[1..] ==> joined[w[0]] < joined[x]
  {
    assert forall i | 0 <= i < |w[1..]| :: w[1..][i] == w[i + 1];
  }

  lemma ConsInOrder(x: nat, r: seq<nat>, joined: seq<nat>, clock: nat)
    requires InOrder(r, joined, clock) && x < |joined| && joined[x] < clock
    requires forall i | 0 <= i < |r| :: joined[x] < joined[r[i]]
    ensures InOrder([x] + r, joined, clock)
  {}

  lemma {:induction false} WithoutCount(w: seq<nat>, t: nat, a: seq<bool>)
    requires (forall i | 0 <= i < |w| :: w[i] < |a|) && t in w
    ensures RunnableWaiters(Without(w, t), a) + (if a[t] then 1 else 0) == RunnableWaiters(w, a)
  {
    if w[0] != t {
      WithoutCount(w[1..], t, a);
    }
  }

  /** Taking the count off the list: the waiter leaves, the others stay in order. */
  lemma TakeKeeps(m: Sem, t: nat)
    requires Inv(m) && t < |m.pc| && m.pc[t] == Looping(true) && m.count > 0
    ensures Inv(ApplyTry(m, t))
  {
    hide Without, RunnableWaiters, InOrder;
    assert t in m.waiters && forall i | 0 <= i < |m.waiters| :: m.waiters[i] < |m.runnable|;
    WithoutKeeps(m.waiters, t, m.joined, m.clock);
    WithoutCount(m.waiters, t, m.runnable);
    RunnableAll(m.waiters, m.runnable);
    var r := Without(m.waiters, t);
    var m' := ApplyTry(m, t);
    assert m'.waiters == r && m'.count == m.count - 1;
  }

  /** Finding the count at 0: the task joins the list if it is new, and sleeps. */
  lemma SleepKeeps(m: Sem, t: nat)
    requires Inv(m) && t < |m.pc| && m.pc[t].Looping? && m.count == 0
    ensures Inv(ApplyTry(m, t))
  {
    var m' := ApplyTry(m, t);
    assert t in m.waiters <==> m.pc[t].inList;
    forall u | 0 <= u < |m.pc| ensures u in m'.waiters <==> u in m.waiters || u == t {}
  }

  lemma SignalKeeps(m: Sem)
    requires Inv(m)
    ensures Inv(ApplySignal(m))
  {
    var k := FirstAsleep(m.waiters, m.runnable);
    RunnableAll(m.waiters, m.runnable);
    if k < |m.waiters| {
      RunnableWoken(m.waiters, m.runnable, k);
    }
  }

  lemma StepKeeps(m: Sem, step: Step)
    requires Inv(m) && Enabled(m, step)
    ensures Inv(Apply(m, step))
  {
    match step {
      case Begin(t) =>
      case Try(t) =>
        if m.count == 0 {
          SleepKeeps(m, t);
        } else if m.pc[t].inList {
          TakeKeeps(m, t);
        }
      case Signal => SignalKeeps(m);
      case Elsewhere(t, run) =>
        RunnableFrame(m.waiters, m.runnable, m.runnable[t := run]);
    }
  }

  // ---- runs

  /** sem_init, with every task outside. */
  predicate Fresh(m: Sem, count: int) {
    && Sized(m) && m.count == m.initial == count && m.waiters == [] && m.signals == m.completed == 0
    && forall t | 0 <= t < |m.pc| :: m.pc[t] == Outside
  }

  ghost predicate Run(m: Sem, steps: seq<Step>, m': Sem)
    decreases |steps|
  {
    if steps == [] then m' == m
    else Sized(m) && Enabled(m, steps[0]) && Run(Apply(m, steps[0]), steps[1..], m')
  }

  lemma {:induction false} RunInv(m: Sem, steps: seq<Step>, m': Sem)
    requires Inv(m) && Run(m, steps, m')
    ensures Inv(m') && m'.initial == m.initial
    decreases |steps|
  {
    if steps != [] {
      StepKeeps(m, steps[0]);
      RunInv(Apply(m, steps[0]), steps[1..], m');
    }
  }

  /** No signal is lost: the count is what was put in minus what was taken out, and while it is positive
      and somebody waits, some waiter can run and take it. */
  lemma NoLostSignal(m0: Sem, count: nat, steps: seq<Step>, m: Sem)
    requires Fresh(m0, count) && Run(m0, steps, m)
    ensures m.count == count + m.signals - m.completed >= 0
    ensures Sized(m) && RunnableWaiters(m.waiters, m.runnable) >= Min(m.count, |m.waiters|)
    ensures m.count > 0 && m.waiters != [] ==> exists i :: 0 <= i < |m.waiters| && m.runnable[m.waiters[i]]
  {
    RunInv(m0, steps, m);
    RunnableAll(m.waiters, m.runnable);
  }

  /** The list holds exactly the tasks that found the count at 0 and have not got it yet, each once, first come
      first. */
  lemma ListIsQueue(m0: Sem, count: nat, steps: seq<Step>, m: Sem, t: nat)
    requires Fresh(m0, count) && Run(m0, steps, m) && t < |m.pc|
    ensures t in m.waiters <==> m.pc[t] == Looping(true)
    ensures forall i, j | 0 <= i < j < |m.waiters| :: m.waiters[i] != m.waiters[j]
    ensures InOrder(m.waiters, m.joined, m.clock)
  {
    RunInv(m0, steps, m);
  }

  // ---- whom signals wake

  /** The waiters that sleep, in the order of the list. */
  function Sleepers(w: seq<nat>, runnable: seq<bool>): (r: seq<nat>)
    requires forall i | 0 <= i < |w| :: w[i] < |runnable|
    ensures forall i | 0 <= i < |r| :: r[i] in w && r[i] < |runnable| && !runnable[r[i]]
  {
    if w == [] then []
    else (if runnable[w[0]] then [] else [w[0]]) + Sleepers(w[1..], runnable)
  }

  lemma {:induction false} SleepersFrame(w: seq<nat>, a: seq<bool>, b: seq<bool>)
    requires |a| == |b| && forall i | 0 <= i < |w| :: w[i] < |a| && a[w[i]] == b[w[i]]
    ensures Sleepers(w, a) == Sleepers(w, b)
  {
    if w != [] {
      SleepersFrame(w[1..], a, b);
    }
  }

  lemma {:induction false} FirstSleeper(w: seq<nat>, a: seq<bool>, k: nat)
    requires (forall i | 0 <= i < |w| :: w[i] < |a|) && (forall i, j | 0 <= i < j < |w| :: w[i] != w[j])
    requires k <= |w| && (forall i | 0 <= i < k :: a[w[i]]) && (k < |w| ==> !a[w[k]])
    ensures k == |w| ==> Sleepers(w, a) == []
    ensures k < |w| ==> Sleepers(w, a) == [w[k]] + Sleepers(w, a[w[k] := true])
  {
    if w != [] {
      if k == 0 {
        SleepersFrame(w[1..], a, a[w[0] := true]);
      } else {
        FirstSleeper(w[1..], a, k - 1);
      }
    }
  }

  /** A signal wakes the first sleeper, and nobody else. */
  lemma SignalWakes(m: Sem)
    requires Inv(m)
    ensures var m', asleep := ApplySignal(m), Sleepers(m.waiters, m.runnable);
      && m'.count == m.count + 1 && m'.waiters == m.waiters && m'.pc == m.pc && |m'.runnable| == |m.runnable|
      && (asleep == [] ==> m'.runnable == m.runnable && Sleepers(m'.waiters, m'.runnable) == [])
      && (asleep != [] ==> m'.runnable == m.runnable[asleep[0] := true]
                           && Sleepers(m'.waiters, m'.runnable) == asleep[1..])
  {
    FirstSleeper(m.waiters, m.runnable, FirstAsleep(m.waiters, m.runnable));
  }

  function Signals(m: Sem, n: nat): (r: Sem)
    requires Inv(m)
    ensures Inv(r)
    decreases n
  {
    SignalKeeps(m);
    if n == 0 then m else Signals(ApplySignal(m), n - 1)
  }

  /** Signals in a row, before any waiter has run, each wake another one: the first so many sleepers of the list. */
  lemma {:induction false} BackToBack(m: Sem, n: nat)
    requires Inv(m)
    ensures var m', asleep := Signals(m, n), Sleepers(m.waiters, m.runnable);
      && m'.count == m.count + n && m'.waiters == m.waiters
      && Sleepers(m'.waiters, m'.runnable) == asleep[Min(n, |asleep|)..]
      && Woke(m.runnable, m'.runnable, asleep[..Min(n, |asleep|)])
    decreases n
  {
    if n > 0 {
      SignalKeeps(m);
      SignalWakes(m);
      hide Inv, ApplySignal, Sleepers, Woke;
      var m1 := ApplySignal(m);
      BackToBack(m1, n - 1);
      var asleep := Sleepers(m.waiters, m.runnable);
      if asleep != [] {
        WokeOne(m.runnable, m1.runnable, Signals(m, n).runnable, asleep, Min(n, |asleep|));
      }
    } else {
      WokeNone(m.runnable);
    }
  }

  /** Exactly these have become runnable. */
  predicate Woke(a: seq<bool>, b: seq<bool>, woken: seq<nat>) {
    |b| == |a| && forall t | 0 <= t < |a| :: b[t] <==> a[t] || t in woken
  }

  lemma WokeNone(a: seq<bool>)
    ensures forall s: seq<nat> {:trigger s[..0]} :: Woke(a, a, s[..0])
  {}

  lemma WokeOne(a: seq<bool>, a1: seq<bool>, b: seq<bool>, asleep: seq<nat>, k: nat)
    requires 0 < k <= |asleep| && asleep[0] < |a| && a1 == a[asleep[0] := true] && Woke(a1, b, asleep[1..][..k - 1])
    ensures Woke(a, b, asleep[..k])
  {
    assert asleep[..k] == [asleep[0]] + asleep[1..][..k - 1];
  }

  // ---- who leaves sem_wait runnable

  /** No task of the system is put to sleep by anything but this semaphore. */
  predicate Calm(step: Step) {
    step.Elsewhere? ==> step.run
  }

  /** Whoever takes the count is marked TASK_RUNNING when it does, in every calm run. */
  ghost predicate LeavesRunnable(m0: Sem) {
    forall steps: seq<Step>, m: Sem, t: nat
      | Run(m0, steps, m) && (forall i | 0 <= i < |steps| :: Calm(steps[i])) && Enabled(m, Try(t)) && m.count > 0
      :: t < |m.runnable| && m.runnable[t]
  }

  /** Only the tasks on the list sleep. */
  predicate Awake(m: Sem) {
    |m.runnable| == |m.pc| && forall t | 0 <= t < |m.pc| :: m.pc[t] != Looping(true) ==> m.runnable[t]
  }

  /** A waiter that is alone finds the count positive only after a signal has woken it. */
  lemma AloneRunnable(m: Sem, t: nat)
    requires Inv(m) && Awake(m) && |m.pc| <= 1 && t < |m.pc| && m.pc[t].Looping? && m.count > 0
    ensures m.runnable[t]
  {
    if m.pc[t] == Looping(true) {
      assert t in m.waiters;
      RunnableAll(m.waiters, m.runnable);
    }
  }

  lemma AwakeKept(m: Sem, step: Step)
    requires Inv(m) && Awake(m) && |m.pc| <= 1 && Enabled(m, step) && Calm(step)
    ensures Awake(Apply(m, step)) && |Apply(m, step).pc| == |m.pc|
  {
    if step.Try? && m.count > 0 {
      AloneRunnable(m, step.t);
    }
  }

  lemma {:induction false} AloneLeavesRunnable(m0: Sem, steps: seq<Step>, m: Sem, t: nat)
    requires Inv(m0) && Awake(m0) && |m0.pc| <= 1
    requires Run(m0, steps, m) && forall i | 0 <= i < |steps| :: Calm(steps[i])
    requires t < |m.pc| && m.pc[t].Looping? && m.count > 0
    ensures |m.pc| == |m.runnable| && m.runnable[t]
    decreases |steps|
  {
    hide Inv, Awake, Apply;
    if steps == [] {
      AloneRunnable(m, t);
      AwakeSized(m);
    } else {
      StepKeeps(m0, steps[0]);
      AwakeKept(m0, steps[0]);
      assert forall i | 0 <= i < |steps[1..]| :: steps[1..][i] == steps[i + 1];
      AloneLeavesRunnable(Apply(m0, steps[0]), steps[1..], m, t);
    }
  }

  lemma AloneAlways(m0: Sem)
    requires Inv(m0) && Awake(m0) && |m0.pc| <= 1
    ensures LeavesRunnable(m0)
  {
    hide Inv, Awake, Run, Calm;
    forall steps: seq<Step>, m: Sem, t: nat
      | Run(m0, steps, m) && (forall i | 0 <= i < |steps| :: Calm(steps[i])) && Enabled(m, Try(t)) && m.count > 0
      ensures t < |m.runnable| && m.runnable[t]
    {
      AloneLeavesRunnable(m0, steps, m, t);
    }
  }

  lemma AwakeSized(m: Sem)
    requires Awake(m)
    ensures |m.runnable| == |m.pc|
  {}

  /** Nobody waits and nobody sleeps. */
  predicate Quiet(m: Sem) {
    && Sized(m) && m.count >= 0 && m.waiters == []
    && forall t | 0 <= t < |m.pc| :: m.pc[t] == Outside && m.runnable[t]
  }

  ghost predicate Chain(m: Sem, step: Step, m': Sem) {
    Sized(m) && Enabled(m, step) && Calm(step) && m' == Apply(m, step)
  }

  /** Task 0 passes through while the count is positive. */
  lemma PassThrough(m: Sem) returns (m': Sem, m'': Sem)
    requires Quiet(m) && m.count > 0 && |m.pc| >= 1
    ensures Chain(m, Begin(0), m') && Chain(m', Try(0), m'')
    ensures Quiet(m'') && m''.count == m.count - 1 && |m''.pc| == |m.pc|
  {
    m' := Apply(m, Begin(0));
    m'' := Apply(m', Try(0));
  }

  lemma GoesToSleep(m: Sem, t: nat) returns (m': Sem, m'': Sem)
    requires Sized(m) && m.count == 0 && t < |m.pc| && m.pc[t] == Outside
    ensures Chain(m, Begin(t), m') && Chain(m', Try(t), m'')
    ensures Sized(m'') && m''.count == 0 && m''.waiters == m.waiters + [t]
    ensures m''.pc == m.pc[t := Looping(true)] && m''.runnable == m.runnable[t := false]
  {
    m' := Apply(m, Begin(t));
    m'' := Apply(m', Try(t));
  }

  /** Both tasks sleep and the signal marks the first: the second, whose schedule() comes back at once,
      finds the count positive and is still TASK_WAITING. */
  lemma SignalWakesFirst(m: Sem) returns (m': Sem)
    requires Sized(m) && m.count == 0 && m.waiters == [0, 1] && |m.pc| >= 2
    requires m.pc[1] == Looping(true) && !m.runnable[0] && !m.runnable[1]
    ensures Chain(m, Signal, m') && Sized(m') && m'.count == 1 && m'.pc == m.pc && !m'.runnable[1]
  {
    assert m.waiters[0] == 0;
    m' := Apply(m, Signal);
  }

  /** A calm run from `m` to a task that takes the count while it is marked TASK_WAITING. */
  ghost predicate Escape(m: Sem, steps: seq<Step>, m': Sem, t: nat) {
    && Run(m, steps, m') && (forall i | 0 <= i < |steps| :: Calm(steps[i]))
    && t < |m'.pc| && |m'.pc| == |m'.runnable| && m'.pc[t].Looping? && m'.count > 0 && !m'.runnable[t]
  }

  lemma EscapeLater(m: Sem, step: Step, m1: Sem, steps: seq<Step>, m': Sem, t: nat)
    requires Chain(m, step, m1) && Escape(m1, steps, m', t)
    ensures Escape(m, [step] + steps, m', t)
  {
    hide Apply;
    assert ([step] + steps)[1..] == steps;
  }

  /** With two tasks there is always such a run: the count is used up first. */
  lemma {:induction false} TwoEscape(m: Sem) returns (steps: seq<Step>, m': Sem)
    requires Quiet(m) && |m.pc| >= 2
    ensures Escape(m, steps, m', 1)
    decreases m.count
  {
    hide Chain, Escape;
    if m.count > 0 {
      var m1, m2 := PassThrough(m);
      steps, m' := TwoEscape(m2);
      EscapeLater(m1, Try(0), m2, steps, m', 1);
      EscapeLater(m, Begin(0), m1, [Try(0)] + steps, m', 1);
      steps := [Begin(0)] + ([Try(0)] + steps);
    } else {
      var m1, m2 := GoesToSleep(m, 0);
      var m3, m4 := GoesToSleep(m2, 1);
      m' := SignalWakesFirst(m4);
      EscapeNow(m');
      EscapeLater(m4, Signal, m', [], m', 1);
      EscapeLater(m3, Try(1), m4, [Signal] + [], m', 1);
      EscapeLater(m2, Begin(1), m3, [Try(1)] + ([Signal] + []), m', 1);
      EscapeLater(m1, Try(0), m2, [Begin(1)] + ([Try(1)] + ([Signal] + [])), m', 1);
      EscapeLater(m, Begin(0), m1, [Try(0)] + ([Begin(1)] + ([Try(1)] + ([Signal] + []))), m', 1);
      steps := [Begin(0)] + ([Try(0)] + ([Begin(1)] + ([Try(1)] + ([Signal] + []))));
    }
  }

  lemma EscapeRefutes(m0: Sem, steps: seq<Step>, m: Sem, t: nat)
    requires Escape(m0, steps, m, t)
    ensures !LeavesRunnable(m0)
  {
    hide Run;
    assert Enabled(m, Try(t));
  }

  lemma EscapeNow(m: Sem)
    requires 1 < |m.pc| && |m.pc| == |m.runnable| && m.pc[1].Looping? && m.count > 0 && !m.runnable[1]
    ensures Escape(m, [], m, 1)
  {}

  lemma FreshMeans(m0: Sem, count: nat)
    requires Fresh(m0, count) && forall t | 0 <= t < |m0.pc| :: m0.runnable[t]
    ensures Inv(m0) && Awake(m0) && Quiet(m0)
  {}

  /**
   * sem_signal marks the first sleeper, but whoever finds the count positive takes it. So a task can leave
   * sem_wait still marked TASK_WAITING; that this never happens, whatever the initial count, takes exactly
   * that no two tasks use the semaphore.
   */
  lemma LeavesWaiting(m0: Sem, count: nat)
    requires Fresh(m0, count) && forall t | 0 <= t < |m0.pc| :: m0.runnable[t]
    ensures LeavesRunnable(m0) <==> |m0.pc| <= 1
  {
    FreshMeans(m0, count);
    hide *;
    if |m0.pc| <= 1 {
      AloneAlways(m0);
    } else {
      var steps, m := TwoEscape(m0);
      EscapeRefutes(m0, steps, m, 1);
    }
  }

  lemma InvMeans(m: Sem, t: nat)
    requires Inv(m) && t < |m.pc|
    ensures Sized(m) && (t in m.waiters <==> m.pc[t] == Looping(true))
  {}

  // ---- the semaphore as it runs: each method is one region under sem->lock

  class Semaphore {
    var count: int
    var waiters: seq<nat>
    var runnable: seq<bool>
    var pc: seq<WaitState>
    ghost var initial: int
    ghost var signals: nat
    ghost var completed: nat
    ghost var joined: seq<nat>
    ghost var clock: nat

    ghost function View(): Sem
      reads this
    {
      Sem(count, waiters, runnable, pc, initial, signals, completed, joined, clock)
    }

    /** sem_init, in a system of `n` tasks. */
    constructor (c: nat, n: nat)
      ensures Fresh(View(), c) && Inv(View()) && |pc| == n
    {
      count, waiters := c, [];
      runnable, pc := seq(n, _ => true), seq(n, _ => Outside);
      initial, signals, completed, clock := c, 0, 0, 0;
      joined := seq(n, _ => 0);
    }

    /** One pass through the loop of sem_wait by task `t`; false when it goes to sleep. */
    method TryWait(t: nat) returns (got: bool)
      requires Inv(View()) && t < |pc| && pc[t].Looping?
      modifies this
      ensures View() == ApplyTry(old(View()), t) && Inv(View())
      ensures got <==> old(count) > 0
    {
      hide Inv, Without;
      InvMeans(View(), t);
      StepKeeps(View(), Try(t));
      if count > 0 {
        count := count - 1;
        if pc[t].inList {
          Unlink(t);
        }
        completed := completed + 1;
        pc := pc[t := Outside];
        return true;
      }
      if !pc[t].inList {
        waiters := waiters + [t];
        joined, clock := joined[t := clock], clock + 1;
      }
      pc := pc[t := Looping(true)];
      runnable := runnable[t := false];
      got := false;
    }

    /** list_del(&node.entry) */
    method Unlink(t: nat)
      requires t in waiters
      modifies this`waiters
      ensures waiters == Without(old(waiters), t)
    {
      var i := 0;
      while waiters[i] != t
        modifies {}
        invariant 0 <= i < |waiters|
        invariant forall j | 0 <= j < i :: waiters[j] != t
        decreases |waiters| - i
      {
        FoundLater(waiters, t, i);
        i := i + 1;
      }
      WithoutAt(waiters, t, i);
      waiters := waiters[..i] + waiters[i + 1..];
    }

    /** sem_signal */
    method Signal()
      requires Inv(View())
      modifies this
      ensures View() == ApplySignal(old(View())) && Inv(View())
    {
      StepKeeps(View(), Step.Signal);
      count := count + 1;
      signals := signals + 1;
      var i := 0;
      while i < |waiters| && runnable[waiters[i]]
        invariant 0 <= i <= |waiters|
        invariant FirstAsleep(waiters, runnable) == FirstAsleep(waiters, runnable, i)
      {
        i := i + 1;
      }
      if i < |waiters| {
        runnable := runnable[waiters[i] := true];
      }
    }
  }

  lemma FoundLater(w: seq<nat>, t: nat, i: nat)
    requires t in w && i < |w| && w[i] != t && forall j | 0 <= j < i :: w[j] != t
    ensures i + 1 < |w|
  {
    var k :| 0 <= k < |w| && w[k] == t;
  }
}
