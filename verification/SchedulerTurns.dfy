/** How two tasks come to take turns on one core, and why every waiting task is then taken in the end. */
module SchedulingTurns {
  import opened Basics
  import opened Scheduling
  import opened SchedulingProofs
  import opened SchedulingRuns
  import opened SchedulingFates
  import opened SchedulingRecovery

  // ---- from any point of a core's work to its next choice

  /** How far core `c` is from its next choice. */
  function Distance(t: Task): nat {
    match Top(t)
    case None => if t.exit == NotLeaving then 1 else if t.exit == IdleCurrent then 3 else 4
    case Some(Entered) => 0
    case Some(Leaving) => if t.exit == NotLeaving then 2 else 5
    case Some(Switching(_)) => 3
    case Some(Claimed(_)) => 4
    case Some(Parked) => 0
  }

  /** The step a core takes there. */
  function Onward(s: State, c: nat): Step
    requires Sane(s) && c < |s.cores|
  {
    var t := Thread(s, c);
    match Top(t)
    case None => if t.exit == NotLeaving then Enter(c) else if t.exit ==
      IdleCurrent then SwitchToIdle(c) else SetIdle(c)
    case Some(Leaving) => Leave(c)
    case Some(Switching(_)) => SwitchOut(c)
    case Some(Claimed(_)) => SetCurrent(c)
    case _ => Tick(c)
  }

  lemma OnwardEnabled(s: State, c: nat)
    requires Inv(s) && c < |s.cores| && !Enabled(s, Pick(c))
    ensures Enabled(s, Onward(s, c)) && Closed(Onward(s, c)) && !Onward(s, c).Pick? && Onward(s, c).c == c
    ensures !Onward(s, c).Tick?
  {
    assert CoreOk(s, c) && TaskOk(Thread(s, c), s.cores[c].thread, |s.cores|);
  }

  lemma BaseNears(s: State, c: nat)
    requires Inv(s) && c < |s.cores| && Enabled(s, Onward(s, c)) && (Onward(s, c).Enter? || Onward(s, c).Leave?)
    ensures var s' := Apply(s, Onward(s, c)); |s'.cores| == |s.cores| && s'.cores[c].thread < |s'.tasks|
    ensures var s' := Apply(s, Onward(s, c)); Distance(s'.tasks[s'.cores[c].thread]) < Distance(Thread(s, c))
  {
    assert CoreOk(s, c) && TaskOk(Thread(s, c), s.cores[c].thread, |s.cores|);
    assert TaskOk(Current(s, c), s.cores[c].current, |s.cores|) && TaskOk(s.tasks[c], c, |s.cores|);
  }

  lemma SwitchNears(s: State, c: nat)
    requires Inv(s) && c < |s.cores| && Enabled(s, Onward(s, c))
    requires Onward(s, c).SetCurrent? || Onward(s, c).SwitchOut?
    ensures var s' := Apply(s, Onward(s, c)); |s'.cores| == |s.cores| && s'.cores[c].thread < |s'.tasks|
    ensures var s' := Apply(s, Onward(s, c)); Distance(s'.tasks[s'.cores[c].thread]) < Distance(Thread(s, c))
  {
    assert CoreOk(s, c) && TaskOk(Thread(s, c), s.cores[c].thread, |s.cores|);
    assert TaskOk(Current(s, c), s.cores[c].current, |s.cores|) && TaskOk(s.tasks[c], c, |s.cores|);
  }

  lemma IdleNears(s: State, c: nat)
    requires Inv(s) && c < |s.cores| && Enabled(s, Onward(s, c))
    requires Onward(s, c).SetIdle? || Onward(s, c).SwitchToIdle?
    ensures var s' := Apply(s, Onward(s, c)); |s'.cores| == |s.cores| && s'.cores[c].thread < |s'.tasks|
    ensures var s' := Apply(s, Onward(s, c)); Distance(s'.tasks[s'.cores[c].thread]) < Distance(Thread(s, c))
  {
    assert CoreOk(s, c) && TaskOk(Thread(s, c), s.cores[c].thread, |s.cores|);
    assert TaskOk(Current(s, c), s.cores[c].current, |s.cores|) && TaskOk(s.tasks[c], c, |s.cores|);
  }

  lemma OnwardNears(s: State, c: nat)
    requires Inv(s) && c < |s.cores| && !Enabled(s, Pick(c)) && Enabled(s, Onward(s, c)) && !Onward(s, c).Tick?
    ensures var s' := Apply(s, Onward(s, c));
      Sane(s') && c < |s'.cores| && Distance(Thread(s', c)) < Distance(Thread(s, c))
  {
    hide Enabled, Apply, Distance;
    StepKeeps(s, Onward(s, c));
    match Onward(s, c) {
      case Enter(_) => BaseNears(s, c);
      case Leave(_) => BaseNears(s, c);
      case SetIdle(_) => IdleNears(s, c);
      case SwitchToIdle(_) => IdleNears(s, c);
      case _ => SwitchNears(s, c);
    }
  }

  lemma {:induction false} ToChoice(s: State, c: nat) returns (s': State)
    requires Inv(s) && c < |s.cores|
    ensures Leads(s, s') && OffKept(s, s') && Sane(s') && Enabled(s', Pick(c))
    decreases Distance(Thread(s, c))
  {
    InvSane(s);
    hide Inv, Enabled, Apply, Distance, Sane, Leads;
    if Enabled(s, Pick(c)) {
      s' := s;
      LeadsNone(s);
    } else {
      var step := Onward(s, c);
      OnwardEnabled(s, c);
      OnwardNears(s, c);
      StepRest(s, step);
      LeadsStep(s, step);
      StepKeeps(s, step);
      var s1 := Apply(s, step);
      s' := ToChoice(s1, c);
      LeadsThen(s, s1, s');
      OffKeptThen(s, s1, s');
    }
  }

  // ---- one task gives way to another

  /** Core `c` executes the listed task `y` outside _schedule. */
  predicate AtWork(s: State, c: nat, y: nat) {
    && c < |s.cores| && s.cores[c] == Core(y, y) && Listed(s, y)
    && s.tasks[y].state == Running && s.tasks[y].sched == [] && s.tasks[y].exit == NotLeaving && s.tasks[y].onCpu == c
  }

  function Parking(r: Task): Task { r.(onCpu := -1, sched := [Parked]) }

  lemma MakeCurrent(s: State, c: nat, n: nat) returns (s': State)
    requires Inv(s) && c < |s.cores| && Thread(s, c).sched == [Claimed(n)]
    ensures Leads(s, s') && Sane(s') && c < |s'.cores| == |s.cores| && s'.cores[c] == Core(n, s.cores[c].thread)
    ensures |s'.tasks| == |s.tasks| && Thread(s', c) == Thread(s, c).(sched := [Switching(n)])
    ensures RestKept(s, s', s.cores[c].thread, s.cores[c].thread)
  {
    assert CoreOk(s, c);
    hide Inv, Leads;
    LeadsStep(s, SetCurrent(c));
    s' := Apply(s, SetCurrent(c));
    assert AtPhase(Thread(s, c), Switching(n)).sched == [Switching(n)];
  }

  lemma SwitchOver(s: State, c: nat, n: nat) returns (s': State)
    requires Inv(s) && c < |s.cores| && Thread(s, c).sched == [Switching(n)]
    ensures Leads(s, s') && Sane(s') && AtWork(s', c, n) && n != s.cores[c].thread
    ensures RestKept(s, s', s.cores[c].thread, n) && s'.tasks[s.cores[c].thread] == Parking(Thread(s, c))
  {
    hide Inv, Leads, Apply, Enabled;
    var s1 := StackOver(s, c, n);
    LeadsInv(s, s1);
    s' := ComeBack(s1, c, n);
    LeadsThen(s, s1, s');
  }

  lemma StackOver(s: State, c: nat, n: nat) returns (s': State)
    requires Inv(s) && c < |s.cores| && Thread(s, c).sched == [Switching(n)]
    ensures Leads(s, s') && Sane(s') && c < |s'.cores| && s'.cores[c] == Core(n, n) && Listed(s', n)
    ensures n != s.cores[c].thread && s'.tasks[n] == s.tasks[n].(sched := [Leaving])
    ensures s.tasks[n].state == Running && s.tasks[n].exit == NotLeaving && s.tasks[n].onCpu == c
    ensures RestKept(s, s', s.cores[c].thread, n) && s'.tasks[s.cores[c].thread] == Parking(Thread(s, c))
  {
    assert CoreOk(s, c) && TaskOk(s.tasks[s.cores[c].current], s.cores[c].current, |s.cores|);
    hide Inv, Leads;
    LeadsStep(s, SwitchOut(c));
    s' := Apply(s, SwitchOut(c));
    assert AtPhase(Thread(s, c), Parked).sched == [Parked] && s'.tasks[n].sched == [Leaving];
  }

  lemma ComeBack(s: State, c: nat, n: nat) returns (s': State)
    requires Inv(s) && c < |s.cores| && s.cores[c] == Core(n, n) && Listed(s, n) && s.tasks[n].sched == [Leaving]
    requires s.tasks[n].state == Running && s.tasks[n].exit == NotLeaving && s.tasks[n].onCpu == c
    ensures Leads(s, s') && Sane(s') && AtWork(s', c, n) && RestKept(s, s', n, n)
    ensures forall e | 0 <= e < |s.tasks| && e != n :: s'.tasks[e] == s.tasks[e]
  {
    InvSane(s);
    hide Inv, Leads;
    LeadsStep(s, Leave(c));
    s' := Apply(s, Leave(c));
  }

  lemma LeadsInv(s: State, s': State)
    requires Leads(s, s')
    ensures Inv(s) && Inv(s') && Sane(s) && Sane(s')
  {}

  /** A switch that has been started is finished: the claimed task works, the other one is off-cpu. */
  lemma Finish(s: State, c: nat, n: nat) returns (s': State)
    requires Inv(s) && c < |s.cores| && Target(s, c) == Some(n)
    ensures Leads(s, s') && Sane(s') && AtWork(s', c, n) && n != s.cores[c].thread
    ensures RestKept(s, s', s.cores[c].thread, n) && s'.tasks[s.cores[c].thread] == Parking(Thread(s, c))
  {
    var e := s.cores[c].thread;
    assert CoreOk(s, c) && TaskOk(Thread(s, c), e, |s.cores|);
    hide Inv, Leads, AtWork;
    if Thread(s, c).sched == [Claimed(n)] {
      var s1 := MakeCurrent(s, c, n);
      LeadsInv(s, s1);
      s' := SwitchOver(s1, c, n);
      LeadsThen(s, s1, s');
    } else {
      assert Thread(s, c).sched == [Switching(n)];
      s' := SwitchOver(s, c, n);
    }
  }

  /** A choice that finds somebody, up to the point where that task works. */
  lemma GiveWay(s: State, c: nat) returns (s': State, b: nat)
    requires Inv(s) && Enabled(s, Pick(c)) && SomeReady(s)
    ensures Leads(s, s') && Sane(s') && AtWork(s', c, b) && Listed(s, b) && b != s.cores[c].thread
    ensures |s'.cores| == |s.cores| && |s'.tasks| == |s.tasks| && |s.cores| <= |s.tasks|
    ensures s.cores[c].thread < |s.tasks|
    ensures var ts, e := Select(s.tasks, |s.cores|).0, s.cores[c].thread;
      && Select(s.tasks, |s.cores|).1 == Some(b)
      && s'.tasks[e] == Parking(ts[e])
      && forall k | Listed(s, k) && k != e && k != b :: s'.tasks[k] == ts[k]
  {
    hide Inv, Leads, Enabled, Apply, AtWork, Select, SomeReady, Target, Recharge, SomeReadyZero;
    InvSane(s);
    ChoiceIs(s, c);
    ChoiceRecords(s, c);
    AtChoice(s, c);
    LeadsStep(s, Pick(c));
    var s1 := Apply(s, Pick(c));
    LeadsInv(s, s1);
    b := Select(s.tasks, |s.cores|).1.value;
    TargetIs(s1, c, b);
    s' := Finish(s1, c, b);
    LeadsThen(s, s1, s');
  }

  lemma TargetIs(s: State, c: nat, n: nat)
    requires Sane(s) && c < |s.cores| && Thread(s, c).sched == [Claimed(n)]
    ensures Target(s, c) == Some(n)
  {}

  /** A working task gives up its slice and comes to its choice. */
  lemma YieldToChoice(s: State, c: nat, y: nat) returns (s': State)
    requires Inv(s) && AtWork(s, c, y)
    ensures Leads(s, s') && Sane(s') && Enabled(s', Pick(c)) && RestKept(s, s', y, y) && s'.cores == s.cores
    ensures s'.tasks[y].counter == 0 && s'.tasks[y].state == Running
  {
    hide Inv, Leads;
    InvSane(s);
    LeadsStep(s, Yield(c));
    var s1 := Apply(s, Yield(c));
    LeadsInv(s, s1);
    LeadsStep(s1, Enter(c));
    s' := Apply(s1, Enter(c));
    assert s'.tasks[y].sched == [Entered];
    LeadsThen(s, s1, s');
  }

  // ---- two tasks that take turns on one core bring every counter up

  /** How far a counter is from being positive, in recharges at most. */
  function Deficit(t: Task): nat { if t.counter > 0 then 0 else 1 - t.counter }

  /** The listed tasks a choice would take without recharging. */
  function Fresh(s: State): set<nat> {
    set i | |s.cores| <= i < |s.tasks| && Eligible(s.tasks[i]) && s.tasks[i].counter > 0
  }

  /** A recharge has lifted the counter of `t`, or there are fewer tasks to be taken before the next one. */
  predicate Nearer(s: State, s': State, t: nat)
    requires t < |s.tasks| && t < |s'.tasks|
  {
    || Deficit(s'.tasks[t]) < Deficit(s.tasks[t])
    || (Deficit(s'.tasks[t]) == Deficit(s.tasks[t]) && Fresh(s') < Fresh(s))
  }

  lemma RechargeLifts(r: Task)
    requires r.priority >= 1 && r.counter <= 0
    ensures Recharged(r).counter > r.counter && Deficit(Recharged(r)) < Deficit(r)
  {}

  /** One turn: the working task parks with counter 0 or recharged, and another works. */
  lemma Turn(s: State, c: nat, y: nat, t: nat) returns (s': State, b: nat)
    requires Inv(s) && AtWork(s, c, y) && SomeReady(s) && Listed(s, t) && s.tasks[t].state == Running
    requires s.tasks[t].onCpu == -1
    ensures Leads(s, s') && Sane(s') && AtWork(s', c, b) && SomeReady(s') && |s'.cores| == |s.cores|
    ensures |s'.tasks| == |s.tasks|
    ensures b != t ==> s'.tasks[t].state == Running && s'.tasks[t].onCpu == -1
    ensures b != t ==> Nearer(s, s', t)
  {
    InvSane(s);
    hide Inv, Leads, Enabled, Apply, Select, SomeReady;
    var s1 := YieldToChoice(s, c, y);
    LeadsInv(s, s1);
    ReadyStays(s, s1, c, y);
    s', b := GiveWay(s1, c);
    LeadsThen(s, s1, s');
    TurnReady(s1, s', c, y);
    if b != t {
      TurnMeasure(s, s1, s', c, y, b, t);
    }
  }

  lemma ReadyStays(s: State, s': State, c: nat, y: nat)
    requires AtWork(s, c, y) && SomeReady(s) && RestKept(s, s', y, y)
    ensures SomeReady(s')
  {
    var i :| Listed(s, i) && Eligible(s.tasks[i]);
    assert Listed(s', i) && Eligible(s'.tasks[i]);
  }

  /** What a choice on these records makes of a listed task that it leaves off-cpu. */
  lemma ChoiceOf(s: State, c: nat, i: nat)
    requires Inv(s) && Enabled(s, Pick(c)) && Listed(s, i)
    ensures |s.cores| <= |s.tasks|
    ensures var (ts, next) := Select(s.tasks, |s.cores|);
      && ts[i] == s.tasks[i].(counter := ts[i].counter) && s.tasks[i].priority >= 1
      && (s.tasks[i].counter >= 0 ==> ts[i].counter >= 0)
      && (ts != s.tasks ==> ts[i] == Recharged(s.tasks[i]) && (Eligible(s.tasks[i]) ==> s.tasks[i].counter <= 0))
      && (next.Some? && ts == s.tasks ==> s.tasks[next.value].counter > 0)
  {
    PrioritiesPositive(s);
    SelectIs(s.tasks, |s.cores|);
    ScanIsBest(s.tasks, |s.cores|, |s.tasks|);
  }

  lemma TurnReady(s1: State, s': State, c: nat, y: nat)
    requires Inv(s1) && Enabled(s1, Pick(c)) && Listed(s1, y) && Listed(s', y) && s1.tasks[y].state == Running
    requires s1.tasks[y].counter >= 0
    requires |s1.cores| <= |s1.tasks| && s'.tasks[y] == Parking(Select(s1.tasks, |s1.cores|).0[y])
    ensures SomeReady(s')
  {
    ChoiceOf(s1, c, y);
    assert Eligible(s'.tasks[y]);
  }

  lemma TurnMeasure(s: State, s1: State, s': State, c: nat, y: nat, b: nat, t: nat)
    requires AtWork(s, c, y) && RestKept(s, s1, y, y) && Inv(s1) && Enabled(s1, Pick(c))
    requires s1.tasks[y].counter == 0 && b != t && y != t && b != y
    requires Listed(s, t) && Listed(s, b) && s.tasks[t].state == Running && s.tasks[t].onCpu == -1
    requires |s'.cores| == |s.cores| && |s'.tasks| == |s.tasks| && |s.cores| <= |s.tasks|
    requires var ts := Select(s1.tasks, |s1.cores|).0;
      && Select(s1.tasks, |s1.cores|).1 == Some(b)
      && s'.tasks[y] == Parking(ts[y]) && s'.tasks[b].onCpu != -1
      && forall k | Listed(s, k) && k != y && k != b :: s'.tasks[k] == ts[k]
    ensures s'.tasks[t].state == Running && s'.tasks[t].onCpu == -1
    ensures Nearer(s, s', t)
  {
    var ts := Select(s1.tasks, |s1.cores|).0;
    ChoiceOf(s1, c, t);
    ChoiceIs(s1, c);
    if ts == s1.tasks {
      FreshLess(s, s1, s', y, b, c);
    } else {
      RechargeLifts(s1.tasks[t]);
    }
  }

  lemma FreshLess(s: State, s1: State, s': State, y: nat, b: nat, c: nat)
    requires RestKept(s, s1, y, y) && Listed(s, b) && b != y && Eligible(s1.tasks[b]) && s1.tasks[b].counter > 0
    requires |s'.cores| == |s.cores| && |s'.tasks| == |s.tasks| && Listed(s, y)
    requires s1.tasks[y].counter == 0 && s'.tasks[y] == Parking(s1.tasks[y]) && s'.tasks[b].onCpu != -1
    requires forall k | Listed(s, k) && k != y && k != b :: s'.tasks[k] == s1.tasks[k]
    ensures Fresh(s') < Fresh(s)
  {
    assert b in Fresh(s) && b !in Fresh(s');
    forall i | i in Fresh(s') ensures i in Fresh(s) {
      assert Listed(s, i) && i != y && i != b;
      assert s'.tasks[i] == s1.tasks[i] == s.tasks[i];
    }
  }

  /** Whoever is RUNNING and off-cpu is taken in the end. */
  lemma {:induction false} TurnsRecover(s: State, c: nat, y: nat, t: nat)
    requires Inv(s) && AtWork(s, c, y) && SomeReady(s) && Listed(s, t) && s.tasks[t].state == Running
    requires s.tasks[t].onCpu == -1
    ensures Recovers(s, t)
    decreases Deficit(s.tasks[t]), |Fresh(s)|
  {
    hide Inv, Leads, SomeReady, Fresh;
    var s', b := Turn(s, c, y, t);
    LeadsInv(s, s');
    if b == t {
      assert s'.tasks[t].onCpu == c;
    } else {
      if Fresh(s') < Fresh(s) {
        FewerFresh(Fresh(s'), Fresh(s));
      }
      TurnsRecover(s', c, b, t);
      RecoversLater(s, s', t);
    }
  }

  lemma FewerFresh(a: set<nat>, b: set<nat>)
    requires a < b
    ensures |a| < |b|
  {
    assert b == a + (b - a) && |b - a| > 0;
  }

  // ---- how each case of Alternates comes to taking turns

  /** `t` waits, RUNNING and off-cpu. */
  predicate Waits(s: State, t: nat) { Listed(s, t) && s.tasks[t].state == Running && s.tasks[t].onCpu == -1 }

  /** After a choice: it took `t`, or the task it took works, and `t` still waits. */
  lemma ThenTurns(s: State, c: nat, s': State, b: nat, t: nat)
    requires Leads(s, s') && Sane(s') && AtWork(s', c, b) && t < |s'.tasks|
    requires b != t ==> SomeReady(s') && Waits(s', t)
    ensures Recovers(s, t)
  {
    hide Leads, SomeReady;
    LeadsInv(s, s');
    if b != t {
      hide AtWork;
      TurnsRecover(s', c, b, t);
      RecoversLater(s, s', t);
    }
  }

  /** A choice that leaves somebody ready. */
  lemma ChoiceRecovers(s: State, c: nat, t: nat, i: nat, j: nat)
    requires Inv(s) && Enabled(s, Pick(c)) && SomeReady(s) && Waits(s, t) && |s.cores| <= |s.tasks|
    requires Listed(s, i) && Listed(s, j) && i != j
    requires s.tasks[i].state == Running && (s.tasks[i].onCpu == -1 || i == s.cores[c].thread)
    requires s.tasks[j].state == Running && (s.tasks[j].onCpu == -1 || j == s.cores[c].thread)
    requires Select(s.tasks, |s.cores|).0[i].counter >= 0 && Select(s.tasks, |s.cores|).0[j].counter >= 0
    ensures Recovers(s, t)
  {
    ChoiceOf(s, c, i);
    ChoiceOf(s, c, j);
    ChoiceOf(s, c, t);
    AtChoice(s, c);
    hide Inv, Leads, Enabled, Select, AtWork, SomeReady;
    var s', b := GiveWay(s, c);
    var k := if b == i then j else i;
    ReadyHere(s', k);
    ThenTurns(s, c, s', b, t);
  }

  lemma ReadyHere(s: State, i: nat)
    requires Listed(s, i)
    ensures Eligible(s.tasks[i]) ==> SomeReady(s)
  {}

  lemma TwoRecover(s: State, t: nat)
    requires Inv(s) && TwoReady(s) && Waits(s, t)
    ensures Recovers(s, t)
  {
    InvSane(s);
    var s' := ToChoice(s, 0);
    LeadsInv(s, s');
    var i, j :| Listed(s, i) && Listed(s, j) && i != j && Eligible(s.tasks[i]) && Eligible(s.tasks[j]);
    hide Inv, Leads, Enabled, Select;
    ReadyHere(s', i);
    ChoiceOf(s', 0, i);
    ChoiceOf(s', 0, j);
    ChoiceRecovers(s', 0, t, i, j);
    RecoversLater(s, s', t);
  }

  lemma ReadyRecovers(s: State, t: nat)
    requires Inv(s) && Waits(s, t) && Eligible(s.tasks[t])
    ensures Recovers(s, t)
  {
    InvSane(s);
    var s' := ToChoice(s, 0);
    LeadsInv(s, s');
    hide Inv, Leads, Enabled, Select, AtWork, SomeReady;
    ReadyHere(s', t);
    ChoiceOf(s', 0, t);
    AtChoice(s', 0);
    var s2, b := GiveWay(s', 0);
    ReadyHere(s2, t);
    ThenTurns(s', 0, s2, b, t);
    RecoversLater(s, s', t);
  }

  /** A task that parks with a counter of at least 0 is ready, and the one it gave way to works. */
  lemma PassingRecovers(s: State, t: nat)
    requires Inv(s) && SomePassing(s) && Waits(s, t)
    ensures Recovers(s, t)
  {
    var i :| Listed(s, i) && Passing(s.tasks[i]);
    var c, n := PassingCore(s, i);
    var s' := Finish(s, c, n);
    hide Inv, Leads, AtWork;
    assert Eligible(s'.tasks[i]);
    ReadyHere(s', i);
    ThenTurns(s, c, s', n, t);
  }

  lemma PassingCore(s: State, i: nat) returns (c: nat, n: nat)
    requires Inv(s) && Listed(s, i) && Passing(s.tasks[i])
    ensures Sane(s) && c < |s.cores| && s.cores[c].thread == i && Target(s, c) == Some(n)
  {
    assert Placed(s, i) && TaskOk(s.tasks[i], i, |s.cores|);
    c := s.tasks[i].onCpu;
    n := Top(s.tasks[i]).value.next;
  }

  /** A listed RUNNING task on a core: executing, or the core is switching. */
  lemma WorkingCore(s: State, i: nat) returns (c: nat)
    requires Inv(s) && Listed(s, i) && Working(s.tasks[i])
    ensures Sane(s) && c < |s.cores|
    ensures Target(s, c).Some? || (s.cores[c] == Core(i, i) && s.tasks[i].exit == NotLeaving && s.tasks[i].onCpu == c
      && (s.tasks[i].sched in {[], [Leaving]} || (Enabled(s, Pick(c)) && s.tasks[i].counter >= 0)))
  {
    assert Placed(s, i) && TaskOk(s.tasks[i], i, |s.cores|);
    c := s.tasks[i].onCpu;
    assert CoreOk(s, c);
    if Target(s, c).None? && s.tasks[i].sched != [] {
      assert s.tasks[i].sched == [s.tasks[i].sched[0]];
    }
  }

  lemma WorkingRecovers(s: State, t: nat)
    requires Inv(s) && SomeReady(s) && SomeWorking(s) && Waits(s, t)
    ensures Recovers(s, t)
  {
    var i :| Listed(s, i) && Working(s.tasks[i]);
    var c := WorkingCore(s, i);
    var r :| Listed(s, r) && Eligible(s.tasks[r]);
    hide Inv, Leads, AtWork, SomeReady;
    ReadyHere(s, r);
    if Target(s, c).Some? {
      hide Target, Enabled;
      SwitchRecovers(s, c, Target(s, c).value, r, t);
    } else if s.tasks[i].sched == [] {
      AtBaseRecovers(s, c, i, t);
    } else if s.tasks[i].sched == [Leaving] {
      hide Target, Enabled;
      LeavingRecovers(s, c, i, r, t);
    } else {
      hide Target, Enabled, Select;
      ChoiceOf(s, c, i);
      ChoiceOf(s, c, r);
      ChoiceRecovers(s, c, t, i, r);
    }
  }

  lemma AtBaseRecovers(s: State, c: nat, i: nat, t: nat)
    requires Inv(s) && Sane(s) && c < |s.cores| && Listed(s, i) && Working(s.tasks[i]) && s.cores[c] == Core(i, i)
    requires s.tasks[i].exit == NotLeaving && s.tasks[i].onCpu == c && s.tasks[i].sched == [] && SomeReady(s)
    requires Waits(s, t)
    ensures Recovers(s, t)
  {
    hide Inv, SomeReady;
    TurnsRecover(s, c, i, t);
  }

  lemma LeavingRecovers(s: State, c: nat, i: nat, r: nat, t: nat)
    requires Inv(s) && Sane(s) && c < |s.cores| && Listed(s, i) && Working(s.tasks[i]) && s.cores[c] == Core(i, i)
    requires s.tasks[i].exit == NotLeaving && s.tasks[i].onCpu == c && s.tasks[i].sched == [Leaving] && Waits(s, t)
    requires Listed(s, r) && Eligible(s.tasks[r])
    ensures Recovers(s, t)
  {
    hide Inv, Leads, AtWork;
    var s' := ComeBack(s, c, i);
    ReadyHere(s', r);
    ThenTurns(s, c, s', i, t);
  }

  lemma SwitchRecovers(s: State, c: nat, n: nat, r: nat, t: nat)
    requires Inv(s) && Sane(s) && c < |s.cores| && Target(s, c) == Some(n) && Waits(s, t) && Listed(s, r)
    requires Eligible(s.tasks[r])
    ensures Recovers(s, t)
  {
    assert CoreOk(s, c);
    hide Inv, Leads, AtWork;
    var s' := Finish(s, c, n);
    ReadyHere(s', r);
    ThenTurns(s, c, s', n, t);
  }

  /** The only ready task has counter 0: the choice recharges, and lifts another one. */
  lemma LiftedRecovers(s: State, c: nat, r: nat, w: nat, t: nat)
    requires Inv(s) && Enabled(s, Pick(c)) && !TwoReady(s) && Waits(s, t)
    requires Listed(s, r) && Eligible(s.tasks[r]) && s.tasks[r].counter == 0
    requires Listed(s, w) && Liftable(s.tasks[w]) && (s.tasks[w].onCpu == -1 || w == s.cores[c].thread)
    ensures Recovers(s, t)
  {
    OnlyZero(s, r);
    ChoiceOf(s, c, r);
    ChoiceOf(s, c, w);
    hide Inv, Select, Enabled;
    ReadyHere(s, r);
    ChoiceRecovers(s, c, t, r, w);
  }

  lemma OnlyZero(s: State, r: nat)
    requires Inv(s) && !TwoReady(s) && Listed(s, r) && Eligible(s.tasks[r]) && s.tasks[r].counter == 0
    ensures |s.cores| <= |s.tasks| && Select(s.tasks, |s.cores|).0 != s.tasks
  {
    PrioritiesPositive(s);
    ScanIsBest(s.tasks, |s.cores|, |s.tasks|);
    var best := Scan(s.tasks, |s.cores|, |s.tasks|);
    assert best == Some(r);
    assert Recharge(s.tasks, |s.cores|)[r].counter != s.tasks[r].counter;
  }

  lemma LiftableRecovers(s: State, t: nat)
    requires Inv(s) && SomeReadyZero(s) && SomeLiftable(s) && Waits(s, t)
    ensures Recovers(s, t)
  {
    var r :| Listed(s, r) && Eligible(s.tasks[r]) && s.tasks[r].counter == 0;
    var w :| Listed(s, w) && Liftable(s.tasks[w]);
    if TwoReady(s) {
      TwoRecover(s, t);
    } else if s.tasks[w].onCpu != -1 {
      var c := EnteredCore(s, w);
      LiftedRecovers(s, c, r, w, t);
    } else {
      InvSane(s);
      var s' := ToChoice(s, 0);
      LeadsInv(s, s');
      hide Inv, Leads, Enabled;
      if TwoReady(s') {
        TwoRecover(s', t);
      } else {
        LiftedRecovers(s', 0, r, w, t);
      }
      RecoversLater(s, s', t);
    }
  }

  lemma EnteredCore(s: State, w: nat) returns (c: nat)
    requires Inv(s) && Listed(s, w) && s.tasks[w].sched == [Entered] && s.tasks[w].state == Running
    ensures Sane(s) && Enabled(s, Pick(c)) && s.cores[c].thread == w
  {
    assert Placed(s, w) && TaskOk(s.tasks[w], w, |s.cores|);
    c := s.tasks[w].onCpu;
  }
}
