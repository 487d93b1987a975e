/** The receive path: interrupt handler, ring buffer, semaphore and the tasks that wait for bytes. */
module UartPipeline {
  import opened Basics
  import opened RingBuffers
  import opened Semaphores

  /**
   * `pending` pushes have not been signalled yet; the tasks in `holds` came back from uart_rx_wait and have
   * not popped yet; `failed` counts pops that found the ring empty. `accepted` and `consumed` are history.
   */
  datatype Uart = Uart(sem: Sem, ring: seq<Byte>, room: nat, pending: nat, holds: set<nat>,
    accepted: seq<Byte>, consumed: seq<Byte>, failed: nat)

  datatype Event =
    | Receive(b: Byte)
    | SignalRx
    | Wait(step: Step)
    | Pop(t: nat)

  predicate Allowed(u: Uart, e: Event)
    requires Sized(u.sem)
  {
    match e
    case Receive(_) => true
    case SignalRx => u.pending > 0
    case Wait(step) => Enabled(u.sem, step) && !step.Signal? && (step.Begin? ==> step.t !in u.holds)
    case Pop(t) => t in u.holds
  }

  /** The received byte is dropped when the ring is full, and nothing is signalled for it. */
  function Received(u: Uart, b: Byte): Uart {
    if |u.ring| < u.room then u.(ring := u.ring + [b], accepted := u.accepted + [b], pending := u.pending + 1) else u
  }

  function Happen(u: Uart, e: Event): Uart
    requires Sized(u.sem) && Allowed(u, e)
  {
    match e
    case Receive(b) => Received(u, b)
    case SignalRx => u.(sem := ApplySignal(u.sem), pending := u.pending - 1)
    case Wait(step) =>
      u.(sem := Apply(u.sem, step), holds := if step.Try? && u.sem.count > 0 then u.holds + {step.t} else u.holds)
    case Pop(t) =>
      if u.ring == [] then u.(holds := u.holds - {t}, failed := u.failed + 1)
      else u.(holds := u.holds - {t}, ring := u.ring[1..], consumed := u.consumed + [u.ring[0]])
  }

  predicate Good(u: Uart) {
    && Inv(u.sem) && u.sem.initial == 0 && u.failed == 0 && |u.ring| <= u.room
    && (forall t | t in u.holds :: t < |u.sem.pc| && u.sem.pc[t] == Outside)
    && |u.ring| == u.sem.count + |u.holds| + u.pending
    && u.accepted == u.consumed + u.ring
    && |u.accepted| == u.sem.signals + u.pending
  }

  lemma TryHolds(m: Sem, t: nat)
    requires Sized(m) && t < |m.pc| && m.pc[t].Looping?
    ensures ApplyTry(m, t).count == (if m.count > 0 then m.count - 1 else m.count)
    ensures ApplyTry(m, t).pc == m.pc[t := if m.count > 0 then Outside else Looping(true)]
    ensures ApplyTry(m, t).initial == m.initial && ApplyTry(m, t).signals == m.signals
  {}

  lemma WaitKeeps(u: Uart, step: Step)
    requires Good(u) && Allowed(u, Wait(step))
    ensures Good(Happen(u, Wait(step)))
  {
    StepKeeps(u.sem, step);
    if step.Try? {
      hide Inv, ApplyTry;
      TryHolds(u.sem, step.t);
    }
  }

  lemma EventKeeps(u: Uart, e: Event)
    requires Good(u) && Allowed(u, e)
    ensures Good(Happen(u, e))
  {
    match e {
      case Receive(b) =>
        assert u.consumed + (u.ring + [b]) == u.consumed + u.ring + [b];
      case SignalRx => SignalKeeps(u.sem);
      case Wait(step) => WaitKeeps(u, step);
      case Pop(t) =>
        assert |u.holds - {t}| == |u.holds| - 1;
        assert u.consumed + [u.ring[0]] + u.ring[1..] == u.consumed + u.ring;
    }
  }

  ghost predicate Happens(u: Uart, es: seq<Event>, u': Uart)
    decreases |es|
  {
    if es == [] then u' == u
    else Sized(u.sem) && Allowed(u, es[0]) && Happens(Happen(u, es[0]), es[1..], u')
  }

  /** mini_uart_init: an empty ring and a semaphore at 0. */
  predicate Started(u: Uart) {
    && Fresh(u.sem, 0) && u.ring == u.accepted == u.consumed == [] && u.pending == u.failed == 0 && u.holds == {}
  }

  lemma {:induction false} RunGood(u: Uart, es: seq<Event>, u': Uart)
    requires Good(u) && Happens(u, es, u')
    ensures Good(u')
    decreases |es|
  {
    if es != [] {
      EventKeeps(u, es[0]);
      RunGood(Happen(u, es[0]), es[1..], u');
    }
  }

  /** In every run: the bytes in the ring are those signalled and not taken, granted and not popped, and pushed
      and not signalled; no pop after a wait fails; and bytes come out in the order they were accepted. */
  lemma Pipeline(u0: Uart, es: seq<Event>, u: Uart)
    requires Started(u0) && Happens(u0, es, u)
    ensures |u.ring| == u.sem.count + |u.holds| + u.pending
    ensures u.failed == 0 && (u.holds != {} ==> u.ring != [])
    ensures u.consumed + u.ring == u.accepted && u.consumed <= u.accepted
    ensures |u.consumed| + |u.holds| == u.sem.completed
  {
    RunGood(u0, es, u);
    if u.holds != {} {
      var t :| t in u.holds;
      assert u.holds == {t} + (u.holds - {t});
    }
  }

  // ---- who comes back from the wait runnable

  predicate CalmEvent(e: Event) {
    e.Wait? ==> Calm(e.step)
  }

  /** In every calm run, every reader that came back from the wait and has not popped yet is TASK_RUNNING. */
  ghost predicate ReadersRunnable(u0: Uart) {
    forall es: seq<Event>, u: Uart, t: nat
      | Happens(u0, es, u) && (forall i | 0 <= i < |es| :: CalmEvent(es[i])) && t in u.holds
      :: t < |u.sem.runnable| && u.sem.runnable[t]
  }

  lemma AwakeEvent(u: Uart, e: Event)
    requires Good(u) && Awake(u.sem) && |u.sem.pc| <= 1 && Allowed(u, e) && CalmEvent(e)
    ensures Good(Happen(u, e)) && Awake(Happen(u, e).sem) && |Happen(u, e).sem.pc| <= 1
  {
    EventKeeps(u, e);
    match e {
      case SignalRx => AwakeKept(u.sem, Signal);
      case Wait(step) => AwakeKept(u.sem, step);
      case Receive(_) =>
      case Pop(_) =>
    }
  }

  lemma {:induction false} SingleReader(u: Uart, es: seq<Event>, u': Uart, t: nat)
    requires Good(u) && Awake(u.sem) && |u.sem.pc| <= 1
    requires Happens(u, es, u') && (forall i | 0 <= i < |es| :: CalmEvent(es[i])) && t in u'.holds
    ensures t < |u'.sem.runnable| && u'.sem.runnable[t]
    decreases |es|
  {
    if es != [] {
      hide Good, Awake, Happen;
      AwakeEvent(u, es[0]);
      assert forall i | 0 <= i < |es[1..]| :: es[1..][i] == es[i + 1];
      SingleReader(Happen(u, es[0]), es[1..], u', t);
    }
  }

  ghost predicate Next(u: Uart, e: Event, u': Uart) {
    Sized(u.sem) && Allowed(u, e) && CalmEvent(e) && u' == Happen(u, e)
  }

  /** A calm run to a reader that holds a byte and is marked TASK_WAITING. */
  ghost predicate Slip(u: Uart, es: seq<Event>, u': Uart, t: nat) {
    && Happens(u, es, u') && (forall i | 0 <= i < |es| :: CalmEvent(es[i]))
    && t in u'.holds && t < |u'.sem.runnable| && !u'.sem.runnable[t]
  }

  lemma SlipLater(u: Uart, e: Event, u1: Uart, es: seq<Event>, u': Uart, t: nat)
    requires Next(u, e, u1) && Slip(u1, es, u', t)
    ensures Slip(u, [e] + es, u', t)
  {
    hide Happen;
    assert ([e] + es)[1..] == es;
  }

  lemma ReaderSleeps(u: Uart, t: nat) returns (u': Uart, u'': Uart)
    requires Sized(u.sem) && u.sem.count == 0 && t < |u.sem.pc| && u.sem.pc[t] == Outside && t !in u.holds
    ensures Next(u, Wait(Begin(t)), u') && Next(u', Wait(Try(t)), u'')
    ensures Sized(u''.sem) && u''.sem.count == 0 && u''.sem.waiters == u.sem.waiters + [t]
    ensures u''.sem.pc == u.sem.pc[t := Looping(true)] && u''.sem.runnable == u.sem.runnable[t := false]
    ensures u'' == u.(sem := u''.sem)
  {
    hide Sized;
    var m', m'' := GoesToSleep(u.sem, t);
    u' := u.(sem := m');
    u'' := u.(sem := m'');
  }

  /** Two readers sleep, a byte arrives and its signal marks the first, and the second takes it. */
  lemma ByteForSecond(u: Uart) returns (u1: Uart, u2: Uart, u3: Uart)
    requires Sized(u.sem) && u.sem.count == 0 && u.sem.waiters == [0, 1] && |u.sem.pc| >= 2
    requires u.sem.pc[1] == Looping(true) && !u.sem.runnable[0] && !u.sem.runnable[1]
    requires |u.ring| < u.room
    ensures Next(u, Receive(0), u1) && Next(u1, SignalRx, u2) && Next(u2, Wait(Try(1)), u3) && Slip(u3, [], u3, 1)
  {
    hide ApplySignal;
    u1 := Received(u, 0);
    var m := SignalWakesFirst(u.sem);
    u2 := Happen(u1, SignalRx);
    assert u2.sem == m;
    u3 := Happen(u2, Wait(Try(1)));
  }

  lemma TwoReaders(u: Uart) returns (es: seq<Event>, u': Uart)
    requires Sized(u.sem) && Started(u) && |u.sem.pc| >= 2 && u.room > 0
    ensures Slip(u, es, u', 1)
  {
    hide Next, Slip, Happen;
    var u1, u2 := ReaderSleeps(u, 0);
    var u3, u4 := ReaderSleeps(u2, 1);
    var u5, u6, u7 := ByteForSecond(u4);
    u' := u7;
    SlipLater(u6, Wait(Try(1)), u7, [], u', 1);
    SlipLater(u5, SignalRx, u6, [Wait(Try(1))] + [], u', 1);
    SlipLater(u4, Receive(0), u5, [SignalRx] + ([Wait(Try(1))] + []), u', 1);
    es := [Receive(0)] + ([SignalRx] + ([Wait(Try(1))] + []));
    SlipLater(u3, Wait(Try(1)), u4, es, u', 1);
    es := [Wait(Try(1))] + es;
    SlipLater(u2, Wait(Begin(1)), u3, es, u', 1);
    es := [Wait(Begin(1))] + es;
    SlipLater(u1, Wait(Try(0)), u2, es, u', 1);
    es := [Wait(Try(0))] + es;
    SlipLater(u, Wait(Begin(0)), u1, es, u', 1);
    es := [Wait(Begin(0))] + es;
  }

  lemma {:induction false} NoRoom(u: Uart, es: seq<Event>, u': Uart)
    requires Good(u) && u.room == 0 && Happens(u, es, u')
    ensures u'.holds == {}
    decreases |es|
  {
    if es == [] {
      assert |u.holds| == 0;
    } else {
      EventKeeps(u, es[0]);
      NoRoom(Happen(u, es[0]), es[1..], u');
    }
  }

  /** A reader of the serial line is always TASK_RUNNING when uart_rx_wait returns iff no two tasks read the
      line (or the ring has no room, so that nobody ever gets a byte). */
  lemma ReadersLeave(u0: Uart)
    requires Started(u0) && forall t | 0 <= t < |u0.sem.pc| :: u0.sem.runnable[t]
    ensures ReadersRunnable(u0) <==> |u0.sem.pc| <= 1 || u0.room == 0
  {
    hide Happens;
    if |u0.sem.pc| <= 1 || u0.room == 0 {
      forall es: seq<Event>, u: Uart, t: nat
        | Happens(u0, es, u) && (forall i | 0 <= i < |es| :: CalmEvent(es[i])) && t in u.holds
        ensures t < |u.sem.runnable| && u.sem.runnable[t]
      {
        if u0.room == 0 {
          NoRoom(u0, es, u);
        } else {
          SingleReader(u0, es, u, t);
        }
      }
    } else {
      var es, u := TwoReaders(u0);
      assert Happens(u0, es, u) && 1 in u.holds;
    }
  }

  // ---- the interrupt handler as it runs

  /** The bytes arrive one after the other, before anybody reads. */
  function Arrived(u: Uart, fifo: seq<Byte>): Uart
    decreases |fifo|
  {
    if fifo == [] then u else Arrived(Received(u, fifo[0]), fifo[1..])
  }

  /** Of bytes in a row exactly the first ones are accepted, as many as there is room for; the same that the handler
      puts in. */
  lemma {:induction false} ArrivedIs(u: Uart, fifo: seq<Byte>)
    requires |u.ring| <= u.room
    ensures var k := Fitting(u.room - |u.ring|, |fifo|);
      Arrived(u, fifo) ==
        u.(ring := u.ring + fifo[..k], accepted := u.accepted + fifo[..k], pending := u.pending + k)
    decreases |fifo|
  {
    if fifo == [] {
      assert u.ring + fifo[..0] == u.ring && u.accepted + fifo[..0] == u.accepted;
    } else {
      var k := Fitting(u.room - |u.ring|, |fifo|);
      ArrivedIs(Received(u, fifo[0]), fifo[1..]);
      if k > 0 {
        assert [fifo[0]] + fifo[1..][..k - 1] == fifo[..k];
        assert u.ring + [fifo[0]] + fifo[1..][..k - 1] == u.ring + fifo[..k];
        assert u.accepted + [fifo[0]] + fifo[1..][..k - 1] == u.accepted + fifo[..k];
      } else {
        assert fifo[1..][..0] == fifo[..0] == [];
      }
    }
  }

  function Signalled(m: Sem, k: nat): Sem
    requires Sized(m)
    decreases k
  {
    if k == 0 then m else var m1 := ApplySignal(m); if Sized(m1) then Signalled(m1, k - 1) else m
  }

  lemma {:induction false} SignalledMore(m: Sem, k: nat)
    requires Inv(m)
    ensures Inv(Signalled(m, k)) && Signalled(m, k + 1) == ApplySignal(Signalled(m, k))
    decreases k
  {
    SignalKeeps(m);
    if k > 0 {
      SignalledMore(ApplySignal(m), k - 1);
    }
  }

  /** The handler drains the receive FIFO: as many bytes as fit go into the ring, one signal for each. */
  method HandleIrq(rb: RingBuf, sem: Semaphore, fifo: seq<Byte>)
    requires rb.Valid() && rb.elemSize == 1 && Inv(sem.View())
    modifies rb, rb.buf, sem
    ensures rb.Valid() && Inv(sem.View())
    ensures var k := Fitting(rb.capacity - 1 - |old(rb.View())|, |fifo|);
      rb.View() == old(rb.View()) + Singles(fifo[..k]) && sem.View() == Signalled(old(sem.View()), k)
  {
    hide Inv, Signalled, ApplySignal, Singles, Contents, Records;
    ghost var v, m := rb.View(), sem.View();
    SinglesMore(fifo, 0);
    SignalledNone(m);
    var i := 0;
    while i < |fifo|
      invariant 0 <= i <= |fifo| && rb.Valid() && Inv(sem.View())
      invariant rb.View() == v + Singles(fifo[..Fitting(rb.capacity - 1 - |v|, i)])
      invariant sem.View() == Signalled(m, Fitting(rb.capacity - 1 - |v|, i))
    {
      ghost var k := Fitting(rb.capacity - 1 - |v|, i);
      SignalledMore(m, k);
      SinglesMore(fifo, k);
      var pushed := rb.Push([fifo[i]]);
      if pushed {
        sem.Signal();
      }
      i := i + 1;
    }
  }

  lemma SignalledNone(m: Sem)
    requires Inv(m)
    ensures Sized(m) && Signalled(m, 0) == m
  {}

  lemma SinglesMore(bs: seq<Byte>, k: nat)
    requires k <= |bs|
    ensures Singles(bs[..0]) == []
    ensures k < |bs| ==> Singles(bs[..k + 1]) == Singles(bs[..k]) + [[bs[k]]]
  {}

  function Fitting(room: int, n: nat): (k: nat)
    ensures k <= n
  {
    if room <= 0 then 0 else if n <= room then n else room
  }

  /** Each byte as a record of one. */
  function Singles(bs: seq<Byte>): (r: seq<seq<Byte>>)
    ensures |r| == |bs|
  {
    seq(|bs|, i requires 0 <= i < |bs| => [bs[i]])
  }
}
