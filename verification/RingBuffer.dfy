/** The ring buffer: byte records in a circular array, indexed with 32-bit unsigned arithmetic. */
module RingBuffers {
  import opened Basics

  /** ring_buf_count's expression. */
  function CountWord(head: nat, tail: nat, cap: nat): nat
    requires cap > 0
  {
    Wrap(Wrap(head - tail) + cap) % cap
  }

  /** How far `head` is ahead of `tail` on a circle of `cap` slots. */
  function Ahead(head: nat, tail: nat, cap: nat): int {
    if head >= tail then head - tail else head - tail + cap
  }

  lemma ModOnce(x: nat, cap: nat)
    requires 0 < cap && x < 2 * cap
    ensures x % cap == if x < cap then x else x - cap
  {}

  lemma CountIsAhead(head: nat, tail: nat, cap: nat)
    requires head < cap && tail < cap && 2 * cap <= U32
    ensures CountWord(head, tail, cap) == Ahead(head, tail, cap)
  {
    ModOnce(head + cap - tail, cap);
  }

  /** The wrap-around does no harm exactly for capacities up to 2^31. */
  lemma CountExact(cap: nat)
    requires 0 < cap < U32
    ensures (forall head: nat, tail: nat | head < cap && tail < cap ::
               CountWord(head, tail, cap) == Ahead(head, tail, cap))
      <==> 2 * cap <= U32
  {
    if 2 * cap <= U32 {
      forall head: nat, tail: nat | head < cap && tail < cap
        ensures CountWord(head, tail, cap) == Ahead(head, tail, cap)
      {
        CountIsAhead(head, tail, cap);
      }
    } else {
      ModOnce(2 * cap - 1 - U32, cap);
      assert CountWord(cap - 1, 0, cap) != Ahead(cap - 1, 0, cap);
    }
  }

  /** The slot of the k-th oldest record. */
  function Slot(tail: nat, k: nat, cap: nat): nat
    requires tail < cap && k < cap
  {
    if tail + k < cap then tail + k else tail + k - cap
  }

  lemma InStorage(i: nat, cap: nat, size: nat)
    requires i < cap
    ensures 0 <= i * size && i * size + size <= cap * size
  {
    assert i * size + size == (i + 1) * size;
    MulMono(size, i + 1, cap);
  }

  /** The storage cut into `cap` records. */
  function Records(buf: seq<Byte>, cap: nat, size: nat): (r: seq<seq<Byte>>)
    requires |buf| == cap * size
    ensures |r| == cap
    decreases cap
  {
    if cap == 0 then []
    else
      InStorage(cap - 1, cap, size);
      Records(buf[..(cap - 1) * size], cap - 1, size) + [buf[(cap - 1) * size..(cap - 1) * size + size]]
  }

  lemma {:induction false} RecordsAt(buf: seq<Byte>, cap: nat, size: nat, i: nat)
    requires |buf| == cap * size && i < cap
    ensures 0 <= i * size <= i * size + size <= |buf|
    ensures Records(buf, cap, size)[i] == buf[i * size..i * size + size]
    decreases cap
  {
    InStorage(i, cap, size);
    InStorage(cap - 1, cap, size);
    if i < cap - 1 {
      RecordsAt(buf[..(cap - 1) * size], cap - 1, size, i);
      assert buf[..(cap - 1) * size][i * size..i * size + size] == buf[i * size..i * size + size];
    }
  }

  lemma SlotsApart(i: nat, h: nat, size: nat)
    ensures i < h ==> i * size + size <= h * size
    ensures h < i ==> h * size + size <= i * size
  {
    if i < h {
      InStorage(i, h, size);
    } else if h < i {
      InStorage(h, i, size);
    }
  }

  lemma WriteRange(a: seq<Byte>, b: seq<Byte>, elem: seq<Byte>, at: nat, lo: nat, hi: nat)
    requires |a| == |b| && at + |elem| <= |a| && lo <= hi <= |a|
    requires forall x | 0 <= x < |a| :: b[x] == if at <= x < at + |elem| then elem[x - at] else a[x]
    ensures lo == at && hi == at + |elem| ==> b[lo..hi] == elem
    ensures hi <= at || at + |elem| <= lo ==> b[lo..hi] == a[lo..hi]
  {}

  /** Copying `elem` over slot `h` replaces that record and no other. */
  lemma WriteSlot(a: seq<Byte>, b: seq<Byte>, cap: nat, size: nat, h: nat, elem: seq<Byte>, at: nat)
    requires |a| == |b| == cap * size && h < cap && |elem| == size && at == h * size
    requires forall x | 0 <= x < |a| :: b[x] == if at <= x < at + size then elem[x - at] else a[x]
    ensures Records(b, cap, size) == Records(a, cap, size)[h := elem]
  {
    InStorage(h, cap, size);
    var ra, rb := Records(a, cap, size), Records(b, cap, size);
    forall i | 0 <= i < cap ensures rb[i] == if i == h then elem else ra[i] {
      hide Records;
      RecordsAt(a, cap, size, i);
      RecordsAt(b, cap, size, i);
      SlotsApart(i, h, size);
      WriteRange(a, b, elem, at, i * size, i * size + size);
    }
  }

  /** The `n` records from slot `tail` on, oldest first. */
  function Contents(recs: seq<seq<Byte>>, tail: nat, n: nat): (r: seq<seq<Byte>>)
    requires tail < |recs| && n <= |recs|
    ensures |r| == n
  {
    seq(n, k requires 0 <= k < n => recs[Slot(tail, k, |recs|)])
  }

  lemma ContentsPush(recs: seq<seq<Byte>>, tail: nat, n: nat, h: nat, elem: seq<Byte>)
    requires tail < |recs| && n < |recs| && h == Slot(tail, n, |recs|)
    ensures Contents(recs[h := elem], tail, n + 1) == Contents(recs, tail, n) + [elem]
  {}

  lemma ContentsPop(recs: seq<seq<Byte>>, tail: nat, n: nat)
    requires tail < |recs| && 0 < n <= |recs| && |recs| > 1
    ensures Contents(recs, tail, n)[0] == recs[tail]
    ensures Contents(recs, Slot(tail, 1, |recs|), n - 1) == Contents(recs, tail, n)[1..]
  {}

  class RingBuf {
    const buf: array<Byte>
    const capacity: nat
    const elemSize: nat
    var head: nat
    var tail: nat

    ghost predicate Valid()
      reads this
    {
      && 2 <= capacity && 2 * capacity <= U32 && buf.Length == capacity * elemSize && capacity * elemSize <= U32
      && head < capacity && tail < capacity
    }

    ghost function View(): (v: seq<seq<Byte>>)
      reads this, buf
      requires Valid()
      ensures |v| == Ahead(head, tail, capacity)
    {
      Contents(Records(buf[..], capacity, elemSize), tail, Ahead(head, tail, capacity))
    }

    constructor (cap: nat, size: nat)
      requires 2 <= cap && 2 * cap <= U32 && cap * size <= U32
      ensures Valid() && View() == [] && capacity == cap && elemSize == size && fresh(buf)
    {
      capacity, elemSize := cap, size;
      buf := new Byte[cap * size](_ => 0);
      head, tail := 0, 0;
    }

    /** The record goes in unless capacity - 1 records are there already. */
    method Push(elem: seq<Byte>) returns (ok: bool)
      requires Valid() && |elem| == elemSize
      modifies this`head, buf
      ensures Valid()
      ensures ok <==> |old(View())| < capacity - 1
      ensures View() == if ok then old(View()) + [elem] else old(View())
    {
      var next := Wrap(head + 1) % capacity;
      ModOnce(head + 1, capacity);
      if next == tail {
        return false;
      }
      InStorage(head, capacity, elemSize);
      var slot := Wrap(head * elemSize);
      ghost var recs := Records(buf[..], capacity, elemSize);
      ContentsPush(recs, tail, Ahead(head, tail, capacity), head, elem);
      Store(slot, elem);
      WriteSlot(old(buf[..]), buf[..], capacity, elemSize, head, elem, slot);
      head := next;
      ok := true;
    }

    /** rb_memcpy into the buffer. */
    method Store(at: nat, elem: seq<Byte>)
      requires at + |elem| <= buf.Length
      modifies buf
      ensures forall x | 0 <= x < buf.Length :: buf[x] == if at <= x < at + |elem| then elem[x - at] else old(buf[x])
    {
      var i := 0;
      while i < |elem|
        invariant 0 <= i <= |elem|
        invariant forall x | 0 <= x < buf.Length :: buf[x] == if at <= x < at + i then elem[x - at] else old(buf[x])
      {
        buf[at + i] := elem[i];
        i := i + 1;
      }
    }

    /** rb_memcpy out of the buffer. */
    method Fetch(at: nat, n: nat) returns (out: seq<Byte>)
      requires at + n <= buf.Length
      ensures out == buf[at..at + n]
    {
      out := [];
      while |out| < n
        invariant |out| <= n && out == buf[at..at + |out|]
      {
        out := out + [buf[at + |out|]];
      }
    }

    /** The oldest record, if any. */
    method Pop() returns (ok: bool, out: seq<Byte>)
      requires Valid()
      modifies this`tail
      ensures Valid()
      ensures ok <==> old(View()) != []
      ensures ok ==> out == old(View())[0] && View() == old(View())[1..]
      ensures !ok ==> View() == old(View())
    {
      if tail == head {
        return false, [];
      }
      InStorage(tail, capacity, elemSize);
      out := Fetch(Wrap(tail * elemSize), elemSize);
      RecordsAt(buf[..], capacity, elemSize, tail);
      ContentsPop(Records(buf[..], capacity, elemSize), tail, Ahead(head, tail, capacity));
      ModOnce(tail + 1, capacity);
      tail := Wrap(tail + 1) % capacity;
      ok := true;
    }

    /** The record pushed `offset` pushes before the most recent one. */
    method Peek(offset: nat) returns (ok: bool, out: seq<Byte>)
      requires Valid() && offset < U32
      ensures ok <==> offset < |View()|
      ensures ok ==> out == View()[|View()| - 1 - offset]
    {
      var count := Wrap(Wrap(head - tail) + capacity) % capacity;
      CountIsAhead(head, tail, capacity);
      if offset >= count {
        return false, [];
      }
      var idx := Wrap(Wrap(Wrap(head - 1) - offset) + capacity) % capacity;
      PeekIndex(head, tail, offset, capacity);
      InStorage(idx, capacity, elemSize);
      RecordsAt(buf[..], capacity, elemSize, idx);
      out := Fetch(Wrap(idx * elemSize), elemSize);
      ok := true;
    }

    method IsEmpty() returns (empty: bool)
      requires Valid()
      ensures empty <==> View() == []
    {
      empty := tail == head;
    }

    method IsFull() returns (full: bool)
      requires Valid()
      ensures full <==> |View()| == capacity - 1
    {
      ModOnce(head + 1, capacity);
      full := Wrap(head + 1) % capacity == tail;
    }

    method Count() returns (count: nat)
      requires Valid()
      ensures count == |View()|
    {
      CountIsAhead(head, tail, capacity);
      count := Wrap(Wrap(head - tail) + capacity) % capacity;
    }

    /** history_push: the oldest line makes room for the new one. */
    method HistoryPush(line: seq<Byte>)
      requires Valid() && |line| == elemSize
      modifies this, buf
      ensures Valid() && View() == Latest(old(View()) + [line], capacity - 1)
    {
      var full := IsFull();
      var ok: bool;
      if full {
        var discard;
        ok, discard := Pop();
        assert ok && |View()| == capacity - 2;
      }
      ok := Push(line);
    }
  }

  lemma PeekIndex(head: nat, tail: nat, offset: nat, cap: nat)
    requires head < cap && tail < cap && 2 * cap <= U32 && offset < Ahead(head, tail, cap)
    ensures Wrap(Wrap(Wrap(head - 1) - offset) + cap) % cap == Slot(tail, Ahead(head, tail, cap) - 1 - offset, cap)
  {
    ModOnce(head - 1 - offset + cap, cap);
  }

  /** The last `n` lines, or all if there are fewer. */
  function Latest<T>(lines: seq<T>, n: nat): seq<T> {
    if |lines| <= n then lines else lines[|lines| - n..]
  }

  /** The k-th line from the end is the k-th line from the end of what was entered. */
  lemma LatestIs<T>(lines: seq<T>, n: nat, k: nat)
    ensures |Latest(lines, n)| == Min(|lines|, n)
    ensures k < n && k < |lines| ==> Latest(lines, n)[|Latest(lines, n)| - 1 - k] == lines[|lines| - 1 - k]
  {}

  function Pushed<T>(past: seq<T>, lines: seq<T>, n: nat): seq<T>
    decreases |lines|
  {
    if lines == [] then past else Pushed(Latest(past + [lines[0]], n), lines[1..], n)
  }

  lemma LatestTwice<T>(past: seq<T>, x: T, n: nat)
    ensures Latest(Latest(past, n) + [x], n) == Latest(past + [x], n)
  {}

  /** After any number of entered lines the history holds exactly the most recent ones. */
  lemma {:induction false} HistoryIsLatest<T>(past: seq<T>, lines: seq<T>, n: nat)
    ensures Pushed(Latest(past, n), lines, n) == Latest(past + lines, n)
    decreases |lines|
  {
    if lines == [] {
      assert past + lines == past;
    } else {
      hide Latest;
      LatestTwice(past, lines[0], n);
      HistoryIsLatest(past + [lines[0]], lines[1..], n);
      assert past + [lines[0]] + lines[1..] == past + lines;
    }
  }
}
