/** `ArrayQueue` as one owner uses it: words and slots updated in place, laps wrapping with the
    machine word, retry loops, `Drop` and `IntoIter`. Every method is proved against `Apply`. */
module ArrayQueue {
  import opened Arithmetic
  import opened BoundedFifo
  import opened Stamps
  import opened TicketQueue
  import opened TicketInvariant
  import opened WordQueue
  import Linearizability

  // ---- a buffer that holds the tickets [first, next) ----

  /** The slots of the tickets in the queue hold values. */
  ghost predicate Readable<T>(g: Geometry, buffer: seq<WordSlot<T>>, first: nat, next: nat) {
    && g.Valid() && |buffer| == g.cap && first <= next <= first + g.cap
    && forall n: nat | first <= n < next :: buffer[Index(n, g.cap)].value.Some?
  }

  /** Every slot has the stamp of its next use, and the free ones hold nothing. */
  ghost predicate Stamped<T>(g: Geometry, buffer: seq<WordSlot<T>>, first: nat, next: nat)
    requires g.Valid() && |buffer| == g.cap
  {
    forall n: nat | first <= n < first + g.cap ::
      if n < next then buffer[Index(n, g.cap)].stamp == g.Word(n) + 1
      else buffer[Index(n, g.cap)] == WordSlot(g.Word(n), None)
  }

  ghost function Stored<T>(g: Geometry, buffer: seq<WordSlot<T>>, first: nat, next: nat): (s: seq<T>)
    requires Readable(g, buffer, first, next)
    ensures |s| == next - first
  {
    seq(next - first, k requires 0 <= k < next - first => buffer[Index(first + k, g.cap)].value.value)
  }

  /** Filling the slot at the tail appends. */
  lemma FillAppends<T>(g: Geometry, buffer: seq<WordSlot<T>>, first: nat, next: nat, v: T)
    requires Readable(g, buffer, first, next) && Stamped(g, buffer, first, next) && next < first + g.cap
    ensures var after := buffer[Index(next, g.cap) := WordSlot(g.Word(next) + 1, Some(v))];
      && Readable(g, after, first, next + 1) && Stamped(g, after, first, next + 1)
      && Stored(g, after, first, next + 1) == Stored(g, buffer, first, next) + [v]
  {
    forall n: nat | first <= n < first + g.cap && n != next ensures Index(n, g.cap) != Index(next, g.cap) {
      if Index(n, g.cap) == Index(next, g.cap) { IndexDistinct(n, next, g.cap); }
    }
  }

  /** Taking the value at the head removes the oldest. */
  lemma TakeRemoves<T>(g: Geometry, buffer: seq<WordSlot<T>>, first: nat, next: nat, stamp: nat)
    requires Readable(g, buffer, first, next) && first < next
    ensures var after := buffer[Index(first, g.cap) := WordSlot(stamp, None)];
      && Readable(g, after, first + 1, next)
      && Stored(g, buffer, first, next) == [buffer[Index(first, g.cap)].value.value] + Stored(g, after, first + 1, next)
  {
    forall n: nat | first < n < first + g.cap ensures Index(n, g.cap) != Index(first, g.cap) {
      if Index(n, g.cap) == Index(first, g.cap) { IndexDistinct(n, first, g.cap); }
    }
  }

  /** ... and restamping the slot for the next lap keeps all stamps right. */
  lemma TakeRestamps<T>(g: Geometry, buffer: seq<WordSlot<T>>, first: nat, next: nat)
    requires Readable(g, buffer, first, next) && Stamped(g, buffer, first, next) && first < next
    ensures var after := buffer[Index(first, g.cap) := WordSlot(g.Word(first + g.cap), None)];
      Stamped(g, after, first + 1, next)
  {
    IndexPeriodic(first, g.cap);
    forall n: nat | first < n < first + g.cap ensures Index(n, g.cap) != Index(first, g.cap) {
      if Index(n, g.cap) == Index(first, g.cap) { IndexDistinct(n, first, g.cap); }
    }
  }

  /** Replacing the value at the head of a full buffer removes the oldest and appends. */
  lemma ReplaceShifts<T>(g: Geometry, buffer: seq<WordSlot<T>>, first: nat, v: T)
    requires Readable(g, buffer, first, first + g.cap) && Stamped(g, buffer, first, first + g.cap)
    ensures var next := first + g.cap;
      var after := buffer[Index(first, g.cap) := WordSlot(g.Word(next) + 1, Some(v))];
      && Readable(g, after, first + 1, next + 1) && Stamped(g, after, first + 1, next + 1)
      && Stored(g, after, first + 1, next + 1) == Stored(g, buffer, first, next)[1..] + [v]
    ensures var s := Stored(g, buffer, first, first + g.cap); s == [buffer[Index(first, g.cap)].value.value] + s[1..]
  {
    var next := first + g.cap;
    var taken := buffer[Index(first, g.cap) := WordSlot(g.Word(next), None)];
    TakeRemoves(g, buffer, first, next, g.Word(next));
    TakeRestamps(g, buffer, first, next);
    IndexPeriodic(first, g.cap);
    FillAppends(g, taken, first + 1, next, v);
    assert taken[Index(next, g.cap) := WordSlot(g.Word(next) + 1, Some(v))]
        == buffer[Index(first, g.cap) := WordSlot(g.Word(next) + 1, Some(v))];
  }

  /** What `push_or_else` finds at the tail: a free slot, or a full queue. */
  lemma TailTests<T>(g: Geometry, buffer: seq<WordSlot<T>>, first: nat, next: nat)
    requires Readable(g, buffer, first, next) && Stamped(g, buffer, first, next)
    ensures g.IndexOf(g.Word(next)) == Index(next, g.cap) && g.Advance(g.Word(next)) == g.Word(next + 1)
    ensures g.Word(next) == buffer[Index(next, g.cap)].stamp <==> next < first + g.cap
    ensures g.NextLap(buffer[Index(next, g.cap)].stamp) == g.Word(next) + 1 <==> next == first + g.cap
  {
    WordParts(g, next);
    WordAdvance(g, next);
    IndexPeriodic(first, g.cap);
    IndexPeriodic(next, g.cap);
    if next < first + g.cap {
      WordNextLap(g, next);
      FilledIsNotFree(g, next, next + g.cap);
    } else {
      WordNextLap(g, first);
      FilledIsNotFree(g, first, next);
    }
  }

  /** The head words of a full queue are the tail words a lap before. */
  lemma FullWords<T>(g: Geometry, buffer: seq<WordSlot<T>>, first: nat, next: nat)
    requires Readable(g, buffer, first, next) && next == first + g.cap
    ensures Index(next, g.cap) == Index(first, g.cap) && buffer[Index(first, g.cap)].value.Some?
    ensures g.NextLap(g.Word(first)) == g.Word(next)
    ensures g.PrevLap(g.Word(next)) == g.Word(first) && g.PrevLap(g.Word(next + 1)) == g.Word(first + 1)
  {
    IndexPeriodic(first, g.cap);
    WordNextLap(g, first);
    WordPrevLap(g, first);
    WordPrevLap(g, first + 1);
  }

  /** What `pop` finds at the head: a filled slot, or an empty queue. */
  lemma HeadTests<T>(g: Geometry, buffer: seq<WordSlot<T>>, first: nat, next: nat)
    requires Readable(g, buffer, first, next) && Stamped(g, buffer, first, next)
    ensures g.IndexOf(g.Word(first)) == Index(first, g.cap) && g.Advance(g.Word(first)) == g.Word(first + 1)
    ensures g.NextLap(g.Word(first)) == g.Word(first + g.cap)
    ensures g.Word(first) + 1 == buffer[Index(first, g.cap)].stamp <==> first < next
    ensures buffer[Index(first, g.cap)].stamp == g.Word(first) <==> first == next
    ensures g.Word(next) == g.Word(first) <==> first == next
    ensures first < next ==> buffer[Index(first, g.cap)].value.Some?
  {
    WordParts(g, first);
    WordAdvance(g, first);
    WordNextLap(g, first);
    GeometryFacts(g);
    WordInjective(g, first, next);
  }

  /** When no thread is between a claim and its stamp store, the ring is such a buffer: what one owner
      does to it afterwards starts from exactly the contents the concurrent operations left. */
  lemma QuiescentRing<T>(g: Geometry, s: State<T>)
    requires g.Valid() && Inv(s) && s.ring.cap == g.cap && forall p | p in s.threads :: !s.threads[p].Claims()
    ensures var r := s.ring; var buffer := EncodeRing(g, r).buffer;
      && Readable(g, buffer, r.head, r.tail) && Stamped(g, buffer, r.head, r.tail)
      && Stored(g, buffer, r.head, r.tail) == Linearizability.Contents(r)
  {
    var r, buffer := s.ring, EncodeRing(g, s.ring).buffer;
    forall n: nat | r.head <= n < r.head + r.cap
      ensures buffer[Index(n, r.cap)] == EncodeSlot(g, SlotOf(r, n)) && Settled(r, n)
    {
      assert SlotKnown(r, n);
    }
    assert OwnerOf(r, r.tail) == None;
  }

  /** The slot at this offset from the head belongs to one ticket of the queue. */
  lemma OnlySlotOf(first: nat, next: nat, i: nat, cap: nat)
    requires 0 < cap && first + i < next <= first + cap
    ensures Index(first + i, cap)
         == if Index(first, cap) + i < cap then Index(first, cap) + i else Index(first, cap) + i - cap
    ensures forall n: nat | first <= n < next && n != first + i :: Index(n, cap) != Index(first + i, cap)
  {
    RingOffset(first, i, cap);
    forall n: nat | first <= n < next && n != first + i ensures Index(n, cap) != Index(first + i, cap) {
      if Index(n, cap) == Index(first + i, cap) { IndexDistinct(n, first + i, cap); }
    }
  }

  class ArrayQueue<T> {
    var head: nat
    var tail: nat
    const buffer: array<WordSlot<T>>
    const g: Geometry

    /** The tickets at the head and at the tail. */
    ghost var first: nat
    ghost var next: nat

    /** What `Drop` and `IntoIter` need. */
    ghost predicate Holding()
      reads this, buffer
    {
      g.Valid() && Readable(g, buffer[..], first, next) && head == g.Word(first) && tail == g.Word(next)
    }

    ghost predicate Valid()
      reads this, buffer
    {
      Holding() && Stamped(g, buffer[..], first, next)
    }

    ghost function Contents(): seq<T>
      requires Holding()
      reads this, buffer
    {
      Stored(g, buffer[..], first, next)
    }

    constructor (geometry: Geometry)
      requires geometry.Valid()
      ensures Valid() && fresh(buffer) && g == geometry && Contents() == []
    {
      g := geometry;
      head, tail := 0, 0;
      buffer := new WordSlot<T>[geometry.cap](i requires 0 <= i => WordSlot(i, None));
      first, next := 0, 0;
      new;
      forall n: nat | n < g.cap ensures Index(n, g.cap) == n && g.Word(n) == n {
        DivModUnique(n, g.cap, 0, n);
        DivModUnique(0, g.Laps(), 0, 0);
      }
    }

    /** The value write and the stamp store that end every operation on a slot. */
    method StoreSlot(index: nat, value: Option<T>, stamp: nat)
      requires index < buffer.Length
      modifies buffer
      ensures buffer[..] == old(buffer[..])[index := WordSlot(stamp, value)]
    {
      buffer[index] := buffer[index].(value := value);
      buffer[index] := buffer[index].(stamp := stamp);
    }

    /** After the compare-exchange of the tail: write the value, then the stamp. */
    method FinishPush(t: nat, newTail: nat, index: nat, value: T)
      requires Valid() && next < first + g.cap && t == tail
      requires newTail == g.Word(next + 1) && index == Index(next, g.cap)
      modifies this, buffer
      ensures Valid() && Contents() == old(Contents()) + [value]
    {
      FillAppends(g, buffer[..], first, next, value);
      tail := newTail;
      next := next + 1;
      StoreSlot(index, Some(value), t + 1);
    }

    /** After the compare-exchange of the head: move the tail, swap the value, write the stamp. */
    method Overwrite(t: nat, newTail: nat, newHead: nat, index: nat, value: T) returns (oldest: T)
      requires index < buffer.Length && buffer[index].value.Some?
      modifies this, buffer
      ensures head == newHead && tail == newTail && first == old(first) + 1 && next == old(next) + 1
      ensures buffer[..] == old(buffer[..])[index := WordSlot(t + 1, Some(value))]
      ensures oldest == old(buffer[index].value.value)
    {
      head := newHead;
      tail := newTail;
      first, next := first + 1, next + 1;
      oldest := buffer[index].value.value;
      StoreSlot(index, Some(value), t + 1);
    }

    method FinishForce(t: nat, newTail: nat, newHead: nat, index: nat, value: T) returns (oldest: T)
      requires Valid() && next == first + g.cap && t == tail
      requires newTail == g.Word(next + 1) && newHead == g.Word(first + 1) && index == Index(first, g.cap)
      modifies this, buffer
      ensures Valid() && old(Contents()) == [oldest] + old(Contents())[1..]
      ensures Contents() == old(Contents())[1..] + [value]
    {
      ReplaceShifts(g, buffer[..], first, value);
      assert buffer[..][index].value.Some?;
      oldest := Overwrite(t, newTail, newHead, index, value);
    }

    /** `push_or_else` with the closure of `push` or of `force_push`. `weak` is the number of times
        the compare-exchange fails spuriously before it does not. */
    method PushOrElse(value: T, force: bool, weak: nat) returns (r: Answer<T>)
      requires Valid()
      modifies this, buffer
      ensures Valid()
      ensures (Contents(), r) == Apply(old(Contents()), g.cap, if force then Op.ForcePush(value) else Op.Push(value))
      ensures if |old(Contents())| < g.cap then r == Accepted && Contents() == old(Contents()) + [value]
        else if force then r == Displaced(old(Contents())[0]) && Contents() == old(Contents())[1..] + [value]
        else r == Rejected(value) && Contents() == old(Contents()) && |old(Contents())| == g.cap
    {
      var failures := weak;
      var t := tail;
      while true
        invariant Valid() && t == tail && head == old(head) && tail == old(tail)
        invariant first == old(first) && next == old(next) && buffer[..] == old(buffer[..])
        decreases failures
      {
        TailTests(g, buffer[..], first, next);
        var index := g.IndexOf(t);
        var newTail := g.Advance(t);
        var stamp := buffer[index].stamp;
        if t == stamp {
          if tail == t && failures == 0 {
            FinishPush(t, newTail, index, value);
            return Accepted;
          }
          failures := failures - 1;
        } else if g.NextLap(stamp) == t + 1 {
          FullWords(g, buffer[..], first, next);
          if force {
            var expected, newHead := g.PrevLap(t), g.PrevLap(newTail);
            if head == expected && failures == 0 {
              var oldest := FinishForce(t, newTail, newHead, index, value);
              return Displaced(oldest);
            }
            failures := failures - 1;
          } else {
            if g.NextLap(head) == t {
              return Rejected(value);
            }
            assert false;
          }
        } else {
          assert false;
        }
        t := tail;
      }
    }

    method Push(value: T, weak: nat) returns (r: Answer<T>)
      requires Valid()
      modifies this, buffer
      ensures Valid()
      ensures (Contents(), r) == Apply(old(Contents()), g.cap, Op.Push(value))
      ensures r.Accepted? <==> |old(Contents())| < g.cap
      ensures r.Accepted? ==> Contents() == old(Contents()) + [value]
      ensures !r.Accepted? ==> r == Rejected(value) && Contents() == old(Contents()) && |Contents()| == g.cap
    {
      r := PushOrElse(value, false, weak);
    }

    method ForcePush(value: T, weak: nat) returns (r: Answer<T>)
      requires Valid()
      modifies this, buffer
      ensures Valid()
      ensures (Contents(), r) == Apply(old(Contents()), g.cap, Op.ForcePush(value))
      ensures r.Accepted? <==> |old(Contents())| < g.cap
      ensures r.Accepted? ==> Contents() == old(Contents()) + [value]
      ensures !r.Accepted? ==> r.Displaced? && [r.oldest] + Contents() == old(Contents()) + [value]
    {
      r := PushOrElse(value, true, weak);
    }

    /** After the compare-exchange of the head: read the value, then write the stamp. */
    method FinishPop(h: nat, newHead: nat, index: nat) returns (item: T)
      requires Valid() && first < next && h == head
      requires newHead == g.Word(first + 1) && index == Index(first, g.cap) && g.NextLap(h) == g.Word(first + g.cap)
      modifies this, buffer
      ensures Valid() && old(Contents()) == [item] + Contents()
    {
      TakeRemoves(g, buffer[..], first, next, g.Word(first + g.cap));
      TakeRestamps(g, buffer[..], first, next);
      assert buffer[..][index].value.Some?;
      head := newHead;
      first := first + 1;
      item := buffer[index].value.value;
      StoreSlot(index, None, g.NextLap(h));
    }

    method Pop(weak: nat) returns (r: Answer<T>)
      requires Valid()
      modifies this, buffer
      ensures Valid()
      ensures (Contents(), r) == Apply(old(Contents()), g.cap, Op.Pop)
      ensures r.Nothing? <==> old(Contents()) == []
      ensures if r.Nothing? then Contents() == [] else r.Taken? && [r.item] + Contents() == old(Contents())
    {
      var failures := weak;
      var h := head;
      while true
        invariant Valid() && h == head && head == old(head) && tail == old(tail)
        invariant first == old(first) && next == old(next) && buffer[..] == old(buffer[..])
        decreases failures
      {
        HeadTests(g, buffer[..], first, next);
        var index := g.IndexOf(h);
        var stamp := buffer[index].stamp;
        if h + 1 == stamp {
          if head == h && failures == 0 {
            var item := FinishPop(h, g.Advance(h), index);
            return Taken(item);
          }
          failures := failures - 1;
        } else if stamp == h {
          if tail == h {
            return Nothing;
          }
          assert false;
        } else {
          assert false;
        }
        h := head;
      }
    }

    method IsEmpty() returns (r: bool)
      requires Valid()
      ensures r <==> Contents() == []
    {
      GeometryFacts(g);
      WordInjective(g, first, next);
      r := tail == head;
    }

    method IsFull() returns (r: bool)
      requires Valid()
      ensures r <==> |Contents()| == g.cap
    {
      GeometryFacts(g);
      OneLapBehind(g, first, next);
      r := g.NextLap(head) == tail;
    }

    /** With one owner the tail does not change between the two loads. */
    method Len() returns (r: nat)
      requires Holding()
      ensures r == |Contents()|
    {
      QueueSizeExact(g, first, next);
      r := g.QueueSize(head, tail);
    }

    /** `Drop::drop`: the values dropped are the contents, oldest first, each exactly once. */
    method Drop() returns (dropped: seq<T>)
      requires Holding()
      modifies buffer
      ensures dropped == old(Contents())
      ensures forall n: nat :: first <= n < next ==> buffer[Index(n, g.cap)].value == None
    {
      WordParts(g, first);
      QueueSizeExact(g, first, next);
      var headIndex := g.IndexOf(head);
      var len := g.QueueSize(head, tail);
      dropped := [];
      for i := 0 to len
        invariant dropped == old(Contents())[..i]
        invariant forall n: nat :: first + i <= n < next ==> buffer[Index(n, g.cap)] == old(buffer[..])[Index(n, g.cap)]
        invariant forall n: nat :: first <= n < first + i ==> buffer[Index(n, g.cap)].value == None
      {
        var index := if headIndex + i < g.cap then headIndex + i else headIndex + i - g.cap;
        OnlySlotOf(first, next, i, g.cap);
        assert old(buffer[..])[Index(first + i, g.cap)].value.Some?;
        dropped := dropped + [buffer[index].value.value];
        buffer[index] := buffer[index].(value := None);
      }
    }
  }

  /** The consuming iterator. It moves the head and leaves the stamps alone. */
  class IntoIter<T> {
    const queue: ArrayQueue<T>

    constructor (q: ArrayQueue<T>)
      ensures queue == q
    {
      queue := q;
    }

    method Next() returns (r: Option<T>)
      requires queue.Holding()
      modifies queue, queue.buffer
      ensures queue.Holding()
      ensures match r
        case None => old(queue.Contents()) == [] && queue.Contents() == []
        case Some(v) => old(queue.Contents()) == [v] + queue.Contents()
    {
      var q, head := queue, queue.head;
      GeometryFacts(q.g);
      WordInjective(q.g, q.first, q.next);
      if q.head == q.tail {
        r := None;
      } else {
        WordParts(q.g, q.first);
        WordAdvance(q.g, q.first);
        var index := q.g.IndexOf(head);
        TakeRemoves(q.g, q.buffer[..], q.first, q.next, q.buffer[index].stamp);
        assert q.buffer[..][index].value.Some?;
        r := q.buffer[index].value;
        q.buffer[index] := q.buffer[index].(value := None);
        q.head := q.g.Advance(head);
        q.first := q.first + 1;
      }
    }

    /** Any prefix taken by `next`, the rest dropped with the iterator: every element once, in order. */
    method TakeThenDrop(k: nat) returns (yielded: seq<T>, dropped: seq<T>)
      requires queue.Holding()
      modifies queue, queue.buffer
      ensures yielded + dropped == old(queue.Contents())
      ensures |yielded| == if k < |old(queue.Contents())| then k else |old(queue.Contents())|
    {
      yielded := [];
      var done := false;
      while |yielded| < k && !done
        invariant queue.Holding() && yielded + queue.Contents() == old(queue.Contents())
        invariant |yielded| <= k && (done ==> queue.Contents() == [])
        decreases k - |yielded|, if done then 0 else 1
      {
        ghost var before := queue.Contents();
        var item := Next();
        match item {
          case None =>
            done := true;
          case Some(v) =>
            assert yielded + before == yielded + [v] + queue.Contents();
            yielded := yielded + [v];
        }
      }
      dropped := queue.Drop();
    }
  }

  /** Any history of operations by one owner, after any number of laps, answers like a sequence. */
  method RunHistory<T>(q: ArrayQueue<T>, ops: seq<Op<T>>, weak: seq<nat>) returns (answers: seq<Answer<T>>)
    requires q.Valid() && |weak| == |ops|
    modifies q, q.buffer
    ensures q.Valid() && |answers| == |ops| && IsFifo(q.g.cap, old(q.Contents()), ops, answers)
    ensures old(q.Contents()) + Entered(ops, answers) == Departed(answers) + q.Contents()
  {
    answers := [];
    assert ops[..0] == [];
    for i := 0 to |ops|
      invariant q.Valid() && (q.Contents(), answers) == ApplyAll(old(q.Contents()), q.g.cap, ops[..i])
    {
      var r: Answer<T>;
      match ops[i] {
        case Push(v) => r := q.Push(v, weak[i]);
        case ForcePush(v) => r := q.ForcePush(v, weak[i]);
        case Pop => r := q.Pop(weak[i]);
      }
      answers := answers + [r];
      assert ops[..i + 1][..i] == ops[..i];
    }
    assert ops[..|ops|] == ops;
    FifoOrder(q.g.cap, old(q.Contents()), ops, answers);
  }
}
