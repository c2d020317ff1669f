/** `RefCount`, its futures and its waiter queue as objects updated in place, for one thread at a time:
    every method does to the word, the flags and the queue what the step functions of `Waiters` say. */
module RefCount {
  import opened Stamps
  import opened RefWord
  import opened Waiters
  import Q = ArrayQueue

  /** A `FutureRef`, `FutureBlockedRefs` or `FutureExclusiveRef`. A waiter is a reference to one: the
      queue reaches its `registered` flag and its waker through it. */
  class FutureObject {
    const kind: Kind
    var registered: bool
    var woken: bool
    var done: bool
    var owns: bool

    ghost function Snapshot(): Future
      reads this
    {
      Waiters.Future(kind, registered, woken, done, owns)
    }

    constructor (kind: Kind, owns: bool)
      ensures Snapshot() == Waiters.Future(kind, false, true, false, owns)
    {
      this.kind := kind;
      registered, woken, done := false, true, false;
      this.owns := owns;
    }

    /** `Waiter::wake` */
    method Wake()
      modifies this
      ensures Snapshot() == old(Snapshot()).(registered := false, woken := true)
    {
      registered := false;
      woken := true;
    }
  }

  datatype MaybeFuture = Ready | Pending(future: FutureObject)

  /** Whether all four attempts of an acquisition fail spuriously. The contracts below say it in full. */
  predicate AllWeak(weak: seq<bool>)
    requires |weak| == 4
  {
    weak[0] && weak[1] && weak[2] && weak[3]
  }

  class RefCount {
    var count: nat
    const waiters: Q.ArrayQueue<FutureObject>
    ghost var futures: set<FutureObject>

    ghost predicate Valid()
      reads this, waiters, waiters.buffer
    {
      && count < WORD_SIZE && waiters.Valid()
      && forall f :: f in waiters.Contents() ==> f in futures
    }

    ghost function View(): World<FutureObject>
      requires Valid()
      reads this, waiters, waiters.buffer, futures
    {
      World(waiters.g.cap, count, waiters.Contents(), map f | f in futures :: f.Snapshot(), 0)
    }

    constructor (geometry: Geometry)
      requires geometry.Valid()
      ensures Valid() && fresh(waiters) && fresh(waiters.buffer)
      ensures View() == Init(geometry.cap)
      ensures count == 0 && waiters.Contents() == [] && waiters.g == geometry && futures == {}
    {
      count := 0;
      waiters := new Q.ArrayQueue<FutureObject>(geometry);
      futures := {};
    }

    /** `compare_exchange_weak` on the count, as in `weak_try_update_ref_count!`. */
    method CompareExchangeWeak(cur: nat, next: nat, weak: bool) returns (ok: bool, seen: nat)
      modifies this`count
      ensures ok <==> old(count) == cur && !weak
      ensures seen == old(count) && count == if ok then next else old(count)
    {
      seen := count;
      ok := count == cur && !weak;
      if ok {
        count := next;
      }
    }

    /** `many_weak_try_incr_refs!`: three attempts that reload on failure, and a last one. */
    method TryGetRef(weak: seq<bool>) returns (ok: bool)
      requires |weak| == 4 && count < WORD_SIZE
      modifies this`count
      ensures ok <==> old(count) % 2 == 0 && exists i :: 0 <= i < 4 && !weak[i]
      ensures count == if !ok then old(count) else if old(count) + 2 < 0x1_0000_0000 then old(count) + 2 else 0
      ensures ok <==> Succeeds(old(count), AllWeak(weak))
      ensures count == if ok then NextRef(old(count)) else old(count)
    {
      var cur := Masked(count);
      var next := NextRef(cur);
      var seen;
      ok, seen := CompareExchangeWeak(cur, next, weak[0]);
      if ok { return; }
      cur := Masked(seen);
      next := NextRef(cur);
      ok, seen := CompareExchangeWeak(cur, next, weak[1]);
      if ok { return; }
      cur := Masked(seen);
      next := NextRef(cur);
      ok, seen := CompareExchangeWeak(cur, next, weak[2]);
      if ok { return; }
      cur := Masked(seen);
      next := NextRef(cur);
      ok, seen := CompareExchangeWeak(cur, next, weak[3]);
    }

    method TryBlockRefs(weak: seq<bool>) returns (ok: bool)
      requires |weak| == 4 && count < WORD_SIZE
      modifies this`count
      ensures ok <==> old(count) % 2 == 0 && exists i :: 0 <= i < 4 && !weak[i]
      ensures count == if ok then old(count) + 1 else old(count)
      ensures ok <==> Succeeds(old(count), AllWeak(weak))
      ensures count < WORD_SIZE
    {
      var cur := Masked(count);
      var next := NextBlocked(cur);
      var seen;
      ok, seen := CompareExchangeWeak(cur, next, weak[0]);
      if ok { return; }
      cur := Masked(seen);
      next := NextBlocked(cur);
      ok, seen := CompareExchangeWeak(cur, next, weak[1]);
      if ok { return; }
      cur := Masked(seen);
      next := NextBlocked(cur);
      ok, seen := CompareExchangeWeak(cur, next, weak[2]);
      if ok { return; }
      cur := Masked(seen);
      next := NextBlocked(cur);
      ok, seen := CompareExchangeWeak(cur, next, weak[3]);
    }

    /** `Ref::drop` */
    method DropRef()
      requires count < WORD_SIZE
      modifies this`count
      ensures count == Dropped(old(count)) < WORD_SIZE
      ensures old(count) >= 2 ==> count == old(count) - 2
    {
      count := Dropped(count);
    }

    /** `f` is pending, due for its first poll, and nothing else differs from the view `w`. */
    ghost predicate NewlyPending(f: FutureObject, kind: Kind, owns: bool, w: World<FutureObject>)
      requires Valid()
      reads this, waiters, waiters.buffer, futures, f
    {
      && f.kind == kind && !f.registered && f.woken && !f.done && (f.owns <==> owns)
      && f !in w.futures && View().futures.Keys == w.futures.Keys + {f}
      && (forall g | g in w.futures :: View().futures[g] == w.futures[g])
      && View() == w.(futures := View().futures)
    }

    method NewFuture(kind: Kind, owns: bool) returns (f: FutureObject)
      requires Valid()
      modifies this`futures
      ensures Valid() && fresh(f) && NewlyPending(f, kind, owns, old(View()))
      ensures View() == Perform(old(View()), Create(f, kind, owns))
    {
      f := new FutureObject(kind, owns);
      futures := futures + {f};
      assert View().futures == old(View().futures)[f := f.Snapshot()];
    }

    method GetRef(weak: seq<bool>) returns (r: MaybeFuture)
      requires Valid() && |weak| == 4
      modifies this
      ensures Valid()
      ensures r.Ready? <==> old(count) % 2 == 0 && exists i :: 0 <= i < 4 && !weak[i]
      ensures r.Ready? ==> View() == old(View()).(word := NextRef(old(count)))
      ensures r.Pending? ==> fresh(r.future) && NewlyPending(r.future, RefFuture, false, old(View()))
      ensures r.Pending? ==> View() == Perform(old(View()), Create(r.future, RefFuture, false))
    {
      var ok := TryGetRef(weak);
      if ok {
        r := Ready;
      } else {
        var f := NewFuture(RefFuture, false);
        r := Pending(f);
      }
    }

    method BlockRefs(weak: seq<bool>) returns (r: MaybeFuture)
      requires Valid() && |weak| == 4
      modifies this
      ensures Valid()
      ensures r.Ready? <==> old(count) % 2 == 0 && exists i :: 0 <= i < 4 && !weak[i]
      ensures r.Ready? ==> View() == old(View()).(word := old(count) + 1)
      ensures r.Pending? ==> fresh(r.future) && NewlyPending(r.future, BlockedFuture, false, old(View()))
      ensures r.Pending? ==> View() == Perform(old(View()), Create(r.future, BlockedFuture, false))
    {
      var ok := TryBlockRefs(weak);
      if ok {
        r := Ready;
      } else {
        var f := NewFuture(BlockedFuture, false);
        r := Pending(f);
      }
    }

    /** A future that owns the block is returned when only the count stands in the way. */
    method GetExclusiveRef(weak: seq<bool>) returns (r: MaybeFuture)
      requires Valid() && |weak| == 4
      modifies this
      ensures Valid()
      ensures count == if old(count) % 2 == 0 && exists i :: 0 <= i < 4 && !weak[i] then old(count) + 1 else old(count)
      ensures r.Ready? <==> old(count) == 0 && count == 1
      ensures r.Ready? ==> View() == old(View()).(word := 1)
      ensures r.Pending? ==> fresh(r.future)
      ensures r.Pending? ==> var taken, w := count % 2 == 1 && old(count) % 2 == 0, old(View()).(word := count);
        && NewlyPending(r.future, ExclusiveFuture, taken, w)
        && View() == Perform(w, Create(r.future, ExclusiveFuture, taken))
    {
      var ok := TryBlockRefs(weak);
      ghost var w := old(View()).(word := count);
      assert View() == w;
      if ok && StandardCount(count) == 0 {
        r := Ready;
      } else {
        var f := NewFuture(ExclusiveFuture, ok);
        r := Pending(f);
      }
    }

    /** The view of a call of `unblock_refs` that still pops. */
    ghost function Draining(): World<FutureObject>
      requires Valid()
      reads this, waiters, waiters.buffer, futures
    {
      View().(drains := 1)
    }

    /** One turn of the drain loop. */
    method PopAndWake(weak: nat) returns (more: bool)
      requires Valid()
      modifies waiters, waiters.buffer, futures
      ensures Valid()
      ensures more <==> old(View()).queue != []
      ensures if more then Draining() == DrainOne(old(Draining())) else View() == old(View())
    {
      var r := waiters.Pop(weak);
      more := r.Taken?;
      if more {
        assert old(waiters.Contents()) == [r.item] + waiters.Contents();
        assert r.item in old(waiters.Contents());
        r.item.Wake();
        assert View().futures == old(View().futures)[r.item := r.item.Snapshot()];
      } else {
        assert View().futures == old(View().futures);
      }
    }

    method DrainQueue(weak: nat)
      requires Valid()
      modifies waiters, waiters.buffer, futures
      ensures Valid() && View() == DrainAll(old(Draining()))
    {
      ghost var goal := DrainAll(Draining());
      var more := PopAndWake(weak);
      assert goal == DrainAll(Draining());
      more := true;
      while more
        invariant Valid()
        invariant if more then goal == DrainAll(Draining()) else goal == View()
        decreases more, |View().queue|
      {
        more := PopAndWake(weak);
      }
    }

    /** Stores `REF_ALLOWED`, whatever the count, and wakes every waiter. */
    method UnblockRefs(weak: nat)
      requires Valid()
      modifies this`count, waiters, waiters.buffer, futures
      ensures Valid() && View() == DrainAll(StoreAllowed(old(View())))
      ensures Inv(old(View())) ==> Inv(View()) && Unblocked(old(View()), View())
      ensures Inv(old(View())) ==> forall f | f in View().futures && !View().futures[f].done :: View().futures[f].woken
    {
      ghost var before := View();
      count := REF_ALLOWED;
      assert Draining() == StoreAllowed(before);
      DrainQueue(weak);
      if Inv(before) {
        UnblockFreesAll(before);
      }
    }

    /** `ExclusiveRef::drop` */
    method DropExclusive(weak: nat)
      requires Valid() && count == REF_BLOCKED
      modifies this`count, waiters, waiters.buffer, futures
      ensures Valid() && View() == DrainAll(StoreAllowed(old(View()))) && count == old(count) - REF_BLOCKED
      ensures Inv(old(View())) ==> Inv(View()) && Unblocked(old(View()), View())
    {
      UnblockRefs(weak);
      DrainAllKeepsWord(StoreAllowed(old(View())));
    }

    /** Gives up after five counts. With references live, its unblock erases them from the word. */
    method TryGetExclusiveRef(weak: seq<bool>, popWeak: nat) returns (ok: bool)
      requires Valid() && |weak| == 4
      modifies this`count, waiters, waiters.buffer, futures
      ensures Valid()
      ensures var free := old(count) % 2 == 0 && exists i :: 0 <= i < 4 && !weak[i];
        && (ok <==> free && old(count) == 0)
        && (ok ==> View() == old(View()).(word := 1))
        && (!free ==> View() == old(View()))
        && (free && !ok ==> count == 0 && View() == DrainAll(StoreAllowed(old(View()))))
        && (free && !ok && Inv(old(View())) ==> Unblocked(old(View()), View()))
    {
      ghost var before := View();
      ok := TryBlockRefs(weak);
      if ok {
        for i := 0 to 5
          invariant Valid() && count == NextBlocked(old(count)) && View() == before.(word := count)
          invariant i > 0 ==> StandardCount(count) > 0
        {
          if StandardCount(count) == 0 {
            return true;
          }
        }
        UnblockRefs(popWeak);
        assert StoreAllowed(before.(word := NextBlocked(old(count)))) == StoreAllowed(before);
        DrainAllKeepsWord(StoreAllowed(before));
        if Inv(before) {
          UnblockFreesAll(before);
        }
        ok := false;
      } else {
        assert View() == before;
      }
    }

    // ---- futures ----

    /** `try_register_future!` */
    method RegisterFuture(f: FutureObject, weak: nat)
      requires Valid() && f in futures
      modifies waiters, waiters.buffer, f
      ensures Valid() && View() == TryRegister(old(View()), f)
      ensures if old(f.registered)
        then f.registered && f.woken == old(f.woken) && waiters.Contents() == old(waiters.Contents())
        else if |old(waiters.Contents())| < waiters.g.cap
        then f.registered && f.woken == old(f.woken) && waiters.Contents() == old(waiters.Contents()) + [f]
        else !f.registered && f.woken && waiters.Contents() == old(waiters.Contents())
    {
      assert f.Snapshot() == View().futures[f];
      if !f.registered {
        var r := waiters.Push(f, weak);
        if r.Accepted? {
          f.registered := true;
          assert View().futures == old(View().futures)[f := f.Snapshot()];
        } else {
          f.Wake();
          assert View().futures == old(View().futures)[f := f.Snapshot()];
        }
      }
    }

    method SetFuture(f: FutureObject, woken: bool, done: bool, owns: bool)
      requires Valid() && f in futures
      modifies f
      ensures Valid()
      ensures View() == Set(old(View()), f, old(f.Snapshot()).(woken := woken, done := done, owns := owns))
    {
      f.woken := woken;
      f.done := done;
      f.owns := owns;
      assert View().futures == old(View().futures)[f := f.Snapshot()];
    }

    /** `try_get_ref` of a poll. */
    method TryGetRefInPoll(weak: seq<bool>) returns (ok: bool)
      requires Valid() && |weak| == 4
      modifies this`count
      ensures Valid() && ok == Succeeds(old(count), AllWeak(weak))
      ensures View() == if ok then old(View()).(word := NextRef(old(count))) else old(View())
    {
      ok := TryGetRef(weak);
      assert View().futures == old(View().futures);
    }

    /** `FutureRef::poll` */
    method PollRefFuture(f: FutureObject, weak: seq<bool>, pushWeak: nat)
      requires Valid() && f in futures && |weak| == 4
      modifies this`count, waiters, waiters.buffer, f
      ensures Valid() && View() == PollRef(old(View()), f, AllWeak(weak))
    {
      if IsBlocked(count) {
        RegisterFuture(f, pushWeak);
      } else {
        var ok := TryGetRefInPoll(weak);
        assert f.Snapshot() == View().futures[f];
        if ok {
          SetFuture(f, f.woken, true, f.owns);
        } else {
          SetFuture(f, true, f.done, f.owns);
        }
      }
    }

    method NotBlockedYetFuture(f: FutureObject, pushWeak: nat)
      requires Valid() && f in futures
      modifies waiters, waiters.buffer, f
      ensures Valid() && View() == NotBlockedYet(old(View()), f)
    {
      if IsBlocked(count) {
        RegisterFuture(f, pushWeak);
      } else {
        assert f.Snapshot() == View().futures[f];
        SetFuture(f, true, f.done, f.owns);
      }
    }

    /** `try_block_refs` of a poll. */
    method TryBlockRefsInPoll(weak: seq<bool>) returns (ok: bool)
      requires Valid() && |weak| == 4
      modifies this`count
      ensures Valid() && ok == Succeeds(old(count), AllWeak(weak))
      ensures View() == if ok then old(View()).(word := NextBlocked(old(count))) else old(View())
    {
      ok := TryBlockRefs(weak);
      assert View().futures == old(View().futures);
    }

    /** `FutureBlockedRefs::poll` */
    method PollBlockedFuture(f: FutureObject, weak: seq<bool>, pushWeak: nat)
      requires Valid() && f in futures && |weak| == 4
      modifies this`count, waiters, waiters.buffer, f
      ensures Valid() && View() == PollBlocked(old(View()), f, AllWeak(weak))
    {
      var ok := TryBlockRefsInPoll(weak);
      if ok {
        assert f.Snapshot() == View().futures[f];
        SetFuture(f, f.woken, true, f.owns);
      } else {
        NotBlockedYetFuture(f, pushWeak);
      }
    }

    /** The count check of `FutureExclusiveRef::poll`. */
    method CheckDrainedFuture(f: FutureObject)
      requires Valid() && f in futures
      modifies f
      ensures Valid() && View() == CheckDrained(old(View()), f)
    {
      assert f.Snapshot() == View().futures[f];
      if StandardCount(count) == 0 {
        SetFuture(f, f.woken, true, f.owns);
      } else {
        SetFuture(f, true, f.done, f.owns);
      }
    }

    /** `FutureExclusiveRef::poll` */
    method PollExclusiveFuture(f: FutureObject, weak: seq<bool>, pushWeak: nat)
      requires Valid() && f in futures && |weak| == 4
      modifies this`count, waiters, waiters.buffer, f
      ensures Valid() && View() == PollExclusive(old(View()), f, AllWeak(weak))
    {
      assert f.Snapshot() == View().futures[f];
      if !f.owns {
        var ok := TryBlockRefsInPoll(weak);
        if !ok {
          NotBlockedYetFuture(f, pushWeak);
          return;
        }
        SetFuture(f, f.woken, f.done, true);
      }
      CheckDrainedFuture(f);
    }

    /** Where a poll leaves a future that is not ready. */
    twostate predicate Waits(f: FutureObject)
      requires old(Valid()) && Valid()
      reads this, waiters, waiters.buffer, f
    {
      var owned := f.kind.ExclusiveFuture? && f.owns;
      if old(count) % 2 == 0 || owned
      then f.woken && f.registered == old(f.registered) && waiters.Contents() == old(waiters.Contents())
      else if old(f.registered)
      then !f.woken && f.registered && waiters.Contents() == old(waiters.Contents())
      else if |old(waiters.Contents())| < waiters.g.cap
      then !f.woken && f.registered && waiters.Contents() == old(waiters.Contents()) + [f]
      else f.woken && !f.registered && waiters.Contents() == old(waiters.Contents())
    }

    method PollByKind(f: FutureObject, weak: seq<bool>, pushWeak: nat)
      requires Valid() && f in futures && !f.done && |weak| == 4
      modifies this`count, waiters, waiters.buffer, f
      ensures Valid() && View() == Perform(old(View()), Waiters.Poll(f, AllWeak(weak)))
    {
      assert View().futures[f] == f.Snapshot();
      SetFuture(f, false, f.done, f.owns);
      match f.kind {
        case RefFuture => PollRefFuture(f, weak, pushWeak);
        case BlockedFuture => PollBlockedFuture(f, weak, pushWeak);
        case ExclusiveFuture => PollExclusiveFuture(f, weak, pushWeak);
      }
    }

    /** The executor polls a future once. What it takes and when it is ready, where it waits otherwise; and
        registration stays exact and no wake-up is lost. */
    method Poll(f: FutureObject, weak: seq<bool>, pushWeak: nat) returns (ready: bool)
      requires Valid() && f in futures && !f.done && |weak| == 4
      modifies this`count, waiters, waiters.buffer, f
      ensures Valid() && ready == f.done
      ensures var free := old(count) % 2 == 0 && exists i :: 0 <= i < 4 && !weak[i];
        match f.kind
        case RefFuture => (ready <==> free) && count == if free then NextRef(old(count)) else old(count)
        case BlockedFuture => (ready <==> free) && count == if free then old(count) + 1 else old(count)
        case ExclusiveFuture =>
          && (f.owns <==> old(f.owns) || free) && (ready <==> f.owns && old(count) / 2 == 0)
          && count == if free && !old(f.owns) then old(count) + 1 else old(count)
      ensures if ready then waiters.Contents() == old(waiters.Contents()) && !f.woken else Waits(f)
      ensures View() == Perform(old(View()), Waiters.Poll(f, AllWeak(weak)))
      ensures Inv(old(View())) ==> Inv(View())
    {
      hide Inv, Perform;
      ghost var before := View();
      assert before.futures[f] == f.Snapshot();
      PollByKind(f, weak, pushWeak);
      ready := f.done;
      assert View().futures[f] == f.Snapshot();
      PollGains(before, f, AllWeak(weak));
      PollLeaves(before, f, AllWeak(weak));
      if Inv(before) {
        StepKeeps(before, Waiters.Poll(f, AllWeak(weak)));
      }
    }
  }

  lemma {:induction false} DrainAllKeepsWord<F>(w: World<F>)
    requires w.drains > 0 && Runnable(w)
    ensures DrainAll(w).word == w.word
    decreases |w.queue|
  {
    if w.queue != [] {
      DrainAllKeepsWord(DrainOne(w));
    }
  }
}
