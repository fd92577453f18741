/**
 * PooledTouchInput: the producer `OnTouch`, which turns each raw notification
 * into pooled events appended to the buffered list and updates the
 * per-pointer flags, and the once-per-frame coalescer `Update`, which keeps
 * one event per pointer and hands every leftover event back to the pool.
 */
module TouchInput {
  import opened Wrappers
  import opened TouchEvents
  import opened EventLists
  import opened Pools
  import opened TouchSpec

  /** Capacity of the event pool. */
  const POOL_SIZE: nat := 40

  /** What onTouch does with a notification: consumes it (returns true) or fails its assertion. */
  datatype Outcome = Consumed | AssertionFailure

  /** The selected event as a list of zero or one elements. */
  function Chosen(sel: Option<Handle>): (r: seq<Handle>)
    ensures sel.Some? ==> r == [sel.value]
    ensures sel.None? ==> r == []
  {
    match sel
    case Some(e) => [e]
    case None => []
  }

  /** The index of the first event of pointer p and type k in `list`, or -1. */
  method IndexOfFirst(store: seq<TouchEvent>, list: seq<Handle>, p: int, k: TouchType) returns (i: int)
    requires InStore(store, list)
    ensures i == FirstIndex(Values(store, list), p, k)
  {
    i := 0;
    while i < |list|
      invariant 0 <= i <= |list|
      invariant forall j :: 0 <= j < i ==> !Matches(store[list[j]], p, k)
    {
      if store[list[i]].pointer == p && store[list[i]].kind == k {
        return;
      }
      i := i + 1;
    }
    i := -1;
  }

  /** The index of the last event of pointer p and type k in `list`, or -1. */
  method IndexOfLast(store: seq<TouchEvent>, list: seq<Handle>, p: int, k: TouchType) returns (latest: int)
    requires InStore(store, list)
    ensures latest == LastIndex(Values(store, list), p, k)
  {
    latest := -1;
    var i := 0;
    while i < |list|
      invariant 0 <= i <= |list|
      invariant -1 <= latest < i
      invariant latest >= 0 ==> Matches(store[list[latest]], p, k)
      invariant forall j :: latest < j < i ==> !Matches(store[list[j]], p, k)
    {
      if store[list[i]].pointer == p && store[list[i]].kind == k {
        latest := i;
      }
      i := i + 1;
    }
  }

  /** Sets every element of `a` to false. */
  method ClearFlags(a: array<bool>)
    modifies a
    ensures forall q :: 0 <= q < a.Length ==> !a[q]
  {
    var q := 0;
    while q < a.Length
      invariant 0 <= q <= a.Length
      invariant forall j :: 0 <= j < q ==> !a[j]
    {
      a[q] := false;
      q := q + 1;
    }
  }

  lemma InStoreWithout(store: seq<TouchEvent>, s: seq<Handle>, drop: set<Handle>)
    requires InStore(store, s)
    ensures InStore(store, Without(s, drop))
  {
    var r := Without(s, drop);
    forall i | 0 <= i < |r| ensures r[i] < |store| {
      assert r[i] in r;
    }
  }

  /** Dropping events of other pointers leaves the events of pointer q alone. */
  lemma {:induction false} OfPointerWithout(store: seq<TouchEvent>, s: seq<Handle>, drop: set<Handle>, q: int)
    requires InStore(store, s)
    requires forall i :: 0 <= i < |s| && s[i] in drop ==> store[s[i]].pointer != q
    ensures InStore(store, Without(s, drop))
    ensures OfPointer(Values(store, Without(s, drop)), q) == OfPointer(Values(store, s), q)
  {
    InStoreWithout(store, s, drop);
    if s != [] {
      var head := if s[0] in drop then [] else [s[0]];
      var tail := Without(s[1..], drop);
      OfPointerWithout(store, s[1..], drop, q);
      assert Without(s, drop) == head + tail;
      ValuesConcat(store, head, tail);
      OfPointerConcat(Values(store, head), Values(store, tail), q);
      assert s == [s[0]] + s[1..];
      ValuesConcat(store, [s[0]], s[1..]);
      OfPointerConcat(Values(store, [s[0]]), Values(store, s[1..]), q);
      OfPointerSingle(store[s[0]], q);
    }
  }

  lemma PrefixIn(a: seq<Handle>, b: seq<Handle>)
    requires a <= b
    ensures forall e :: e in a ==> e in b
  {
    forall e | e in a ensures e in b {
      var i :| 0 <= i < |a| && a[i] == e;
      assert b[i] == e;
    }
  }

  lemma DistinctPrefix(a: seq<Handle>, b: seq<Handle>)
    requires a <= b && Distinct(b)
    ensures Distinct(a)
  {
    forall i, j | 0 <= i < j < |a| ensures a[i] != a[j] {
      assert a[i] == b[i] && a[j] == b[j];
    }
  }

  /**
   * Ownership of event objects: none occurs twice in the buffered list, the
   * filtered list or the free-list, and none is in two of them.
   */
  predicate Owned(buf: seq<Handle>, filt: seq<Handle>, free: seq<Handle>) {
    Distinct(buf) && Distinct(filt) && Distinct(free)
    && Disjoint(buf, filt) && Disjoint(buf, free) && Disjoint(filt, free)
  }

  /** Handing out the last object of the free-list keeps ownership. */
  lemma OwnedShrink(buf: seq<Handle>, filt: seq<Handle>, free: seq<Handle>, free0: seq<Handle>)
    requires Owned(buf, filt, free0) && free <= free0
    ensures Owned(buf, filt, free)
  {
    PrefixIn(free, free0);
    DistinctPrefix(free, free0);
  }

  /** Appending an object that no list holds keeps ownership. */
  lemma OwnedAppend(buf: seq<Handle>, filt: seq<Handle>, free: seq<Handle>, e: Handle)
    requires Owned(buf, filt, free)
    requires e !in buf && e !in filt && e !in free
    ensures Owned(buf + [e], filt, free)
  {
    forall i, j | 0 <= i < j < |buf + [e]| ensures (buf + [e])[i] != (buf + [e])[j] {
      if j == |buf| {
        assert (buf + [e])[i] == buf[i];
      }
    }
  }

  /** The pointers of a prefix one longer are those of the prefix and one more. */
  lemma MoveEventsSnoc(v: View, max: nat, ptrs: seq<Pointer>, i: nat)
    requires i < |ptrs|
    ensures MoveEvents(v, max, ptrs[..i + 1]) ==
      MoveEvents(v, max, ptrs[..i]) + if ptrs[i].id < max then [EventAt(v, ptrs[i], TouchDragged)] else []
  {
    assert ptrs[..i + 1][..i] == ptrs[..i];
  }

  /** The flags of pointer q after a move that lists the pointers `ptrs`. */
  function MovedSlot(ptrs: seq<Pointer>, q: nat, s: Slot): Slot {
    if Touches(ptrs, q) then OnMove(s) else s
  }

  /** One more pointer moves only its own flags, and moving twice is moving once. */
  lemma MovedSlotSnoc(ptrs: seq<Pointer>, i: nat)
    requires i < |ptrs|
    ensures forall q: nat, s ::
      MovedSlot(ptrs[..i + 1], q, s) == if q == ptrs[i].id then OnMove(MovedSlot(ptrs[..i], q, s)) else MovedSlot(ptrs[..i], q, s)
  {
    TouchesSnoc(ptrs, i);
  }

  lemma TouchesSnoc(ptrs: seq<Pointer>, i: nat)
    requires i < |ptrs|
    ensures forall r :: Touches(ptrs[..i + 1], r) <==> Touches(ptrs[..i], r) || ptrs[i].id == r
  {
    forall r ensures Touches(ptrs[..i + 1], r) <==> Touches(ptrs[..i], r) || ptrs[i].id == r {
      if ptrs[i].id == r {
        assert ptrs[..i + 1][i] == ptrs[i];
      }
      if Touches(ptrs[..i], r) {
        var j :| 0 <= j < i && ptrs[..i][j].id == r;
        assert ptrs[..i + 1][j].id == r;
      }
    }
  }

  /**
   * The events already selected keep their values while the next selection
   * rewrites only events of the free-list, so the selected list grows by
   * exactly the new selection.
   */
  lemma SelectedGrow(store0: seq<TouchEvent>, store1: seq<TouchEvent>, temp: seq<Handle>, chosen: seq<Handle>, free0: seq<Handle>)
    requires InStore(store0, temp) && Disjoint(temp, free0) && InStore(store1, chosen)
    requires |store0| <= |store1|
    requires forall h :: 0 <= h < |store0| && h !in free0 ==> store1[h] == store0[h]
    ensures InStore(store1, temp + chosen)
    ensures Values(store1, temp + chosen) == Values(store0, temp) + Values(store1, chosen)
  {
    forall h | h in temp ensures store1[h] == store0[h] {
      var i :| 0 <= i < |temp| && temp[i] == h;
    }
    ValuesAgree(store1, store0, temp);
    ValuesConcat(store1, temp, chosen);
  }

  /** Growing the selected list by an event taken from the lists, the free-list or the store's end keeps it apart from them. */
  lemma SelectedOwned(temp: seq<Handle>, chosen: seq<Handle>, buf0: seq<Handle>, filt0: seq<Handle>, free0: seq<Handle>,
                      buf1: seq<Handle>, filt1: seq<Handle>, free1: seq<Handle>, size: nat)
    requires Distinct(temp) && Disjoint(temp, buf0) && Disjoint(temp, filt0) && Disjoint(temp, free0)
    requires forall h :: h in temp ==> h < size
    requires |chosen| <= 1
    requires forall h :: h in chosen ==> h in buf0 || h in filt0 || h in free0 || h == size
    requires forall h :: h in chosen ==> h !in buf1 && h !in filt1 && h !in free1
    requires forall h :: h in buf1 ==> h in buf0
    requires forall h :: h in filt1 ==> h in filt0
    requires free1 <= free0
    ensures Distinct(temp + chosen)
    ensures Disjoint(temp + chosen, buf1) && Disjoint(temp + chosen, filt1) && Disjoint(temp + chosen, free1)
  {
    PrefixIn(free1, free0);
    assert Disjoint(temp, chosen);
    DistinctConcat(temp, chosen);
  }

  /**
   * The state of update()'s selection loop after the first p pointers: `temp`
   * holds their selections, which left the buffered and filtered lists, and
   * the lists of the pointers still to serve are as they were (`buf0`, `prev0`).
   */
  ghost predicate SelectedState(p: nat, temp: seq<Handle>, store: seq<TouchEvent>, buf: seq<Handle>, filt: seq<Handle>, free: seq<Handle>,
                                down: seq<bool>, up: seq<bool>, dragged: seq<bool>, buf0: seq<TouchEvent>, prev0: seq<TouchEvent>,
                                bh0: seq<Handle>, fh0: seq<Handle>, free0: seq<Handle>)
  {
    p <= |down| && p <= |up| && p <= |dragged|
    && InStore(store, buf) && InStore(store, filt)
    && InStore(store, temp) && Distinct(temp)
    && Disjoint(temp, buf) && Disjoint(temp, filt) && Disjoint(temp, free)
    && Values(store, temp) == Coalesce(p, down, up, dragged, buf0, prev0)
    && buf == Without(bh0, Elems(temp))
    && filt == Without(fh0, Elems(temp))
    && free <= free0
    && (forall q :: p <= q ==> OfPointer(Values(store, buf), q) == OfPointer(buf0, q))
    && (forall q :: p <= q ==> OfPointer(Values(store, filt), q) == OfPointer(prev0, q))
  }

  /** Before the selection loop nothing is selected and every pointer is still to be served. */
  lemma SelectedStart(store: seq<TouchEvent>, buf: seq<Handle>, filt: seq<Handle>, free: seq<Handle>,
                      down: seq<bool>, up: seq<bool>, dragged: seq<bool>)
    requires InStore(store, buf) && InStore(store, filt)
    ensures SelectedState(0, [], store, buf, filt, free, down, up, dragged,
                          Values(store, buf), Values(store, filt), buf, filt, free)
  {
    assert Elems([]) == {};
    WithoutNothing(buf, {});
    WithoutNothing(filt, {});
  }

  /** One round of the selection loop: serving pointer p with selection `chosen` keeps the loop's state. */
  lemma SelectStep(p: nat, temp: seq<Handle>, chosen: seq<Handle>,
                   store1: seq<TouchEvent>, buf1: seq<Handle>, filt1: seq<Handle>, free1: seq<Handle>,
                   store: seq<TouchEvent>, buf: seq<Handle>, filt: seq<Handle>, free: seq<Handle>,
                   down: seq<bool>, up: seq<bool>, dragged: seq<bool>, buf0: seq<TouchEvent>, prev0: seq<TouchEvent>,
                   bh0: seq<Handle>, fh0: seq<Handle>, free0: seq<Handle>)
    requires p < |down| && p < |up| && p < |dragged|
    requires SelectedState(p, temp, store1, buf1, filt1, free1, down, up, dragged, buf0, prev0, bh0, fh0, free0)
    requires InStore(store, buf) && InStore(store, filt) && InStore(store, chosen) && |chosen| <= 1
    requires Values(store, chosen) == Opt(Pick(p, down[p], up[p], dragged[p], Values(store1, buf1), Values(store1, filt1)))
    requires buf == Without(buf1, Elems(chosen)) && filt == Without(filt1, Elems(chosen))
    requires forall h :: h in chosen ==> h !in buf && h !in filt && h !in free
    requires forall h :: h in chosen ==> h in buf1 || h in filt1 || h in free1 || h == |store1|
    requires free <= free1 && |store1| <= |store|
    requires forall h :: 0 <= h < |store1| && h !in free1 ==> store[h] == store1[h]
    requires forall q :: q != p ==> OfPointer(Values(store, buf), q) == OfPointer(Values(store1, buf1), q)
    requires forall q :: q != p ==> OfPointer(Values(store, filt), q) == OfPointer(Values(store1, filt1), q)
    ensures SelectedState(p + 1, temp + chosen, store, buf, filt, free, down, up, dragged, buf0, prev0, bh0, fh0, free0)
  {
    StepValues(p, temp, chosen, store1, buf1, filt1, free1, store, down, up, dragged, buf0, prev0);
    SelectedOwned(temp, chosen, buf1, filt1, free1, buf, filt, free, |store1|);
    StepLists(bh0, buf1, temp, chosen);
    StepLists(fh0, filt1, temp, chosen);
  }

  /** The selected list grows by the selection for pointer p, the next element of the coalesced list. */
  lemma StepValues(p: nat, temp: seq<Handle>, chosen: seq<Handle>,
                   store1: seq<TouchEvent>, buf1: seq<Handle>, filt1: seq<Handle>, free1: seq<Handle>, store: seq<TouchEvent>,
                   down: seq<bool>, up: seq<bool>, dragged: seq<bool>, buf0: seq<TouchEvent>, prev0: seq<TouchEvent>)
    requires p < |down| && p < |up| && p < |dragged|
    requires InStore(store1, buf1) && InStore(store1, filt1) && InStore(store1, temp) && Disjoint(temp, free1)
    requires Values(store1, temp) == Coalesce(p, down, up, dragged, buf0, prev0)
    requires OfPointer(Values(store1, buf1), p) == OfPointer(buf0, p)
    requires OfPointer(Values(store1, filt1), p) == OfPointer(prev0, p)
    requires InStore(store, chosen)
    requires Values(store, chosen) == Opt(Pick(p, down[p], up[p], dragged[p], Values(store1, buf1), Values(store1, filt1)))
    requires |store1| <= |store|
    requires forall h :: 0 <= h < |store1| && h !in free1 ==> store[h] == store1[h]
    ensures InStore(store, temp + chosen)
    ensures Values(store, temp + chosen) == Coalesce(p + 1, down, up, dragged, buf0, prev0)
  {
    PickLocal(p, down[p], up[p], dragged[p], Values(store1, buf1), Values(store1, filt1), buf0, prev0);
    SelectedGrow(store1, store, temp, chosen, free1);
  }

  /** Removing the selections one round at a time is removing them all at once. */
  lemma StepLists(l0: seq<Handle>, l1: seq<Handle>, temp: seq<Handle>, chosen: seq<Handle>)
    requires l1 == Without(l0, Elems(temp))
    ensures Without(l1, Elems(chosen)) == Without(l0, Elems(temp + chosen))
  {
    WithoutTwice(l0, Elems(temp), Elems(chosen));
    assert Elems(temp + chosen) == Elems(temp) + Elems(chosen);
  }

  /**
   * Recycling the leftover filtered and then buffered events into a free-list
   * keeps every event in at most one place, with the selected events kept apart.
   */
  lemma RecycleOwned(store: seq<TouchEvent>, temp: seq<Handle>, buf: seq<Handle>, filt: seq<Handle>, free: seq<Handle>)
    requires Owned(buf, filt, free) && |free| <= POOL_SIZE
    requires InStore(store, buf) && InStore(store, filt) && InStore(store, free)
    requires Distinct(temp) && Disjoint(temp, buf) && Disjoint(temp, filt) && Disjoint(temp, free)
    ensures Owned([], temp, BoundedAppend(BoundedAppend(free, filt, POOL_SIZE), buf, POOL_SIZE))
    ensures InStore(store, BoundedAppend(BoundedAppend(free, filt, POOL_SIZE), buf, POOL_SIZE))
  {
    var f := BoundedAppend(BoundedAppend(free, filt, POOL_SIZE), buf, POOL_SIZE);
    BoundedAppendTwice(free, filt, buf, POOL_SIZE);
    var all := free + (filt + buf);
    DistinctConcat(filt, buf);
    DistinctConcat(free, filt + buf);
    ValuesConcat(store, filt, buf);
    ValuesConcat(store, free, filt + buf);
    DistinctPrefix(f, all);
    PrefixIn(f, all);
    forall i | 0 <= i < |f| ensures f[i] < |store| {
      assert f[i] == all[i];
    }
  }

  class PooledTouchInput {
    const scaleFactor: real
    const maxTouchPositions: nat
    var viewX: real
    var viewY: real
    /** The value every event object made so far holds, indexed by handle. */
    var events: seq<TouchEvent>
    const pool: Pool<Handle>
    var filteredEvents: seq<Handle>
    var bufferedEvents: seq<Handle>
    const touchDown: array<bool>
    const touchUp: array<bool>
    const touchDragged: array<bool>

    /**
     * One flag per pointer in each array; every listed event exists; no event
     * object is in two of the buffered list, the filtered list and the pool's
     * free-list, nor twice in one of them; a pointer is never both pressed and
     * released.
     */
    ghost predicate Valid()
      reads this, pool, touchDown, touchUp
    {
      touchDown.Length == maxTouchPositions && touchUp.Length == maxTouchPositions
      && touchDragged.Length == maxTouchPositions
      && touchDown != touchUp && touchDown != touchDragged && touchUp != touchDragged
      && pool.Valid() && pool.maxSize == POOL_SIZE
      && InStore(events, bufferedEvents) && InStore(events, filteredEvents) && InStore(events, pool.freeObjects)
      && Owned(bufferedEvents, filteredEvents, pool.freeObjects)
      && forall q :: 0 <= q < maxTouchPositions ==> !(touchDown[q] && touchUp[q])
    }

    /** The values of the buffered events. */
    ghost function Buffered(): seq<TouchEvent>
      requires InStore(events, bufferedEvents)
      reads this`events, this`bufferedEvents
    {
      Values(events, bufferedEvents)
    }

    /** The values of the filtered events. */
    ghost function Filtered(): seq<TouchEvent>
      requires InStore(events, filteredEvents)
      reads this`events, this`filteredEvents
    {
      Values(events, filteredEvents)
    }

    /** The three flags of pointer q. */
    function SlotOf(q: nat): Slot
      requires q < touchDown.Length && q < touchUp.Length && q < touchDragged.Length
      reads touchDown, touchUp, touchDragged
    {
      Slot(touchDown[q], touchUp[q], touchDragged[q])
    }

    constructor (scaleFactor: real, maxTouchPositions: nat)
      ensures Valid() && OnePerPointer(Filtered(), maxTouchPositions)
      ensures this.scaleFactor == scaleFactor && this.maxTouchPositions == maxTouchPositions
      ensures viewX == 0.0 && viewY == 0.0
      ensures bufferedEvents == [] && filteredEvents == [] && pool.freeObjects == []
      ensures forall q :: 0 <= q < maxTouchPositions ==> SlotOf(q) == Slot(false, false, false)
      ensures fresh(pool) && fresh(touchDown) && fresh(touchUp) && fresh(touchDragged)
    {
      this.scaleFactor := scaleFactor;
      this.maxTouchPositions := maxTouchPositions;
      viewX, viewY := 0.0, 0.0;
      events := [];
      pool := new Pool(POOL_SIZE);
      filteredEvents, bufferedEvents := [], [];
      touchDown := new bool[maxTouchPositions](_ => false);
      touchUp := new bool[maxTouchPositions](_ => false);
      touchDragged := new bool[maxTouchPositions](_ => false);
    }

    /** fixBoundsX: snaps a scaled x into [0, viewX * scaleFactor]. */
    function FixBoundsX(x: real): (r: real)
      reads this`viewX
      ensures 0.0 <= viewX * scaleFactor ==> 0.0 <= r <= viewX * scaleFactor
      ensures 0.0 <= x <= viewX * scaleFactor ==> r == x
      ensures x < 0.0 ==> r == 0.0
    {
      Clamp(x, viewX * scaleFactor)
    }

    /** fixBoundsY: snaps a scaled y into [0, viewY * scaleFactor]. */
    function FixBoundsY(y: real): (r: real)
      reads this`viewY
      ensures 0.0 <= viewY * scaleFactor ==> 0.0 <= r <= viewY * scaleFactor
      ensures 0.0 <= y <= viewY * scaleFactor ==> r == y
      ensures y < 0.0 ==> r == 0.0
    {
      Clamp(y, viewY * scaleFactor)
    }

    /**
     * getTouchEvent: the pool's most recently recycled event, or a new one
     * when the pool is empty, overwritten with the given fields.
     */
    method GetTouchEvent(pointer: int, x: real, y: real, kind: TouchType) returns (e: Handle)
      requires Valid()
      modifies this`events, pool
      ensures Valid()
      ensures e < |events| && events[e] == TouchEvent(pointer, x, y, kind)
      ensures old(pool.freeObjects) == [] ==>
        e == old(|events|) && events == old(events) + [TouchEvent(pointer, x, y, kind)] && pool.freeObjects == []
      ensures old(pool.freeObjects) != [] ==>
        e == old(pool.freeObjects)[|old(pool.freeObjects)| - 1]
        && events == old(events)[e := TouchEvent(pointer, x, y, kind)]
        && pool.freeObjects == old(pool.freeObjects)[..|old(pool.freeObjects)| - 1]
      ensures e !in bufferedEvents && e !in filteredEvents && e !in pool.freeObjects
      ensures pool.freeObjects == Drained(old(pool.freeObjects), 1)
      ensures Buffered() == old(Buffered()) && Filtered() == old(Filtered())
    {
      var made := |events|;
      e := pool.GetRecycledObject(made);
      if e == made {
        // the factory's new TouchEvent(-1, -1, -1, NOT_TOUCHING)
        events := events + [TouchEvent(-1, -1.0, -1.0, NotTouching)];
        ValuesGrow(old(events), bufferedEvents, TouchEvent(-1, -1.0, -1.0, NotTouching));
        ValuesGrow(old(events), filteredEvents, TouchEvent(-1, -1.0, -1.0, NotTouching));
      }
      ValuesUpdate(events, bufferedEvents, e, TouchEvent(pointer, x, y, kind));
      ValuesUpdate(events, filteredEvents, e, TouchEvent(pointer, x, y, kind));
      events := events[e := TouchEvent(pointer, x, y, kind)];
      OwnedShrink(bufferedEvents, filteredEvents, pool.freeObjects, old(pool.freeObjects));
    }

    /** Makes the event for pointer q and appends it to the buffered list. */
    method BufferEvent(q: Pointer, kind: TouchType)
      requires Valid()
      modifies this`bufferedEvents, this`events, pool
      ensures Valid()
      ensures Buffered() == old(Buffered()) + [EventAt(View(viewX, viewY, scaleFactor), q, kind)]
      ensures Filtered() == old(Filtered())
      ensures old(bufferedEvents) <= bufferedEvents
      ensures pool.freeObjects == Drained(old(pool.freeObjects), 1)
    {
      var ev := EventAt(View(viewX, viewY, scaleFactor), q, kind);
      var e := GetTouchEvent(ev.pointer, ev.x, ev.y, ev.kind);
      OwnedAppend(bufferedEvents, filteredEvents, pool.freeObjects, e);
      ValuesConcat(events, bufferedEvents, [e]);
      bufferedEvents := bufferedEvents + [e];
    }

    /**
     * onTouch. An action whose pointer id is out of range changes nothing;
     * otherwise the produced events are appended and the flags of the
     * pointers involved take their next values.
     */
    method OnTouch(action: Action) returns (outcome: Outcome)
      requires Valid()
      modifies this`bufferedEvents, this`events, pool, touchDown, touchUp, touchDragged
      ensures Valid()
      ensures outcome == if action.Other? && action.Id() < maxTouchPositions then AssertionFailure else Consumed
      ensures Buffered() == old(Buffered()) + Produced(View(viewX, viewY, scaleFactor), maxTouchPositions, action)
      ensures Filtered() == old(Filtered())
      ensures old(bufferedEvents) <= bufferedEvents
      ensures pool.freeObjects == Drained(old(pool.freeObjects), |Produced(View(viewX, viewY, scaleFactor), maxTouchPositions, action)|)
      ensures forall q :: 0 <= q < maxTouchPositions ==> SlotOf(q) == Step(action, maxTouchPositions, q, old(SlotOf(q)))
      ensures action.Id() >= maxTouchPositions ==>
        bufferedEvents == old(bufferedEvents) && events == old(events) && pool.freeObjects == old(pool.freeObjects)
    {
      outcome := Consumed;
      if action.Id() >= maxTouchPositions {
        return;
      }
      match action
      case Down(p) =>
        BufferEvent(p, TouchDown);
        if !touchUp[p.id] {
          touchDown[p.id] := true;
        }
        touchDragged[p.id] := true;
      case Up(p) =>
        BufferEvent(p, TouchUp);
        touchDown[p.id] := false;
        touchUp[p.id] := true;
        touchDragged[p.id] := false;
      case Move(first, others) =>
        MoveAll([first] + others);
      case Other(_) =>
        outcome := AssertionFailure;
    }

    /** One pass of the ACTION_MOVE loop: a drag event and the flags of one pointer. */
    method MoveOne(q: Pointer)
      requires Valid()
      modifies this`bufferedEvents, this`events, pool, touchDragged
      ensures Valid()
      ensures Buffered() == old(Buffered()) +
        if q.id < maxTouchPositions then [EventAt(View(viewX, viewY, scaleFactor), q, TouchDragged)] else []
      ensures Filtered() == old(Filtered())
      ensures old(bufferedEvents) <= bufferedEvents
      ensures pool.freeObjects == Drained(old(pool.freeObjects), if q.id < maxTouchPositions then 1 else 0)
      ensures forall r :: 0 <= r < maxTouchPositions ==>
        SlotOf(r) == if r == q.id then OnMove(old(SlotOf(r))) else old(SlotOf(r))
    {
      if q.id >= maxTouchPositions {
        return;
      }
      BufferEvent(q, TouchDragged);
      if !touchDown[q.id] {
        touchDragged[q.id] := true;
      }
    }

    /** The loop of ACTION_MOVE: one drag event per in-range pointer of the notification. */
    method MoveAll(ptrs: seq<Pointer>)
      requires Valid()
      modifies this`bufferedEvents, this`events, pool, touchDragged
      ensures Valid()
      ensures Buffered() == old(Buffered()) + MoveEvents(View(viewX, viewY, scaleFactor), maxTouchPositions, ptrs)
      ensures Filtered() == old(Filtered())
      ensures old(bufferedEvents) <= bufferedEvents
      ensures pool.freeObjects == Drained(old(pool.freeObjects), |MoveEvents(View(viewX, viewY, scaleFactor), maxTouchPositions, ptrs)|)
      ensures forall q :: 0 <= q < maxTouchPositions ==>
        SlotOf(q) == if Touches(ptrs, q) then OnMove(old(SlotOf(q))) else old(SlotOf(q))
    {
      ghost var v := View(viewX, viewY, scaleFactor);
      ghost var buf0, bh0, free0 := Buffered(), bufferedEvents, pool.freeObjects;
      ghost var down0, up0, dragged0 := touchDown[..], touchUp[..], touchDragged[..];
      assert ptrs[..0] == [];
      var i := 0;
      while i < |ptrs|
        invariant 0 <= i <= |ptrs|
        invariant Valid()
        invariant MovedState(ptrs[..i], v, buf0, bh0, free0, down0, up0, dragged0)
        invariant Filtered() == old(Filtered())
      {
        MoveNext(ptrs, i, v, buf0, bh0, free0, down0, up0, dragged0);
        i := i + 1;
      }
      assert ptrs[..i] == ptrs;
    }

    /**
     * The state of the ACTION_MOVE loop after the pointers `done`: their drag
     * events follow the buffered events `buf0`, and exactly their flags moved.
     */
    ghost predicate MovedState(done: seq<Pointer>, v: View, buf0: seq<TouchEvent>, bh0: seq<Handle>, free0: seq<Handle>,
                               down0: seq<bool>, up0: seq<bool>, dragged0: seq<bool>)
      reads this, pool, touchDown, touchUp, touchDragged
      requires Valid()
    {
      v == View(viewX, viewY, scaleFactor)
      && |down0| == |up0| == |dragged0| == maxTouchPositions
      && Buffered() == buf0 + MoveEvents(v, maxTouchPositions, done)
      && bh0 <= bufferedEvents && pool.freeObjects == Drained(free0, |MoveEvents(v, maxTouchPositions, done)|)
      && forall q :: 0 <= q < maxTouchPositions ==>
           SlotOf(q) == MovedSlot(done, q, Slot(down0[q], up0[q], dragged0[q]))
    }

    /** One pass of the ACTION_MOVE loop, for ptrs[i]. */
    method MoveNext(ptrs: seq<Pointer>, i: nat, ghost v: View, ghost buf0: seq<TouchEvent>, ghost bh0: seq<Handle>,
                    ghost free0: seq<Handle>, ghost down0: seq<bool>, ghost up0: seq<bool>, ghost dragged0: seq<bool>)
      requires Valid() && i < |ptrs| && MovedState(ptrs[..i], v, buf0, bh0, free0, down0, up0, dragged0)
      modifies this`bufferedEvents, this`events, pool, touchDragged
      ensures Valid() && MovedState(ptrs[..i + 1], v, buf0, bh0, free0, down0, up0, dragged0)
      ensures Filtered() == old(Filtered())
    {
      MoveOne(ptrs[i]);
      MovedSlotSnoc(ptrs, i);
      MoveEventsSnoc(v, maxTouchPositions, ptrs, i);
      DrainedTwice(free0, |MoveEvents(v, maxTouchPositions, ptrs[..i])|, if ptrs[i].id < maxTouchPositions then 1 else 0);
    }

    /** Removes and returns the buffered event at index i. */
    method TakeBuffered(i: nat) returns (e: Handle)
      requires Valid() && i < |bufferedEvents|
      modifies this`bufferedEvents
      ensures Valid()
      ensures e == old(bufferedEvents[i]) && e < |events| && events[e] == old(Buffered()[i])
      ensures bufferedEvents == Without(old(bufferedEvents), {e})
      ensures filteredEvents == Without(filteredEvents, {e})
      ensures e !in bufferedEvents && e !in filteredEvents && e !in pool.freeObjects
      ensures forall q :: q != events[e].pointer ==> OfPointer(Buffered(), q) == OfPointer(old(Buffered()), q)
    {
      e := bufferedEvents[i];
      RemoveAtIsWithout(bufferedEvents, i);
      WithoutNothing(filteredEvents, {e});
      WithoutDistinct(bufferedEvents, {e});
      forall q | q != events[e].pointer
        ensures OfPointer(Values(events, Without(bufferedEvents, {e})), q) == OfPointer(Values(events, bufferedEvents), q)
      {
        OfPointerWithout(events, bufferedEvents, {e}, q);
      }
      InStoreWithout(events, bufferedEvents, {e});
      bufferedEvents := bufferedEvents[..i] + bufferedEvents[i + 1..];
    }

    /** Removes and returns the filtered event at index i. */
    method TakeFiltered(i: nat) returns (e: Handle)
      requires Valid() && i < |filteredEvents|
      modifies this`filteredEvents
      ensures Valid()
      ensures e == old(filteredEvents[i]) && e < |events| && events[e] == old(Filtered()[i])
      ensures filteredEvents == Without(old(filteredEvents), {e})
      ensures bufferedEvents == Without(bufferedEvents, {e})
      ensures e !in bufferedEvents && e !in filteredEvents && e !in pool.freeObjects
      ensures forall q :: q != events[e].pointer ==> OfPointer(Filtered(), q) == OfPointer(old(Filtered()), q)
    {
      e := filteredEvents[i];
      RemoveAtIsWithout(filteredEvents, i);
      WithoutNothing(bufferedEvents, {e});
      WithoutDistinct(filteredEvents, {e});
      forall q | q != events[e].pointer
        ensures OfPointer(Values(events, Without(filteredEvents, {e})), q) == OfPointer(Values(events, filteredEvents), q)
      {
        OfPointerWithout(events, filteredEvents, {e}, q);
      }
      InStoreWithout(events, filteredEvents, {e});
      filteredEvents := filteredEvents[..i] + filteredEvents[i + 1..];
    }

    /** The first buffered event of pointer p and type k, moved out of the buffered list. */
    method TakeFirst(p: nat, k: TouchType) returns (sel: Option<Handle>)
      requires Valid()
      modifies this`bufferedEvents
      ensures Valid() && InStore(events, Chosen(sel))
      ensures Values(events, Chosen(sel)) == Opt(First(old(Buffered()), p, k))
      ensures bufferedEvents == Without(old(bufferedEvents), Elems(Chosen(sel)))
      ensures filteredEvents == Without(old(filteredEvents), Elems(Chosen(sel)))
      ensures sel.Some? ==> sel.value !in bufferedEvents && sel.value !in filteredEvents && sel.value !in pool.freeObjects
      ensures sel.Some? ==> sel.value in old(bufferedEvents) || sel.value in old(filteredEvents)
                            || sel.value in old(pool.freeObjects) || sel.value == |old(events)|
      ensures forall q :: q != p ==> OfPointer(Buffered(), q) == OfPointer(old(Buffered()), q)
    {
      var i := IndexOfFirst(events, bufferedEvents, p, k);
      if i >= 0 {
        var e := TakeBuffered(i);
        sel := Some(e);
        assert Elems(Chosen(sel)) == {e};
      } else {
        sel := None;
        assert Elems(Chosen(sel)) == {};
        WithoutNothing(bufferedEvents, {});
        WithoutNothing(filteredEvents, {});
      }
    }

    /**
     * The first previous-frame event of pointer p and type k, copied into an
     * event from the pool and re-typed as a drag; both lists stay as they are.
     */
    method CopyPrevious(p: nat, k: TouchType) returns (sel: Option<Handle>)
      requires Valid()
      modifies this`events, pool
      ensures Valid() && InStore(events, Chosen(sel))
      ensures Values(events, Chosen(sel)) == Opt(Converted(old(Filtered()), p, k))
      ensures Buffered() == old(Buffered()) && Filtered() == old(Filtered())
      ensures sel.Some? ==> sel.value !in bufferedEvents && sel.value !in filteredEvents && sel.value !in pool.freeObjects
      ensures sel.Some? ==> sel.value in old(bufferedEvents) || sel.value in old(filteredEvents)
                            || sel.value in old(pool.freeObjects) || sel.value == |old(events)|
      ensures pool.freeObjects <= old(pool.freeObjects)
      ensures sel.None? ==> events == old(events) && pool.freeObjects == old(pool.freeObjects)
      ensures |old(events)| <= |events|
      ensures forall h :: 0 <= h < |old(events)| && h !in old(pool.freeObjects) ==> events[h] == old(events)[h]
    {
      var i := IndexOfFirst(events, filteredEvents, p, k);
      if i == -1 {
        return None;
      }
      var f := events[filteredEvents[i]];
      var e := GetTouchEvent(f.pointer, f.x, f.y, TouchDragged);
      sel := Some(e);
    }

    /** The last buffered event of pointer p and type k, moved out of the buffered list. */
    method TakeLastBuffered(p: nat, k: TouchType) returns (sel: Option<Handle>)
      requires Valid()
      modifies this`bufferedEvents
      ensures Valid() && InStore(events, Chosen(sel))
      ensures Values(events, Chosen(sel)) == Opt(Last(old(Buffered()), p, k))
      ensures bufferedEvents == Without(old(bufferedEvents), Elems(Chosen(sel)))
      ensures filteredEvents == Without(old(filteredEvents), Elems(Chosen(sel)))
      ensures sel.None? ==> bufferedEvents == old(bufferedEvents)
      ensures sel.Some? ==> sel.value !in bufferedEvents && sel.value !in filteredEvents && sel.value !in pool.freeObjects
      ensures sel.Some? ==> sel.value in old(bufferedEvents) || sel.value in old(filteredEvents)
                            || sel.value in old(pool.freeObjects) || sel.value == |old(events)|
      ensures forall q :: q != p ==> OfPointer(Buffered(), q) == OfPointer(old(Buffered()), q)
    {
      var latestIndex := IndexOfLast(events, bufferedEvents, p, k);
      if latestIndex != -1 {
        var e := TakeBuffered(latestIndex);
        sel := Some(e);
        assert Elems(Chosen(sel)) == {e};
      } else {
        sel := None;
        assert Elems(Chosen(sel)) == {};
        WithoutNothing(bufferedEvents, {});
        WithoutNothing(filteredEvents, {});
      }
    }

    /** The last previous-frame event of pointer p and type k, moved out of the filtered list. */
    method TakeLastFiltered(p: nat, k: TouchType) returns (sel: Option<Handle>)
      requires Valid()
      modifies this`filteredEvents
      ensures Valid() && InStore(events, Chosen(sel))
      ensures Values(events, Chosen(sel)) == Opt(Last(old(Filtered()), p, k))
      ensures bufferedEvents == Without(old(bufferedEvents), Elems(Chosen(sel)))
      ensures filteredEvents == Without(old(filteredEvents), Elems(Chosen(sel)))
      ensures sel.None? ==> filteredEvents == old(filteredEvents)
      ensures sel.Some? ==> sel.value !in bufferedEvents && sel.value !in filteredEvents && sel.value !in pool.freeObjects
      ensures sel.Some? ==> sel.value in old(bufferedEvents) || sel.value in old(filteredEvents)
                            || sel.value in old(pool.freeObjects) || sel.value == |old(events)|
      ensures forall q :: q != p ==> OfPointer(Filtered(), q) == OfPointer(old(Filtered()), q)
    {
      var latestIndex := IndexOfLast(events, filteredEvents, p, k);
      if latestIndex != -1 {
        var e := TakeFiltered(latestIndex);
        sel := Some(e);
        assert Elems(Chosen(sel)) == {e};
      } else {
        sel := None;
        assert Elems(Chosen(sel)) == {};
        WithoutNothing(bufferedEvents, {});
        WithoutNothing(filteredEvents, {});
      }
    }

    /** The selection for pointer p when it is only dragged (the TOUCH_DRAGGED branch of update()). */
    method SelectDragged(p: nat) returns (sel: Option<Handle>)
      requires Valid()
      modifies this`bufferedEvents, this`filteredEvents, this`events, pool
      ensures Valid() && InStore(events, Chosen(sel))
      ensures Values(events, Chosen(sel)) == Opt(DragPick(p, old(Buffered()), old(Filtered())))
      ensures bufferedEvents == Without(old(bufferedEvents), Elems(Chosen(sel)))
      ensures filteredEvents == Without(old(filteredEvents), Elems(Chosen(sel)))
      ensures sel.Some? ==> sel.value !in bufferedEvents && sel.value !in filteredEvents && sel.value !in pool.freeObjects
      ensures sel.Some? ==> sel.value in old(bufferedEvents) || sel.value in old(filteredEvents)
                            || sel.value in old(pool.freeObjects) || sel.value == |old(events)|
      ensures pool.freeObjects <= old(pool.freeObjects)
      ensures |old(events)| <= |events|
      ensures forall h :: 0 <= h < |old(events)| && h !in old(pool.freeObjects) ==> events[h] == old(events)[h]
      ensures forall q :: q != p ==> OfPointer(Buffered(), q) == OfPointer(old(Buffered()), q)
      ensures forall q :: q != p ==> OfPointer(Filtered(), q) == OfPointer(old(Filtered()), q)
    {
      sel := TakeLastBuffered(p, TouchDragged);
      if sel.None? {
        sel := SelectPrevious(p);
      }
    }

    /** The TOUCH_DRAGGED fallbacks that look at the previous frame's list. */
    method SelectPrevious(p: nat) returns (sel: Option<Handle>)
      requires Valid()
      modifies this`filteredEvents, this`events, pool
      ensures Valid() && InStore(events, Chosen(sel))
      ensures Values(events, Chosen(sel)) == Opt(PrevPick(p, old(Filtered())))
      ensures bufferedEvents == Without(old(bufferedEvents), Elems(Chosen(sel)))
      ensures filteredEvents == Without(old(filteredEvents), Elems(Chosen(sel)))
      ensures sel.Some? ==> sel.value !in bufferedEvents && sel.value !in filteredEvents && sel.value !in pool.freeObjects
      ensures sel.Some? ==> sel.value in old(bufferedEvents) || sel.value in old(filteredEvents)
                            || sel.value in old(pool.freeObjects) || sel.value == |old(events)|
      ensures pool.freeObjects <= old(pool.freeObjects)
      ensures |old(events)| <= |events|
      ensures forall h :: 0 <= h < |old(events)| && h !in old(pool.freeObjects) ==> events[h] == old(events)[h]
      ensures forall q :: q != p ==> OfPointer(Buffered(), q) == OfPointer(old(Buffered()), q)
      ensures forall q :: q != p ==> OfPointer(Filtered(), q) == OfPointer(old(Filtered()), q)
    {
      sel := TakeLastFiltered(p, TouchDragged);
      if sel.None? {
        sel := SelectConverted(p);
      }
    }

    /** A previous press, else a previous release, of pointer p copied as a drag. */
    method SelectConverted(p: nat) returns (sel: Option<Handle>)
      requires Valid()
      modifies this`events, pool
      ensures Valid() && InStore(events, Chosen(sel))
      ensures Values(events, Chosen(sel)) == Opt(ConvertPick(p, old(Filtered())))
      ensures bufferedEvents == Without(old(bufferedEvents), Elems(Chosen(sel)))
      ensures filteredEvents == Without(old(filteredEvents), Elems(Chosen(sel)))
      ensures sel.Some? ==> sel.value !in bufferedEvents && sel.value !in filteredEvents && sel.value !in pool.freeObjects
      ensures sel.Some? ==> sel.value in old(bufferedEvents) || sel.value in old(filteredEvents)
                            || sel.value in old(pool.freeObjects) || sel.value == |old(events)|
      ensures pool.freeObjects <= old(pool.freeObjects)
      ensures |old(events)| <= |events|
      ensures forall h :: 0 <= h < |old(events)| && h !in old(pool.freeObjects) ==> events[h] == old(events)[h]
      ensures forall q :: q != p ==> OfPointer(Buffered(), q) == OfPointer(old(Buffered()), q)
      ensures forall q :: q != p ==> OfPointer(Filtered(), q) == OfPointer(old(Filtered()), q)
    {
      sel := CopyPrevious(p, TouchDown);
      if sel.None? {
        sel := CopyPrevious(p, TouchUp);
      }
      WithoutNothing(bufferedEvents, Elems(Chosen(sel)));
      WithoutNothing(filteredEvents, Elems(Chosen(sel)));
    }

    /**
     * The selection of update() for pointer p: one event moved out of the
     * buffered or filtered list, or a previous event copied as a drag, or none.
     */
    method SelectFor(p: nat) returns (sel: Option<Handle>)
      requires Valid() && p < maxTouchPositions
      modifies this`bufferedEvents, this`filteredEvents, this`events, pool
      ensures Valid() && InStore(events, Chosen(sel))
      ensures Values(events, Chosen(sel)) == Opt(Pick(p, touchDown[p], touchUp[p], touchDragged[p], old(Buffered()), old(Filtered())))
      ensures bufferedEvents == Without(old(bufferedEvents), Elems(Chosen(sel)))
      ensures filteredEvents == Without(old(filteredEvents), Elems(Chosen(sel)))
      ensures sel.Some? ==> sel.value !in bufferedEvents && sel.value !in filteredEvents && sel.value !in pool.freeObjects
      ensures sel.Some? ==> sel.value in old(bufferedEvents) || sel.value in old(filteredEvents)
                            || sel.value in old(pool.freeObjects) || sel.value == |old(events)|
      ensures pool.freeObjects <= old(pool.freeObjects)
      ensures |old(events)| <= |events|
      ensures forall h :: 0 <= h < |old(events)| && h !in old(pool.freeObjects) ==> events[h] == old(events)[h]
      ensures forall q :: q != p ==> OfPointer(Buffered(), q) == OfPointer(old(Buffered()), q)
      ensures forall q :: q != p ==> OfPointer(Filtered(), q) == OfPointer(old(Filtered()), q)
    {
      if touchDown[p] {
        sel := TakeFirst(p, TouchDown);
      } else if touchUp[p] {
        sel := TakeFirst(p, TouchUp);
      } else if touchDragged[p] {
        sel := SelectDragged(p);
      } else {
        sel := None;
        assert Elems(Chosen(sel)) == {};
        WithoutNothing(bufferedEvents, {});
        WithoutNothing(filteredEvents, {});
      }
    }

    /** Serves pointer p: one round of the selection loop of update(). */
    method SelectNext(p: nat, temp: seq<Handle>, ghost down: seq<bool>, ghost up: seq<bool>, ghost dragged: seq<bool>,
                      ghost buf0: seq<TouchEvent>, ghost prev0: seq<TouchEvent>,
                      ghost bh0: seq<Handle>, ghost fh0: seq<Handle>, ghost free0: seq<Handle>)
      returns (temp': seq<Handle>)
      requires Valid() && p < maxTouchPositions
      requires down == touchDown[..] && up == touchUp[..] && dragged == touchDragged[..]
      requires SelectedState(p, temp, events, bufferedEvents, filteredEvents, pool.freeObjects, down, up, dragged, buf0, prev0, bh0, fh0, free0)
      modifies this`bufferedEvents, this`filteredEvents, this`events, pool
      ensures Valid()
      ensures SelectedState(p + 1, temp', events, bufferedEvents, filteredEvents, pool.freeObjects, down, up, dragged, buf0, prev0, bh0, fh0, free0)
    {
      ghost var store1, buf1, filt1, free1 := events, bufferedEvents, filteredEvents, pool.freeObjects;
      var sel := SelectFor(p);
      SelectStep(p, temp, Chosen(sel), store1, buf1, filt1, free1, events, bufferedEvents, filteredEvents, pool.freeObjects,
                 down, up, dragged, buf0, prev0, bh0, fh0, free0);
      temp' := temp + Chosen(sel);
    }

    /** The selection loop of update(): one event per pointer, in pointer order. */
    method SelectAll(ghost buf0: seq<TouchEvent>, ghost prev0: seq<TouchEvent>) returns (temp: seq<Handle>)
      requires Valid() && buf0 == Buffered() && prev0 == Filtered()
      modifies this`bufferedEvents, this`filteredEvents, this`events, pool
      ensures Valid() && InStore(events, temp) && Distinct(temp)
      ensures Disjoint(temp, bufferedEvents) && Disjoint(temp, filteredEvents) && Disjoint(temp, pool.freeObjects)
      ensures Values(events, temp) ==
        Coalesce(maxTouchPositions, touchDown[..], touchUp[..], touchDragged[..], buf0, prev0)
      ensures bufferedEvents == Without(old(bufferedEvents), Elems(temp))
      ensures filteredEvents == Without(old(filteredEvents), Elems(temp))
      ensures pool.freeObjects <= old(pool.freeObjects)
    {
      ghost var down, up, dragged := touchDown[..], touchUp[..], touchDragged[..];
      temp := [];
      SelectedStart(events, bufferedEvents, filteredEvents, pool.freeObjects, down, up, dragged);
      var p := 0;
      while p < maxTouchPositions
        invariant 0 <= p <= maxTouchPositions
        invariant Valid()
        invariant SelectedState(p, temp, events, bufferedEvents, filteredEvents, pool.freeObjects,
                                down, up, dragged, buf0, prev0, old(bufferedEvents), old(filteredEvents), old(pool.freeObjects))
      {
        temp := SelectNext(p, temp, down, up, dragged, buf0, prev0, old(bufferedEvents), old(filteredEvents), old(pool.freeObjects));
        p := p + 1;
      }
    }

    /**
     * The end of update(): every filtered and then every buffered event goes
     * back to the pool, and the selected events become the filtered ones.
     */
    method RecycleRest(temp: seq<Handle>)
      requires Valid() && InStore(events, temp) && Distinct(temp)
      requires Disjoint(temp, bufferedEvents) && Disjoint(temp, filteredEvents) && Disjoint(temp, pool.freeObjects)
      modifies this`bufferedEvents, this`filteredEvents, pool
      ensures Valid() && filteredEvents == temp && bufferedEvents == [] && events == old(events)
      ensures pool.freeObjects == BoundedAppend(old(pool.freeObjects), old(filteredEvents) + old(bufferedEvents), POOL_SIZE)
    {
      RecycleOwned(events, temp, bufferedEvents, filteredEvents, pool.freeObjects);
      BoundedAppendTwice(pool.freeObjects, filteredEvents, bufferedEvents, POOL_SIZE);
      RecycleAll(pool, filteredEvents);
      filteredEvents := [];
      RecycleAll(pool, bufferedEvents);
      bufferedEvents := [];
      filteredEvents := temp;
    }

    /**
     * update(): records the view's size, keeps one event per pointer,
     * clears the down and up flags and recycles every other event.
     */
    method Update(width: nat, height: nat)
      requires Valid()
      modifies this`viewX, this`viewY, this`bufferedEvents, this`filteredEvents, this`events, pool, touchDown, touchUp
      ensures Valid() && viewX == width as real && viewY == height as real
      ensures Filtered() == Coalesce(maxTouchPositions, old(touchDown[..]), old(touchUp[..]), old(touchDragged[..]),
                                     old(Buffered()), old(Filtered()))
      ensures OnePerPointer(Filtered(), maxTouchPositions)
      ensures bufferedEvents == [] && Disjoint(filteredEvents, pool.freeObjects)
      ensures forall q :: 0 <= q < maxTouchPositions ==> SlotOf(q) == AtFrameEnd(old(SlotOf(q)))
      ensures exists free :: (free <= old(pool.freeObjects) &&
        pool.freeObjects == BoundedAppend(free, Without(old(filteredEvents), Elems(filteredEvents)) + Without(old(bufferedEvents), Elems(filteredEvents)), POOL_SIZE))
    {
      ghost var down, up, dragged := touchDown[..], touchUp[..], touchDragged[..];
      ghost var buf0, prev0 := Buffered(), Filtered();
      viewX, viewY := width as real, height as real;
      assert Buffered() == buf0 && Filtered() == prev0;
      var temp := SelectAll(buf0, prev0);
      ghost var selected := Values(events, temp);
      assert selected == Coalesce(maxTouchPositions, down, up, dragged, buf0, prev0);
      ClearFlags(touchUp);
      ClearFlags(touchDown);
      ghost var free1, filt1, buf1 := pool.freeObjects, filteredEvents, bufferedEvents;
      RecycleRest(temp);
      assert Filtered() == selected;
      CoalesceOnePerPointer(maxTouchPositions, down, up, dragged, buf0, prev0);
      assert free1 <= old(pool.freeObjects) && pool.freeObjects == BoundedAppend(free1, filt1 + buf1, POOL_SIZE);
    }

    /** getTouchEvents(): the filtered events, at most one per pointer and in pointer order. */
    function GetTouchEvents(): (r: seq<Handle>)
      requires Valid() && OnePerPointer(Filtered(), maxTouchPositions)
      reads this, pool, touchDown, touchUp
      ensures Distinct(r) && InStore(events, r) && Disjoint(r, pool.freeObjects)
      ensures OnePerPointer(Values(events, r), maxTouchPositions)
    {
      filteredEvents
    }
  }
}
