/**
 * Value-level description of the touch pipeline of PooledTouchInput: the
 * per-pointer flag machine driven by raw actions, the coordinate clamp, and
 * the per-frame choice of one event per pointer.
 */
module TouchSpec {
  import opened Wrappers
  import opened TouchEvents

  /** One pointer of a raw notification, in the platform's pixel coordinates. */
  datatype Pointer = Pointer(id: nat, x: real, y: real)

  /**
   * A decoded raw notification. Down stands for ACTION_DOWN and
   * ACTION_POINTER_DOWN; Up for ACTION_UP, ACTION_POINTER_UP and ACTION_CANCEL;
   * Move lists every pointer of an ACTION_MOVE (its first is pointer index 0);
   * Other is any other action code, with the id of its pointer.
   */
  datatype Action =
    | Down(p: Pointer)
    | Up(p: Pointer)
    | Move(first: Pointer, others: seq<Pointer>)
    | Other(id: nat)
  {
    /** The pointer id the range check at the top of onTouch looks at. */
    function Id(): nat {
      match this
      case Down(p) => p.id
      case Up(p) => p.id
      case Move(first, _) => first.id
      case Other(id) => id
    }
  }

  /** The three per-pointer flags: touchDown, touchUp, touchDragged. */
  datatype Slot = Slot(down: bool, up: bool, dragged: bool)

  /** A pointer is never both pressed and released within one frame window. */
  predicate Exclusive(s: Slot) {
    !(s.down && s.up)
  }

  /** Press: marked down unless already released this frame; always marked dragged. */
  function OnPress(s: Slot): (r: Slot)
    ensures r.dragged && r.up == s.up
    ensures Exclusive(s) ==> Exclusive(r) && r.down == !s.up
  {
    Slot(if !s.up then true else s.down, s.up, true)
  }

  /** Release or cancel. */
  function OnRelease(s: Slot): (r: Slot)
    ensures Exclusive(r) && r.up && !r.down && !r.dragged
  {
    Slot(false, true, false)
  }

  /** A move of this pointer: dragged unless it went down this frame. */
  function OnMove(s: Slot): (r: Slot)
    ensures r.down == s.down && r.up == s.up
    ensures r.dragged == (s.dragged || !s.down)
  {
    Slot(s.down, s.up, if !s.down then true else s.dragged)
  }

  /** The end of update(): down and up are single-frame flags, dragged persists. */
  function AtFrameEnd(s: Slot): (r: Slot)
    ensures Exclusive(r) && r.dragged == s.dragged && !r.down && !r.up
  {
    Slot(false, false, s.dragged)
  }

  /**
   * Up followed by down of the same pointer within one frame leaves it
   * released and dragged but not down, which after one more frame without
   * notifications sends the coalescer to its last fallback.
   */
  lemma UpThenDownWithinFrame(s: Slot)
    ensures OnPress(OnRelease(s)) == Slot(false, true, true)
    ensures AtFrameEnd(OnPress(OnRelease(s))) == Slot(false, false, true)
  {
  }

  /** Distance on the real line. */
  function Dist(a: real, b: real): real {
    if a < b then b - a else a - b
  }

  /** fixBoundsX / fixBoundsY: snaps `v` into [0, bound]. */
  function Clamp(v: real, bound: real): real {
    if v < 0.0 then 0.0 else if v > bound then bound else v
  }

  /** The clamped value lies in [0, bound], and a value already there is kept. */
  lemma ClampInRange(v: real, bound: real)
    ensures 0.0 <= bound ==> 0.0 <= Clamp(v, bound) <= bound
    ensures 0.0 <= v <= bound ==> Clamp(v, bound) == v
  {
  }

  /** The clamped value is the point of [0, bound] closest to the input. */
  lemma ClampNearest(v: real, bound: real, w: real)
    requires 0.0 <= w <= bound
    ensures Dist(Clamp(v, bound), v) <= Dist(w, v)
  {
  }

  /** The view size the touch input last read, and its scale factor. */
  datatype View = View(width: real, height: real, scale: real)

  /**
   * The event onTouch makes for pointer q: coordinates scaled, y measured
   * from the bottom of the view, both clamped into the scaled view. The
   * scaled y, (height - y) * scale, is written out as height * scale -
   * y * scale, its equal over the reals.
   */
  function EventAt(v: View, q: Pointer, k: TouchType): (r: TouchEvent)
    ensures r.pointer == q.id && r.kind == k
  {
    var right, top := v.width * v.scale, v.height * v.scale;
    TouchEvent(q.id, Clamp(q.x * v.scale, right), Clamp(top - q.y * v.scale, top), k)
  }

  /** Every event onTouch makes lies inside the scaled view. */
  lemma EventInView(v: View, q: Pointer, k: TouchType)
    ensures 0.0 <= v.width * v.scale ==> 0.0 <= EventAt(v, q, k).x <= v.width * v.scale
    ensures 0.0 <= v.height * v.scale ==> 0.0 <= EventAt(v, q, k).y <= v.height * v.scale
  {
    EventCoordinates(v, q, k);
    ClampedAxis(q.x * v.scale, v.width, v.scale);
    ClampedAxis(v.height * v.scale - q.y * v.scale, v.height, v.scale);
  }

  /** The coordinates of EventAt, each its own clamp. */
  lemma EventCoordinates(v: View, q: Pointer, k: TouchType)
    ensures EventAt(v, q, k).x == Clamp(q.x * v.scale, v.width * v.scale)
    ensures EventAt(v, q, k).y == Clamp(v.height * v.scale - q.y * v.scale, v.height * v.scale)
  {
  }

  /** Before the first update() the view is 0 by 0, so every coordinate is 0. */
  lemma EventBeforeFirstUpdate(v: View, q: Pointer, k: TouchType)
    requires v.width == 0.0 && v.height == 0.0
    ensures EventAt(v, q, k).x == 0.0 && EventAt(v, q, k).y == 0.0
  {
    EventCoordinates(v, q, k);
    ClampedAxis(q.x * v.scale, v.width, v.scale);
    ClampedAxis(v.height * v.scale - q.y * v.scale, v.height, v.scale);
  }

  /** One coordinate of EventAt: clamped into [0, extent * scale], and 0 when the extent is 0. */
  lemma ClampedAxis(c: real, extent: real, scale: real)
    ensures 0.0 <= extent * scale ==> 0.0 <= Clamp(c, extent * scale) <= extent * scale
    ensures extent == 0.0 ==> Clamp(c, extent * scale) == 0.0
  {
    ClampInRange(c, extent * scale);
    if extent == 0.0 {
      assert extent * scale == 0.0;
    }
  }

  /** The drag events of a move: one per pointer below `max`, in pointer-index order. */
  function MoveEvents(v: View, max: nat, ptrs: seq<Pointer>): (r: seq<TouchEvent>)
    ensures |r| <= |ptrs|
    ensures forall i :: 0 <= i < |r| ==> r[i].kind == TouchDragged && 0 <= r[i].pointer < max
    ensures forall i :: 0 <= i < |ptrs| && ptrs[i].id < max ==> EventAt(v, ptrs[i], TouchDragged) in r
  {
    if ptrs == [] then []
    else
      var last := ptrs[|ptrs| - 1];
      MoveEvents(v, max, ptrs[..|ptrs| - 1]) + (if last.id < max then [EventAt(v, last, TouchDragged)] else [])
  }

  /** The events onTouch appends to the buffered list for `a`. */
  function Produced(v: View, max: nat, a: Action): (r: seq<TouchEvent>)
    ensures a.Id() >= max || a.Other? ==> r == []
    ensures forall i :: 0 <= i < |r| ==> 0 <= r[i].pointer < max
    ensures a.Down? && a.Id() < max ==> r == [EventAt(v, a.p, TouchDown)]
    ensures a.Up? && a.Id() < max ==> r == [EventAt(v, a.p, TouchUp)]
    ensures a.Move? ==> forall i :: 0 <= i < |r| ==> r[i].kind == TouchDragged
  {
    if a.Id() >= max then []
    else match a
      case Down(p) => [EventAt(v, p, TouchDown)]
      case Up(p) => [EventAt(v, p, TouchUp)]
      case Move(first, others) => MoveEvents(v, max, [first] + others)
      case Other(_) => []
  }

  predicate Matches(e: TouchEvent, p: int, k: TouchType) {
    e.pointer == p && e.kind == k
  }

  /** Index of the first event of pointer p and type k, or -1. */
  function FirstIndex(vs: seq<TouchEvent>, p: int, k: TouchType): (i: int)
    ensures -1 <= i < |vs|
    ensures i >= 0 ==> Matches(vs[i], p, k)
    ensures forall j :: 0 <= j < |vs| && (i < 0 || j < i) ==> !Matches(vs[j], p, k)
  {
    if vs == [] then -1
    else if Matches(vs[0], p, k) then 0
    else
      var r := FirstIndex(vs[1..], p, k);
      if r < 0 then -1 else r + 1
  }

  /** Index of the last event of pointer p and type k, or -1. */
  function LastIndex(vs: seq<TouchEvent>, p: int, k: TouchType): (i: int)
    ensures -1 <= i < |vs|
    ensures i >= 0 ==> Matches(vs[i], p, k)
    ensures forall j :: 0 <= j < |vs| && i < j ==> !Matches(vs[j], p, k)
  {
    if vs == [] then -1
    else if Matches(vs[|vs| - 1], p, k) then |vs| - 1
    else LastIndex(vs[..|vs| - 1], p, k)
  }

  function At(vs: seq<TouchEvent>, i: int): Option<TouchEvent> {
    if 0 <= i < |vs| then Some(vs[i]) else None
  }

  function First(vs: seq<TouchEvent>, p: int, k: TouchType): Option<TouchEvent> {
    At(vs, FirstIndex(vs, p, k))
  }

  function Last(vs: seq<TouchEvent>, p: int, k: TouchType): Option<TouchEvent> {
    At(vs, LastIndex(vs, p, k))
  }

  /** A previous-frame event re-issued as a drag at the same place. */
  function AsDragged(e: TouchEvent): TouchEvent {
    e.(kind := TouchDragged)
  }

  function Opt(o: Option<TouchEvent>): seq<TouchEvent> {
    match o
    case Some(e) => [e]
    case None => []
  }

  /**
   * The event update() selects for pointer p, given the pointer's flags, the
   * events buffered since the last frame and the previous frame's selection.
   */
  function Pick(p: nat, down: bool, up: bool, dragged: bool, buf: seq<TouchEvent>, prev: seq<TouchEvent>): (r: Option<TouchEvent>)
    ensures r.Some? ==> r.value.pointer == p
  {
    if down then First(buf, p, TouchDown)
    else if up then First(buf, p, TouchUp)
    else if dragged then DragPick(p, buf, prev)
    else None
  }

  /**
   * The selection for a pointer that is only dragged: its latest buffered
   * drag, else what the previous frame's list offers.
   */
  function DragPick(p: nat, buf: seq<TouchEvent>, prev: seq<TouchEvent>): (r: Option<TouchEvent>)
    ensures r.Some? ==> r.value.pointer == p
  {
    if Last(buf, p, TouchDragged).Some? then Last(buf, p, TouchDragged) else PrevPick(p, prev)
  }

  /** From the previous frame: the pointer's latest drag, else its press or release re-issued as a drag. */
  function PrevPick(p: nat, prev: seq<TouchEvent>): (r: Option<TouchEvent>)
    ensures r.Some? ==> r.value.pointer == p
  {
    if Last(prev, p, TouchDragged).Some? then Last(prev, p, TouchDragged) else ConvertPick(p, prev)
  }

  /** The pointer's previous press re-issued as a drag, else its previous release. */
  function ConvertPick(p: nat, prev: seq<TouchEvent>): (r: Option<TouchEvent>)
    ensures r.Some? ==> r.value.pointer == p && r.value.kind == TouchDragged
  {
    if First(prev, p, TouchDown).Some? then Converted(prev, p, TouchDown) else Converted(prev, p, TouchUp)
  }

  /** The first previous-frame event of pointer p and type k, re-issued as a drag. */
  function Converted(prev: seq<TouchEvent>, p: int, k: TouchType): (r: Option<TouchEvent>)
    ensures r.Some? ==> r.value.pointer == p && r.value.kind == TouchDragged
  {
    match First(prev, p, k)
    case Some(e) => Some(AsDragged(e))
    case None => None
  }

  /** Pointers lie in [0, n) and strictly increase, so no pointer occurs twice. */
  predicate OnePerPointer(vs: seq<TouchEvent>, n: int) {
    (forall i :: 0 <= i < |vs| ==> 0 <= vs[i].pointer < n)
    && forall i, j :: 0 <= i < j < |vs| ==> vs[i].pointer < vs[j].pointer
  }

  /** The selections for pointers 0 .. n-1, in pointer order. */
  function Coalesce(n: nat, down: seq<bool>, up: seq<bool>, dragged: seq<bool>, buf: seq<TouchEvent>, prev: seq<TouchEvent>): (r: seq<TouchEvent>)
    requires n <= |down| && n <= |up| && n <= |dragged|
    ensures |r| <= n
  {
    if n == 0 then []
    else Coalesce(n - 1, down, up, dragged, buf, prev) + Opt(Pick(n - 1, down[n - 1], up[n - 1], dragged[n - 1], buf, prev))
  }

  /** The events of pointer p, in order. */
  function OfPointer(vs: seq<TouchEvent>, p: int): (r: seq<TouchEvent>)
    ensures |r| <= |vs|
    ensures forall i :: 0 <= i < |r| ==> r[i].pointer == p
  {
    if vs == [] then [] else (if vs[0].pointer == p then [vs[0]] else []) + OfPointer(vs[1..], p)
  }

  lemma {:induction false} OfPointerConcat(a: seq<TouchEvent>, b: seq<TouchEvent>, p: int)
    ensures OfPointer(a + b, p) == OfPointer(a, p) + OfPointer(b, p)
  {
    if a == [] {
      assert a + b == b;
    } else {
      assert (a + b)[1..] == a[1..] + b;
      OfPointerConcat(a[1..], b, p);
    }
  }

  lemma OfPointerSingle(e: TouchEvent, p: int)
    ensures OfPointer([e], p) == if e.pointer == p then [e] else []
  {
    assert [e][1..] == [];
  }

  /** Skipping a leading event that does not match. */
  lemma FirstTail(vs: seq<TouchEvent>, p: int, k: TouchType)
    requires vs != [] && !Matches(vs[0], p, k)
    ensures First(vs, p, k) == First(vs[1..], p, k)
  {
  }

  /** Skipping a trailing event that does not match. */
  lemma LastInit(vs: seq<TouchEvent>, p: int, k: TouchType)
    requires vs != [] && !Matches(vs[|vs| - 1], p, k)
    ensures Last(vs, p, k) == Last(vs[..|vs| - 1], p, k)
  {
  }

  /** The first match depends only on the events of that pointer. */
  lemma {:induction false} FirstLocal(vs: seq<TouchEvent>, p: int, k: TouchType)
    ensures First(vs, p, k) == First(OfPointer(vs, p), p, k)
  {
    if vs != [] {
      FirstLocal(vs[1..], p, k);
      var op := OfPointer(vs, p);
      if vs[0].pointer == p {
        assert op == [vs[0]] + OfPointer(vs[1..], p);
        if !Matches(vs[0], p, k) {
          FirstTail(vs, p, k);
          assert op[1..] == OfPointer(vs[1..], p);
          FirstTail(op, p, k);
        }
      } else {
        assert op == OfPointer(vs[1..], p);
        FirstTail(vs, p, k);
      }
    }
  }

  /** The last match depends only on the events of that pointer. */
  lemma {:induction false} LastLocal(vs: seq<TouchEvent>, p: int, k: TouchType)
    ensures Last(vs, p, k) == Last(OfPointer(vs, p), p, k)
  {
    if vs != [] {
      var n := |vs| - 1;
      var init := vs[..n];
      assert vs == init + [vs[n]];
      LastLocal(init, p, k);
      OfPointerConcat(init, [vs[n]], p);
      OfPointerSingle(vs[n], p);
      var op := OfPointer(vs, p);
      if vs[n].pointer == p {
        assert op == OfPointer(init, p) + [vs[n]];
        if !Matches(vs[n], p, k) {
          LastInit(vs, p, k);
          assert op[..|op| - 1] == OfPointer(init, p);
          LastInit(op, p, k);
        }
      } else {
        assert op == OfPointer(init, p);
        LastInit(vs, p, k);
      }
    }
  }

  /**
   * Removing events of other pointers from the buffered or previous lists
   * does not change what is picked for p.
   */
  lemma PickLocal(p: nat, down: bool, up: bool, dragged: bool, buf1: seq<TouchEvent>, prev1: seq<TouchEvent>, buf2: seq<TouchEvent>, prev2: seq<TouchEvent>)
    requires OfPointer(buf1, p) == OfPointer(buf2, p) && OfPointer(prev1, p) == OfPointer(prev2, p)
    ensures Pick(p, down, up, dragged, buf1, prev1) == Pick(p, down, up, dragged, buf2, prev2)
  {
    FirstLocal(buf1, p, TouchDown); FirstLocal(buf2, p, TouchDown);
    FirstLocal(buf1, p, TouchUp); FirstLocal(buf2, p, TouchUp);
    LastLocal(buf1, p, TouchDragged); LastLocal(buf2, p, TouchDragged);
    LastLocal(prev1, p, TouchDragged); LastLocal(prev2, p, TouchDragged);
    FirstLocal(prev1, p, TouchDown); FirstLocal(prev2, p, TouchDown);
    FirstLocal(prev1, p, TouchUp); FirstLocal(prev2, p, TouchUp);
  }

  /**
   * What Pick reports: an event of the right type (down before up before
   * dragged), nothing for a pointer with no flag set, and for a pressed or
   * released pointer an event exactly when one of that type was buffered.
   */
  lemma PickKinds(p: nat, down: bool, up: bool, dragged: bool, buf: seq<TouchEvent>, prev: seq<TouchEvent>)
    ensures var r := Pick(p, down, up, dragged, buf, prev);
      && (r.Some? ==> r.value.kind == (if down then TouchDown else if up then TouchUp else TouchDragged))
      && (!down && !up && !dragged ==> r == None)
      && (down ==> (r.Some? <==> exists i :: 0 <= i < |buf| && Matches(buf[i], p, TouchDown)))
      && (!down && up ==> (r.Some? <==> exists i :: 0 <= i < |buf| && Matches(buf[i], p, TouchUp)))
  {
  }

  /** The coalesced list holds at most one event per pointer, in pointer order. */
  lemma {:induction false} CoalesceOnePerPointer(n: nat, down: seq<bool>, up: seq<bool>, dragged: seq<bool>, buf: seq<TouchEvent>, prev: seq<TouchEvent>)
    requires n <= |down| && n <= |up| && n <= |dragged|
    ensures OnePerPointer(Coalesce(n, down, up, dragged, buf, prev), n)
  {
    if n > 0 {
      CoalesceOnePerPointer(n - 1, down, up, dragged, buf, prev);
    }
  }

  /** Appending an optional event of pointer m adds to the events of m only. */
  lemma SnocOfPointer(rest: seq<TouchEvent>, o: Option<TouchEvent>, m: int, p: int)
    requires o.Some? ==> o.value.pointer == m
    ensures OfPointer(rest + Opt(o), p) == OfPointer(rest, p) + (if p == m then Opt(o) else [])
  {
    OfPointerConcat(rest, Opt(o), p);
    if o.Some? {
      OfPointerSingle(o.value, p);
    }
  }

  /** Coalescing one more pointer adds to the events of that pointer only. */
  lemma CoalesceSnocOf(n: nat, down: seq<bool>, up: seq<bool>, dragged: seq<bool>, buf: seq<TouchEvent>, prev: seq<TouchEvent>, p: nat)
    requires 0 < n <= |down| && n <= |up| && n <= |dragged|
    ensures OfPointer(Coalesce(n, down, up, dragged, buf, prev), p) ==
      OfPointer(Coalesce(n - 1, down, up, dragged, buf, prev), p) +
      if p == n - 1 then Opt(Pick(p, down[p], up[p], dragged[p], buf, prev)) else []
  {
    var rest := Coalesce(n - 1, down, up, dragged, buf, prev);
    var pick := Pick(n - 1, down[n - 1], up[n - 1], dragged[n - 1], buf, prev);
    assert Coalesce(n, down, up, dragged, buf, prev) == rest + Opt(pick);
    SnocOfPointer(rest, pick, n - 1, p);
  }

  /** The pointer coalesced last gets its own pick. */
  lemma CoalesceLast(n: nat, down: seq<bool>, up: seq<bool>, dragged: seq<bool>, buf: seq<TouchEvent>, prev: seq<TouchEvent>, p: nat)
    requires 0 < n <= |down| && n <= |up| && n <= |dragged| && p == n - 1
    requires OfPointer(Coalesce(n - 1, down, up, dragged, buf, prev), p) == []
    ensures OfPointer(Coalesce(n, down, up, dragged, buf, prev), p) == Opt(Pick(p, down[p], up[p], dragged[p], buf, prev))
  {
    CoalesceSnocOf(n, down, up, dragged, buf, prev, p);
  }

  /** The events of the other pointers are those of the shorter coalesced list. */
  lemma CoalesceOther(n: nat, down: seq<bool>, up: seq<bool>, dragged: seq<bool>, buf: seq<TouchEvent>, prev: seq<TouchEvent>, p: nat)
    requires 0 < n <= |down| && n <= |up| && n <= |dragged| && p != n - 1
    ensures OfPointer(Coalesce(n, down, up, dragged, buf, prev), p) == OfPointer(Coalesce(n - 1, down, up, dragged, buf, prev), p)
  {
    CoalesceSnocOf(n, down, up, dragged, buf, prev, p);
  }

  /** In the coalesced list, the events of pointer p are exactly what Pick selects for p. */
  lemma {:induction false} CoalesceOfPointer(n: nat, down: seq<bool>, up: seq<bool>, dragged: seq<bool>, buf: seq<TouchEvent>, prev: seq<TouchEvent>, p: nat)
    requires n <= |down| && n <= |up| && n <= |dragged|
    ensures OfPointer(Coalesce(n, down, up, dragged, buf, prev), p) ==
      if p < n then Opt(Pick(p, down[p], up[p], dragged[p], buf, prev)) else []
  {
    if n > 0 {
      CoalesceOfPointer(n - 1, down, up, dragged, buf, prev, p);
      if p == n - 1 {
        CoalesceLast(n, down, up, dragged, buf, prev, p);
      } else {
        CoalesceOther(n, down, up, dragged, buf, prev, p);
      }
    }
  }

  /**
   * Drag persistence: a pointer pressed last frame with no notification this
   * frame is reported as dragged at the position of the press.
   */
  lemma DragPersistence(p: nat, buf: seq<TouchEvent>, prev: seq<TouchEvent>, x: real, y: real)
    requires OfPointer(buf, p) == [] && OfPointer(prev, p) == [TouchEvent(p, x, y, TouchDown)]
    ensures Pick(p, false, false, true, buf, prev) == Some(TouchEvent(p, x, y, TouchDragged))
  {
    var single := [TouchEvent(p, x, y, TouchDown)];
    PickLocal(p, false, false, true, buf, prev, [], single);
    assert OfPointer([], p) == [];
    assert OfPointer(single, p) == single by {
      assert single[1..] == [];
    }
    assert LastIndex(single, p, TouchDragged) == -1 by {
      assert single[..0] == [];
    }
  }

  /** Last buffered move wins: of two moves within a frame, the later one is reported. */
  lemma LastMoveWins(p: nat, buf: seq<TouchEvent>, prev: seq<TouchEvent>, x1: real, y1: real, x2: real, y2: real)
    requires OfPointer(buf, p) == [TouchEvent(p, x1, y1, TouchDragged), TouchEvent(p, x2, y2, TouchDragged)]
    ensures Pick(p, false, false, true, buf, prev) == Some(TouchEvent(p, x2, y2, TouchDragged))
  {
    var two := [TouchEvent(p, x1, y1, TouchDragged), TouchEvent(p, x2, y2, TouchDragged)];
    LastLocal(buf, p, TouchDragged);
    assert two[1..] == [two[1]] && [two[1]][1..] == [];
    assert OfPointer(two, p) == two;
  }

  /**
   * The last fallback is reachable: a pointer whose previous-frame event was
   * its release, and that is still marked dragged, is reported as dragged
   * at the release position.
   */
  lemma ReleaseBecomesDrag(p: nat, buf: seq<TouchEvent>, prev: seq<TouchEvent>, x: real, y: real)
    requires OfPointer(buf, p) == [] && OfPointer(prev, p) == [TouchEvent(p, x, y, TouchUp)]
    ensures Pick(p, false, false, true, buf, prev) == Some(TouchEvent(p, x, y, TouchDragged))
  {
    var single := [TouchEvent(p, x, y, TouchUp)];
    PickLocal(p, false, false, true, buf, prev, [], single);
    assert OfPointer(single, p) == single by {
      assert single[1..] == [];
    }
    assert LastIndex(single, p, TouchDragged) == -1 by {
      assert single[..0] == [];
    }
  }

  /**
   * The code tests touchDown before touchUp, while the documented priority
   * is UP > DOWN > DRAGGED; for a slot where not both are set the two agree.
   */
  lemma DocumentedPriorityAgrees(p: nat, s: Slot, buf: seq<TouchEvent>, prev: seq<TouchEvent>)
    requires Exclusive(s)
    ensures Pick(p, s.down, s.up, s.dragged, buf, prev) ==
      if s.up then First(buf, p, TouchUp)
      else if s.down then First(buf, p, TouchDown)
      else Pick(p, false, false, s.dragged, buf, prev)
  {
  }

  /** Some pointer of the list has identifier q. */
  predicate Touches(ptrs: seq<Pointer>, q: nat) {
    exists j :: 0 <= j < |ptrs| && ptrs[j].id == q
  }

  /**
   * The flags of pointer q after onTouch handles `a`, for a pool of `max`
   * pointers: the range check drops the whole action when its pointer id is
   * out of range; a move updates every listed pointer.
   */
  function Step(a: Action, max: nat, q: nat, s: Slot): (r: Slot)
    ensures Exclusive(s) ==> Exclusive(r)
    ensures q >= max ==> r == s
    ensures r.dragged != s.dragged || r.down != s.down || r.up != s.up ==> a.Id() < max
  {
    if a.Id() >= max || q >= max then s
    else match a
      case Down(p) => if p.id == q then OnPress(s) else s
      case Up(p) => if p.id == q then OnRelease(s) else s
      case Move(first, others) => if Touches([first] + others, q) then OnMove(s) else s
      case Other(_) => s
  }
}
