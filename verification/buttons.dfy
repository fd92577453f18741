/**
 * TouchButton: a rectangular button that is "touched" when a frame's touch
 * events fall inside it and "activated" according to its activation type.
 */
module Buttons {
  import opened TouchEvents
  import opened Shapes

  /** When a touched button counts as activated. */
  datatype ButtonType = ActivateOnTouch | ActivateWhileTouched | ActivateOnRelease

  /** The event's position lies inside the rectangle, edges included. */
  predicate Hits(b: Region, e: TouchEvent)
    requires b.Box?
  {
    RectContains(b, e.x, e.y)
  }

  /** The events of a list that hit the rectangle, in list order. */
  function Touching(b: Region, events: seq<TouchEvent>): (r: seq<TouchEvent>)
    requires b.Box?
    ensures forall e :: e in r <==> e in events && Hits(b, e)
  {
    if events == [] then []
    else
      var last := events[|events| - 1];
      Touching(b, events[..|events| - 1]) + (if Hits(b, last) then [last] else [])
  }

  /** Whether one of the events is of the given type. */
  predicate HasKind(events: seq<TouchEvent>, k: TouchType) {
    exists e :: e in events && e.kind == k
  }

  class TouchButton {
    const kind: ButtonType
    const bounds: BoundingRectangle
    var touched: bool
    var activated: bool
    var currentlyTouching: seq<TouchEvent>

    /** Between updates the scratch list is empty. */
    ghost predicate Valid()
      reads this
    {
      currentlyTouching == []
    }

    constructor (x: real, y: real, width: real, height: real, kind: ButtonType)
      ensures Valid() && this.kind == kind && fresh(bounds)
      ensures bounds.Geometry() == Box(x, y, width, height)
      ensures !touched && !activated
    {
      bounds := new BoundingRectangle(x, y, width, height);
      this.kind := kind;
      touched, activated := false, false;
      currentlyTouching := [];
    }

    constructor FromPosition(position: Vector2, width: real, height: real, kind: ButtonType)
      ensures Valid() && this.kind == kind && fresh(bounds)
      ensures bounds.Geometry() == Box(position.x, position.y, width, height)
      ensures !touched && !activated
    {
      bounds := new BoundingRectangle.FromPosition(position, width, height);
      this.kind := kind;
      touched, activated := false, false;
      currentlyTouching := [];
    }

    /**
     * update(touchEvents): touched when some event hits the bounds; activated
     * only when touched, and then according to the button's type.
     */
    method Update(events: seq<TouchEvent>)
      requires Valid()
      modifies this
      ensures Valid()
      ensures touched <==> exists e :: e in events && Hits(bounds.Geometry(), e)
      ensures !touched ==> !activated
      ensures kind == ActivateWhileTouched ==> activated == touched
      ensures kind == ActivateOnTouch ==> (activated <==> exists e :: e in events && Hits(bounds.Geometry(), e) && e.kind == TouchDown)
      ensures kind == ActivateOnRelease ==> (activated <==> exists e :: e in events && Hits(bounds.Geometry(), e) && e.kind == TouchUp)
    {
      var b := bounds.Geometry();
      touched := false;
      var i := 0;
      while i < |events|
        invariant 0 <= i <= |events|
        invariant currentlyTouching == Touching(b, events[..i])
        invariant touched <==> currentlyTouching != []
      {
        assert events[..i + 1][..i] == events[..i];
        if RectContains(b, events[i].x, events[i].y) {
          touched := true;
          currentlyTouching := currentlyTouching + [events[i]];
        }
        i := i + 1;
      }
      assert events[..i] == events;
      if touched {
        assert currentlyTouching[0] in currentlyTouching;
      }
      activated := false;
      if touched {
        match kind
        case ActivateOnTouch =>
          activated := AnyOfKind(currentlyTouching, TouchDown);
        case ActivateWhileTouched =>
          activated := true;
        case ActivateOnRelease =>
          activated := AnyOfKind(currentlyTouching, TouchUp);
      }
      currentlyTouching := [];
    }

    /** setPosition: copies the position into the bounds. */
    method SetPosition(position: Vector2)
      modifies bounds.position
      ensures bounds.Geometry() == MovedTo(old(bounds.Geometry()), old(position.x), old(position.y))
    {
      Shapes.SetPosition(RectShape(bounds), position);
    }

    /** setWidth: changes the width of the bounds only. */
    method SetWidth(width: real)
      modifies bounds
      ensures bounds.Geometry() ==
        Box(old(bounds.position.x), old(bounds.position.y), width, old(bounds.height))
    {
      bounds.SetWidth(width);
    }

    /** setHeight: changes the height of the bounds only. */
    method SetHeight(height: real)
      modifies bounds
      ensures bounds.Geometry() ==
        Box(old(bounds.position.x), old(bounds.position.y), old(bounds.width), height)
    {
      bounds.SetHeight(height);
    }
  }

  /** The search loop of update(): stops at the first event of type k. */
  method AnyOfKind(events: seq<TouchEvent>, k: TouchType) returns (found: bool)
    ensures found <==> HasKind(events, k)
  {
    found := false;
    var i := 0;
    while i < |events|
      invariant 0 <= i <= |events|
      invariant forall j :: 0 <= j < i ==> events[j].kind != k
    {
      if events[i].kind == k {
        found := true;
        break;
      }
      i := i + 1;
    }
  }

  /** update has no memory between calls: the same events give the same states. */
  method UpdateTwice(button: TouchButton, events: seq<TouchEvent>) returns (touched1: bool, activated1: bool)
    requires button.Valid()
    modifies button
    ensures button.touched == touched1 && button.activated == activated1
  {
    button.Update(events);
    touched1, activated1 := button.touched, button.activated;
    button.Update(events);
  }

}
