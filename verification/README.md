# PetorsAndroidFramework core, modelled in Dafny

This project models the core of PetorsAndroidFramework, a small Android game framework written in Java. It proves the properties that the core's code and comments promise.

- **Touch input** (`touch_event.dfy`, `touch_spec.dfy`, `touch_input.dfy`, `pool.dfy`): `PooledTouchInput` and its bounded `Pool` of event objects.
  - The producer `onTouch` turns each raw press, release or move into a pooled `TouchEvent`. It appends the event to the buffered list and updates the per-pointer flags `touchDown`, `touchUp` and `touchDragged`.
  - Once per frame, `update` keeps at most one event per pointer, using the code's precedence and its fallback chain for dragged pointers. It hands every other event object back to the pool.
  - Event objects are handles into a store of event values, so the model tracks which object is in which list.
  - `TouchSpec` holds the value-level specification: the flag machine, the clamp and the per-pointer choice `Pick`. The class `TouchInput.PooledTouchInput` keeps the source's arrays, lists and loops and is proved against that specification.
- **Consumers of events** (`buttons.dfy`, `back_key.dfy`, `number_builder.dfy`):
  - `TouchButton.update`, with its three activation modes;
  - the back-key state machine of `BackKeyInput`;
  - `NumberBuilder`, which keeps a `"text" + number` string up to date.
- **Bounding shapes** (`shapes.dfy`): `BoundingRectangle`, `BoundingCircle` and `BaseBoundingShape`, over real numbers.
  - This covers the point, rectangle and circle overlap tests, the dispatch on the other shape's kind, and the test against a collection.
  - The dispatch and the collection test use the rectangle-circle test as written at BoundingRectangle.java line 169; the corrected test is a separate member (see Findings).
  - It also covers the position vector, which `setPosition` copies and `getPosition` hands out.
- **Texture and font layout** (`grid.dfy`, `textures.dfy`, `fonts.dfy`):
  - `Grid` is shared by both. It models the row-major cell cursor and the power-of-two texture-size search.
  - `TextureUtil` covers the largest bitmap side, the atlas size, the placement loop and the region map.
  - `FontRenderer` covers the builder's validating setters, the character slot mapping, the cell and texture sizes, the glyph regions and the rendered string width.
  - Java strings are sequences of UTF-16 code units (`JavaString`), as `charAt` walks them, so a character beyond U+FFFF is two surrogate code units.
- **Sprite batching** (`sprites.dfy`): `SpriteBatcher`.
  - It covers the triangle index pattern, written through Java's `short` cast.
  - It covers the vertex buffer that the axis-aligned `draw` fills, sixteen floats per sprite, with `bufferIndex == 16 * spriteAmount` kept invariant.
- `wrappers.dfy` holds the `Option` and `Result` types.

All source paths below are relative to `src/com/skipifzero/petorsandroidframework/framework/`, written out in full.

## Model

| member | source | states |
|---|---|---|
| Pools.Pool.constructor | src/com/skipifzero/petorsandroidframework/framework/input/Pool.java:38-42 | A new pool has an empty free-list and the given bound. |
| Pools.Pool.GetRecycledObject | src/com/skipifzero/petorsandroidframework/framework/input/Pool.java:48-55 | An empty free-list yields the factory's new object and stays empty. Otherwise the last recycled object is returned and removed (LIFO). The free-list stays within its bound. |
| Pools.Pool.RecycleObject | src/com/skipifzero/petorsandroidframework/framework/input/Pool.java:62-67 | The object is appended exactly when the free-list is below its bound; otherwise the free-list is unchanged. |
| Pools.BoundedAppend | src/com/skipifzero/petorsandroidframework/framework/input/Pool.java:62-67 | Recycling a list of objects extends the free-list by a prefix of them. The result never exceeds the bound, and its length is min(old + recycled, bound). |
| Pools.BoundedAppendTwice | src/com/skipifzero/petorsandroidframework/framework/input/Pool.java:62-67 | Recycling two lists one after the other equals recycling their concatenation. |
| Pools.Drained | src/com/skipifzero/petorsandroidframework/framework/input/Pool.java:48-55 | After n requests the free-list is a prefix of the old one, shorter by n, or empty once n exceeds its length. |
| Pools.DrainedTwice | src/com/skipifzero/petorsandroidframework/framework/input/Pool.java:48-55 | Serving a requests and then b more leaves the same free-list as serving a + b. |
| Pools.RecycleAll | src/com/skipifzero/petorsandroidframework/framework/input/PooledTouchInput.java:280-289 | A loop of recycleObject calls leaves the free-list that BoundedAppend describes. |
| Pools.RecycleThenGet | src/com/skipifzero/petorsandroidframework/framework/input/Pool.java:54-65 | Below capacity, recycling o and then requesting an object returns o and restores the free-list. |
| Pools.RecycleWhenFull | src/com/skipifzero/petorsandroidframework/framework/input/Pool.java:64-66 | At capacity, a recycled object is dropped and the free-list is unchanged. |
| TouchSpec.OnPress | src/com/skipifzero/petorsandroidframework/framework/input/PooledTouchInput.java:113-116 | A press always sets dragged and keeps up. When down and up are not both set, down becomes exactly "not up" and they stay not both set. |
| TouchSpec.OnRelease | src/com/skipifzero/petorsandroidframework/framework/input/PooledTouchInput.java:129-131 | A release or cancel leaves (down, up, dragged) = (false, true, false). |
| TouchSpec.OnMove | src/com/skipifzero/petorsandroidframework/framework/input/PooledTouchInput.java:152-154 | A move keeps down and up, and sets dragged unless the pointer went down this frame. |
| TouchSpec.AtFrameEnd | src/com/skipifzero/petorsandroidframework/framework/input/PooledTouchInput.java:276-277 | update clears down and up and keeps dragged. |
| TouchSpec.UpThenDownWithinFrame | src/com/skipifzero/petorsandroidframework/framework/input/PooledTouchInput.java:113-116 | A release followed by a press in one frame leaves down false and dragged true. The next update therefore reaches the "previous release as drag" fallback. |
| TouchSpec.ClampInRange | src/com/skipifzero/petorsandroidframework/framework/input/PooledTouchInput.java:321-343 | The clamp lands in [0, bound] and is the identity inside it. |
| TouchSpec.ClampNearest | src/com/skipifzero/petorsandroidframework/framework/input/PooledTouchInput.java:317-343 | The clamped value is the point of the view range closest to the input. |
| TouchSpec.EventAt | src/com/skipifzero/petorsandroidframework/framework/input/PooledTouchInput.java:107-109 | The event made for a pointer carries that pointer's id and the requested type. |
| TouchSpec.EventInView | src/com/skipifzero/petorsandroidframework/framework/input/PooledTouchInput.java:107-108 | Both coordinates of an event lie inside the scaled view. |
| TouchSpec.EventCoordinates | src/com/skipifzero/petorsandroidframework/framework/input/PooledTouchInput.java:107-108 | x is the clamp of x * scale. y is the clamp of the flipped (viewY - y) * scale. |
| TouchSpec.EventBeforeFirstUpdate | src/com/skipifzero/petorsandroidframework/framework/input/PooledTouchInput.java:321-343 | While the view size read by update is still 0 by 0, every coordinate clamps to 0. |
| TouchSpec.ClampedAxis | src/com/skipifzero/petorsandroidframework/framework/input/PooledTouchInput.java:321-343 | One clamped coordinate lies in [0, extent * scale], and is 0 when the extent is 0. |
| TouchSpec.MoveEvents | src/com/skipifzero/petorsandroidframework/framework/input/PooledTouchInput.java:134-156 | A move yields only TOUCH_DRAGGED events of in-range pointers, no more events than listed pointers, and the event of every listed in-range pointer is among them. |
| TouchSpec.Produced | src/com/skipifzero/petorsandroidframework/framework/input/PooledTouchInput.java:94-159 | An out-of-range pointer id or an unknown action produces nothing. A press produces exactly one TOUCH_DOWN and a release exactly one TOUCH_UP. A move produces only drags. Every produced pointer is in range. |
| TouchSpec.FirstIndex | src/com/skipifzero/petorsandroidframework/framework/input/PooledTouchInput.java:190-196 | Returns the index of the first event with that pointer and type, none before it, or -1 when there is none. |
| TouchSpec.LastIndex | src/com/skipifzero/petorsandroidframework/framework/input/PooledTouchInput.java:219-225 | Returns the index of the last event with that pointer and type, none after it, or -1 when there is none. |
| TouchSpec.Pick | src/com/skipifzero/petorsandroidframework/framework/input/PooledTouchInput.java:188-273 | update's choice for pointer p, in the code's order down, up, dragged; any event it chooses belongs to p (the kinds it chooses are stated by PickKinds). |
| TouchSpec.DragPick | src/com/skipifzero/petorsandroidframework/framework/input/PooledTouchInput.java:215-247 | The choice for a dragged pointer, the last buffered drag or else the previous-frame fallbacks; any event it chooses belongs to p. |
| TouchSpec.PrevPick | src/com/skipifzero/petorsandroidframework/framework/input/PooledTouchInput.java:233-272 | The previous frame's fallback, its last drag or else a converted press or release; any event it chooses belongs to p. |
| TouchSpec.ConvertPick | src/com/skipifzero/petorsandroidframework/framework/input/PooledTouchInput.java:249-272 | A previous press, else a previous release; what it yields belongs to p and is a TOUCH_DRAGGED. |
| TouchSpec.Converted | src/com/skipifzero/petorsandroidframework/framework/input/PooledTouchInput.java:251-259 | The first previous event of the given type, re-issued: what it yields belongs to p and is a TOUCH_DRAGGED. |
| TouchSpec.Coalesce | src/com/skipifzero/petorsandroidframework/framework/input/PooledTouchInput.java:186-274 | The choices for pointers 0 .. n-1 in pointer order; never more than n events (CoalesceOnePerPointer and CoalesceOfPointer state the rest). |
| TouchSpec.FirstLocal | src/com/skipifzero/petorsandroidframework/framework/input/PooledTouchInput.java:190-196 | The first match for a pointer depends only on that pointer's events. |
| TouchSpec.LastLocal | src/com/skipifzero/petorsandroidframework/framework/input/PooledTouchInput.java:219-225 | The last match for a pointer depends only on that pointer's events. |
| TouchSpec.PickLocal | src/com/skipifzero/petorsandroidframework/framework/input/PooledTouchInput.java:188-273 | The choice for p is unchanged by any change to the other pointers' events. |
| TouchSpec.PickKinds | src/com/skipifzero/petorsandroidframework/framework/input/PooledTouchInput.java:188-206 | The chosen event has the flag's type (down, then up, then dragged), and a pointer with no flag gets nothing. A pressed or released pointer gets an event exactly when one of that type was buffered. |
| TouchSpec.CoalesceOnePerPointer | src/com/skipifzero/petorsandroidframework/framework/input/PooledTouchInput.java:186-274 | The frame's list holds at most one event per pointer, in increasing pointer order, each pointer in range. |
| TouchSpec.CoalesceOfPointer | src/com/skipifzero/petorsandroidframework/framework/input/PooledTouchInput.java:186-274 | The events of pointer p in the frame's list are exactly Pick's choice for p, and none for p outside the range. |
| TouchSpec.DragPersistence | src/com/skipifzero/petorsandroidframework/framework/input/PooledTouchInput.java:249-260 | Consider a pointer held still with no new events whose previous frame reported its press. It is reported as a drag at the press position. |
| TouchSpec.LastMoveWins | src/com/skipifzero/petorsandroidframework/framework/input/PooledTouchInput.java:219-231 | Of two drags of one pointer within a frame, the later is reported. |
| TouchSpec.ReleaseBecomesDrag | src/com/skipifzero/petorsandroidframework/framework/input/PooledTouchInput.java:262-271 | Take a dragged pointer whose only previous event is a release. It is reported as a drag at the release position. |
| TouchSpec.DocumentedPriorityAgrees | src/com/skipifzero/petorsandroidframework/framework/input/PooledTouchInput.java:297-301 | For flags that are not both down and up, the documented priority UP > DOWN > DRAGGED chooses what the code's order chooses. |
| TouchSpec.Step | src/com/skipifzero/petorsandroidframework/framework/input/PooledTouchInput.java:94-159 | onTouch never sets down and up together. It leaves out-of-range pointers alone, and changes no flag when the action's pointer id is out of range. |
| TouchInput.IndexOfFirst | src/com/skipifzero/petorsandroidframework/framework/input/PooledTouchInput.java:190-196 | The search loop with break returns FirstIndex of the list's values. |
| TouchInput.IndexOfLast | src/com/skipifzero/petorsandroidframework/framework/input/PooledTouchInput.java:219-225 | The search loop without break returns LastIndex of the list's values. |
| TouchInput.ClearFlags | src/com/skipifzero/petorsandroidframework/framework/input/PooledTouchInput.java:276-277 | Arrays.fill leaves every flag false. |
| TouchInput.RecycleOwned | src/com/skipifzero/petorsandroidframework/framework/input/PooledTouchInput.java:280-293 | After the leftovers are recycled, no event object is both among the selected events and in the free-list, and none is in the free-list twice. |
| TouchInput.PooledTouchInput.constructor | src/com/skipifzero/petorsandroidframework/framework/input/PooledTouchInput.java:59-82 | Starts with empty lists, an empty pool, every flag false and a 0-by-0 view. |
| TouchInput.PooledTouchInput.FixBoundsX | src/com/skipifzero/petorsandroidframework/framework/input/PooledTouchInput.java:321-329 | The result lies in [0, viewX * scale], is the identity inside that range, and is 0 for a negative x. |
| TouchInput.PooledTouchInput.FixBoundsY | src/com/skipifzero/petorsandroidframework/framework/input/PooledTouchInput.java:335-343 | The result lies in [0, viewY * scale], is the identity inside that range, and is 0 for a negative y. |
| TouchInput.PooledTouchInput.GetTouchEvent | src/com/skipifzero/petorsandroidframework/framework/input/PooledTouchInput.java:310-315 | The event is the pool's last free object, or a new one when the pool is empty, set to the given fields. The free-list is Drained by one request. The event is in no list afterwards, and no listed event changes. |
| TouchInput.PooledTouchInput.BufferEvent | src/com/skipifzero/petorsandroidframework/framework/input/PooledTouchInput.java:107-110 | Appends exactly the clamped event of the pointer to the buffered list, taking one request's worth from the pool. |
| TouchInput.PooledTouchInput.OnTouch | src/com/skipifzero/petorsandroidframework/framework/input/PooledTouchInput.java:87-164 | The buffered values grow by exactly Produced, and every in-range pointer's flags take their Step. The pool serves one request per produced event and no more, so the free-list is Drained by \|Produced\|. An out-of-range action id changes nothing: not the lists, not the events, not the free-list, and no flag. An unknown in-range action is an assertion failure that takes nothing from the pool. Ownership and the down/up exclusion are kept. |
| TouchInput.PooledTouchInput.MoveOne | src/com/skipifzero/petorsandroidframework/framework/input/PooledTouchInput.java:138-154 | One pass of the move loop: skips an out-of-range pointer, taking nothing from the pool. Otherwise appends its drag, takes one request from the pool and applies OnMove to its flags only. |
| TouchInput.PooledTouchInput.MoveAll | src/com/skipifzero/petorsandroidframework/framework/input/PooledTouchInput.java:134-156 | The move loop appends MoveEvents, takes one request from the pool per appended event, and moves exactly the flags of the listed in-range pointers. |
| TouchInput.PooledTouchInput.TakeBuffered | src/com/skipifzero/petorsandroidframework/framework/input/PooledTouchInput.java:193 | remove(i) returns the event at i and removes exactly that object. The other pointers' buffered events are unchanged. |
| TouchInput.PooledTouchInput.TakeFiltered | src/com/skipifzero/petorsandroidframework/framework/input/PooledTouchInput.java:245 | remove(i) on the previous frame's list returns the event at i and removes exactly that object. |
| TouchInput.PooledTouchInput.TakeFirst | src/com/skipifzero/petorsandroidframework/framework/input/PooledTouchInput.java:190-196 | Moves out the first buffered event of the pointer and type, whose value is First of the old list. |
| TouchInput.PooledTouchInput.CopyPrevious | src/com/skipifzero/petorsandroidframework/framework/input/PooledTouchInput.java:251-259 | A recycled or new object is set to Converted of the previous frame's list. Both lists keep their values, and no object outside the free-list is rewritten. |
| TouchInput.PooledTouchInput.TakeLastBuffered | src/com/skipifzero/petorsandroidframework/framework/input/PooledTouchInput.java:219-231 | Moves out the last buffered event of the pointer and type, whose value is Last of the old list. |
| TouchInput.PooledTouchInput.TakeLastFiltered | src/com/skipifzero/petorsandroidframework/framework/input/PooledTouchInput.java:233-247 | Moves out the last previous-frame event of the pointer and type, whose value is Last of the old list. |
| TouchInput.PooledTouchInput.SelectDragged | src/com/skipifzero/petorsandroidframework/framework/input/PooledTouchInput.java:215-272 | The dragged branch yields DragPick's event and removes only that object from the lists. Other pointers' events are untouched. |
| TouchInput.PooledTouchInput.SelectPrevious | src/com/skipifzero/petorsandroidframework/framework/input/PooledTouchInput.java:233-272 | The previous-frame fallbacks yield PrevPick's event. |
| TouchInput.PooledTouchInput.SelectConverted | src/com/skipifzero/petorsandroidframework/framework/input/PooledTouchInput.java:249-272 | The two conversion fallbacks yield ConvertPick's event. |
| TouchInput.PooledTouchInput.SelectFor | src/com/skipifzero/petorsandroidframework/framework/input/PooledTouchInput.java:188-273 | The loop body for pointer p yields Pick's event for p's flags. It removes only that object, and other pointers' events are untouched. |
| TouchInput.PooledTouchInput.SelectAll | src/com/skipifzero/petorsandroidframework/framework/input/PooledTouchInput.java:186-274 | The selection loop's list has the values Coalesce gives. It is distinct and apart from both lists and the free-list, and exactly its objects left the lists. |
| TouchInput.PooledTouchInput.RecycleRest | src/com/skipifzero/petorsandroidframework/framework/input/PooledTouchInput.java:279-293 | Every leftover filtered event and then every buffered event goes to the pool, both lists are cleared, and the selection becomes the filtered list. |
| TouchInput.PooledTouchInput.Update | src/com/skipifzero/petorsandroidframework/framework/input/PooledTouchInput.java:172-295 | After update the filtered values are Coalesce of the old flags and lists, at most one event per in-range pointer in pointer order. The buffered list is empty, down and up are cleared with dragged kept, and the view size is the given one. The free-list is a prefix of the old one with the unselected leftovers appended up to the pool's bound, so no selected event is in the pool. |
| TouchInput.PooledTouchInput.GetTouchEvents | src/com/skipifzero/petorsandroidframework/framework/input/PooledTouchInput.java:304-308 | The returned list holds distinct event objects, none of them in the pool, at most one per in-range pointer in increasing pointer order. |
| Buttons.Touching | src/com/skipifzero/petorsandroidframework/framework/TouchButton.java:88-93 | The currently-touching list holds exactly the events whose position lies in the bounds, edges included. |
| Buttons.TouchButton.constructor | src/com/skipifzero/petorsandroidframework/framework/TouchButton.java:72-77 | Bounds at the given centre and size, neither touched nor activated. |
| Buttons.TouchButton.FromPosition | src/com/skipifzero/petorsandroidframework/framework/TouchButton.java:57-62 | Bounds at a copy of the given position, neither touched nor activated. |
| Buttons.TouchButton.Update | src/com/skipifzero/petorsandroidframework/framework/TouchButton.java:84-128 | Touched holds exactly when some event hits the bounds, and an untouched button is never activated. WHILE_TOUCHED activates exactly when touched. ON_TOUCH activates exactly when a hitting event is a TOUCH_DOWN, and ON_RELEASE when one is a TOUCH_UP. The scratch list ends empty. |
| Buttons.TouchButton.SetPosition | src/com/skipifzero/petorsandroidframework/framework/TouchButton.java:205-207 | Moves the bounds' centre to the position's coordinates, size kept. |
| Buttons.TouchButton.SetWidth | src/com/skipifzero/petorsandroidframework/framework/TouchButton.java:213-215 | Changes only the width of the bounds. |
| Buttons.TouchButton.SetHeight | src/com/skipifzero/petorsandroidframework/framework/TouchButton.java:221-223 | Changes only the height of the bounds. |
| Buttons.AnyOfKind | src/com/skipifzero/petorsandroidframework/framework/TouchButton.java:101-106 | The search loop with break finds an event of the type exactly when one exists. |
| Buttons.UpdateTwice | src/com/skipifzero/petorsandroidframework/framework/TouchButton.java:87-127 | Updating twice with the same events gives the same touched and activated both times. |
| BackKey.PressedAfter | src/com/skipifzero/petorsandroidframework/framework/input/BackKeyInput.java:33-48 | A back-key DOWN sets pressed and a back-key UP clears it. Any other key or action leaves it unchanged. |
| BackKey.PressedAfterAllLastWins | src/com/skipifzero/petorsandroidframework/framework/input/BackKeyInput.java:33-46 | After a sequence of key events, pressed holds exactly when the last back-key DOWN/UP was a DOWN. |
| BackKey.NoBackEventKeeps | src/com/skipifzero/petorsandroidframework/framework/input/BackKeyInput.java:33-48 | A sequence with no back-key DOWN or UP leaves pressed unchanged. |
| BackKey.BackKeyInput.constructor | src/com/skipifzero/petorsandroidframework/framework/input/BackKeyInput.java:19-28 | Not pressed, with the given catch flag. |
| BackKey.BackKeyInput.OnKey | src/com/skipifzero/petorsandroidframework/framework/input/BackKeyInput.java:31-49 | Pressed takes PressedAfter. The result is the catch flag for a back-key DOWN or UP, and false otherwise. |
| BackKey.BackKeyInput.IsBackPressed | src/com/skipifzero/petorsandroidframework/framework/input/BackKeyInput.java:51-53 | Returns the pressed flag. |
| BackKey.BackKeyInput.CatchBackKey | src/com/skipifzero/petorsandroidframework/framework/input/BackKeyInput.java:55-57 | Sets the flag later back-key events return; pressed unchanged. |
| Numbers.Digits | src/com/skipifzero/petorsandroidframework/framework/NumberBuilder.java:29 | The decimal form of a natural number is a non-empty string of digits. |
| Numbers.Decimal | src/com/skipifzero/petorsandroidframework/framework/NumberBuilder.java:29 | The signed decimal form of an int is never empty. |
| Numbers.DigitsRoundTrip | src/com/skipifzero/petorsandroidframework/framework/NumberBuilder.java:29 | Reading the digits of n back gives n. |
| Numbers.DecimalRoundTrip | src/com/skipifzero/petorsandroidframework/framework/NumberBuilder.java:41 | Reading the signed decimal form of any int back gives the int, so the string determines the number. |
| Numbers.NumberBuilder.constructor | src/com/skipifzero/petorsandroidframework/framework/NumberBuilder.java:27-31 | The string is text + decimal(initialNumber), and deleteStart is the length of text. |
| Numbers.NumberBuilder.Update | src/com/skipifzero/petorsandroidframework/framework/NumberBuilder.java:38-43 | Afterwards the number is n and string == text + decimal(n) still holds. The prefix is never touched. Updating with the current number changes nothing. |
| Numbers.NumberBuilder.GetNumber | src/com/skipifzero/petorsandroidframework/framework/NumberBuilder.java:50-52 | The number read back from the string after deleteStart. |
| Numbers.NumberBuilder.ToString | src/com/skipifzero/petorsandroidframework/framework/NumberBuilder.java:57-59 | The text followed by the decimal form of the current number. |
| Shapes.Vector2.constructor | src/com/skipifzero/petorsandroidframework/framework/math/Vector2.java:20-22 | A vector with the given coordinates. |
| Shapes.Vector2.SetXY | src/com/skipifzero/petorsandroidframework/framework/math/Vector2.java:58-62 | Sets both coordinates. |
| Shapes.Vector2.Set | src/com/skipifzero/petorsandroidframework/framework/math/Vector2.java:46-50 | Copies the other vector's coordinates. |
| Shapes.DistanceSquared | src/com/skipifzero/petorsandroidframework/framework/vector/BaseVector2.java:209-213 | dx*dx + dy*dy is never negative. |
| Shapes.Closest | src/com/skipifzero/petorsandroidframework/framework/math/BoundingCircle.java:113-129 | The clamped coordinate lies in the rectangle's range and is the identity inside it. |
| Shapes.ClosestIsNearest | src/com/skipifzero/petorsandroidframework/framework/math/BoundingCircle.java:113-129 | No point of the range is nearer to the centre than the clamped coordinate. |
| Shapes.RectContains | src/com/skipifzero/petorsandroidframework/framework/math/BoundingRectangle.java:73-87 | A point is inside exactly when \|px-x\| <= w/2 and \|py-y\| <= h/2, edges included. |
| Shapes.RectsOverlap | src/com/skipifzero/petorsandroidframework/framework/math/BoundingRectangle.java:109-128 | Closed-interval intersection on both axes, written as centre distances. |
| Shapes.RectsOverlapMeansCommonPoint | src/com/skipifzero/petorsandroidframework/framework/math/BoundingRectangle.java:109-128 | For sizes that are not negative, two rectangles overlap exactly when some point lies in both. |
| Shapes.CircleContainsCentre | src/com/skipifzero/petorsandroidframework/framework/math/BoundingCircle.java:52-60 | A circle contains its own centre and overlaps itself. |
| Shapes.CirclesOverlapSymmetric | src/com/skipifzero/petorsandroidframework/framework/math/BoundingCircle.java:82-91 | Circle-circle overlap does not depend on which circle asks. |
| Shapes.CircleRectOverlap | src/com/skipifzero/petorsandroidframework/framework/math/BoundingCircle.java:98-132 | A circle whose centre lies in the rectangle always overlaps it. |
| Shapes.CircleRectOverlapMeansCommonPoint | src/com/skipifzero/petorsandroidframework/framework/math/BoundingCircle.java:98-132 | For sizes that are not negative, the circle's test holds exactly when some point lies in both the rectangle and the circle. |
| Shapes.NearestPointOfRect | src/com/skipifzero/petorsandroidframework/framework/math/BoundingCircle.java:113-131 | The clamped point is the rectangle's nearest point to the circle's centre. |
| Shapes.RectCircleAsWrittenDisagrees | src/com/skipifzero/petorsandroidframework/framework/math/BoundingRectangle.java:169 | Measured from the rectangle's centre, a 2-by-2 square at the origin reports overlap with a unit circle at (10, 0). That circle shares no point with the square, and its own test says no. |
| Shapes.RectCircleOverlap | src/com/skipifzero/petorsandroidframework/framework/math/BoundingRectangle.java:135-170 | The corrected rectangle-circle test equals the circle's test of the rectangle. |
| Shapes.OverlapAsWrittenAsymmetric | src/com/skipifzero/petorsandroidframework/framework/math/BoundingRectangle.java:89-102 | The dispatch as written agrees with the corrected one except when a rectangle asks about a circle; there the 2-by-2 square at the origin overlaps the unit circle at (10, 0), while the circle asking about the square says no. |
| Shapes.OverlapSymmetric | src/com/skipifzero/petorsandroidframework/framework/math/BoundingRectangle.java:89-102 | With the corrected rectangle-circle test (OverlapCorrected), overlap(shape) gives the same answer whichever of the two shapes asks, for every pair of kinds. |
| Shapes.MovedTo | src/com/skipifzero/petorsandroidframework/framework/math/BaseBoundingShape.java:30-33 | Moving a shape keeps its kind. |
| Shapes.BoundingRectangle.constructor | src/com/skipifzero/petorsandroidframework/framework/math/BoundingRectangle.java:22-26 | A rectangle with the given centre and size, in a fresh position vector. |
| Shapes.BoundingRectangle.FromPosition | src/com/skipifzero/petorsandroidframework/framework/math/BoundingRectangle.java:34-38 | A rectangle at a fresh copy of the given position. |
| Shapes.BoundingRectangle.SetWidth | src/com/skipifzero/petorsandroidframework/framework/math/BoundingRectangle.java:60-62 | Changes only the width. |
| Shapes.BoundingRectangle.SetHeight | src/com/skipifzero/petorsandroidframework/framework/math/BoundingRectangle.java:68-70 | Changes only the height. |
| Shapes.BoundingCircle.constructor | src/com/skipifzero/petorsandroidframework/framework/math/BoundingCircle.java:21-24 | A circle with the given centre and radius, in a fresh position vector. |
| Shapes.BoundingCircle.FromPosition | src/com/skipifzero/petorsandroidframework/framework/math/BoundingCircle.java:31-34 | A circle at a fresh copy of the given position. |
| Shapes.BoundingCircle.SetRadius | src/com/skipifzero/petorsandroidframework/framework/math/BoundingCircle.java:48-50 | Changes only the radius. |
| Shapes.GetPosition | src/com/skipifzero/petorsandroidframework/framework/math/BaseBoundingShape.java:25-28 | Returns the shape's own position vector, part of the shape's footprint, not a copy. |
| Shapes.SetPosition | src/com/skipifzero/petorsandroidframework/framework/math/BaseBoundingShape.java:30-33 | Moves the shape's centre to v's coordinates and changes nothing else. |
| Shapes.SetPositionThenMoveSource | src/com/skipifzero/petorsandroidframework/framework/math/BaseBoundingShape.java:30-33 | Because setPosition copies, changing v afterwards does not move the shape. |
| Shapes.MoveThroughPosition | src/com/skipifzero/petorsandroidframework/framework/math/BaseBoundingShape.java:25-28 | Because getPosition is an alias, setting the returned vector moves the shape. |
| Shapes.OverlapAny | src/com/skipifzero/petorsandroidframework/framework/math/BaseBoundingShape.java:35-43 | True exactly when some shape of the collection overlaps it under overlap(shape) as written; false for an empty collection. |
| Textures.LargestSideIsMax | src/com/skipifzero/petorsandroidframework/framework/opengl/TextureUtil.java:204-216 | The largest side bounds every width and height and is one of them, or 0 for no bitmaps. |
| Textures.GetLargestBitmapSize | src/com/skipifzero/petorsandroidframework/framework/opengl/TextureUtil.java:204-216 | The running-max loop returns LargestSide. |
| Textures.GetTextureSize | src/com/skipifzero/petorsandroidframework/framework/opengl/TextureUtil.java:187-202 | A largest side of 0 divides by zero. Otherwise the result is SizeFor, the least 128 * 2^k whose grid holds every bitmap, or the exception naming that size when it exceeds 8192. |
| Grid.FirstFit | src/com/skipifzero/petorsandroidframework/framework/opengl/TextureUtil.java:189-197 | The first candidate size from the k-th on whose grid holds n cells; it exists and fits. |
| Grid.FirstFitMinimal | src/com/skipifzero/petorsandroidframework/framework/opengl/TextureUtil.java:189-197 | No candidate before the first fitting one fits. |
| Grid.FirstFitStep | src/com/skipifzero/petorsandroidframework/framework/opengl/TextureUtil.java:189-197 | A search step: the candidate being tried either is the chosen size or comes before it. |
| Grid.SizeForLeast | src/com/skipifzero/petorsandroidframework/framework/opengl/TextureUtil.java:187-197 | The chosen size fits, and every smaller candidate does not: it is the least power of two from 128 on with (t / w)^2 >= n. |
| Grid.Columns | src/com/skipifzero/petorsandroidframework/framework/opengl/TextureUtil.java:93-97 | The cursor's row length: t / w cells when one fits, and these fill the row without room for one more. |
| Grid.AdvanceCell | src/com/skipifzero/petorsandroidframework/framework/opengl/TextureUtil.java:93-97 | One cursor step (right by a cell, wrapping when the next cell would cross the edge) takes cell i to cell i + 1. |
| Grid.CellsApart | src/com/skipifzero/petorsandroidframework/framework/opengl/TextureUtil.java:85-98 | Different cells are a whole cell apart on some axis. |
| Grid.CellInside | src/com/skipifzero/petorsandroidframework/framework/opengl/TextureUtil.java:85-98 | Cells of the first rows lie inside the texture across and inside those rows down. |
| Textures.PlaceBitmaps | src/com/skipifzero/petorsandroidframework/framework/opengl/TextureUtil.java:85-98 | The placement loop stores cell i's corner for bitmap i. |
| Textures.PlacementFits | src/com/skipifzero/petorsandroidframework/framework/opengl/TextureUtil.java:85-98 | In an atlas that fits, every corner is a multiple of the cell side, every cell lies inside the atlas, and no two cells overlap. |
| Textures.AtlasRegions | src/com/skipifzero/petorsandroidframework/framework/opengl/TextureUtil.java:109-112 | Bitmap i's region is its cell's corner with the bitmap's own size. |
| Textures.PutAllLookup | src/com/skipifzero/petorsandroidframework/framework/opengl/TextureUtil.java:109-115 | After the puts, a name is a key exactly when it was one or was put. A name put last at i maps to region i, and a key not put keeps its region. |
| Textures.TextureUtil.constructor | src/com/skipifzero/petorsandroidframework/framework/opengl/TextureUtil.java:44-55 | No regions recorded. |
| Textures.TextureUtil.Load | src/com/skipifzero/petorsandroidframework/framework/opengl/TextureUtil.java:63-117 | Without a bitmap side it divides by zero. Otherwise it fails exactly when SizeFor exceeds 8192, and then records nothing. On success it returns SizeFor and puts every name's region. With distinct names, each name then looks up its own bitmap's region. |
| Textures.TextureUtil.GetTextureRegion | src/com/skipifzero/petorsandroidframework/framework/opengl/TextureUtil.java:166-172 | Succeeds exactly for a name with a recorded region, and otherwise fails with the exception naming it. |
| Fonts.Builder.constructor | src/com/skipifzero/petorsandroidframework/framework/opengl/FontRenderer.java:51-53 | Starts at the defaults, which pass every setter's check. |
| Fonts.Builder.Reset | src/com/skipifzero/petorsandroidframework/framework/opengl/FontRenderer.java:59-69 | Back to the defaults. |
| Fonts.Builder.SetSize | src/com/skipifzero/petorsandroidframework/framework/opengl/FontRenderer.java:89-95 | Size <= 0 throws and changes nothing; otherwise only the size changes. |
| Fonts.Builder.SetSpacing | src/com/skipifzero/petorsandroidframework/framework/opengl/FontRenderer.java:103-109 | Negative spacing throws and changes nothing; otherwise only the spacing changes. |
| Fonts.Builder.SetMaxCharCapacity | src/com/skipifzero/petorsandroidframework/framework/opengl/FontRenderer.java:118-124 | A capacity below 10 throws and changes nothing; otherwise only the capacity changes. |
| Fonts.Builder.SetXPadding | src/com/skipifzero/petorsandroidframework/framework/opengl/FontRenderer.java:133-139 | Negative padding throws and changes nothing; otherwise only the x padding changes. |
| Fonts.Builder.SetYPadding | src/com/skipifzero/petorsandroidframework/framework/opengl/FontRenderer.java:148-154 | Negative padding throws and changes nothing; otherwise only the y padding changes. |
| Fonts.Builder.SetHorizontalAlignment | src/com/skipifzero/petorsandroidframework/framework/opengl/FontRenderer.java:161-164 | Changes only the horizontal alignment. |
| Fonts.Builder.SetVerticalAlignment | src/com/skipifzero/petorsandroidframework/framework/opengl/FontRenderer.java:171-174 | Changes only the vertical alignment. |
| Fonts.Builder.Build | src/com/skipifzero/petorsandroidframework/framework/opengl/FontRenderer.java:180-182 | A new renderer with the builder's settings and the region and cell sizes from the widths and metrics. A zero cell side gives DivisionByZero. Otherwise it succeeds exactly when SizeFor of the cell is at most 8192, and fails with NoTextureSize when not. On success the font is loaded into the texture of size SizeFor. |
| Fonts.GetArrayLocation | src/com/skipifzero/petorsandroidframework/framework/opengl/FontRenderer.java:566-572 | For a UTF-16 code unit: always a slot below 226, and the unknown slot 225 exactly for code units outside 32..256. |
| Fonts.ArrayLocationInverse | src/com/skipifzero/petorsandroidframework/framework/opengl/FontRenderer.java:678-683 | Slot k, where getCharacterWidths stores the width of character 32 + k, is the slot getArrayLocation gives that character. |
| Fonts.ArrayLocationInjective | src/com/skipifzero/petorsandroidframework/framework/opengl/FontRenderer.java:566-572 | Distinct known characters get distinct slots. |
| Fonts.Ceil | src/com/skipifzero/petorsandroidframework/framework/opengl/FontRenderer.java:647 | The least integer not below x. |
| Fonts.MaxWidth | src/com/skipifzero/petorsandroidframework/framework/opengl/FontRenderer.java:641-646 | The running maximum from 0 bounds every width and is one of them, or 0. |
| Fonts.GlyphWidthsConcat | src/com/skipifzero/petorsandroidframework/framework/opengl/FontRenderer.java:517-519 | The summed glyph widths of a + b are those of a plus those of b. |
| Fonts.RenderedWidthConcat | src/com/skipifzero/petorsandroidframework/framework/opengl/FontRenderer.java:513-523 | Rendering a + b takes the widths of a and b plus one scaled spacing between them. |
| Fonts.RenderedWidthEmpty | src/com/skipifzero/petorsandroidframework/framework/opengl/FontRenderer.java:513-523 | The empty string's width is minus one scaled spacing. |
| Fonts.RenderedWidthSnoc | src/com/skipifzero/petorsandroidframework/framework/opengl/FontRenderer.java:517-519 | One more character adds its scaled glyph width and one scaled spacing. |
| Fonts.SurrogatePairWidth | src/com/skipifzero/petorsandroidframework/framework/opengl/FontRenderer.java:517-519 | A character beyond U+FFFF, a surrogate pair, is measured as two unknown characters with one spacing between them. |
| Fonts.MaxSide | src/com/skipifzero/petorsandroidframework/framework/opengl/FontRenderer.java:657 | The cell size is at least the cell's width and height. |
| Fonts.FontGrid | src/com/skipifzero/petorsandroidframework/framework/opengl/FontRenderer.java:657-666 | When 226 square cells of the larger side fit, the grid of narrower cells holds all 226 within the same number of rows, and those rows fit. |
| Fonts.FontCellInside | src/com/skipifzero/petorsandroidframework/framework/opengl/FontRenderer.java:587-600 | With a texture that fits, every slot's cell lies inside the texture. |
| Fonts.FontRenderer.constructor | src/com/skipifzero/petorsandroidframework/framework/opengl/FontRenderer.java:231-245 | Takes the builder's settings, with arrays of 226 slots and no texture size yet. |
| Fonts.FontRenderer.Load | src/com/skipifzero/petorsandroidframework/framework/opengl/FontRenderer.java:579-585 | Stores the widths and sets the region size to ceil(max width) by ceil(height), and the cell to that plus twice the padding. A zero cell side gives DivisionByZero and keeps the size. When SizeFor is at most 8192 it succeeds with that size. Otherwise the earlier size is kept, and it succeeds exactly when an earlier load set one. On success every slot holds its cell's glyph region. On an exception the regions stay as they were. |
| Fonts.FontRenderer.GetCharacterWidths | src/com/skipifzero/petorsandroidframework/framework/opengl/FontRenderer.java:673-690 | Slot k receives the measured width of character 32 + k; the last slot receives the unknown character's. |
| Fonts.FontRenderer.CalculateVariousSizes | src/com/skipifzero/petorsandroidframework/framework/opengl/FontRenderer.java:639-671 | The region is ceil(max width) by ceil(height), and a cell adds twice the padding. A zero cell side divides by zero. The size is SizeFor when that is at most 8192. Otherwise the old size is kept, and it is an error only if no size was ever found. |
| Fonts.FontRenderer.SearchTextureSize | src/com/skipifzero/petorsandroidframework/framework/opengl/FontRenderer.java:659-670 | The loop finds SizeFor when it is at most 8192. Otherwise the old size stays, and it is an error only when that is below 128. |
| Fonts.FontRenderer.GetTextureRegions | src/com/skipifzero/petorsandroidframework/framework/opengl/FontRenderer.java:587-600 | Slot i gets cell i's corner moved in by the padding, with the glyph region's size. |
| Fonts.FontRenderer.RenderedStringWidth | src/com/skipifzero/petorsandroidframework/framework/opengl/FontRenderer.java:513-523 | Over the string's UTF-16 code units, the loop returns RenderedWidth with the scale size / charRegionHeight: the scaled glyph widths plus one scaled spacing between neighbouring characters, as RenderedWidthEmpty, RenderedWidthSnoc and RenderedWidthConcat state. |
| Fonts.LoadedRegionsFit | src/com/skipifzero/petorsandroidframework/framework/opengl/FontRenderer.java:587-600 | In a font loaded into the least texture that fits, every slot's cell lies inside the texture, and different slots are a whole cell apart. |
| Sprites.ToShortCast | src/com/skipifzero/petorsandroidframework/framework/opengl/SpriteBatcher.java:24-29 | The short cast lands in [-32768, 32768) and keeps the value modulo 2^16. |
| Sprites.ToShortOfSum | src/com/skipifzero/petorsandroidframework/framework/opengl/SpriteBatcher.java:23 | Adding to a short and casting equals casting the exact sum, so the short counter j equals the cast of 4k. |
| Sprites.FillIndices | src/com/skipifzero/petorsandroidframework/framework/opengl/SpriteBatcher.java:20-30 | The fill loop stores IndexAt(m) at every position m. |
| Sprites.FillStep | src/com/skipifzero/petorsandroidframework/framework/opengl/SpriteBatcher.java:23-29 | One round stores the six indices of sprite k and steps j to the next sprite. |
| Sprites.IndicesPattern | src/com/skipifzero/petorsandroidframework/framework/opengl/SpriteBatcher.java:20-30 | Sprite k's indices are 4k, 4k+1, 4k+2, 4k+2, 4k+3, 4k. Read as unsigned this holds while 4 * capacity <= 65536, and read as signed while it is <= 32768. |
| Sprites.Quad | src/com/skipifzero/petorsandroidframework/framework/opengl/SpriteBatcher.java:102-141 | The axis-aligned draw writes sixteen floats per sprite. |
| Sprites.QuadIsSpriteRectangle | src/com/skipifzero/petorsandroidframework/framework/opengl/SpriteBatcher.java:102-141 | The four vertices are the sprite's rectangle centred on it. They run (x1,y1), (x2,y1), (x2,y2), (x1,y2) with texture coordinates (u1,v2), (u2,v2), (u2,v1), (u1,v1). |
| Sprites.Flatten | src/com/skipifzero/petorsandroidframework/framework/opengl/SpriteBatcher.java:40-44 | A batch uses sixteen floats per sprite. |
| Sprites.FlattenAt | src/com/skipifzero/petorsandroidframework/framework/opengl/SpriteBatcher.java:113-143 | Sprite k of a batch owns floats 16k .. 16k + 15. |
| Sprites.PutVertex | src/com/skipifzero/petorsandroidframework/framework/opengl/SpriteBatcher.java:113-117 | The four writes of one vertex: position, then texture coordinate. |
| Sprites.PutQuad | src/com/skipifzero/petorsandroidframework/framework/opengl/SpriteBatcher.java:111-141 | The sixteen writes replace slots b .. b + 15 with the quad and leave every other slot alone. |
| Sprites.Splice | src/com/skipifzero/petorsandroidframework/framework/opengl/SpriteBatcher.java:111-141 | The writes in source order amount to splicing the quad in at b. |
| Sprites.SpriteBatcher.constructor | src/com/skipifzero/petorsandroidframework/framework/opengl/SpriteBatcher.java:13-32 | A buffer of 16 * capacity floats, an empty batch, and the index pattern filled in. |
| Sprites.SpriteBatcher.BeginBatch | src/com/skipifzero/petorsandroidframework/framework/opengl/SpriteBatcher.java:34-38 | bufferIndex and spriteAmount return to 0. |
| Sprites.SpriteBatcher.Draw | src/com/skipifzero/petorsandroidframework/framework/opengl/SpriteBatcher.java:102-144 | Writes the sprite's quad into the sixteen slots after those in use and nothing else. spriteAmount grows by 1 and bufferIndex by 16, keeping bufferIndex == 16 * spriteAmount. |
| Sprites.SpriteBatcher.RenderBatch | src/com/skipifzero/petorsandroidframework/framework/opengl/SpriteBatcher.java:40-44 | Hands on the first bufferIndex floats, which are the batch's quads in order, and draws 6 * spriteAmount indices. |

## Left out

- **Event objects.** TouchEvent objects are handles into a store of event values. Sharing and reuse of an object are sharing of a handle. TouchEvent's getters and its `set` are the store's reads and writes. TouchEvent.java is not part of this model.
- **Synchronization.** The `synchronized` blocks of PooledTouchInput and BackKeyInput are not modelled. Each public call is one atomic method.
- **Platform event decoding.** The MotionEvent bit masks and the listener registration are not modelled. The decoded action is the `TouchSpec.Action` datatype: a press, a release, a move listing its pointers, or any other action code. Key events are a key code and an action code.
- **View size.** The view's width and height are parameters of `Update`, not calls on a View.
- **Floating point.** Coordinates, sizes and widths are `real`, so float and double rounding are not modelled.
  - The y flip `(viewY - y) * scaleFactor` is written `viewY * scale - y * scale`, which is equal over the reals.
  - The placement cursors, floats in the source, are integers. They hold small whole numbers.
- **Texture details.** TextureRegion's UV division and the `TEXTURE_REGION_DELTA` inset are not modelled. The region of a bitmap is its cell corner and its pixel size.
- **Drawing and loading.** Bitmap loading, asset listing, Paint and Canvas drawing (`drawCharsToBitmap`, `generateTexture`), texture binding and the Vertices object are not modelled.
  - TextureUtil's `Load` receives the sorted file names and the bitmap sizes.
  - FontRenderer's `Load` receives the measured widths and the font metrics.
- **FontRenderer's constructor** does not call `load()` itself. `Builder.Build` runs the constructor and then `Load`, which is the same sequence.
- **Other drawing paths.** SpriteBatcher's rotated `draw` (cos/sin), the double and vector overloads of `draw` (casts to float), and FontRenderer's `begin`/`draw`/`render`, `completeDraw`, alignment adjustments and typeface are not modelled.
- **Getters.** Plain getters that return a field are left out, such as `getWidth`, `getRadius`, `isTouched` and `getTextureNames`.
- **Other shapes.** BoundingShape kinds other than rectangle and circle are the single `OtherShape` case, which overlaps nothing.
- **Java int overflow.**
  - Textures.GetTextureSize: the doubling search is over unbounded integers. Java's int would overflow after 2^30, which a search that has passed 8192 reaches only for more bitmaps than an atlas could hold.
  - Numbers.NumberBuilder: the number is a 32-bit `int32`, and its decimal form is that of the mathematical value.
- **Division by zero.** An empty texture directory gives a largest side of 0, which the source divides by. The model returns `DivisionByZero`, and likewise for a font cell of side 0.
- Sprites.SpriteBatcher.Draw: requires `spriteAmount < capacity`. The source writes past the array and throws ArrayIndexOutOfBoundsException, which is not modelled.
- Fonts.FontRenderer.RenderedStringWidth: requires `charRegionHeight >= 1`. With a height of 0, Java's double division yields infinity or NaN, which have no counterpart among the reals.
- Fonts.FontRenderer.Load: on a reload whose cell fits no texture up to 8192, the regions are laid out in the earlier texture size. Loaded() then promises the regions but not that they fit that texture; Fonts.LoadedRegionsFit covers only a font loaded into the least texture that fits.
- Fonts.FontRenderer.Load and Fonts.Builder.Build: the measured widths are a parameter with no constraint between slots. getCharacterWidths measures character 32 again for the unknown slot 225, so there slot 225 always equals slot 0; the model does not require that.
- Sprites.FillIndices: stores the indices as Dafny integers already cast to the short range. How OpenGL reads a short as unsigned is stated by Sprites.IndicesPattern.
- TouchInput.PooledTouchInput.Update: the free-list contract says that the pool receives the leftover objects after handing out some of its own. It does not say how many the pool handed out.

## Findings

| source | as written | input that shows it | evidently intended | confidence | as-written member | corrected member |
|---|---|---|---|---|---|---|
| src/com/skipifzero/petorsandroidframework/framework/math/BoundingRectangle.java:169 | `overlap(BoundingCircle)` measures the distance from the rectangle's own centre to the closest point, not from the circle's centre | rectangle centre (0, 0), size 2 by 2; circle centre (10, 0), radius 1: the closest point is (1, 0), 1 from the rectangle's centre, so it reports overlap although the circle lies 9 away | measure from the circle's centre, as `BoundingCircle.overlap(BoundingRectangle)` does at line 131, so the test is symmetric | high (not executed) | Shapes.RectCircleAsWrittenDisagrees, Shapes.OverlapAsWrittenAsymmetric | Shapes.RectCircleOverlap, Shapes.OverlapSymmetric |
