/**
 * BackKeyInput: a key listener that remembers whether the back key is held
 * and, for back-key presses and releases, reports whether the key event was
 * consumed (the "catch back key" setting).
 */
module BackKey {

  /** Android's key code of the back key. */
  const BACK_KEY_CODE: int := 4
  /** Android's KeyEvent.ACTION_DOWN and KeyEvent.ACTION_UP. */
  const ACTION_DOWN: int := 0
  const ACTION_UP: int := 1

  /** Whether the back key counts as held after a key event. */
  function PressedAfter(pressed: bool, keyCode: int, action: int): (r: bool)
    ensures keyCode == BACK_KEY_CODE && action == ACTION_DOWN ==> r
    ensures keyCode == BACK_KEY_CODE && action == ACTION_UP ==> !r
    ensures keyCode != BACK_KEY_CODE || (action != ACTION_DOWN && action != ACTION_UP) ==> r == pressed
  {
    if keyCode == BACK_KEY_CODE && action == ACTION_DOWN then true
    else if keyCode == BACK_KEY_CODE && action == ACTION_UP then false
    else pressed
  }

  /** The state after a sequence of key events: the last back-key press or release decides. */
  function PressedAfterAll(pressed: bool, keys: seq<(int, int)>): bool
    decreases |keys|
  {
    if keys == [] then pressed
    else PressedAfterAll(PressedAfter(pressed, keys[0].0, keys[0].1), keys[1..])
  }

  /** Whether a back-key press or release is the last one in `keys`. */
  predicate LastBackEvent(keys: seq<(int, int)>, i: int) {
    0 <= i < |keys| && keys[i].0 == BACK_KEY_CODE && (keys[i].1 == ACTION_DOWN || keys[i].1 == ACTION_UP)
    && forall j :: i < j < |keys| ==> !(keys[j].0 == BACK_KEY_CODE && (keys[j].1 == ACTION_DOWN || keys[j].1 == ACTION_UP))
  }

  /**
   * After a sequence of key events the back key is held exactly when the last
   * back-key press or release was a press; with none, the state is unchanged.
   */
  lemma {:induction false} PressedAfterAllLastWins(pressed: bool, keys: seq<(int, int)>, i: int)
    requires LastBackEvent(keys, i)
    ensures PressedAfterAll(pressed, keys) <==> keys[i].1 == ACTION_DOWN
    decreases |keys|
  {
    if i == 0 {
      NoBackEventKeeps(PressedAfter(pressed, keys[0].0, keys[0].1), keys[1..]);
    } else {
      assert LastBackEvent(keys[1..], i - 1);
      PressedAfterAllLastWins(PressedAfter(pressed, keys[0].0, keys[0].1), keys[1..], i - 1);
    }
  }

  /** Key events that are not back-key presses or releases leave the state alone. */
  lemma {:induction false} NoBackEventKeeps(pressed: bool, keys: seq<(int, int)>)
    requires forall j :: 0 <= j < |keys| ==> !(keys[j].0 == BACK_KEY_CODE && (keys[j].1 == ACTION_DOWN || keys[j].1 == ACTION_UP))
    ensures PressedAfterAll(pressed, keys) == pressed
    decreases |keys|
  {
    if keys != [] {
      NoBackEventKeeps(pressed, keys[1..]);
    }
  }

  class BackKeyInput {
    var catchBackKey: bool
    var backPressed: bool

    constructor (catchBackKey: bool)
      ensures this.catchBackKey == catchBackKey && !backPressed
    {
      this.catchBackKey := catchBackKey;
      backPressed := false;
    }

    /**
     * onKey: a back-key press or release sets the held state and returns the
     * catch setting; every other key event returns false and changes nothing.
     */
    method OnKey(keyCode: int, action: int) returns (consumed: bool)
      modifies this
      ensures backPressed == PressedAfter(old(backPressed), keyCode, action)
      ensures catchBackKey == old(catchBackKey)
      ensures consumed <==> keyCode == BACK_KEY_CODE && (action == ACTION_DOWN || action == ACTION_UP) && catchBackKey
    {
      if keyCode == BACK_KEY_CODE {
        if action == ACTION_DOWN {
          backPressed := true;
          return catchBackKey;
        } else if action == ACTION_UP {
          backPressed := false;
          return catchBackKey;
        }
      }
      return false;
    }

    function IsBackPressed(): (r: bool)
      reads this
      ensures r == backPressed
    {
      backPressed
    }

    /** catchBackKey(b): what later back-key events return. */
    method CatchBackKey(catchBackKey: bool)
      modifies this
      ensures this.catchBackKey == catchBackKey && backPressed == old(backPressed)
    {
      this.catchBackKey := catchBackKey;
    }
  }
}
