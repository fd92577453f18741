/**
 * Touch events. The touch input reuses its event objects, so an event has an
 * identity (a `Handle`) besides the value it holds at the moment; the values
 * of all events made so far live in a store indexed by handle, and `set`
 * on an event is an update of the store at its handle.
 */
module TouchEvents {

  /** The four event types; NotTouching only marks a freshly made, unused event. */
  datatype TouchType = NotTouching | TouchDown | TouchUp | TouchDragged

  /** The value an event holds: pointer id, position and type. */
  datatype TouchEvent = TouchEvent(pointer: int, x: real, y: real, kind: TouchType)

  /** The identity of an event object: its index in the event store. */
  type Handle = nat

  /** Every handle of `s` names an event of `store`. */
  predicate InStore(store: seq<TouchEvent>, s: seq<Handle>) {
    forall i :: 0 <= i < |s| ==> s[i] < |store|
  }

  /** The values held by the events of a list, in list order. */
  function Values(store: seq<TouchEvent>, s: seq<Handle>): (vs: seq<TouchEvent>)
    requires InStore(store, s)
    ensures |vs| == |s|
    ensures forall i :: 0 <= i < |s| ==> vs[i] == store[s[i]]
  {
    if s == [] then [] else [store[s[0]]] + Values(store, s[1..])
  }

  /** No event occurs twice in `s`. */
  predicate Distinct(s: seq<Handle>) {
    forall i, j :: 0 <= i < j < |s| ==> s[i] != s[j]
  }

  /** No event occurs in both `a` and `b`. */
  predicate Disjoint(a: seq<Handle>, b: seq<Handle>) {
    forall e :: e in a ==> e !in b
  }

  /** Two stores that agree on the events of a list give the list the same values. */
  lemma ValuesAgree(store1: seq<TouchEvent>, store2: seq<TouchEvent>, s: seq<Handle>)
    requires InStore(store1, s) && InStore(store2, s)
    requires forall h :: h in s ==> store1[h] == store2[h]
    ensures Values(store1, s) == Values(store2, s)
  {
    forall i | 0 <= i < |s| ensures Values(store1, s)[i] == Values(store2, s)[i] {
      assert s[i] in s;
    }
  }

  /** Writing the store at a handle the list does not hold leaves the list's values alone. */
  lemma ValuesUpdate(store: seq<TouchEvent>, s: seq<Handle>, h: Handle, v: TouchEvent)
    requires InStore(store, s) && h < |store| && h !in s
    ensures InStore(store[h := v], s)
    ensures Values(store[h := v], s) == Values(store, s)
  {
    ValuesAgree(store[h := v], store, s);
  }

  /** Growing the store leaves the values of existing events alone. */
  lemma ValuesGrow(store: seq<TouchEvent>, s: seq<Handle>, v: TouchEvent)
    requires InStore(store, s)
    ensures InStore(store + [v], s)
    ensures Values(store + [v], s) == Values(store, s)
  {
    ValuesAgree(store + [v], store, s);
  }
}

/** List surgery on event handles, used to track which events change hands. */
module EventLists {
  import opened TouchEvents

  /** The events of a list. */
  function Elems(s: seq<Handle>): set<Handle> {
    set h | h in s
  }

  /** `s` without the events of `drop`, order kept. */
  function Without(s: seq<Handle>, drop: set<Handle>): (r: seq<Handle>)
    ensures |r| <= |s|
    ensures forall e :: e in r <==> e in s && e !in drop
  {
    if s == [] then [] else (if s[0] in drop then [] else [s[0]]) + Without(s[1..], drop)
  }

  lemma {:induction false} WithoutDistinct(s: seq<Handle>, drop: set<Handle>)
    requires Distinct(s)
    ensures Distinct(Without(s, drop))
  {
    if s != [] {
      WithoutDistinct(s[1..], drop);
      assert s[0] !in s[1..] by {
        forall j | 0 <= j < |s[1..]| ensures s[1..][j] != s[0] {
          assert s[1..][j] == s[j + 1];
        }
      }
    }
  }

  lemma {:induction false} WithoutNothing(s: seq<Handle>, drop: set<Handle>)
    requires forall e :: e in drop ==> e !in s
    ensures Without(s, drop) == s
  {
    if s != [] {
      WithoutNothing(s[1..], drop);
      assert s == [s[0]] + s[1..];
    }
  }

  lemma {:induction false} WithoutTwice(s: seq<Handle>, a: set<Handle>, b: set<Handle>)
    ensures Without(Without(s, a), b) == Without(s, a + b)
  {
    if s != [] {
      WithoutTwice(s[1..], a, b);
      var w := Without(s, a);
      if s[0] !in a {
        assert w == [s[0]] + Without(s[1..], a);
        assert w[1..] == Without(s[1..], a);
      } else {
        assert w == Without(s[1..], a);
      }
    }
  }

  /** Removing index i of a list without repetitions removes exactly that event. */
  lemma {:induction false} RemoveAtIsWithout(s: seq<Handle>, i: nat)
    requires Distinct(s) && i < |s|
    ensures s[..i] + s[i + 1..] == Without(s, {s[i]})
  {
    if i == 0 {
      WithoutNothing(s[1..], {s[0]});
      assert s[..0] + s[1..] == s[1..];
    } else {
      RemoveAtIsWithout(s[1..], i - 1);
      assert s[1..][..i - 1] == s[1..i];
      assert s[1..][i..] == s[i + 1..];
      assert s[..i] + s[i + 1..] == [s[0]] + (s[1..i] + s[i + 1..]);
    }
  }

  lemma ValuesConcat(store: seq<TouchEvent>, a: seq<Handle>, b: seq<Handle>)
    requires InStore(store, a) && InStore(store, b)
    ensures InStore(store, a + b)
    ensures Values(store, a + b) == Values(store, a) + Values(store, b)
  {
    assert |Values(store, a + b)| == |Values(store, a) + Values(store, b)|;
    forall i | 0 <= i < |a + b|
      ensures Values(store, a + b)[i] == (Values(store, a) + Values(store, b))[i]
    {
      if i < |a| {
        assert (a + b)[i] == a[i];
      } else {
        assert (a + b)[i] == b[i - |a|];
      }
    }
  }

  lemma DistinctConcat(a: seq<Handle>, b: seq<Handle>)
    requires Distinct(a) && Distinct(b) && Disjoint(a, b)
    ensures Distinct(a + b)
  {
    forall i, j | 0 <= i < j < |a + b| ensures (a + b)[i] != (a + b)[j] {
      if j < |a| {
      } else if i >= |a| {
        assert (a + b)[i] == b[i - |a|] && (a + b)[j] == b[j - |a|];
      } else {
        assert (a + b)[i] == a[i] && (a + b)[j] == b[j - |a|];
        assert a[i] in a;
      }
    }
  }
}
