/** One peg of the puzzle: a stack of disk sizes that only accepts a disk
    smaller than its current top.  Contents are written bottom to top, so the
    top of a peg is the LAST element of its sequence. */
module Towers {

  /** The defining invariant of a peg: strictly descending from bottom to top. */
  ghost predicate Descending(s: seq<nat>)
  {
    forall i, j :: 0 <= i < j < |s| ==> s[i] > s[j]
  }

  /** The topmost disk of a non-empty peg. */
  function Last(s: seq<nat>): nat
    requires s != []
  {
    s[|s| - 1]
  }

  /** The peg with its top disk taken off. */
  function Popped(s: seq<nat>): seq<nat>
    requires s != []
  {
    s[..|s| - 1]
  }

  /** The placement rule: the peg is empty or its top is strictly larger. */
  predicate CanPlace(s: seq<nat>, e: nat)
  {
    s == [] || Last(s) > e
  }

  /** On a descending peg, the placement rule is exactly the condition under
      which adding the disk keeps the peg descending. */
  lemma PlaceKeepsDescending(s: seq<nat>, e: nat)
    ensures Descending(s) ==> (CanPlace(s, e) <==> Descending(s + [e]))
  {
    if !Descending(s) {
    } else if CanPlace(s, e) {
      forall i, j | 0 <= i < j < |s + [e]| ensures (s + [e])[i] > (s + [e])[j] {
        if j == |s| {
          assert i == |s| - 1 || s[i] > s[|s| - 1];
        }
      }
    } else {
      assert (s + [e])[|s| - 1] == Last(s) <= e == (s + [e])[|s|];
    }
  }

  /** The result of pushing a sequence of disks one by one. */
  datatype Filled = Filled(ok: bool, stack: seq<nat>)

  /** Pushes `vs` onto `s` in order, stopping at the first disk the peg
      refuses; `ok` says whether every disk went on. */
  function PushAll(s: seq<nat>, vs: seq<nat>): Filled
    decreases |vs|
  {
    if vs == [] then Filled(true, s)
    else if CanPlace(s, vs[0]) then PushAll(s + [vs[0]], vs[1..])
    else Filled(false, s)
  }

  /** Pushing a sequence of disks onto a descending peg keeps it descending,
      and every disk goes on exactly when the peg followed by `vs` is
      descending, in which case the peg ends up as exactly that. */
  lemma {:induction false} PushAllSpec(s: seq<nat>, vs: seq<nat>)
    requires Descending(s)
    ensures Descending(PushAll(s, vs).stack)
    ensures PushAll(s, vs).ok <==> Descending(s + vs)
    ensures PushAll(s, vs).ok ==> PushAll(s, vs).stack == s + vs
    decreases |vs|
  {
    if vs == [] {
      assert s + vs == s;
    } else {
      PlaceKeepsDescending(s, vs[0]);
      if CanPlace(s, vs[0]) {
        PushAllSpec(s + [vs[0]], vs[1..]);
        assert s + [vs[0]] + vs[1..] == s + vs;
      } else {
        assert (s + vs)[|s| - 1] == Last(s) <= vs[0] == (s + vs)[|s|];
      }
    }
  }

  /** Whatever happens, the peg ends up as the old peg followed by the disks
      that went on: a prefix of `vs`, all of it when every push succeeded. */
  lemma {:induction false} PushAllPrefix(s: seq<nat>, vs: seq<nat>)
    ensures exists k :: 0 <= k <= |vs| && PushAll(s, vs).stack == s + vs[..k]
    ensures PushAll(s, vs).ok ==> PushAll(s, vs).stack == s + vs
    decreases |vs|
  {
    if vs == [] {
      assert s + vs[..0] == s;
      assert s + vs == s;
    } else if CanPlace(s, vs[0]) {
      var s' := s + [vs[0]];
      PushAllPrefix(s', vs[1..]);
      var k :| 0 <= k <= |vs[1..]| && PushAll(s', vs[1..]).stack == s' + vs[1..][..k];
      assert s' + vs[1..][..k] == s + vs[..k + 1];
      assert PushAll(s, vs).stack == s + vs[..k + 1];
      assert 0 <= k + 1 <= |vs|;
      assert s' + vs[1..] == s + vs;
    } else {
      assert s + vs[..0] == s;
    }
  }

  /** Pushing disks onto an empty peg succeeds exactly when the disks come in
      strictly descending order, and then the peg holds exactly those disks. */
  lemma PushAllOntoEmpty(vs: seq<nat>)
    ensures PushAll([], vs).ok <==> Descending(vs)
    ensures PushAll([], vs).ok ==> PushAll([], vs).stack == vs
  {
    PushAllSpec([], vs);
    assert [] + vs == vs;
  }

  /** A peg (HanoiTower): a stack of disk sizes whose every push goes through
      the placement rule. */
  class HanoiTower {
    /** The disks, bottom to top. */
    var stack: seq<nat>

    /** The object invariant a peg keeps as long as only Push and Pop touch it. */
    ghost predicate Valid()
      reads this
    {
      Descending(stack)
    }

    /** An empty peg. */
    constructor ()
      ensures stack == [] && Valid()
    {
      stack := [];
    }

    /** A peg wrapping an existing stack; nothing is checked. */
    constructor FromStack(s: seq<nat>)
      ensures stack == s
    {
      stack := s;
    }

    /** The top disk; on a valid peg it is strictly smaller than every disk below it. */
    function Top(): (t: nat)
      reads this
      requires stack != []
      ensures t in stack
      ensures Valid() ==> forall i :: 0 <= i < |stack| - 1 ==> stack[i] > t
    {
      Last(stack)
    }

    predicate Empty()
      reads this
      ensures Empty() <==> Size() == 0
    {
      stack == []
    }

    function Size(): (n: nat)
      reads this
      ensures n == |stack|
    {
      |stack|
    }

    /** A disk may go on when the peg is empty or the top is larger; on a valid
        peg that is exactly when the peg would stay valid with the disk on top. */
    predicate Placeable(e: nat)
      reads this
      ensures Placeable(e) <==> (Empty() || Top() > e)
      ensures Valid() ==> (Placeable(e) <==> Descending(stack + [e]))
    {
      PlaceKeepsDescending(stack, e);
      Empty() || Top() > e
    }

    /** Pushes `e` when the placement rule allows it; otherwise nothing changes. */
    method Push(e: nat) returns (ok: bool)
      modifies this
      ensures ok == old(Placeable(e))
      ensures stack == if ok then old(stack) + [e] else old(stack)
      ensures old(Valid()) ==> Valid()
    {
      if Placeable(e) {
        stack := stack + [e];
        return true;
      }
      return false;
    }

    /** Builds the disk in place and pushes it under the same rule as Push. */
    method Emplace(e: nat) returns (ok: bool)
      modifies this
      ensures ok == old(Placeable(e))
      ensures stack == if ok then old(stack) + [e] else old(stack)
      ensures old(Valid()) ==> Valid()
    {
      var element := e;
      ok := Push(element);
    }

    /** Takes the top disk off a non-empty peg. */
    method Pop()
      requires stack != []
      modifies this
      ensures stack == Popped(old(stack))
      ensures old(Valid()) ==> Valid()
    {
      stack := stack[..|stack| - 1];
    }
  }

  /** Pushes the disks of `init` onto `tower` in order and gives up at the
      first one it refuses (the bootstrap initializer). */
  method PushEach(tower: HanoiTower, init: seq<nat>) returns (ok: bool)
    modifies tower
    ensures Filled(ok, tower.stack) == PushAll(old(tower.stack), init)
  {
    var i := 0;
    while i < |init|
      invariant 0 <= i <= |init|
      invariant PushAll(old(tower.stack), init) == PushAll(tower.stack, init[i..])
    {
      var pushed := tower.Push(init[i]);
      if !pushed {
        return false;
      }
      assert init[i..][1..] == init[i + 1..];
      i := i + 1;
    }
    return true;
  }
}
