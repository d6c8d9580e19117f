/** The game engine (TheTowerOfHanoi): named pegs and the guarded move of a
    top disk from one peg to another. */
module Game {
  import opened Towers

  /** The value view of the engine: every peg name with its disks, bottom to top. */
  type PegMap = map<string, seq<nat>>

  /** Every peg of the collection keeps the placement invariant. */
  ghost predicate AllDescending(pegs: PegMap)
  {
    forall n :: n in pegs ==> Descending(pegs[n])
  }

  /** The outcome of a move: whether it was accepted, and the pegs afterwards. */
  datatype Moved = Moved(ok: bool, pegs: PegMap)

  /** The move of the top disk of peg `f` onto peg `t`.  A self-move is
      accepted and changes nothing; an empty source or a destination whose
      top is not larger refuses the move and changes nothing; otherwise the
      disk leaves the top of `f` and becomes the top of `t`. */
  function Transfer(pegs: PegMap, f: string, t: string): (r: Moved)
    requires f == t || (f in pegs && t in pegs)
    ensures r.pegs.Keys == pegs.Keys
    ensures forall n :: n in pegs && n != f && n != t ==> r.pegs[n] == pegs[n]
    ensures !r.ok ==> r.pegs == pegs
    ensures f == t ==> r.ok && r.pegs == pegs
    ensures f != t ==> (r.ok <==> pegs[f] != [] && CanPlace(pegs[t], Last(pegs[f])))
    ensures r.ok && f != t ==>
              pegs[f] != [] && r.pegs[t] == pegs[t] + [Last(pegs[f])] &&
              pegs[f] == r.pegs[f] + [Last(r.pegs[t])]
  {
    if f == t then Moved(true, pegs)
    else if pegs[f] == [] then Moved(false, pegs)
    else if CanPlace(pegs[t], Last(pegs[f])) then
      Moved(true, pegs[t := pegs[t] + [Last(pegs[f])]][f := Popped(pegs[f])])
    else Moved(false, pegs)
  }

  /** A move never breaks the placement invariant of any peg. */
  lemma TransferKeepsDescending(pegs: PegMap, f: string, t: string)
    requires f == t || (f in pegs && t in pegs)
    requires AllDescending(pegs)
    ensures AllDescending(Transfer(pegs, f, t).pegs)
  {
    var r := Transfer(pegs, f, t);
    if r.ok && f != t {
      PlaceKeepsDescending(pegs[t], Last(pegs[f]));
      assert Descending(r.pegs[f]) by {
        assert r.pegs[f] == pegs[f][..|pegs[f]| - 1];
      }
    }
  }

  /** A move accepted between two different pegs is undone by the reverse
      move, provided the source peg was descending. */
  lemma TransferReverse(pegs: PegMap, f: string, t: string)
    requires f in pegs && t in pegs && f != t
    requires Descending(pegs[f])
    requires Transfer(pegs, f, t).ok
    ensures Transfer(Transfer(pegs, f, t).pegs, t, f) == Moved(true, pegs)
  {
    var x := Last(pegs[f]);
    var p := pegs[t := pegs[t] + [x]][f := Popped(pegs[f])];
    assert Transfer(pegs, f, t).pegs == p;
    assert p[t] != [] && Last(p[t]) == x;
    assert CanPlace(p[f], x) by {
      if p[f] != [] {
        assert Last(p[f]) == pegs[f][|pegs[f]| - 2] > pegs[f][|pegs[f]| - 1];
      }
    }
    assert Popped(p[t]) == pegs[t];
    assert p[f] + [x] == pegs[f];
    assert p[f := pegs[f]][t := pegs[t]] == pegs;
  }

  /** A short game on pegs "a" = 3 2 1, "b" and "c" empty: two moves off
      "a", a refused move of a larger disk onto a smaller one, the small disk
      onto the middle one, and the reverse of that last move. */
  lemma ThreeDiskGame()
    ensures var p0 := map["a" := [3, 2, 1], "b" := [], "c" := []];
            var p1 := map["a" := [3, 2], "b" := [], "c" := [1]];
            var p2 := map["a" := [3], "b" := [2], "c" := [1]];
            var p4 := map["a" := [3], "b" := [2, 1], "c" := []];
            Transfer(p0, "a", "c") == Moved(true, p1) &&
            Transfer(p1, "a", "b") == Moved(true, p2) &&
            Transfer(p2, "b", "c") == Moved(false, p2) &&
            Transfer(p2, "c", "b") == Moved(true, p4) &&
            Transfer(p4, "b", "c") == Moved(true, p2)
  {
    assert "a" != "b" && "a" != "c" && "b" != "c" by {
      assert "a"[0] != "b"[0] && "a"[0] != "c"[0] && "b"[0] != "c"[0];
    }
    var p0 := map["a" := [3, 2, 1], "b" := [], "c" := []];
    var p1 := map["a" := [3, 2], "b" := [], "c" := [1]];
    var p2 := map["a" := [3], "b" := [2], "c" := [1]];
    var p4 := map["a" := [3], "b" := [2, 1], "c" := []];
    assert Transfer(p0, "a", "c") == Moved(true, p1) by {
      assert Last([3, 2, 1]) == 1 && Popped([3, 2, 1]) == [3, 2] && [] + [1] == [1];
      assert p0["c" := [1]]["a" := [3, 2]] == p1;
    }
    assert Transfer(p1, "a", "b") == Moved(true, p2) by {
      assert Last([3, 2]) == 2 && Popped([3, 2]) == [3] && [] + [2] == [2];
      assert p1["b" := [2]]["a" := [3]] == p2;
    }
    assert Transfer(p2, "b", "c") == Moved(false, p2) by {
      assert Last([2]) == 2 && Last([1]) == 1;
    }
    assert Transfer(p2, "c", "b") == Moved(true, p4) by {
      assert Last([1]) == 1 && Popped([1]) == [] && [2] + [1] == [2, 1];
      assert p2["b" := [2, 1]]["c" := []] == p4;
    }
    assert Transfer(p4, "b", "c") == Moved(true, p2) by {
      assert Last([2, 1]) == 1 && Popped([2, 1]) == [2] && [] + [1] == [1];
      assert p4["c" := [1]]["b" := [2]] == p2;
    }
  }

  /** Some peg name of a non-empty set of names. */
  ghost function Pick(keys: set<string>): string
    requires keys != {}
  {
    var n :| n in keys; n
  }

  /** All disks on the pegs named in `keys`, as a multiset. */
  ghost function DisksOn(pegs: PegMap, keys: set<string>): multiset<nat>
    requires keys <= pegs.Keys
    decreases keys
  {
    if keys == {} then multiset{}
    else
      var n := Pick(keys);
      multiset(pegs[n]) + DisksOn(pegs, keys - {n})
  }

  /** All disks of the game, as a multiset. */
  ghost function Disks(pegs: PegMap): multiset<nat>
  {
    DisksOn(pegs, pegs.Keys)
  }

  /** The disks of any one peg can be split off, whichever peg that is. */
  lemma {:induction false} DisksOnSplit(pegs: PegMap, keys: set<string>, k: string)
    requires keys <= pegs.Keys && k in keys
    ensures DisksOn(pegs, keys) == multiset(pegs[k]) + DisksOn(pegs, keys - {k})
    decreases keys
  {
    var n := Pick(keys);
    if n != k {
      DisksOnSplit(pegs, keys - {n}, k);
      DisksOnSplit(pegs, keys - {k}, n);
      assert keys - {n} - {k} == keys - {k} - {n};
    }
  }

  /** The disk multiset only depends on the pegs it covers. */
  lemma {:induction false} DisksOnFrame(p: PegMap, q: PegMap, keys: set<string>)
    requires keys <= p.Keys && keys <= q.Keys
    requires forall n :: n in keys ==> p[n] == q[n]
    ensures DisksOn(p, keys) == DisksOn(q, keys)
    decreases keys
  {
    if keys != {} {
      DisksOnFrame(p, q, keys - {Pick(keys)});
    }
  }

  /** A move neither creates nor destroys disks: the multiset of all disks,
      and so the total disk count, is the same before and after. */
  lemma TransferConservesDisks(pegs: PegMap, f: string, t: string)
    requires f == t || (f in pegs && t in pegs)
    ensures Disks(Transfer(pegs, f, t).pegs) == Disks(pegs)
    ensures |Disks(Transfer(pegs, f, t).pegs)| == |Disks(pegs)|
  {
    var r := Transfer(pegs, f, t);
    if r.ok && f != t {
      var p := r.pegs;
      var rest := pegs.Keys - {f} - {t};
      DisksOnSplit(pegs, pegs.Keys, f);
      DisksOnSplit(pegs, pegs.Keys - {f}, t);
      DisksOnSplit(p, p.Keys, f);
      DisksOnSplit(p, p.Keys - {f}, t);
      DisksOnFrame(p, pegs, rest);
      assert pegs[f] == p[f] + [Last(pegs[f])];
      assert multiset(pegs[f]) + multiset(pegs[t]) == multiset(p[f]) + multiset(p[t]);
    }
  }

  /** The engine: a collection of pegs under unique names. */
  class TheTowerOfHanoi {
    var towers: map<string, HanoiTower>

    /** Different names never share a peg object. */
    ghost predicate Valid()
      reads this
    {
      forall a, b :: a in towers && b in towers && a != b ==> towers[a] != towers[b]
    }

    /** The contents of every peg, by name. */
    ghost function Pegs(): (pegs: PegMap)
      reads this, towers.Values
      ensures pegs.Keys == towers.Keys
    {
      map n | n in towers :: towers[n].stack
    }

    /** An engine without pegs. */
    constructor ()
      ensures Valid() && towers == map[] && Pegs() == map[]
    {
      towers := map[];
    }

    /** Whether a peg of that name exists. */
    predicate Has(name: string)
      reads this, towers.Values
      ensures Has(name) <==> name in Pegs()
    {
      name in towers
    }

    /** Inserts an empty peg under a new name.  When the name is taken the
        insertion fails and the existing peg is left as it was; either way
        the peg now under that name is returned. */
    method Create(name: string) returns (ok: bool, tower: HanoiTower)
      requires Valid()
      modifies this
      ensures Valid() && fresh(towers.Values - old(towers.Values))
      ensures ok <==> name !in old(towers)
      ensures name in towers && tower == towers[name]
      ensures ok ==> fresh(tower) && towers == old(towers)[name := tower]
      ensures ok ==> Pegs() == old(Pegs())[name := []]
      ensures !ok ==> towers == old(towers) && Pegs() == old(Pegs())
    {
      if name in towers {
        return false, towers[name];
      }
      tower := new HanoiTower();
      towers := towers[name := tower];
      ok := true;
    }

    /** Inserts a peg under a new name and then pushes `init` onto it in
        order.  The result is false when the name was taken or a push was
        refused; in the second case the entry stays, holding the disks that
        did go on. */
    method CreateWith(name: string, init: seq<nat>) returns (ok: bool, tower: HanoiTower)
      requires Valid()
      modifies this
      ensures Valid() && fresh(towers.Values - old(towers.Values))
      ensures name in towers && tower == towers[name]
      ensures name in old(towers) ==> !ok && towers == old(towers) && Pegs() == old(Pegs())
      ensures name !in old(towers) ==> fresh(tower) && towers == old(towers)[name := tower]
      ensures name !in old(towers) ==>
                ok == PushAll([], init).ok && Pegs() == old(Pegs())[name := PushAll([], init).stack]
      ensures AllDescending(old(Pegs())) ==> AllDescending(Pegs())
    {
      ok, tower := Create(name);
      if ok {
        ok := PushEach(tower, init);
        assert Pegs() == old(Pegs())[name := tower.stack];
        PushAllSpec([], init);
      }
    }

    /** The peg object stored under `name`, which no other name shares. */
    function Select(name: string): (tower: HanoiTower)
      reads this, towers.Values
      requires name in towers
      ensures tower == towers[name] && tower.stack == Pegs()[name]
      ensures Valid() ==> forall other :: other in towers && other != name ==> towers[other] != tower
    {
      towers[name]
    }

    /** Moves the top disk of peg `f` onto peg `t` under the placement rule,
        changing the pegs in place exactly as Transfer describes. */
    method Move(f: string, t: string) returns (ok: bool)
      requires Valid()
      requires f == t || (f in towers && t in towers)
      modifies towers.Values
      ensures Valid() && towers == old(towers)
      ensures Moved(ok, Pegs()) == Transfer(old(Pegs()), f, t)
    {
      if f == t {
        return true;
      }
      var from := Select(f);
      var to := Select(t);
      if from.Empty() {
        return false;
      }
      ok := to.Push(from.Top());
      if ok {
        from.Pop();
      }
      assert Pegs() == Transfer(old(Pegs()), f, t).pegs;
    }
  }
}
