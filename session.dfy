/** The interactive session: the default pegs, the command dispatch of the
    read loop and its one-slot undo record. */
module Session {
  import opened Towers
  import opened Game
  import opened Commands

  /** The last successful move (last_op_type); its command is Nop until a
      move has been made. */
  datatype LastOp = LastOp(command: CommandType, from: string, to: string)

  const NoMove := LastOp(Nop, [], [])

  /** What the read loop carries from one line to the next. */
  datatype State = State(pegs: PegMap, last: LastOp, running: bool)

  /** A recorded move names two existing pegs, so an undo may look them up. */
  predicate RecordValid(s: State)
  {
    s.last.command == Move ==> s.last.from in s.pegs && s.last.to in s.pegs
  }

  /** One line of input applied to the session.  Quit stops the loop; a move
      between two existing pegs is attempted and, if accepted, recorded; an
      undo attempts the reverse of the recorded move and, if accepted,
      records that reverse; every other line changes nothing. */
  function Step(s: State, line: string): (r: State)
    requires RecordValid(s)
    ensures RecordValid(r) && r.pegs.Keys == s.pegs.Keys
    ensures r.running <==> s.running && line != "/quit"
    ensures line == "/quit" ==> r == s.(running := false)
    ensures !Parse(line).ok ==> r == s
    ensures Parse(line).ok && Parse(line).kind == Nop ==> r == s
    ensures Parse(line).kind == Move && (Parse(line).from !in s.pegs || Parse(line).to !in s.pegs) ==> r == s
    ensures Parse(line).kind == Move && Parse(line).from in s.pegs && Parse(line).to in s.pegs ==>
              var m := Transfer(s.pegs, Parse(line).from, Parse(line).to);
              if m.ok then r == State(m.pegs, LastOp(Move, Parse(line).from, Parse(line).to), s.running)
              else r == s
    ensures r.pegs != s.pegs || r.last != s.last ==>
              r.last.command == Move && Transfer(s.pegs, r.last.from, r.last.to) == Moved(true, r.pegs)
    ensures line == "/undo" && s.last.command != Move ==> r == s
    ensures line == "/undo" && s.last.command == Move ==>
              if Transfer(s.pegs, s.last.to, s.last.from).ok
              then r == State(Transfer(s.pegs, s.last.to, s.last.from).pegs, LastOp(Move, s.last.to, s.last.from), s.running)
              else r == s
  {
    var cmd := Parse(line);
    if !cmd.ok then s
    else match cmd.kind
      case Quit => s.(running := false)
      case Move =>
        if cmd.from in s.pegs && cmd.to in s.pegs then
          var m := Transfer(s.pegs, cmd.from, cmd.to);
          if m.ok then s.(pegs := m.pegs, last := LastOp(Move, cmd.from, cmd.to)) else s
        else s
      case Undo =>
        if s.last.command == Move then
          var m := Transfer(s.pegs, s.last.to, s.last.from);
          if m.ok then s.(pegs := m.pegs, last := LastOp(Move, s.last.to, s.last.from)) else s
        else s
      case Nop => s
  }

  /** No line ever breaks the placement invariant or adds or loses a disk. */
  lemma StepKeepsInvariant(s: State, line: string)
    requires RecordValid(s) && AllDescending(s.pegs)
    ensures AllDescending(Step(s, line).pegs)
    ensures Disks(Step(s, line).pegs) == Disks(s.pegs)
  {
    var r := Step(s, line);
    if r.pegs != s.pegs || r.last != s.last {
      TransferKeepsDescending(s.pegs, r.last.from, r.last.to);
      TransferConservesDisks(s.pegs, r.last.from, r.last.to);
    }
  }

  /** A move line that is accepted, followed by "/undo", restores the pegs
      it started from and records the reverse move; a second "/undo" then
      redoes the move and records it again. */
  lemma UndoAfterMove(s: State, f: string, t: string)
    requires RecordValid(s) && f in s.pegs && t in s.pegs
    requires ',' !in f && !IsDirective(f)
    requires Descending(s.pegs[f])
    requires Transfer(s.pegs, f, t).ok
    ensures Step(s, f + [','] + t).pegs == Transfer(s.pegs, f, t).pegs
    ensures Step(s, f + [','] + t).last == LastOp(Move, f, t)
    ensures Step(Step(s, f + [','] + t), "/undo").pegs == s.pegs
    ensures Step(Step(s, f + [','] + t), "/undo").last == LastOp(Move, t, f)
    ensures Step(Step(Step(s, f + [','] + t), "/undo"), "/undo") == Step(s, f + [','] + t)
  {
    ParseMoveLine(f, t);
    var s1 := Step(s, f + [','] + t);
    assert s1.pegs == Transfer(s.pegs, f, t).pegs;
    if f != t {
      TransferReverse(s.pegs, f, t);
    }
    var s2 := Step(s1, "/undo");
    assert s2.pegs == s.pegs;
    assert Step(s2, "/undo").pegs == s1.pegs;
  }

  /** The session after reading `lines` in order; once a line has stopped the
      loop, no later line is read. */
  function Played(s: State, lines: seq<string>): (r: State)
    requires RecordValid(s)
    ensures RecordValid(r) && r.pegs.Keys == s.pegs.Keys
    ensures !s.running ==> r == s
    decreases |lines|
  {
    if lines == [] then s
    else
      var p := Played(s, lines[..|lines| - 1]);
      if p.running then Step(p, lines[|lines| - 1]) else p
  }

  /** Once the session has stopped, further input changes nothing. */
  lemma {:induction false} QuitIsFinal(s: State, lines: seq<string>, more: seq<string>)
    requires RecordValid(s)
    requires !Played(s, lines).running
    ensures Played(s, lines + more) == Played(s, lines)
    decreases |more|
  {
    if more != [] {
      var front := more[..|more| - 1];
      assert (lines + more)[..|lines + more| - 1] == lines + front;
      QuitIsFinal(s, lines, front);
    } else {
      assert lines + more == lines;
    }
  }

  /** A whole session keeps every peg descending and keeps every disk. */
  lemma {:induction false} PlayedKeepsInvariant(s: State, lines: seq<string>)
    requires RecordValid(s) && AllDescending(s.pegs)
    ensures AllDescending(Played(s, lines).pegs)
    ensures Disks(Played(s, lines).pegs) == Disks(s.pegs)
    decreases |lines|
  {
    if lines != [] {
      var front := lines[..|lines| - 1];
      PlayedKeepsInvariant(s, front);
      var p := Played(s, front);
      if p.running {
        StepKeepsInvariant(p, lines[|lines| - 1]);
      }
    }
  }

  /** One pass of the read loop's body for the line read: parse it and
      dispatch it to the engine, updating the undo record. */
  method Dispatch(hanoi: TheTowerOfHanoi, last: LastOp, line: string) returns (next: LastOp, running: bool)
    requires hanoi.Valid()
    requires RecordValid(State(hanoi.Pegs(), last, true))
    modifies hanoi.towers.Values
    ensures hanoi.Valid() && hanoi.towers == old(hanoi.towers)
    ensures State(hanoi.Pegs(), next, running) == Step(State(old(hanoi.Pegs()), last, true), line)
  {
    next, running := last, true;
    var result := Parse(line);
    if result.ok {
      match result.kind {
        case Quit =>
          running := false;
        case Move =>
          if hanoi.Has(result.from) && hanoi.Has(result.to) {
            var moved := hanoi.Move(result.from, result.to);
            if moved {
              next := LastOp(Move, result.from, result.to);
            }
          }
        case Undo =>
          if last.command == Move {
            var moved := hanoi.Move(last.to, last.from);
            if moved {
              next := LastOp(Move, last.to, last.from);
            }
          }
        case Nop =>
      }
    }
  }

  /** The read loop: dispatches lines until "/quit" or the end of the input,
      and says how many lines it read. */
  method ReadLoop(hanoi: TheTowerOfHanoi, lines: seq<string>) returns (last: LastOp, running: bool, consumed: nat)
    requires hanoi.Valid()
    modifies hanoi.towers.Values
    ensures hanoi.Valid() && hanoi.towers == old(hanoi.towers)
    ensures consumed <= |lines| && (running ==> consumed == |lines|)
    ensures State(hanoi.Pegs(), last, running) == Played(State(old(hanoi.Pegs()), NoMove, true), lines)
    ensures !running ==> 0 < consumed
                         && Played(State(old(hanoi.Pegs()), NoMove, true), lines[..consumed - 1]).running
                         && !Played(State(old(hanoi.Pegs()), NoMove, true), lines[..consumed]).running
  {
    ghost var start := State(hanoi.Pegs(), NoMove, true);
    last, running, consumed := NoMove, true, 0;
    while running && consumed < |lines|
      invariant consumed <= |lines|
      invariant hanoi.Valid() && hanoi.towers == old(hanoi.towers)
      invariant State(hanoi.Pegs(), last, running) == Played(start, lines[..consumed])
      invariant !running ==> 0 < consumed && Played(start, lines[..consumed - 1]).running
    {
      assert lines[..consumed + 1][..consumed] == lines[..consumed];
      assert Played(start, lines[..consumed]).running;
      last, running := Dispatch(hanoi, last, lines[consumed]);
      consumed := consumed + 1;
    }
    if running {
      assert lines[..consumed] == lines;
    } else {
      QuitIsFinal(start, lines[..consumed], lines[consumed..]);
      assert lines[..consumed] + lines[consumed..] == lines;
    }
  }

  /** The disks n, n-1, ..., 1, largest first. */
  function Countdown(n: nat): (r: seq<nat>)
    ensures |r| == n && forall i :: 0 <= i < n ==> r[i] == n - i
    ensures Descending(r)
  {
    if n == 0 then [] else [n] + Countdown(n - 1)
  }

  /** The number of disks the session starts with. */
  const Height: nat := 9

  /** The starting pegs for `n` disks: "a" holding n down to 1, "b" and "c" empty. */
  function Initial(n: nat): PegMap
  {
    map["a" := Countdown(n), "b" := [], "c" := []]
  }

  /** Sets up the starting pegs by pushing n, n-1, ..., 1 onto a new peg "a"
      and creating empty pegs "b" and "c" (the session uses n = Height). */
  method Bootstrap(n: nat) returns (hanoi: TheTowerOfHanoi)
    ensures fresh(hanoi) && fresh(hanoi.towers.Values) && hanoi.Valid()
    ensures hanoi.Pegs() == Initial(n)
  {
    hanoi := new TheTowerOfHanoi();
    var init := Countdown(n);
    var okA, pegA := hanoi.CreateWith("a", init);
    PushAllOntoEmpty(init);
    assert fresh(hanoi.towers.Values);
    ghost var withA := hanoi.Pegs();
    assert withA == map["a" := init];
    var okB, pegB := hanoi.Create("b");
    assert fresh(hanoi.towers.Values);
    ghost var withB := hanoi.Pegs();
    assert withB == withA["b" := []];
    var okC, pegC := hanoi.Create("c");
    assert hanoi.Pegs() == withB["c" := []];
    assert fresh(hanoi.towers.Values);
  }

  /** The default peg "a" holds 9 at the bottom up to 1 at the top. */
  lemma DefaultDisks()
    ensures Initial(Height)["a"] == [9, 8, 7, 6, 5, 4, 3, 2, 1]
  {
  }

  /** A whole session: the default pegs, then the read loop over `lines`. */
  method Play(lines: seq<string>) returns (hanoi: TheTowerOfHanoi, last: LastOp, running: bool, consumed: nat)
    ensures hanoi.Valid() && consumed <= |lines|
    ensures State(hanoi.Pegs(), last, running) == Played(State(Initial(Height), NoMove, true), lines)
    ensures AllDescending(hanoi.Pegs())
  {
    hanoi := Bootstrap(Height);
    last, running, consumed := ReadLoop(hanoi, lines);
    PlayedKeepsInvariant(State(Initial(Height), NoMove, true), lines);
  }
}
