# The Tower of Hanoi, modelled in Dafny

A model of the terminal Tower of Hanoi game in `main.cpp`: named pegs that
each hold a stack of disk sizes, a move that only lets a disk onto a larger
one, a line parser for `/quit`, `/undo` and `from,to` commands, and the read
loop that dispatches those commands and keeps a one-slot record of the last
successful move for undo.

Files:

- `towers.dfy` (module `Towers`): one peg (`HanoiTower`) as a class over a
  `seq<nat>` written bottom to top, the placement rule `CanPlace`, the
  invariant `Descending`, and `PushAll`/`PushEach`, the push-in-order
  initializer of the default session.
- `game.dfy` (module `Game`): the engine `TheTowerOfHanoi`, a class holding a
  `map<string, HanoiTower>` whose methods change the pegs in place; its value
  view `Pegs()`; the move as a function on that view (`Transfer`), which the
  engine's `Move` is proved to follow; and the multiset of all disks.
- `commands.dfy` (module `Commands`): `Parse` and the first-comma search.
- `session.dfy` (module `Session`): the undo record `LastOp`, one loop pass
  as a function (`Step`) and as a method on the engine (`Dispatch`), the whole
  loop (`Played`, `ReadLoop`), and the start-up pegs (`Bootstrap`, `Play`).

The peg's class invariant is "strictly descending from bottom to top". Every
push goes through the placement rule, so `Push`, `Emplace` and `Pop` keep the
invariant. Every move and every input line keeps it on every peg
(`TransferKeepsDescending`, `StepKeepsInvariant`, `PlayedKeepsInvariant`).
Moves also keep the multiset of all disks (`TransferConservesDisks`).

`create(name, initializer)` (main.cpp:139-147) keeps the new entry when the
initializer fails: it only reports `ok = false`, and the peg keeps the disks
that did go on. It does not roll the creation back. `CreateWith` models that.

## Model

| member | source | states |
|---|---|---|
| `Towers.PlaceKeepsDescending` | main.cpp:49-52 | on a descending peg, the placement rule (empty, or top strictly larger) holds exactly when the peg stays descending with the disk on top |
| `Towers.HanoiTower.constructor` | main.cpp:24-27 | a new peg is empty and valid |
| `Towers.HanoiTower.FromStack` | main.cpp:29-32 | a peg built from an existing stack holds exactly that stack, unchecked |
| `Towers.HanoiTower.Top` | main.cpp:34-37 | the top of a non-empty peg is one of its disks; on a valid peg it is strictly smaller than every disk below it |
| `Towers.HanoiTower.Empty` | main.cpp:39-42 | a peg is empty exactly when its size is zero |
| `Towers.HanoiTower.Size` | main.cpp:44-47 | the size is the number of disks on the peg |
| `Towers.HanoiTower.Placeable` | main.cpp:49-52 | a disk is placeable iff the peg is empty or its top is larger; on a valid peg, iff the peg stays descending with it on top |
| `Towers.HanoiTower.Push` | main.cpp:54-62 | succeeds iff the disk was placeable; on success the disk is the new top, on failure the peg is unchanged; the invariant is kept |
| `Towers.HanoiTower.Emplace` | main.cpp:64-74 | the same gate and effect as Push for the disk it builds |
| `Towers.HanoiTower.Pop` | main.cpp:76-79 | removes the top disk of a non-empty peg and keeps the invariant |
| `Towers.PushEach` | main.cpp:249-256 | pushes the disks in order, stopping at the first refused one; the result and the peg are those of PushAll |
| `Towers.PushAllSpec` | main.cpp:249-256 | on a descending peg, pushing in order keeps it descending; every push succeeds iff the peg followed by the disks is descending, and then the peg is exactly that |
| `Towers.PushAllPrefix` | main.cpp:249-256 | whatever the outcome, the peg is the old peg followed by a prefix of the disks, all of them when the result is true |
| `Towers.PushAllOntoEmpty` | main.cpp:247-257 | filling an empty peg succeeds iff the disks are strictly descending, and then the peg holds exactly them |
| `Game.Transfer` | main.cpp:159-180 | a self-move succeeds with no change; otherwise the move succeeds iff the source is non-empty and its top may go onto the destination; on success the disk leaves the source top and becomes the destination top, on failure nothing changes; no other peg is touched and no peg is created |
| `Game.TransferKeepsDescending` | main.cpp:159-180 | a move keeps every peg strictly descending |
| `Game.TransferReverse` | main.cpp:159-180 | after a successful move between two different pegs, the reverse move succeeds and restores the pegs exactly, when the source peg was descending |
| `Game.TransferConservesDisks` | main.cpp:173-179 | a move keeps the multiset of all disks, and so the total disk count |
| `Game.ThreeDiskGame` | main.cpp:159-180 | a worked game on pegs a = 3 2 1: two accepted moves, a refused move of a larger disk onto a smaller one, a move of the small disk, and its reverse |
| `Game.TheTowerOfHanoi.constructor` | main.cpp:123-126 | a new engine has no pegs |
| `Game.TheTowerOfHanoi.Has` | main.cpp:128-131 | a name is present iff it has a peg |
| `Game.TheTowerOfHanoi.Create` | main.cpp:133-137 | succeeds iff the name is new, adding an empty peg under it; a taken name leaves every peg untouched; the peg under the name is returned either way |
| `Game.TheTowerOfHanoi.CreateWith` | main.cpp:139-147 | a taken name fails with no change; for a new name the peg is added, the disks are pushed in order and the result is whether all of them went on; the entry stays when they did not; every peg stays descending |
| `Game.TheTowerOfHanoi.Select` | main.cpp:149-157 | the peg returned for a present name is the very object stored under that name (the one `Move` changes in place), holding that name's disks, and on a valid engine no other name shares it |
| `Game.TheTowerOfHanoi.Move` | main.cpp:159-180 | changes the pegs in place exactly as Transfer says and reports Transfer's result |
| `Commands.Find` | main.cpp:232 | the position of the first occurrence of a character, or none exactly when it does not occur |
| `Commands.Parse` | main.cpp:197-241 | "/quit" and "/undo" exactly give quit and undo; any other line starting with '/' is accepted as a no-op; a line not starting with '/' that holds a comma is a move whose names join back to the line around the first comma; anything else is not accepted |
| `Commands.ParseMoveLine` | main.cpp:232-238 | a first name without a comma and not starting with '/', a comma, and any second name parse back to a move between exactly those names |
| `Session.Step` | main.cpp:288-321 | only "/quit" stops the loop, and it changes nothing else; unaccepted lines, other directives and moves naming a missing peg change nothing; a move line naming two existing pegs is carried out as Transfer says between exactly those pegs and recorded with their names, and a refused move changes nothing; any change of pegs or record is a successful move recorded as the new last move; undo without a record changes nothing; undo with a record carries out the reverse move and swaps the record when that move succeeds, and changes nothing otherwise |
| `Session.StepKeepsInvariant` | main.cpp:288-321 | no input line breaks the descending invariant or adds or loses a disk |
| `Session.UndoAfterMove` | main.cpp:297-316 | an accepted move line followed by "/undo" restores the earlier pegs and records the reverse move; a second "/undo" returns to the state right after the move |
| `Session.Played` | main.cpp:273-322 | the loop keeps the undo record naming existing pegs and never adds or removes a peg; a stopped session ignores its input |
| `Session.QuitIsFinal` | main.cpp:273-296 | once quit has been read, further lines change nothing |
| `Session.PlayedKeepsInvariant` | main.cpp:273-322 | a whole session keeps every peg strictly descending and keeps every disk |
| `Session.Dispatch` | main.cpp:288-321 | one pass of the loop body changes the engine and the undo record exactly as Step says |
| `Session.ReadLoop` | main.cpp:262-322 | the loop stops at the end of the input or right after the first line that stops the session (the last line read is the one that stopped it), and leaves the engine and record as Played says |
| `Session.Countdown` | main.cpp:249-255 | the disks n, n-1, ..., 1, which are strictly descending |
| `Session.Bootstrap` | main.cpp:245-260 | the start-up engine holds "a" with n down to 1, and empty "b" and "c" |
| `Session.DefaultDisks` | main.cpp:249-255 | with the source's 9 disks, "a" starts as 9 8 7 6 5 4 3 2 1 |
| `Session.Play` | main.cpp:243-322 | a whole run from the start-up pegs ends as Played says, with every peg still descending |

## Left out

- Terminal output: the screen-clear sequence, `operator<<` for pegs and for the engine, and the `StackHack` access to the stack's container (main.cpp:90-108, 188-195, 275-277). They only render the state. `HanoiTower::adapter()` (main.cpp:81-84) exists only for that rendering and is not modelled.
- Terminal input: lines arrive as a finite sequence of strings. The `cin.fail` recovery (main.cpp:279-286) is stream handling and is not modelled. At the end of the input the source keeps looping on the failed stream; `ReadLoop` stops there instead.
- The generic disk type and container (`std::totally_ordered T`, `Sequence`) and the `uint_fast32_t` width: disks are `nat`. No arithmetic is done on disks, so no overflow can arise.
- `std::string_view` key lifetimes and the generality of the `std::function` initializer: names are `string`, and the initializer is a sequence of disks pushed in order, stopping at the first refused one, as the start-up lambda does.
- Game.TheTowerOfHanoi.Select: requires the name to be present; the source throws `std::out_of_range` instead.
- Game.TheTowerOfHanoi.Move: requires both names to be present when they differ, because the source's `select` would throw; the read loop checks `has` before moving.
- Game.Transfer: carries the same requirement as Move.
- Towers.HanoiTower.Top: requires a non-empty peg; `std::stack::top` on an empty stack is undefined behaviour.
- Towers.HanoiTower.Pop: requires a non-empty peg; `std::stack::pop` on an empty stack is undefined behaviour.
- Session.Step: requires the undo record to name existing pegs. The loop establishes this itself, since only moves between existing pegs are recorded and pegs are never removed.
- The commented-out move script (main.cpp:325-365).
