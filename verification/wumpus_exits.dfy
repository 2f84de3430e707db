/** The exits of a maze of src/wumpus.c: what the redraw loop of build_maze accepts, and exactly when
    it leaves a room with the same exit twice (src/wumpus.c:222-245). */
module WumpusExits {
  import opened Options
  import opened WumpusState
  import opened WumpusRuns

  /** A redraw that the loop refuses: the room itself, or the number an exit made so far has while
      room i is dug, which is 0 for all rooms after it. */
  predicate RefusedDraw(i: nat, have: seq<nat>, d: nat) {
    d == i || exists k :: 0 <= k < |have| && IdSoFar(i, have[k]) == d
  }

  lemma {:induction false} RefusedFront(i: nat, have: seq<nat>, d: nat)
    requires have != []
    ensures RefusedDraw(i, have, d) <==> IdSoFar(i, have[0]) == d || RefusedDraw(i, have[1..], d)
  {
    var rest := have[1..];
    if k :| 0 < k < |have| && IdSoFar(i, have[k]) == d {
      assert rest[k - 1] == have[k];
    }
    if k :| 0 <= k < |rest| && IdSoFar(i, rest[k]) == d {
      assert have[k + 1] == rest[k];
    }
  }

  /** The scan over the exits sends a refused redraw back to room i, and lets any other pass. */
  lemma {:induction false} ScanRefuses(i: nat, have: seq<nat>, d: nat)
    ensures CheckedDraw(i, have, d) == if RefusedDraw(i, have, d) then i else d
  {
    if have != [] {
      RefusedFront(i, have, d);
      ScanRefuses(i, have[1..], if IdSoFar(i, have[0]) == d then i else d);
    }
  }

  /** The first redraw that is not refused. */
  function Accepted(i: nat, have: seq<nat>, size: nat, redraws: seq<nat>): Option<nat>
    requires size > 0
  {
    if redraws == [] then None
    else if RefusedDraw(i, have, redraws[0] % size) then Accepted(i, have, size, redraws[1..])
    else Some(redraws[0] % size)
  }

  lemma {:induction false} RedrawAccepts(i: nat, have: seq<nat>, size: nat, redraws: seq<nat>)
    requires size > 0
    ensures match (Redraw(i, have, size, i, redraws), Accepted(i, have, size, redraws))
      case (Some((t, _)), Some(d)) => t == d
      case (None, None) => true
      case _ => false
    decreases |redraws|
  {
    if redraws != [] {
      ScanRefuses(i, have, redraws[0] % size);
      if RefusedDraw(i, have, redraws[0] % size) {
        RedrawAccepts(i, have, size, redraws[1..]);
      } else {
        assert Redraw(i, have, size, redraws[0] % size, redraws[1..]).Some?;
      }
    }
  }

  /** A new exit is the first draw, if that is not the room itself, and otherwise the redraw accepted. */
  lemma {:induction false} ExitIsDrawn(i: nat, have: seq<nat>, size: nat, tape: seq<nat>)
    requires size > 0 && DrawExit(i, have, size, tape).Some?
    ensures Some(DrawExit(i, have, size, tape).value.0) ==
            if tape[0] % size != i then Some(tape[0] % size) else Accepted(i, have, size, tape[1..])
  {
    RedrawAccepts(i, have, size, tape[1..]);
  }

  /** The draws give an exit that the room has: a first draw that is kept and repeats one, or an
      accepted redraw that names a room still to be dug to which an exit leads. */
  predicate DrawsRepeat(i: nat, have: seq<nat>, size: nat, tape: seq<nat>)
    requires size > 0 && tape != []
  {
    var first := tape[0] % size;
    if first != i then first in have
    else
      var redrawn := Accepted(i, have, size, tape[1..]);
      redrawn.Some? && redrawn.value > i && redrawn.value in have
  }

  /** A new exit repeats one of the room exactly when the draws do so: of redraws, all repetitions of
      rooms dug before are refused, and no others. */
  lemma {:induction false} ExitRepeatsExactlyWhen(i: nat, have: seq<nat>, size: nat, tape: seq<nat>)
    requires size > 0 && i !in have && DrawExit(i, have, size, tape).Some?
    ensures DrawExit(i, have, size, tape).value.0 in have <==> DrawsRepeat(i, have, size, tape)
  {
    if tape[0] % size == i {
      RedrawAccepts(i, have, size, tape[1..]);
      AcceptedIsNew(i, have, size, tape[1..]);
    }
  }

  lemma {:induction false} AcceptedIsNew(i: nat, have: seq<nat>, size: nat, redraws: seq<nat>)
    requires size > 0 && Accepted(i, have, size, redraws).Some?
    ensures var d := Accepted(i, have, size, redraws).value;
      d != i && (d < i ==> d !in have)
  {
    var d := redraws[0] % size;
    if RefusedDraw(i, have, d) {
      AcceptedIsNew(i, have, size, redraws[1..]);
    } else if d in have {
      var k :| 0 <= k < |have| && have[k] == d;
      assert IdSoFar(i, have[k]) != d;
    }
  }

  /** The draws for exit j of room i, given the exits before it. */
  predicate RepeatsAt(i: nat, j: nat, size: nat, tape: seq<nat>)
    requires size > 0
  {
    match DrawExits(i, j, size, tape)
    case None => false
    case Some((have, rest)) => rest != [] && DrawsRepeat(i, have, size, rest)
  }

  /** The draws of one of the first n exits repeat an exit before it. */
  predicate RoomRepeats(i: nat, n: nat, size: nat, tape: seq<nat>)
    requires size > 0
  {
    n > 0 && (RoomRepeats(i, n - 1, size, tape) || RepeatsAt(i, n - 1, size, tape))
  }

  /** The exits of a room are all different exactly when none of its draws repeats an exit. */
  lemma {:induction false} ExitsDifferExactlyWhen(i: nat, n: nat, size: nat, tape: seq<nat>)
    requires i < size && DrawExits(i, n, size, tape).Some?
    ensures NoDup(DrawExits(i, n, size, tape).value.0) <==> !RoomRepeats(i, n, size, tape)
  {
    if n > 0 {
      var (have, rest) := DrawExits(i, n - 1, size, tape).value;
      var t := DrawExit(i, have, size, rest).value.0;
      ExitsDifferExactlyWhen(i, n - 1, size, tape);
      ExitsInRange(i, n - 1, size, tape);
      ExitRepeatsExactlyWhen(i, have, size, rest);
      NoDupMore(have, t);
    }
  }

  lemma {:induction false} NoDupMore(l: seq<nat>, x: nat)
    ensures NoDup(l + [x]) <==> NoDup(l) && x !in l
  {
    var more := l + [x];
    if NoDup(more) {
      forall i, j | 0 <= i < j < |l| ensures l[i] != l[j] { assert more[i] != more[j]; }
      forall i | 0 <= i < |l| ensures l[i] != x { assert more[i] != more[|l|]; }
    }
  }

  /** The tape left for room i. */
  function TapeFor(i: nat, size: nat, tape: seq<nat>): seq<nat>
    requires size > 0
  {
    match DigRooms(i, size, tape) case None => [] case Some((_, rest)) => rest
  }

  /** No room of a maze has an exit twice exactly when the draws of no room repeat one. */
  lemma {:induction false} MazeExitsDifferExactlyWhen(n: nat, size: nat, tape: seq<nat>)
    requires n <= size && size > 0 && DigRooms(n, size, tape).Some?
    ensures (forall i :: 0 <= i < n ==> NoDup(DigRooms(n, size, tape).value.0[i].exits))
       <==> (forall i :: 0 <= i < n ==> !RoomRepeats(i, 3, size, TapeFor(i, size, tape)))
  {
    if n > 0 {
      var (dug, rest) := DigRooms(n - 1, size, tape).value;
      var r := Room(n - 1, DrawExits(n - 1, 3, size, rest).value.0, Nothing, []);
      MazeExitsDifferExactlyWhen(n - 1, size, tape);
      ExitsDifferExactlyWhen(n - 1, 3, size, rest);
      assert DigRooms(n, size, tape).value.0 == dug + [r] && TapeFor(n - 1, size, tape) == rest;
      OneMoreDiffers(dug, r);
    }
  }

  lemma {:induction false} OneMoreDiffers(dug: seq<Room>, r: Room)
    ensures (forall i :: 0 <= i <= |dug| ==> NoDup((dug + [r])[i].exits))
       <==> (forall i :: 0 <= i < |dug| ==> NoDup(dug[i].exits)) && NoDup(r.exits)
  {
    var rooms := dug + [r];
    assert rooms[|dug|] == r && forall i :: 0 <= i < |dug| ==> rooms[i] == dug[i];
  }

  // ---------------------------------------------------------------- which mazes there are

  /** Draws that are kept at once: the exits of the rooms, one after another. */
  function TapeOf(rooms: seq<Room>): seq<nat> {
    if rooms == [] then [] else TapeOf(rooms[..|rooms| - 1]) + rooms[|rooms| - 1].exits
  }

  lemma {:induction false} SmallRemainder(n: nat, m: nat)
    requires n < m
    ensures n % m == n
  {
  }

  lemma {:induction false} KeptDraw(i: nat, n: nat, have: seq<nat>, t: nat, size: nat, tape: seq<nat>, rest: seq<nat>)
    requires t < size && t != i && DrawExits(i, n, size, tape) == Some((have, [t] + rest))
    ensures DrawExits(i, n + 1, size, tape) == Some((have + [t], rest))
  {
    var left := [t] + rest;
    assert left[0] == t && left[1..] == rest;
    SmallRemainder(t, size);
    assert DrawExit(i, have, size, left) == Some((t, rest));
  }

  lemma {:induction false} KeptDraws(r: Room, i: nat, size: nat, rest: seq<nat>)
    requires size > 0 && RoomShape(r, i, size)
    ensures DrawExits(i, 3, size, r.exits + rest) == Some((r.exits, rest))
  {
    var (e, tape) := (r.exits, r.exits + rest);
    assert e[0] in e && e[1] in e && e[2] in e;
    assert tape == [e[0]] + ([e[1]] + ([e[2]] + rest));
    assert DrawExits(i, 0, size, tape) == Some(([], tape));
    KeptDraw(i, 0, [], e[0], size, tape, [e[1]] + ([e[2]] + rest));
    KeptDraw(i, 1, [] + [e[0]], e[1], size, tape, [e[2]] + rest);
    KeptDraw(i, 2, [] + [e[0]] + [e[1]], e[2], size, tape, rest);
    assert [] + [e[0]] + [e[1]] + [e[2]] == e;
  }

  lemma {:induction false} OneMoreOnTape(rooms: seq<Room>, n: nat, rest: seq<nat>)
    requires 0 < n <= |rooms|
    ensures rooms[..n] == rooms[..n - 1] + [rooms[n - 1]]
    ensures TapeOf(rooms[..n]) + rest == TapeOf(rooms[..n - 1]) + (rooms[n - 1].exits + rest)
  {
    assert rooms[..n][..n - 1] == rooms[..n - 1];
  }

  lemma {:induction false} TapeDigs(rooms: seq<Room>, n: nat, rest: seq<nat>)
    requires n <= |rooms| != 0 && MazeShape(rooms) && Bare(rooms)
    ensures DigRooms(n, |rooms|, TapeOf(rooms[..n]) + rest) == Some((rooms[..n], rest))
  {
    if n == 0 {
      assert TapeOf(rooms[..0]) + rest == rest;
    } else {
      var r := rooms[n - 1];
      var after := r.exits + rest;
      OneMoreOnTape(rooms, n, rest);
      TapeDigs(rooms, n - 1, after);
      KeptDraws(r, n - 1, |rooms|, rest);
      assert r == Room(n - 1, r.exits, Nothing, []);
    }
  }

  /** The mazes that some draws dig are exactly those of bare rooms with three exits each, in range and
      not back to the room: there are draws for every such maze, with whatever exits. */
  lemma {:induction false} DugExactlyWhenShaped(rooms: seq<Room>)
    requires rooms != []
    ensures (exists tape :: DigRooms(|rooms|, |rooms|, tape) == Some((rooms, []))) <==> MazeShape(rooms) && Bare(rooms)
  {
    var size := |rooms|;
    if tape :| DigRooms(size, size, tape) == Some((rooms, [])) {
      DugShape(size, size, tape);
      DugEmpty(size, size, tape);
    }
    if MazeShape(rooms) && Bare(rooms) {
      TapeDigs(rooms, size, []);
      assert rooms[..size] == rooms && TapeOf(rooms) + [] == TapeOf(rooms);
      assert DigRooms(size, size, TapeOf(rooms)) == Some((rooms, []));
    }
  }

  /** Exits can repeat, though the comment on the redraw says they are checked: a first draw is not,
      and a redraw is not checked against rooms that are yet to be dug. */
  lemma ExitsCanRepeat()
    ensures DrawExits(5, 3, 10, [7, 7, 5, 7]) == Some(([7, 7, 7], []))
  {
    var tape := [7, 7, 5, 7];
    assert tape[1..] == [7, 5, 7] && [7, 5, 7][1..] == [5, 7] && [5, 7][1..] == [7] && [7][1..] == [];
    assert DrawExits(5, 1, 10, tape) == Some(([7], [7, 5, 7])) by {
      assert DrawExits(5, 0, 10, tape) == Some(([], tape)) && DrawExit(5, [], 10, tape) == Some((7, [7, 5, 7]));
      assert [] + [7] == [7];
    }
    assert DrawExits(5, 2, 10, tape) == Some(([7, 7], [5, 7])) by {
      assert DrawExit(5, [7], 10, [7, 5, 7]) == Some((7, [5, 7])) && [7] + [7] == [7, 7];
    }
    assert CheckedDraw(5, [7, 7], 7) == 7 by { assert [7, 7][1..] == [7]; }
    assert Redraw(5, [7, 7], 10, 5, [7]) == Redraw(5, [7, 7], 10, 7, []) == Some((7, []));
    assert DrawExit(5, [7, 7], 10, [5, 7]) == Some((7, []));
    assert [7, 7] + [7] == [7, 7, 7];
  }
}
