/** Games of two, reached from the zeroed game, that show what src/wumpus.c does not keep. */
module WumpusSamples {
  import opened Options
  import opened Sequences
  import opened WumpusState
  import opened WumpusRuns
  import opened WumpusTheorems
  import opened WumpusPlay
  import opened WumpusExits
  import opened WumpusSmell

  // ---------------------------------------------------------------- a maze

  predicate Size(n: nat) {
    10 <= n <= 300
  }

  /** Every room leads to the next one, three times; but room 8 to the last one and to room 0. */
  function Exits(i: nat, size: nat): seq<nat>
    requires Size(size)
  {
    var next := if i + 1 == size then 0 else i + 1;
    if i == 8 then [size - 1, 0, 0] else [next, next, next]
  }

  function Maze(size: nat): seq<Room>
    requires Size(size)
  {
    seq(size, i requires 0 <= i < size => Room(i, Exits(i, size), Nothing, []))
  }

  lemma {:induction false} MazeIsDug(size: nat)
    requires Size(size)
    ensures DigRooms(size, size, TapeOf(Maze(size))) == Some((Maze(size), []))
  {
    var rooms := Maze(size);
    assert MazeShape(rooms);
    TapeDigs(rooms, size, []);
    assert rooms[..size] == rooms && TapeOf(rooms) + [] == TapeOf(rooms);
  }

  // ---------------------------------------------------------------- games of two

  function Sample(size: nat): Draws
    requires Size(size)
  {
    Draws(TapeOf(Maze(size)), 0, _ => 1, (_, _) => 1, (_, _) => 1, 7, k => if k == 0 then 4 else 8)
  }

  function Newcomer(u: User): Hunter {
    Hunter(u, None, 10, 30, false)
  }

  /** The users 1 and 2 start a game. */
  function Opening(size: nat): seq<Event>
    requires Size(size)
  {
    Waiting(size) + [StartTimer(Sample(size))]
  }

  function Waiting(size: nat): seq<Event> {
    [Start(Some(size)), Join(1), Join(2)]
  }

  /** The state before the start timer fires. */
  function Joined(size: nat): State {
    State(0, 0, [Newcomer(1), Newcomer(2)], false, true, [], 0, 0, size)
  }

  function Pair(): seq<Hunter> {
    [Newcomer(1).(location := Some(4)), Newcomer(2).(location := Some(8))]
  }

  function Furnished(size: nat): seq<Room>
    requires Size(size)
  {
    SetContents(SetContents(Maze(size), 0, Marker), 7, CrystalBall)
  }

  /** The wumpus in room 0, the crystal ball in room 7, the players in rooms 4 and 8. */
  function Opened(size: nat): State
    requires Size(size)
  {
    State(0, size, Pair(), true, false, House(Furnished(size), Pair()), 70, 60, size)
  }

  lemma {:induction false} NothingScattered(rooms: seq<Room>, c: Contents, odds: nat, draw: nat -> nat)
    requires odds > 1 && forall j :: draw(j) == 1
    ensures Scatter(rooms, c, odds, draw) == rooms
  {
  }

  lemma {:induction false} NoRoundScatters(rooms: seq<Room>, c: Contents, odds: nat, n: nat, draw: (nat, nat) -> nat)
    requires odds > 1 && forall i, j :: draw(i, j) == 1
    ensures ScatterRounds(rooms, c, odds, n, draw) == rooms
  {
    if n > 0 {
      NoRoundScatters(rooms, c, odds, n - 1, draw);
      NothingScattered(rooms, c, odds, j => draw(n - 1, j));
    }
  }

  lemma {:induction false} FurnishedSo(size: nat)
    requires Size(size)
    ensures Furnish(Maze(size), Sample(size)) == Furnished(size)
  {
    var d := Sample(size);
    SmallRemainder(0, size);
    SmallRemainder(7, size);
    var marked := SetContents(Maze(size), 0, Marker);
    NothingScattered(marked, Pit, 42 * 2, d.pits);
    NoRoundScatters(marked, Bats, 42, 2, d.bats);
    NoRoundScatters(marked, Arrows, 42, 3, d.arrows);
  }

  lemma {:induction false} TimerOpens(size: nat)
    requires Size(size)
    ensures Structure(Joined(size)) && Step(Joined(size), StartTimer(Sample(size))) == Opened(size)
  {
    var (s, d) := (Joined(size), Sample(size));
    MazeIsDug(size);
    PairPlaced(size);
    FurnishedSo(size);
    SmallRemainder(0, size);
    assert Settled(s.(starting := false), size, d) == Opened(size);
  }

  lemma {:induction false} PairPlaced(size: nat)
    requires Size(size)
    ensures Place([Newcomer(1), Newcomer(2)], size, Sample(size).places) == Pair()
  {
    SmallRemainder(4, size);
    SmallRemainder(8, size);
  }

  lemma {:induction false} StepsToJoined(size: nat)
    requires Size(size)
    ensures Step(INITIAL, Start(Some(size))) == INITIAL.(starting := true, wantsize := size)
    ensures var one := INITIAL.(starting := true, wantsize := size, hunters := [Newcomer(1)]);
      && Step(INITIAL.(starting := true, wantsize := size), Join(1)) == one
      && Step(one, Join(2)) == Joined(size)
  {
  }

  lemma {:induction false} TwoJoin(size: nat)
    requires Size(size)
    ensures Structure(INITIAL) && Run(INITIAL, Waiting(size)) == Joined(size)
  {
    var start := Start(Some(size));
    StepsToJoined(size);
    RunOne(INITIAL, start);
    RunMore(INITIAL, [start], Join(1));
    RunMore(INITIAL, [start] + [Join(1)], Join(2));
    assert Waiting(size) == [start] + [Join(1)] + [Join(2)];
  }

  lemma {:induction false} RunMore(s: State, es: seq<Event>, e: Event)
    requires Structure(s)
    ensures Run(s, es + [e]) == Step(Run(s, es), e)
    decreases |es|
  {
    if es == [] {
      assert es + [e] == [e];
      RunOne(s, e);
    } else {
      assert (es + [e])[0] == es[0] && (es + [e])[1..] == es[1..] + [e];
      StepKeepsStructure(s, es[0]);
      RunMore(Step(s, es[0]), es[1..], e);
    }
  }

  lemma {:induction false} RunOne(s: State, e: Event)
    requires Structure(s)
    ensures Run(s, [e]) == Step(s, e)
  {
    StepKeepsStructure(s, e);
    assert [e][1..] == [] && Run(Step(s, e), []) == Step(s, e);
  }

  lemma {:induction false} OpeningOpens(size: nat)
    requires Size(size)
    ensures Structure(INITIAL) && Structure(Opened(size)) && Run(INITIAL, Opening(size)) == Opened(size)
  {
    TwoJoin(size);
    TimerOpens(size);
    RunMore(INITIAL, Waiting(size), StartTimer(Sample(size)));
  }

  /** The opened game, as far as it matters below. */
  ghost predicate OpenedSo(s: State, size: nat)
    requires Size(size)
  {
    && Structure(s) && s.running && s.wumpus == 0 && s.hunters == Pair() && |s.rooms| == size
    && (forall i :: 0 <= i < size ==> s.rooms[i].exits == Exits(i, size))
    && s.rooms[0].contents == Marker && s.rooms[size - 1].contents == Nothing && s.rooms[5].players == []
  }

  lemma {:induction false} Opens(size: nat) returns (s: State)
    requires Size(size)
    ensures Structure(INITIAL) && Run(INITIAL, Opening(size)) == s && OpenedSo(s, size)
  {
    OpeningOpens(size);
    s := Opened(size);
    assert Pair()[..1] == [Pair()[0]] && Pair()[..1][..0] == [];
    assert Residents(Pair()[..1], 5) == [];
  }

  // ---------------------------------------------------------------- what they show

  /** One of two players resigns, and the other plays on alone: nobody wins. */
  lemma {:induction false} LastPlayerPlaysOn(size: nat)
    requires Size(size)
    ensures Structure(INITIAL)
    ensures var t := Run(INITIAL, Opening(size) + [Resign(1)]);
      t.running && t.hunters == [Pair()[1]]
  {
    var s := Opens(size);
    RunMore(INITIAL, Opening(size), Resign(1));
    FirstResigns(s);
  }

  lemma {:induction false} FirstResigns(s: State)
    requires Structure(s) && s.running && s.hunters == Pair()
    ensures Step(s, Resign(1)).running && Step(s, Resign(1)).hunters == [Pair()[1]]
  {
    assert Find(Pair(), 1) == 0 && Without(Pair(), 0) == [Pair()[1]];
  }

  lemma {:induction false} ToldTwo(rooms: seq<Room>, exits: seq<nat>)
    requires |rooms| > 1 && exits == [|rooms| - 1, 0, 0] && rooms[|rooms| - 1].exits == [0, 0, 0]
    requires rooms[0].contents == Marker && rooms[|rooms| - 1].contents == Nothing
    ensures Search(rooms, exits) == 2 && Distance(rooms, exits, 0) == 1
  {
    assert exits[1] == 0 && rooms[|rooms| - 1].exits[0] == 0 && Shows(rooms, 0);
    assert LeadsOn(rooms, exits[0]);
  }

  /** Player 2 is in room 8 and the wumpus next door in room 0; but room 8 leads to the last room
      first, and that to room 0, and the answer is 2. */
  lemma {:induction false} NextDoorButTold2(size: nat)
    requires Size(size)
    ensures Structure(INITIAL)
    ensures var t := Run(INITIAL, Opening(size));
      && t.running && t.wumpus == 0 && t.hunters == Pair() && |t.rooms| == size
      && Search(t.rooms, t.rooms[8].exits) == 2 && Distance(t.rooms, t.rooms[8].exits, 0) == 1
  {
    var s := Opens(size);
    ToldTwo(s.rooms, s.rooms[8].exits);
  }

  lemma NobodyEaten()
    ensures Spared(Pair(), 1) == Pair()
  {
    var (a, b) := (Pair()[0], Pair()[1]);
    assert Pair()[..1] == [a] && [a][..0] == [];
    assert Spared([a], 1) == [a];
  }

  /** From room 0, with the marker copied to room 5, the wumpus walks to room 1, where nobody is. */
  lemma {:induction false} WalkFromTo(s: State)
    requires Structure(s) && s.running && s.wumpus == 0 && s.hunters == Pair()
    requires s.rooms[0].contents == Marker && s.rooms[0].exits == [1, 1, 1]
    ensures var t := MoveWumpus(s, 5, 0);
      && t.running && t.wumpus == 1 && |t.rooms| == |s.rooms| && t.hunters == Pair()
      && t.rooms[1].contents == Marker && t.rooms[5] == s.rooms[5].(contents := Marker)
      && t.rooms[4].exits == s.rooms[4].exits
  {
    SmallRemainder(5, |s.rooms|);
    assert WumpusTarget(s, 0) == 1;
    NobodyEaten();
    assert Feast(Prowl(s, 5, 0)).hunters == Pair();
  }

  /** The game after the wumpus walked from room 0 to room 1 and its marker was copied to room 5. */
  function Walked(size: nat): seq<Event>
    requires Size(size)
  {
    Opening(size) + [WumpusTimer(5, 0)]
  }

  /** The wumpus is in room 1, and room 5 shows it as well. */
  lemma {:induction false} MarkerLeftBehind(size: nat)
    requires Size(size)
    ensures Structure(INITIAL)
    ensures var t := Run(INITIAL, Walked(size));
      && t.running && t.wumpus == 1 && |t.rooms| == size && t.hunters == Pair()
      && t.rooms[1].contents == Marker && t.rooms[5].contents == Marker && t.rooms[5].players == []
      && t.rooms[4].exits == [5, 5, 5] && t.rooms[5].exits == [6, 6, 6]
  {
    var s := Opens(size);
    RunMore(INITIAL, Opening(size), WumpusTimer(5, 0));
    WalkFromTo(s);
  }

  /** Player 1 in room 4 is told 1, for the marker in room 5; the wumpus is farther away. */
  lemma {:induction false} StaleMarkerSmelt(size: nat)
    requires Size(size)
    ensures Structure(INITIAL)
    ensures var t := Run(INITIAL, Walked(size));
      && t.wumpus == 1 && |t.hunters| == 2 && t.hunters[0].location == Some(4) && |t.rooms| == size
      && Search(t.rooms, t.rooms[4].exits) == 1 && Distance(t.rooms, t.rooms[4].exits, 1) == 0
  {
    MarkerLeftBehind(size);
  }

  /** The arrow that player 1 shoots into room 5 hits the wumpus, which is in room 1. */
  lemma {:induction false} StaleMarkerHit(size: nat, regen: nat, step: nat)
    requires Size(size)
    ensures Structure(INITIAL)
    ensures var t := Run(INITIAL, Walked(size));
      t.wumpus == 1 && HitsWumpus(t, Shoot(1, Some(5), 0, regen, step))
  {
    MarkerLeftBehind(size);
    var t := Run(INITIAL, Walked(size));
    assert Find(t.hunters, 1) == 0 && t.rooms[4].exits[0] == 5;
    assert RoomShape(t.rooms[4], 4, size);
  }
}
