/** What each event of src/wumpus.c does, said of the rooms, the players and the draws themselves. */
module WumpusLaws {
  import opened Options
  import opened Sequences
  import opened WumpusState
  import opened WumpusRuns
  import opened WumpusTheorems
  import opened WumpusPlay

  // ---------------------------------------------------------------- coming and going

  /** START: once, while nothing runs; the size wanted is 100, or the number given as an unsigned int. */
  lemma StartCounts(s: State, size: Option<int>)
    requires Structure(s)
    ensures Step(s, Start(size)) ==
      if s.running || s.starting then s
      else s.(starting := true, wantsize := if size == None then 100 else size.value % 4294967296)
  {
  }

  /** JOIN: a newcomer, last in the list, with ten arrows and thirty hit points. */
  lemma {:induction false} JoinAppends(s: State, u: User)
    requires Structure(s)
    ensures Step(s, Join(u)) ==
      if s.starting && !s.running && forall k :: 0 <= k < |s.hunters| ==> s.hunters[k].user != u
      then s.(hunters := s.hunters + [Hunter(u, None, 10, 30, false)]) else s
  {
  }

  /** The player list without player k, and the room lists without its user. */
  ghost predicate Gone(s: State, k: nat, t: State)
    requires k < |s.hunters|
  {
    var h := s.hunters[k];
    && t == s.(hunters := s.hunters[..k] + s.hunters[k + 1..], rooms := t.rooms) && |t.rooms| == |s.rooms|
    && forall j :: 0 <= j < |s.rooms| ==>
         t.rooms[j] == if h.location != Some(j) then s.rooms[j]
                       else s.rooms[j].(players := RemoveFirst(s.rooms[j].players, h.user))
  }

  lemma {:induction false} ResignedIsGone(s: State, k: nat)
    requires Structure(s) && k < |s.hunters|
    ensures Gone(s, k, ResignPlayer(s, s.hunters[k].user))
  {
  }

  /** RESIGN in a running game, and quitting at any time: the player is gone, and nothing else changes. */
  lemma {:induction false} LeavingTakesOne(s: State, k: nat)
    requires Structure(s) && k < |s.hunters|
    ensures Gone(s, k, Step(s, UserDeleted(s.hunters[k].user)))
    ensures s.running ==> Gone(s, k, Step(s, Resign(s.hunters[k].user)))
    ensures !s.running ==> Step(s, Resign(s.hunters[k].user)) == s
  {
    ResignedIsGone(s, k);
  }

  lemma {:induction false} StrangersChangeNothing(s: State, u: User, room: Option<int>, a: nat, b: nat, c: nat)
    requires Structure(s) && forall k :: 0 <= k < |s.hunters| ==> s.hunters[k].user != u
    ensures Step(s, Resign(u)) == Step(s, UserDeleted(u)) == Step(s, Move(u, room, a, b, c)) == s
    ensures Step(s, Shoot(u, room, a, b, c)) == s
  {
  }

  /** Nothing is left of a game but its numbers. */
  predicate Over(s: State, t: State) {
    t == s.(hunters := [], rooms := [], wumpus := -1, running := false)
  }

  /** RESET ends a running game. */
  lemma ResetEnds(s: State)
    requires Structure(s)
    ensures s.running ==> Over(s.(starting := false), Step(s, Reset))
    ensures !s.running ==> Step(s, Reset) == s
  {
  }

  // ---------------------------------------------------------------- a new game

  lemma {:induction false} RoundsScatter(rooms: seq<Room>, c: Contents, odds: nat, n: nat,
      draw: (nat, nat) -> nat, j: nat)
    requires odds > 0 && j < |rooms|
    ensures ScatterRounds(rooms, c, odds, n, draw)[j] ==
      if exists i :: 0 <= i < n && draw(i, j) % odds == 0 then rooms[j].(contents := c) else rooms[j]
  {
    if n > 0 {
      RoundsScatter(rooms, c, odds, n - 1, draw, j);
      assert (exists i :: 0 <= i < n && draw(i, j) % odds == 0) <==>
             draw(n - 1, j) % odds == 0 || exists i :: 0 <= i < n - 1 && draw(i, j) % odds == 0;
    }
  }

  /** What lies in room j of a new maze: of several things, the one that was laid last. */
  function Laid(d: Draws, size: nat, j: nat): Contents
    requires size > 0
  {
    if j == d.ball % size then CrystalBall
    else if d.arrows(0, j) % 42 == 0 || d.arrows(1, j) % 42 == 0 || d.arrows(2, j) % 42 == 0 then Arrows
    else if d.bats(0, j) % 42 == 0 || d.bats(1, j) % 42 == 0 then Bats
    else if d.pits(j) % 84 == 0 then Pit
    else if j == d.wumpus % size then Marker
    else Nothing
  }

  lemma {:induction false} TwoRounds(rooms: seq<Room>, c: Contents, draw: (nat, nat) -> nat, j: nat)
    requires j < |rooms|
    ensures ScatterRounds(rooms, c, 42, 2, draw)[j] ==
      if draw(0, j) % 42 == 0 || draw(1, j) % 42 == 0 then rooms[j].(contents := c) else rooms[j]
  {
    RoundsScatter(rooms, c, 42, 2, draw, j);
    assert draw(0, j) % 42 == 0 || draw(1, j) % 42 == 0 <==> exists i :: 0 <= i < 2 && draw(i, j) % 42 == 0;
  }

  lemma {:induction false} ThreeRounds(rooms: seq<Room>, c: Contents, draw: (nat, nat) -> nat, j: nat)
    requires j < |rooms|
    ensures ScatterRounds(rooms, c, 42, 3, draw)[j] ==
      if draw(0, j) % 42 == 0 || draw(1, j) % 42 == 0 || draw(2, j) % 42 == 0
      then rooms[j].(contents := c) else rooms[j]
  {
    RoundsScatter(rooms, c, 42, 3, draw, j);
    assert draw(0, j) % 42 == 0 || draw(1, j) % 42 == 0 || draw(2, j) % 42 == 0
      <==> exists i :: 0 <= i < 3 && draw(i, j) % 42 == 0;
  }

  lemma {:induction false} FurnishLays(dug: seq<Room>, d: Draws, j: nat)
    requires Bare(dug) && j < |dug|
    ensures Furnish(dug, d)[j] == dug[j].(contents := Laid(d, |dug|, j))
  {
    var marked := SetContents(dug, d.wumpus % |dug|, Marker);
    var withPits := Scatter(marked, Pit, 42 * 2, d.pits);
    TwoRounds(withPits, Bats, d.bats, j);
    ThreeRounds(ScatterRounds(withPits, Bats, 42, 2, d.bats), Arrows, d.arrows, j);
  }

  /** The start timer with two players or more and ten rooms or more: what lies in every room and where
      every player and the wumpus are, from the draws. */
  lemma {:induction false} NewGameFromDraws(s: State, d: Draws)
    requires Structure(s) && BuildsMaze(s, StartTimer(d))
    ensures var size := if s.wantsize >= 300 then 300 else s.wantsize;
      var t := Step(s, StartTimer(d));
      && t.running && !t.starting && t.mazesize == |t.rooms| == size >= 10 && t.wantsize == size
      && t.wumpus == d.wumpus % size && t.wumpHp == 70 && t.speed == 60
      && (forall j :: 0 <= j < size ==> t.rooms[j].contents == Laid(d, size, j))
      && |t.hunters| == |s.hunters|
      && (forall k :: 0 <= k < |s.hunters| ==> t.hunters[k] == s.hunters[k].(location := Some(d.places(k) % size)))
  {
    var size := CappedSize(s);
    var dug := DigRooms(size, size, d.exits).value.0;
    DugEmpty(size, size, d.exits);
    forall j | 0 <= j < size ensures Furnish(dug, d)[j].contents == Laid(d, size, j) {
      FurnishLays(dug, d, j);
    }
  }

  /** With fewer players nothing starts; with fewer rooms everything ends. */
  lemma {:induction false} NoGameStarts(s: State, d: Draws)
    requires Structure(s) && s.starting && (|s.hunters| < 2 || s.wantsize < 10)
    ensures |s.hunters| < 2 ==> Step(s, StartTimer(d)) == s.(starting := false)
    ensures |s.hunters| >= 2 ==> Over(s.(starting := false), Step(s, StartTimer(d)))
  {
  }

  /** The list of a room keeps the order of the player list. */
  lemma {:induction false} ResidentsInOrder(hs: seq<Hunter>, i: nat, a: nat, b: nat) returns (p: nat, q: nat)
    requires a < b < |hs| && hs[a].location == hs[b].location == Some(i)
    ensures p < q < |Residents(hs, i)| && Residents(hs, i)[p] == hs[a].user && Residents(hs, i)[q] == hs[b].user
  {
    var init := hs[..|hs| - 1];
    if b < |init| {
      p, q := ResidentsInOrder(init, i, a, b);
    } else {
      p := ResidentPlace(init, i, a);
      q := |Residents(init, i)|;
    }
  }

  lemma {:induction false} ResidentPlace(hs: seq<Hunter>, i: nat, a: nat) returns (p: nat)
    requires a < |hs| && hs[a].location == Some(i)
    ensures p < |Residents(hs, i)| && Residents(hs, i)[p] == hs[a].user
  {
    var init := hs[..|hs| - 1];
    if a < |init| { p := ResidentPlace(init, i, a); } else { p := |Residents(init, i)|; }
  }

  // ---------------------------------------------------------------- moving

  /** A move is refused that no exit of the player's room allows. */
  lemma {:induction false} MoveRefused(s: State, k: nat, room: Option<int>, bat: nat, arrow: nat, ball: nat)
    requires Structure(s) && k < |s.hunters|
    requires s.running && room.Some? ==> room.value !in s.rooms[s.hunters[k].location.value].exits
    ensures Step(s, Move(s.hunters[k].user, room, bat, arrow, ball)) == s
  {
    assert Find(s.hunters, s.hunters[k].user) == k;
    if s.running && room.Some? { assert !Adjacent(s, s.hunters[k].user, room.value); }
  }

  /** The room an accepted move gets to. */
  function GetsTo(s: State, id: nat, bat: nat): nat
    requires id < |s.rooms|
  {
    if s.rooms[id].contents == Bats then bat % |s.rooms| else id
  }

  lemma {:induction false} MoveParts(s: State, k: nat, id: nat, bat: nat, arrow: nat, ball: nat)
    requires Structure(s) && s.running && k < |s.hunters|
    requires id in s.rooms[s.hunters[k].location.value].exits
    ensures id < |s.rooms| && Find(s.hunters, s.hunters[k].user) == k
    ensures Destination(s, id, bat) == GetsTo(s, id, bat)
    ensures Structure(s.(rooms := BatsFly(s, id, bat)))
    ensures Step(s, Move(s.hunters[k].user, Some(id), bat, arrow, ball)) ==
      var flown := s.(rooms := BatsFly(s, id, bat));
      if s.wumpus == GetsTo(s, id, bat) || s.rooms[id].contents == Pit then Die(flown, s.hunters[k].user)
      else Arrive(flown, s.hunters[k].user, GetsTo(s, id, bat), arrow, ball)
  {
    assert RoomShape(s.rooms[s.hunters[k].location.value], s.hunters[k].location.value, |s.rooms|);
    RefurnishedShape(s, s.(rooms := BatsFly(s, id, bat)));
  }

  lemma {:induction false} DeathTakesOne(s: State, k: nat)
    requires Structure(s) && s.running && k < |s.hunters|
    ensures var t := Die(s, s.hunters[k].user);
      && t.running == (|s.hunters| > 2)
      && t.hunters == if |s.hunters| > 2 then s.hunters[..k] + s.hunters[k + 1..] else []
  {
    assert Find(s.hunters, s.hunters[k].user) == k;
  }

  lemma {:induction false} GatherArms(s: State, k: nat, to: nat, arrow: nat, ball: nat)
    requires Structure(s) && s.running && k < |s.hunters| && to < |s.rooms|
    ensures var h := s.hunters[k];
      Gather(s, h.user, to, arrow, ball) == s.(
        hunters := s.hunters[k := h.(
          arrows := if s.rooms[to].contents == Arrows && h.arrows == 0 then 5 else h.arrows)],
        rooms := Pickup(s.rooms, to, arrow, ball))
  {
    assert Find(s.hunters, s.hunters[k].user) == k;
  }

  lemma {:induction false} RelocateMoves(s: State, k: nat, to: nat)
    requires Structure(s) && s.running && k < |s.hunters| && to < |s.rooms|
    ensures var h := s.hunters[k];
      Playing(s, h.user) && Relocate(s, h.user, to) == s.(
        hunters := s.hunters[k := h.(location := Some(to))],
        rooms := EnterRoom(LeaveRoom(s.rooms, h.location.value, h.user), to, h.user))
  {
    assert Find(s.hunters, s.hunters[k].user) == k;
  }

  lemma {:induction false} ArrivalArms(s: State, k: nat, to: nat, arrow: nat, ball: nat)
    requires Structure(s) && s.running && k < |s.hunters| && to < |s.rooms|
    ensures var (h, t) := (s.hunters[k], Arrive(s, s.hunters[k].user, to, arrow, ball));
      && t == s.(hunters := t.hunters, rooms := t.rooms)
      && t.hunters == s.hunters[k := h.(location := Some(to),
           arrows := if s.rooms[to].contents == Arrows && h.arrows == 0 then 5 else h.arrows)]
  {
    GatherArms(s, k, to, arrow, ball);
    RelocateMoves(Gather(s, s.hunters[k].user, to, arrow, ball), k, to);
  }

  /** An accepted move: bats take the player to the room drawn; the wumpus in the room it gets to, or a
      pit where there are no bats, kills it; otherwise it is there, with five arrows if it had none and
      found some. Nobody else is touched, unless a lone survivor is left. */
  lemma {:induction false} MoveEnds(s: State, k: nat, id: nat, bat: nat, arrow: nat, ball: nat)
    requires Structure(s) && s.running && k < |s.hunters|
    requires id in s.rooms[s.hunters[k].location.value].exits
    ensures id < |s.rooms|
    ensures var to := if s.rooms[id].contents == Bats then bat % |s.rooms| else id;
      var (h, t) := (s.hunters[k], Step(s, Move(s.hunters[k].user, Some(id), bat, arrow, ball)));
      if s.wumpus == to || s.rooms[id].contents == Pit
      then t.running == (|s.hunters| > 2)
           && t.hunters == (if |s.hunters| > 2 then s.hunters[..k] + s.hunters[k + 1..] else [])
      else t.running && |t.hunters| == |s.hunters|
           && forall j :: 0 <= j < |s.hunters| ==>
                t.hunters[j] == if j != k then s.hunters[j] else
                  h.(location := Some(to),
                     arrows := if s.rooms[id].contents == Arrows && h.arrows == 0 then 5 else h.arrows)
  {
    MoveParts(s, k, id, bat, arrow, ball);
    var flown := s.(rooms := BatsFly(s, id, bat));
    DeathTakesOne(flown, k);
    ArrivalArms(flown, k, GetsTo(s, id, bat), arrow, ball);
  }

  /** What lies in the chosen room turns up in the room drawn for it; a pit or a marker stays. */
  function Moved(s: State, id: nat, bat: nat, arrow: nat, ball: nat, j: nat): Contents
    requires id < |s.rooms| && j < |s.rooms|
  {
    var c := s.rooms[id].contents;
    if c != Bats && c != Arrows && c != CrystalBall then s.rooms[j].contents
    else
      var draw := if c == Bats then bat else if c == Arrows then arrow else ball;
      if j == draw % |s.rooms| then c else if j == id then Nothing else s.rooms[j].contents
  }

  lemma {:induction false} BatsCarry(s: State, id: nat, bat: nat, j: nat)
    requires 0 < |s.rooms| == s.mazesize && id < |s.rooms| && j < |s.rooms|
    ensures |BatsFly(s, id, bat)| == |s.rooms|
    ensures BatsFly(s, id, bat)[j] == s.rooms[j].(contents :=
      if s.rooms[id].contents == Bats then Moved(s, id, bat, 0, 0, j) else s.rooms[j].contents)
  {
  }

  lemma {:induction false} PickedUp(rooms: seq<Room>, i: nat, arrow: nat, ball: nat, j: nat)
    requires i < |rooms| && j < |rooms|
    ensures Pickup(rooms, i, arrow, ball)[j] == rooms[j].(contents :=
      var c := rooms[i].contents;
      if c != Arrows && c != CrystalBall then rooms[j].contents
      else if j == (if c == Arrows then arrow else ball) % |rooms| then c
      else if j == i then Nothing else rooms[j].contents)
  {
  }

  lemma {:induction false} ArrivalShifts(s: State, k: nat, to: nat, arrow: nat, ball: nat, j: nat)
    requires Structure(s) && s.running && k < |s.hunters| && to < |s.rooms| && j < |s.rooms|
    ensures var (h, t) := (s.hunters[k], Arrive(s, s.hunters[k].user, to, arrow, ball));
      var left := if h.location == Some(j) then RemoveFirst(s.rooms[j].players, h.user) else s.rooms[j].players;
      && |t.rooms| == |s.rooms|
      && t.rooms[j] == Pickup(s.rooms, to, arrow, ball)[j].(players := if j == to then left + [h.user] else left)
  {
    assert Find(s.hunters, s.hunters[k].user) == k;
    PickedUp(s.rooms, to, arrow, ball, j);
    PickedUp(s.rooms, to, arrow, ball, s.hunters[k].location.value);
  }

  lemma {:induction false} MovedIs(s: State, id: nat, bat: nat, arrow: nat, ball: nat, j: nat)
    requires 0 < |s.rooms| == s.mazesize && id < |s.rooms| && j < |s.rooms| && s.rooms[id].contents != Pit
    ensures |BatsFly(s, id, bat)| == |s.rooms|
    ensures Pickup(BatsFly(s, id, bat), GetsTo(s, id, bat), arrow, ball)[j]
         == s.rooms[j].(contents := Moved(s, id, bat, arrow, ball, j))
  {
    BatsCarry(s, id, bat, j);
    BatsCarry(s, id, bat, GetsTo(s, id, bat));
    PickedUp(BatsFly(s, id, bat), GetsTo(s, id, bat), arrow, ball, j);
  }

  /** The rooms after a move the player survives: it is last in the list of its new room. */
  lemma {:induction false} MoveShifts(s: State, k: nat, id: nat, bat: nat, arrow: nat, ball: nat)
    requires Structure(s) && s.running && k < |s.hunters|
    requires id in s.rooms[s.hunters[k].location.value].exits
    ensures id < |s.rooms|
    ensures var to := if s.rooms[id].contents == Bats then bat % |s.rooms| else id;
      var (h, t) := (s.hunters[k], Step(s, Move(s.hunters[k].user, Some(id), bat, arrow, ball)));
      s.wumpus != to && s.rooms[id].contents != Pit ==>
        && t == s.(hunters := t.hunters, rooms := t.rooms) && |t.rooms| == |s.rooms|
        && forall j :: 0 <= j < |s.rooms| ==>
             var left := if h.location == Some(j) then RemoveFirst(s.rooms[j].players, h.user) else s.rooms[j].players;
             t.rooms[j] == s.rooms[j].(contents := Moved(s, id, bat, arrow, ball, j),
                                       players := if j == to then left + [h.user] else left)
  {
    MoveParts(s, k, id, bat, arrow, ball);
    var (to, flown) := (GetsTo(s, id, bat), s.(rooms := BatsFly(s, id, bat)));
    ArrivalArms(flown, k, to, arrow, ball);
    if s.wumpus != to && s.rooms[id].contents != Pit {
      forall j | 0 <= j < |s.rooms|
        ensures var (h, t) := (s.hunters[k], Arrive(flown, s.hunters[k].user, to, arrow, ball));
          var left := if h.location == Some(j) then RemoveFirst(s.rooms[j].players, h.user) else s.rooms[j].players;
          && |t.rooms| == |s.rooms|
          && t.rooms[j] == s.rooms[j].(contents := Moved(s, id, bat, arrow, ball, j),
                                       players := if j == to then left + [h.user] else left)
      {
        BatsCarry(s, id, bat, j);
        ArrivalShifts(flown, k, to, arrow, ball, j);
        MovedIs(s, id, bat, arrow, ball, j);
      }
    }
  }

  // ---------------------------------------------------------------- the wumpus

  /** Two players who are not in room w. */
  ghost predicate TwoAwayFrom(hs: seq<Hunter>, w: nat) {
    exists a, b :: 0 <= a < b < |hs| && hs[a].location != Some(w) && hs[b].location != Some(w)
  }

  lemma {:induction false} TwoSpared(hs: seq<Hunter>, w: nat)
    requires DistinctUsers(hs)
    ensures |Spared(hs, w)| >= 2 <==> TwoAwayFrom(hs, w)
  {
    if a, b :| 0 <= a < b < |hs| && hs[a].location != Some(w) && hs[b].location != Some(w) {
      SparedKeepOrder(hs, w, a, b);
    }
    if |Spared(hs, w)| >= 2 {
      var (g, h) := (Spared(hs, w)[0], Spared(hs, w)[1]);
      SparedDistinct(hs, w);
      SparedOnlyFrom(hs, w, g);
      SparedOnlyFrom(hs, w, h);
      var a :| 0 <= a < |hs| && !LocatedAt(hs[a], w) && g == hs[a].(hasMoved := false);
      var b :| 0 <= b < |hs| && !LocatedAt(hs[b], w) && h == hs[b].(hasMoved := false);
      assert a != b;
      var (c, d) := if a < b then (a, b) else (b, a);
      assert 0 <= c < d < |hs| && hs[c].location != Some(w) && hs[d].location != Some(w);
    }
  }

  /** The wumpus takes the exit drawn; what its old room showed is copied before the room is cleared, the
      new room shows the wumpus and is empty, and everything else is as it was. The game goes on exactly
      if two players are elsewhere. */
  lemma {:induction false} WalkShifts(s: State, regen: nat, step: nat)
    requires Structure(s) && s.running
    ensures |s.rooms[s.wumpus].exits| == 3
    ensures var w := s.rooms[s.wumpus].exits[step % 3];
      var t := Step(s, WumpusTimer(regen, step));
      if TwoAwayFrom(s.hunters, w)
      then t == s.(wumpus := w, hunters := t.hunters, rooms := t.rooms) && |t.rooms| == |s.rooms|
           && forall j :: 0 <= j < |s.rooms| ==>
                t.rooms[j] == s.rooms[j].(
                  players := if j == w then [] else s.rooms[j].players,
                  contents := if j == w then Marker else if j == s.wumpus then Nothing
                              else if j == regen % |s.rooms| then s.rooms[s.wumpus].contents
                              else s.rooms[j].contents)
      else Over(s, t)
  {
    assert RoomShape(s.rooms[s.wumpus], s.wumpus, |s.rooms|);
    TwoSpared(s.hunters, WumpusTarget(s, step));
  }

  lemma NoWalkWithoutGame(s: State, regen: nat, step: nat)
    requires Structure(s) && !s.running
    ensures Step(s, WumpusTimer(regen, step)) == s
  {
  }

  // ---------------------------------------------------------------- shooting

  /** The player can shoot into room i: it has arrows, and an exit leads there. */
  predicate Aims(s: State, k: nat, i: int)
    requires Structure(s) && s.running && k < |s.hunters|
  {
    s.hunters[k].arrows != 0 && i in s.rooms[s.hunters[k].location.value].exits
  }

  function Spent(s: State, k: nat): State
    requires k < |s.hunters|
  {
    s.(hunters := s.hunters[k := s.hunters[k].(arrows := s.hunters[k].arrows - 1)])
  }

  lemma {:induction false} ShotRefused(s: State, k: nat, room: Option<int>, hit: nat, regen: nat, step: nat)
    requires Structure(s) && k < |s.hunters|
    requires s.running && room.Some? ==> !Aims(s, k, room.value)
    ensures Step(s, Shoot(s.hunters[k].user, room, hit, regen, step)) == s
  {
  }

  lemma {:induction false} AimedShot(s: State, k: nat, i: nat, hit: nat, regen: nat, step: nat)
    requires Structure(s) && s.running && k < |s.hunters| && Aims(s, k, i)
    ensures i < |s.rooms| && Structure(Spent(s, k))
    ensures Step(s, Shoot(s.hunters[k].user, Some(i), hit, regen, step)) == Strike(Spent(s, k), i, hit, regen, step)
  {
    var u := s.hunters[k].user;
    assert Find(s.hunters, u) == k;
    assert RoomShape(s.rooms[s.hunters[k].location.value], s.hunters[k].location.value, |s.rooms|);
    ShotFlies(s, u, i, hit, regen, step);
  }

  /** A shot into a room with nobody in it and no marker costs the arrow, and changes nothing else. */
  lemma {:induction false} ShotAtNothing(s: State, k: nat, i: nat, hit: nat, regen: nat, step: nat)
    requires Structure(s) && s.running && k < |s.hunters| && Aims(s, k, i)
    ensures i < |s.rooms|
    ensures s.rooms[i].players == [] && s.rooms[i].contents != Marker ==>
      Step(s, Shoot(s.hunters[k].user, Some(i), hit, regen, step)) == Spent(s, k)
  {
    AimedShot(s, k, i, hit, regen, step);
  }

  /** A shot at a marker, with nobody in the room: two draws of three hit, the last hit ends the game, and
      after any other shot the wumpus walks, five hit points weaker and three seconds faster if it was hit. */
  lemma {:induction false} ShotAtMarker(s: State, k: nat, i: nat, hit: nat, regen: nat, step: nat)
    requires Structure(s) && s.running && s.wumpHp > 0 && k < |s.hunters| && Aims(s, k, i)
    ensures i < |s.rooms|
    ensures Structure(Spent(s, k))
    ensures s.rooms[i].players == [] && s.rooms[i].contents == Marker ==>
      var t := Step(s, Shoot(s.hunters[k].user, Some(i), hit, regen, step));
      var spent := Spent(s, k);
      if hit % 3 == 2 then t == Step(spent, WumpusTimer(regen, step))
      else if s.wumpHp <= 5 then Over(s, t)
      else Structure(spent.(wumpHp := s.wumpHp - 5, speed := s.speed - 3))
           && t == Step(spent.(wumpHp := s.wumpHp - 5, speed := s.speed - 3), WumpusTimer(regen, step))
  {
    AimedShot(s, k, i, hit, regen, step);
    SameShape(Spent(s, k), Hurt(Spent(s, k)));
  }

  /** A shot into a room with players meets the first of its list: two draws of three hit, ten hit points or
      less are lost with the life, and more by ten. */
  lemma {:induction false} ShotAtPlayer(s: State, k: nat, i: nat, v: nat, hit: nat, regen: nat, step: nat)
    requires Structure(s) && s.running && k < |s.hunters| && Aims(s, k, i)
    requires i < |s.rooms| && s.rooms[i].players != []
    requires v < |s.hunters| && s.hunters[v].user == s.rooms[i].players[0]
    ensures var t := Step(s, Shoot(s.hunters[k].user, Some(i), hit, regen, step));
      var spent := Spent(s, k);
      if hit % 3 == 2 then t == spent
      else if s.hunters[v].hp <= 10 then Gone(spent, v, t)
      else t == spent.(hunters := spent.hunters[v := spent.hunters[v].(hp := s.hunters[v].hp - 10)])
  {
    AimedShot(s, k, i, hit, regen, step);
    FirstIsMet(Spent(s, k), i, v, hit, regen, step);
  }

  lemma {:induction false} FirstIsMet(s: State, i: nat, v: nat, hit: nat, regen: nat, step: nat)
    requires Structure(s) && s.running && i < |s.rooms| && s.rooms[i].players != []
    requires v < |s.hunters| && s.hunters[v].user == s.rooms[i].players[0]
    ensures var t := Strike(s, i, hit, regen, step);
      if hit % 3 == 2 then t == s
      else if s.hunters[v].hp <= 10 then Gone(s, v, t)
      else t == s.(hunters := s.hunters[v := s.hunters[v].(hp := s.hunters[v].hp - 10)])
  {
    assert Find(s.hunters, s.hunters[v].user) == v;
    ResignedIsGone(s, v);
  }

  // ---------------------------------------------------------------- counting

  /** The rooms that show c. */
  ghost function Showing(rooms: seq<Room>, c: Contents): set<nat> {
    set i: nat | i < |rooms| && rooms[i].contents == c
  }

  lemma {:induction false} ShowingOneMore(rooms: seq<Room>, c: Contents)
    requires rooms != []
    ensures var n := |rooms| - 1;
      n !in Showing(rooms[..n], c)
      && Showing(rooms, c) == Showing(rooms[..n], c) + if rooms[n].contents == c then {n} else {}
  {
  }

  /** Count counts the rooms. */
  lemma {:induction false} CountIsHowMany(rooms: seq<Room>, c: Contents)
    ensures Count(rooms, c) == |Showing(rooms, c)|
  {
    if rooms != [] {
      ShowingOneMore(rooms, c);
      CountIsHowMany(rooms[..|rooms| - 1], c);
    }
  }
}
