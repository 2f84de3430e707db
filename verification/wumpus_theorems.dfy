/** What every run of the game of src/wumpus.c keeps, whatever rand() draws. */
module WumpusTheorems {
  import opened Options
  import opened WumpusState
  import opened WumpusRuns

  lemma {:induction false} StepKeepsStructure(s: State, e: Event)
    requires Structure(s)
    ensures Structure(Step(s, e))
  {
    match e
    case Start(_) =>
    case Join(u) =>
    case StartTimer(d) => if BuildsMaze(s, e) { NewGameIsSound(s, d); }
    case Move(u, room, bat, arrow, ball) =>
      if CanAct(s, u, room) { MovePlayerKeepsStructure(s, u, room.value, bat, arrow, ball); }
    case Shoot(u, room, hit, regen, step) =>
      if CanAct(s, u, room) { ShootPlayerKeepsStructure(s, u, room.value, hit, regen, step); }
    case Resign(u) => if Playing(s, u) { ResignKeepsStructure(s, u); }
    case Reset =>
    case UserDeleted(u) => if Playing(s, u) { ResignKeepsStructure(s, u); }
    case WumpusTimer(regen, step) => MoveWumpusKeepsStructure(s, regen, step);
  }

  // ---------------------------------------------------------------- hazards

  predicate Hazard(c: Contents) {
    c != Nothing && c != Marker
  }

  ghost predicate NoMoreHazards(before: seq<Room>, after: seq<Room>) {
    forall c :: Hazard(c) ==> Count(after, c) <= Count(before, c)
  }

  lemma {:induction false} SameContentsSameHazards(rooms: seq<Room>, rooms': seq<Room>)
    requires |rooms| == |rooms'|
    requires forall i :: 0 <= i < |rooms| ==> rooms[i].contents == rooms'[i].contents
    ensures NoMoreHazards(rooms, rooms')
  {
    forall c | Hazard(c) ensures Count(rooms', c) <= Count(rooms, c) {
      CountSame(rooms, rooms', c);
    }
  }

  /** What lies in room i goes to room j, or is lost when somebody else's things come: the copy
      is made before i is cleared, so nothing is gained even when j is i. */
  lemma {:induction false} CarryingGainsNothing(rooms: seq<Room>, i: nat, j: nat)
    requires i < |rooms| && j < |rooms|
    ensures NoMoreHazards(rooms, SetContents(SetContents(rooms, j, rooms[i].contents), i, Nothing))
    ensures NoMoreHazards(rooms, SetContents(SetContents(rooms, i, Nothing), j, rooms[i].contents))
  {
    var c := rooms[i].contents;
    var copied, cleared := SetContents(rooms, j, c), SetContents(rooms, i, Nothing);
    forall d | Hazard(d)
      ensures Count(SetContents(copied, i, Nothing), d) <= Count(rooms, d)
      ensures Count(SetContents(cleared, j, c), d) <= Count(rooms, d)
    {
      CountUpdate(rooms, j, rooms[j].(contents := c), d);
      CountUpdate(copied, i, copied[i].(contents := Nothing), d);
      CountUpdate(rooms, i, rooms[i].(contents := Nothing), d);
      CountUpdate(cleared, j, cleared[j].(contents := c), d);
    }
  }

  lemma {:induction false} MarkingGainsNothing(rooms: seq<Room>, i: nat)
    requires i < |rooms|
    ensures NoMoreHazards(rooms, SetContents(rooms, i, Marker))
  {
    forall d | Hazard(d) ensures Count(SetContents(rooms, i, Marker), d) <= Count(rooms, d) {
      CountUpdate(rooms, i, rooms[i].(contents := Marker), d);
    }
  }

  predicate Marked(rooms: seq<Room>, i: nat)
    requires i < |rooms|
  {
    rooms[i].contents == Marker
  }

  /** The wumpus leaves markers behind that mark nothing: a walk adds one unless its target shows one
      already, or one is lost under what the old room's contents become. */
  lemma {:induction false} MarkersAfterProwl(s: State, regen: nat, step: nat)
    requires Structure(s) && s.running
    ensures var (r, t, g) := (s.wumpus, WumpusTarget(s, step), regen % s.mazesize);
      Count(Prowl(s, regen, step).rooms, Marker) == Count(s.rooms, Marker) + 1
        - (if Marked(s.rooms, t) then 1 else 0)
        - (if Marked(s.rooms, if g == t then r else g) then 1 else 0)
  {
    var (r, t, g) := (s.wumpus, WumpusTarget(s, step), regen % s.mazesize);
    var copied := SetContents(s.rooms, g, s.rooms[r].contents);
    var cleared := SetContents(copied, r, Nothing);
    CountUpdate(s.rooms, g, copied[g], Marker);
    CountUpdate(copied, r, cleared[r], Marker);
    CountUpdate(cleared, t, cleared[t].(contents := Marker), Marker);
  }

  // ---------------------------------------------------------------- one game goes on

  /** From s to t one game goes on, or ends: no hazard is added, everybody stays fit, and while it
      runs the maze keeps its size and the wumpus its strength. */
  ghost predicate Onward(s: State, t: State) {
    && NoMoreHazards(s.rooms, t.rooms)
    && (AllFit(s.hunters) ==> AllFit(t.hunters))
    && (t.running ==>
          && s.running && |t.rooms| == |s.rooms| && (t.starting ==> s.starting)
          && t.wumpHp == s.wumpHp && t.speed == s.speed)
  }

  lemma {:induction false} OnwardTransitive(s: State, t: State, r: State)
    requires Onward(s, t) && Onward(t, r)
    ensures Onward(s, r)
  {
  }

  lemma {:induction false} ResignOnward(s: State, u: User)
    requires Structure(s) && Playing(s, u)
    ensures Onward(s, ResignPlayer(s, u))
  {
    SameContentsSameHazards(s.rooms, ResignPlayer(s, u).rooms);
  }

  lemma {:induction false} CheckLastOnward(s: State)
    ensures Onward(s, CheckLastPersonAlive(s))
  {
  }

  lemma {:induction false} DieOnward(s: State, u: User)
    requires Structure(s) && Playing(s, u)
    ensures Onward(s, Die(s, u))
  {
    ResignOnward(s, u);
    CheckLastOnward(ResignPlayer(s, u));
  }

  lemma {:induction false} ProwlOnward(s: State, regen: nat, step: nat)
    requires Structure(s) && s.running
    ensures Onward(s, Prowl(s, regen, step))
  {
    var (r, j) := (s.wumpus, regen % s.mazesize);
    CarryingGainsNothing(s.rooms, r, j);
    MarkingGainsNothing(SetContents(SetContents(s.rooms, j, s.rooms[r].contents), r, Nothing), WumpusTarget(s, step));
  }

  lemma {:induction false} SparedAreFit(hs: seq<Hunter>, w: int)
    requires DistinctUsers(hs) && AllFit(hs)
    ensures AllFit(Spared(hs, w))
  {
    SparedMembers(hs, w);
    var t := Spared(hs, w);
    forall j | 0 <= j < |t| ensures Fit(t[j]) {
      assert t[j] in t;
      var k :| 0 <= k < |hs| && !LocatedAt(hs[k], w) && t[j] == hs[k].(hasMoved := false);
    }
  }

  lemma {:induction false} FeastOnward(s: State)
    requires DistinctUsers(s.hunters) && 0 <= s.wumpus < |s.rooms|
    ensures Onward(s, Feast(s))
  {
    SameContentsSameHazards(s.rooms, Feast(s).rooms);
    if AllFit(s.hunters) { SparedAreFit(s.hunters, s.wumpus); }
  }

  lemma {:induction false} MoveWumpusOnward(s: State, regen: nat, step: nat)
    requires Structure(s)
    ensures Onward(s, MoveWumpus(s, regen, step))
  {
    if s.running {
      var p := Prowl(s, regen, step);
      ProwlOnward(s, regen, step);
      FeastOnward(p);
      CheckLastOnward(Feast(p));
    }
  }

  lemma {:induction false} BatsOnward(s: State, id: nat, bat: nat)
    requires s.running && 0 < |s.rooms| == s.mazesize && id < |s.rooms|
    ensures Onward(s, s.(rooms := BatsFly(s, id, bat)))
  {
    CarryingGainsNothing(s.rooms, id, bat % s.mazesize);
  }

  lemma {:induction false} PickupAddsNoHazard(rooms: seq<Room>, i: nat, arrow: nat, ball: nat)
    requires i < |rooms|
    ensures NoMoreHazards(rooms, Pickup(rooms, i, arrow, ball))
  {
    CarryingGainsNothing(rooms, i, arrow % |rooms|);
    CarryingGainsNothing(rooms, i, ball % |rooms|);
  }

  lemma {:induction false} RelocateOnward(s: State, u: User, to: nat)
    requires Structure(s) && s.running && Playing(s, u) && to < |s.rooms|
    ensures Onward(s, Relocate(s, u, to))
  {
    SameContentsSameHazards(s.rooms, Relocate(s, u, to).rooms);
  }

  lemma {:induction false} ArriveOnward(s: State, u: User, to: nat, arrow: nat, ball: nat)
    requires Structure(s) && s.running && Playing(s, u) && to < |s.rooms|
    ensures Onward(s, Arrive(s, u, to, arrow, ball))
  {
    PickupAddsNoHazard(s.rooms, to, arrow, ball);
    RelocateOnward(Gather(s, u, to, arrow, ball), u, to);
    OnwardTransitive(s, Gather(s, u, to, arrow, ball), Arrive(s, u, to, arrow, ball));
  }

  lemma {:induction false} MovePlayerOnward(s: State, u: User, id: int, bat: nat, arrow: nat, ball: nat)
    requires Structure(s) && s.running && Playing(s, u)
    ensures Onward(s, MovePlayer(s, u, id, bat, arrow, ball))
  {
    if Adjacent(s, u, id) {
      NoShotAtOneself(s, u, id);
      var flown := s.(rooms := BatsFly(s, id, bat));
      RefurnishedShape(s, flown);
      BatsOnward(s, id, bat);
      if Fatal(s, id, bat) {
        DieOnward(flown, u);
      } else {
        ArriveOnward(flown, u, Destination(s, id, bat), arrow, ball);
      }
    }
  }

  lemma {:induction false} ShootHunterOnward(s: State, tu: User, hit: nat)
    requires Structure(s) && Playing(s, tu)
    ensures Onward(s, ShootHunter(s, tu, hit))
  {
    ResignOnward(s, tu);
  }

  /** An arrow landing in room i meets nobody but shows the wumpus's marker. */
  predicate MarkerOnly(s: State, i: nat)
    requires i < |s.rooms|
  {
    s.rooms[i].players == [] && s.rooms[i].contents == Marker
  }

  /** The shot passes the checks and meets nobody in its room but the wumpus's marker. */
  predicate ShotAtWumpus(s: State, u: User, room: Option<int>)
    requires Structure(s)
  {
    CanAct(s, u, room) && Looses(s, u, room.value) && room.value < |s.rooms| && MarkerOnly(s, room.value)
  }

  predicate HitsWumpus(s: State, e: Event)
    requires Structure(s)
  {
    e.Shoot? && ShotAtWumpus(s, e.user, e.room) && e.hit % 3 < 2
  }

  predicate KillsWumpus(s: State, e: Event)
    requires Structure(s)
  {
    HitsWumpus(s, e) && 0 < s.wumpHp <= 5
  }

  /** What a step of one game does to the wumpus's strength. */
  function Weakened(s: State, e: Event): State
    requires Structure(s)
  {
    if HitsWumpus(s, e) && s.wumpHp > 5 then Hurt(s) else s
  }

  lemma {:induction false} SpendOnward(s: State, u: User)
    requires Playing(s, u) && s.hunters[Find(s.hunters, u)].arrows != 0
    ensures Onward(s, SpendArrow(s, u)) && Onward(Hurt(s), Hurt(SpendArrow(s, u)))
  {
  }

  lemma {:induction false} ShootWumpusOnward(s: State, hit: nat, regen: nat, step: nat)
    requires Structure(s)
    ensures Onward(if hit % 3 < 2 && s.wumpHp > 5 then Hurt(s) else s, ShootWumpus(s, hit, regen, step))
  {
    SameShape(s, Hurt(s));
    MoveWumpusOnward(s, regen, step);
    MoveWumpusOnward(Hurt(s), regen, step);
  }

  lemma {:induction false} StrikeOnward(s: State, target: nat, hit: nat, regen: nat, step: nat)
    requires Structure(s) && s.running && target < |s.rooms|
    ensures Onward(if MarkerOnly(s, target) && hit % 3 < 2 && s.wumpHp > 5 then Hurt(s) else s,
                   Strike(s, target, hit, regen, step))
  {
    var r := s.rooms[target];
    if r.players != [] {
      FirstIsPlaying(s, target);
      ShootHunterOnward(s, r.players[0], hit);
    } else if r.contents == Marker {
      ShootWumpusOnward(s, hit, regen, step);
    }
  }

  lemma {:induction false} ShootOnward(s: State, e: Event)
    requires Structure(s) && e.Shoot? && CanAct(s, e.user, e.room)
    ensures Onward(Weakened(s, e), ShootPlayer(s, e.user, e.room.value, e.hit, e.regen, e.step))
  {
    var (u, target) := (e.user, e.room.value);
    if Looses(s, u, target) {
      ShotFlies(s, u, target, e.hit, e.regen, e.step);
      SpendOnward(s, u);
      StrikeOnward(SpendArrow(s, u), target, e.hit, e.regen, e.step);
    }
  }

  lemma {:induction false} TalkOnward(s: State, e: Event)
    requires Structure(s) && (e.Start? || e.Join? || e.Reset?)
    ensures Onward(s, Step(s, e))
  {
  }

  lemma {:induction false} TimerOnward(s: State, d: Draws)
    requires Structure(s) && !BuildsMaze(s, StartTimer(d))
    ensures Onward(s, Step(s, StartTimer(d)))
  {
  }

  lemma {:induction false} LeaveOnward(s: State, u: User)
    requires Structure(s)
    ensures Onward(s, ResignCommand(s, u)) && Onward(s, DeleteUser(s, u))
  {
    if Playing(s, u) { ResignOnward(s, u); }
  }

  lemma {:induction false} MoveOnward(s: State, u: User, room: Option<int>, bat: nat, arrow: nat, ball: nat)
    requires Structure(s)
    ensures Onward(s, MoveCommand(s, u, room, bat, arrow, ball))
  {
    if CanAct(s, u, room) { MovePlayerOnward(s, u, room.value, bat, arrow, ball); }
  }

  /** No step of a game adds a pit, bats, arrows or a crystal ball, although the steps overwrite
      cells at random, possibly the same one twice; and only a hit changes the wumpus's strength. */
  lemma {:induction false} StepOnward(s: State, e: Event)
    requires Structure(s) && !BuildsMaze(s, e)
    ensures Onward(Weakened(s, e), Step(s, e))
  {
    match e
    case Move(u, room, bat, arrow, ball) => MoveOnward(s, u, room, bat, arrow, ball);
    case Shoot(u, room, hit, regen, step) => if CanAct(s, u, room) { ShootOnward(s, e); }
    case WumpusTimer(regen, step) => MoveWumpusOnward(s, regen, step);
    case StartTimer(d) => TimerOnward(s, d);
    case Resign(u) => LeaveOnward(s, u);
    case UserDeleted(u) => LeaveOnward(s, u);
    case _ => TalkOnward(s, e);
  }

  // ---------------------------------------------------------------- the invariant

  lemma {:induction false} OnwardKeepsInvariant(s: State, w: State, t: State)
    requires Inv(s) && Structure(t) && Onward(w, t)
    requires w == s || (s.wumpHp > 5 && w == Hurt(s))
    requires t.starting ==> s.starting || !t.running
    ensures Inv(t)
  {
    assert Hazard(CrystalBall);
  }

  /** Every step keeps the invariant, for any draws. */
  lemma {:induction false} StepKeepsInvariant(s: State, e: Event)
    requires Inv(s)
    ensures Inv(Step(s, e))
  {
    if BuildsMaze(s, e) {
      NewGameIsSound(s, e.draws);
    } else {
      StepOnward(s, e);
      StepKeepsStructure(s, e);
      OnwardKeepsInvariant(s, Weakened(s, e), Step(s, e));
    }
  }
}
