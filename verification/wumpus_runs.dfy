/** Runs of the game: the events that reach src/wumpus.c in any order, and what every run keeps. */
module WumpusRuns {
  import opened Options
  import opened Sequences
  import opened WumpusState

  /** The commands, the two timers and the user_delete hook, with whatever rand() draws. */
  datatype Event =
    | Start(size: Option<int>)
    | Join(user: User)
    | StartTimer(draws: Draws)
    | Move(user: User, room: Option<int>, bat: nat, arrow: nat, ball: nat)
    | Shoot(user: User, room: Option<int>, hit: nat, regen: nat, step: nat)
    | Resign(user: User)
    | Reset
    | UserDeleted(user: User)
    | WumpusTimer(regen: nat, step: nat)

  // The int of atoi stored in an unsigned int.
  const UINT_RANGE := 0x1_0000_0000

  function StartCommand(s: State, size: Option<int>): State {
    if s.running || s.starting then s
    else s.(starting := true, wantsize := match size case None => 100 case Some(n) => n % UINT_RANGE)
  }

  function JoinCommand(s: State, u: User): State {
    if !s.starting || s.running then s else CreatePlayer(s, u)
  }

  function ResetCommand(s: State): State {
    if s.running then EndGame(s).(running := false, starting := false) else s
  }

  predicate CanAct(s: State, u: User, room: Option<int>) {
    Playing(s, u) && room.Some? && s.running
  }

  function MoveCommand(s: State, u: User, room: Option<int>, bat: nat, arrow: nat, ball: nat): State
    requires Structure(s)
  {
    if CanAct(s, u, room) then MovePlayer(s, u, room.value, bat, arrow, ball) else s
  }

  function ShootCommand(s: State, u: User, room: Option<int>, hit: nat, regen: nat, step: nat): State
    requires Structure(s)
  {
    if CanAct(s, u, room) then ShootPlayer(s, u, room.value, hit, regen, step) else s
  }

  function ResignCommand(s: State, u: User): State
    requires Structure(s)
  {
    if Playing(s, u) && s.running then ResignPlayer(s, u) else s
  }

  function DeleteUser(s: State, u: User): State
    requires Structure(s)
  {
    if Playing(s, u) then ResignPlayer(s, u) else s
  }

  /** The start timer is pending exactly while a game is starting; a maze whose redraws never
      end is never finished. */
  predicate TimerFires(s: State, d: Draws) {
    s.starting && TapeSuffices(s, d)
  }

  function Step(s: State, e: Event): State
    requires Structure(s)
  {
    match e
    case Start(size) => StartCommand(s, size)
    case Join(u) => JoinCommand(s, u)
    case StartTimer(d) => if TimerFires(s, d) then StartGame(s, d) else s
    case Move(u, room, bat, arrow, ball) =>
      MoveCommand(s, u, room, bat, arrow, ball)
    case Shoot(u, room, hit, regen, step) =>
      ShootCommand(s, u, room, hit, regen, step)
    case Resign(u) => ResignCommand(s, u)
    case Reset => ResetCommand(s)
    case UserDeleted(u) => DeleteUser(s, u)
    case WumpusTimer(regen, step) => MoveWumpus(s, regen, step)
  }

  // ---------------------------------------------------------------- the invariant

  function Count(rooms: seq<Room>, c: Contents): nat {
    if rooms == [] then 0
    else Count(rooms[..|rooms| - 1], c) + if rooms[|rooms| - 1].contents == c then 1 else 0
  }

  predicate Fit(h: Hunter) {
    h.hp in {10, 20, 30} && 0 <= h.arrows <= 10
  }

  ghost predicate AllFit(hs: seq<Hunter>) {
    forall k :: 0 <= k < |hs| ==> Fit(hs[k])
  }

  /** The wumpus gets three seconds faster with every five hit points it loses. */
  predicate WumpusStats(s: State) {
    && 5 * (60 - s.speed) == 3 * (70 - s.wumpHp)
    && s.wumpHp % 5 == 0 && 5 <= s.wumpHp <= 70 && 21 <= s.speed
  }

  ghost predicate Inv(s: State) {
    && Structure(s)
    && !(s.running && s.starting)
    && AllFit(s.hunters)
    && (s.running ==> |s.rooms| <= 300 && WumpusStats(s) && Count(s.rooms, CrystalBall) <= 1)
  }

  // ---------------------------------------------------------------- counting contents

  lemma {:induction false} CountUpdate(rooms: seq<Room>, i: nat, r: Room, c: Contents)
    requires i < |rooms|
    ensures Count(rooms[i := r], c) + (if rooms[i].contents == c then 1 else 0)
         == Count(rooms, c) + (if r.contents == c then 1 else 0)
  {
    var n := |rooms| - 1;
    if i == n {
      assert rooms[i := r][..n] == rooms[..n];
    } else {
      assert rooms[i := r][..n] == rooms[..n][i := r];
      CountUpdate(rooms[..n], i, r, c);
    }
  }

  lemma {:induction false} CountSame(rooms: seq<Room>, rooms': seq<Room>, c: Contents)
    requires |rooms| == |rooms'|
    requires forall i :: 0 <= i < |rooms| ==> rooms[i].contents == rooms'[i].contents
    ensures Count(rooms, c) == Count(rooms', c)
  {
    if rooms != [] {
      CountSame(rooms[..|rooms| - 1], rooms'[..|rooms| - 1], c);
    }
  }

  lemma {:induction false} CountBound(rooms: seq<Room>, c: Contents)
    requires forall i :: 0 <= i < |rooms| ==> rooms[i].contents != c
    ensures Count(rooms, c) == 0
  {
    if rooms != [] {
      CountBound(rooms[..|rooms| - 1], c);
    }
  }

  // ---------------------------------------------------------------- players come and go

  lemma {:induction false} RemoveFirstMembers<T>(l: seq<T>, x: T)
    requires NoDup(l)
    ensures NoDup(RemoveFirst(l, x))
    ensures forall y :: y in RemoveFirst(l, x) <==> y in l && y != x
  {
    if l != [] && l[0] != x {
      var rest := RemoveFirst(l[1..], x);
      RemoveFirstMembers(l[1..], x);
      assert l == [l[0]] + l[1..];
      assert l[0] !in l[1..];
      forall j | 0 <= j < |rest| ensures rest[j] != l[0] {
        assert rest[j] in rest;
      }
    }
  }

  lemma {:induction false} ShapeKept(rooms: seq<Room>, rooms': seq<Room>)
    requires MazeShape(rooms) && |rooms'| == |rooms|
    requires forall i :: 0 <= i < |rooms| ==> rooms'[i].id == rooms[i].id && rooms'[i].exits == rooms[i].exits
    ensures MazeShape(rooms')
  {
    forall i | 0 <= i < |rooms'| ensures RoomShape(rooms'[i], i, |rooms'|) {
      assert RoomShape(rooms[i], i, |rooms|);
    }
  }

  /** Off the lists: what LeaveRoom does to the list of each room. */
  lemma {:induction false} LeftRoom(hs: seq<Hunter>, rooms: seq<Room>, i: nat, u: User)
    requires Mirrored(hs, rooms) && i < |rooms|
    requires forall k :: 0 <= k < |hs| && hs[k].user == u ==> hs[k].location == Some(i)
    ensures forall n :: 0 <= n < |rooms| ==> NoDup(LeaveRoom(rooms, i, u)[n].players)
    ensures forall n, v :: 0 <= n < |rooms| ==>
              (v in LeaveRoom(rooms, i, u)[n].players <==> v in rooms[n].players && v != u)
  {
    RemoveFirstMembers(rooms[i].players, u);
    assert forall n :: 0 <= n < |rooms| && u in rooms[n].players ==> HunterAt(hs, u, n);
  }

  lemma {:induction false} MirroredWithout(hs: seq<Hunter>, rooms: seq<Room>, k: nat)
    requires DistinctUsers(hs) && Mirrored(hs, rooms) && k < |hs|
    ensures Mirrored(Without(hs, k), LeaveRoom(rooms, hs[k].location.value, hs[k].user))
  {
    var (rest, u) := (Without(hs, k), hs[k].user);
    var left := LeaveRoom(rooms, hs[k].location.value, u);
    LeftRoom(hs, rooms, hs[k].location.value, u);
    forall j | 0 <= j < |rest|
      ensures rest[j].location.Some? && rest[j].location.value < |left|
      ensures rest[j].user in left[rest[j].location.value].players
    {
      assert rest[j] == hs[if j < k then j else j + 1];
    }
    forall n, v | 0 <= n < |left| && v in left[n].players
      ensures HunterAt(rest, v, n)
    {
      assert HunterAt(hs, v, n);
      var j :| 0 <= j < |hs| && hs[j].user == v && hs[j].location == Some(n);
      assert rest[if j < k then j else j - 1] == hs[j];
    }
  }

  lemma {:induction false} ResignKeepsStructure(s: State, u: User)
    requires Structure(s) && Playing(s, u)
    ensures Structure(ResignPlayer(s, u))
  {
    var k := Find(s.hunters, u);
    var t := ResignPlayer(s, u);
    if s.running {
      MirroredWithout(s.hunters, s.rooms, k);
      ShapeKept(s.rooms, t.rooms);
    }
  }

  lemma {:induction false} MirroredRelocated(hs: seq<Hunter>, rooms: seq<Room>, k: nat, to: nat)
    requires DistinctUsers(hs) && Mirrored(hs, rooms) && k < |hs| && to < |rooms|
    ensures Mirrored(hs[k := hs[k].(location := Some(to))],
                     EnterRoom(LeaveRoom(rooms, hs[k].location.value, hs[k].user), to, hs[k].user))
  {
    var u := hs[k].user;
    var left := LeaveRoom(rooms, hs[k].location.value, u);
    var (moved, entered) := (hs[k := hs[k].(location := Some(to))], EnterRoom(left, to, u));
    LeftRoom(hs, rooms, hs[k].location.value, u);
    assert u !in left[to].players;
    forall n, v | 0 <= n < |rooms| && v in entered[n].players
      ensures HunterAt(moved, v, n)
    {
      if v == u {
        assert n == to && moved[k].user == u;
      } else {
        assert v in left[n].players && HunterAt(hs, v, n);
        var j :| 0 <= j < |hs| && hs[j].user == v && hs[j].location == Some(n);
        assert moved[j] == hs[j];
      }
    }
  }

  lemma {:induction false} RelocateKeepsStructure(s: State, u: User, to: nat)
    requires Structure(s) && s.running && Playing(s, u) && to < |s.rooms|
    ensures Structure(Relocate(s, u, to))
  {
    MirroredRelocated(s.hunters, s.rooms, Find(s.hunters, u), to);
    ShapeKept(s.rooms, Relocate(s, u, to).rooms);
  }

  // ---------------------------------------------------------------- feeding the wumpus

  predicate LocatedAt(h: Hunter, w: int) {
    h.location.Some? && h.location.value == w
  }

  predicate SparedFrom(hs: seq<Hunter>, w: int, h: Hunter) {
    exists k :: 0 <= k < |hs| && !LocatedAt(hs[k], w) && h == hs[k].(hasMoved := false)
  }

  lemma {:induction false} SparedOnlyFrom(hs: seq<Hunter>, w: int, h: Hunter)
    requires h in Spared(hs, w)
    ensures SparedFrom(hs, w, h)
  {
    var n := |hs| - 1;
    if h in Spared(hs[..n], w) {
      SparedOnlyFrom(hs[..n], w, h);
      var k :| 0 <= k < n && !LocatedAt(hs[..n][k], w) && h == hs[..n][k].(hasMoved := false);
      assert hs[k] == hs[..n][k];
    } else {
      assert h == hs[n].(hasMoved := false);
    }
  }

  lemma {:induction false} SparedEach(hs: seq<Hunter>, w: int, k: nat)
    requires k < |hs| && !LocatedAt(hs[k], w)
    ensures hs[k].(hasMoved := false) in Spared(hs, w)
  {
    var n := |hs| - 1;
    if k < n { SparedEach(hs[..n], w, k); }
  }

  lemma {:induction false} SparedDistinct(hs: seq<Hunter>, w: int)
    requires DistinctUsers(hs)
    ensures DistinctUsers(Spared(hs, w))
  {
    if hs != [] {
      var n := |hs| - 1;
      SparedDistinct(hs[..n], w);
      forall j | 0 <= j < |Spared(hs[..n], w)|
        ensures Spared(hs[..n], w)[j].user != hs[n].user
      {
        SparedOnlyFrom(hs[..n], w, Spared(hs[..n], w)[j]);
      }
    }
  }

  /** The spared players are exactly the others, ready for the next turn. */
  lemma {:induction false} SparedMembers(hs: seq<Hunter>, w: int)
    requires DistinctUsers(hs)
    ensures DistinctUsers(Spared(hs, w))
    ensures forall h :: h in Spared(hs, w) <==> SparedFrom(hs, w, h)
  {
    SparedDistinct(hs, w);
    forall h ensures h in Spared(hs, w) <==> SparedFrom(hs, w, h) {
      if h in Spared(hs, w) { SparedOnlyFrom(hs, w, h); }
      if k :| 0 <= k < |hs| && !LocatedAt(hs[k], w) && h == hs[k].(hasMoved := false) {
        SparedEach(hs, w, k);
      }
    }
  }

  lemma {:induction false} FeastKeepsStructure(s: State)
    requires Structure(s) && s.running
    ensures Structure(Feast(s))
  {
    var t := Feast(s);
    SparedMembers(s.hunters, s.wumpus);
    ShapeKept(s.rooms, t.rooms);
    forall j | 0 <= j < |t.hunters|
      ensures t.hunters[j].location.Some? && t.hunters[j].location.value < |t.rooms|
      ensures t.hunters[j].user in t.rooms[t.hunters[j].location.value].players
    {
      assert t.hunters[j] in t.hunters;
      var k :| 0 <= k < |s.hunters| && !LocatedAt(s.hunters[k], s.wumpus)
            && t.hunters[j] == s.hunters[k].(hasMoved := false);
    }
    forall n, v | 0 <= n < |t.rooms| && v in t.rooms[n].players
      ensures HunterAt(t.hunters, v, n)
    {
      assert HunterAt(s.hunters, v, n);
      var k :| 0 <= k < |s.hunters| && s.hunters[k].user == v && s.hunters[k].location == Some(n);
      assert !LocatedAt(s.hunters[k], s.wumpus);
      assert s.hunters[k].(hasMoved := false) in t.hunters;
      var j :| 0 <= j < |t.hunters| && t.hunters[j] == s.hunters[k].(hasMoved := false);
    }
  }

  // ---------------------------------------------------------------- no step breaks the structure

  lemma {:induction false} ProwlKeepsStructure(s: State, regen: nat, step: nat)
    requires Structure(s) && s.running
    ensures Structure(Prowl(s, regen, step))
  {
    RefurnishedShape(s, s.(rooms := Prowl(s, regen, step).rooms));
  }

  lemma {:induction false} MoveWumpusKeepsStructure(s: State, regen: nat, step: nat)
    requires Structure(s)
    ensures Structure(MoveWumpus(s, regen, step))
  {
    if s.running {
      ProwlKeepsStructure(s, regen, step);
      FeastKeepsStructure(Prowl(s, regen, step));
    }
  }

  lemma {:induction false} ArriveKeepsStructure(s: State, u: User, to: nat, arrow: nat, ball: nat)
    requires Structure(s) && s.running && Playing(s, u) && to < |s.rooms|
    ensures Structure(Arrive(s, u, to, arrow, ball))
  {
    RelocateKeepsStructure(Gather(s, u, to, arrow, ball), u, to);
  }

  /** A move that passes the check, in two steps: the bats fly, and the player dies or arrives. */
  lemma {:induction false} MoveSteps(s: State, u: User, id: int, bat: nat, arrow: nat, ball: nat)
    requires Structure(s) && s.running && Playing(s, u) && Adjacent(s, u, id)
    ensures id < |s.rooms| && Structure(s.(rooms := BatsFly(s, id, bat)))
    ensures var (to, flown) := (Destination(s, id, bat), s.(rooms := BatsFly(s, id, bat)));
      MovePlayer(s, u, id, bat, arrow, ball) ==
        if s.wumpus == to || flown.rooms[to].contents == Pit then Die(flown, u) else Arrive(flown, u, to, arrow, ball)
  {
    assert RoomShape(s.rooms[Where(s, u)], Where(s, u), |s.rooms|);
    RefurnishedShape(s, s.(rooms := BatsFly(s, id, bat)));
  }

  lemma {:induction false} MovePlayerKeepsStructure(s: State, u: User, id: int, bat: nat, arrow: nat, ball: nat)
    requires Structure(s) && s.running && Playing(s, u)
    ensures Structure(MovePlayer(s, u, id, bat, arrow, ball))
  {
    if Adjacent(s, u, id) {
      assert RoomShape(s.rooms[Where(s, u)], Where(s, u), |s.rooms|);
      var flown := s.(rooms := BatsFly(s, id, bat));
      RefurnishedShape(s, flown);
      if Fatal(s, id, bat) {
        ResignKeepsStructure(flown, u);
      } else {
        ArriveKeepsStructure(flown, u, Destination(s, id, bat), arrow, ball);
      }
    }
  }

  lemma {:induction false} ShootHunterKeepsStructure(s: State, tu: User, hit: nat)
    requires Structure(s) && Playing(s, tu)
    ensures Structure(ShootHunter(s, tu, hit))
  {
    ResignKeepsStructure(s, tu);
    SameShape(s, Wound(s, tu));
  }

  lemma {:induction false} ShootWumpusKeepsStructure(s: State, hit: nat, regen: nat, step: nat)
    requires Structure(s)
    ensures Structure(ShootWumpus(s, hit, regen, step))
  {
    var hurt := Hurt(s);
    SameShape(s, hurt);
    MoveWumpusKeepsStructure(s, regen, step);
    MoveWumpusKeepsStructure(hurt, regen, step);
  }

  /** A shot that passes the checks: the target is another room, and anybody it meets is another
      player of the game. */
  lemma {:induction false} NoShotAtOneself(s: State, u: User, target: int)
    requires Structure(s) && s.running && Playing(s, u) && Adjacent(s, u, target)
    ensures target < |s.rooms| && target != Where(s, u) && s.rooms[Where(s, u)].id == Where(s, u)
    ensures forall tu :: tu in s.rooms[target].players ==> tu != u && Playing(s, tu)
  {
    assert RoomShape(s.rooms[Where(s, u)], Where(s, u), |s.rooms|);
    forall tu | tu in s.rooms[target].players
      ensures tu != u && Playing(s, tu)
    {
      assert HunterAt(s.hunters, tu, target);
    }
  }

  lemma {:induction false} StrikeKeepsStructure(s: State, target: nat, hit: nat, regen: nat, step: nat)
    requires Structure(s) && s.running && target < |s.rooms|
    ensures Structure(Strike(s, target, hit, regen, step))
  {
    var r := s.rooms[target];
    if r.players != [] {
      FirstIsPlaying(s, target);
      ShootHunterKeepsStructure(s, r.players[0], hit);
    } else if r.contents == Marker {
      ShootWumpusKeepsStructure(s, hit, regen, step);
    }
  }

  lemma {:induction false} FirstIsPlaying(s: State, i: nat)
    requires Structure(s) && s.running && i < |s.rooms| && s.rooms[i].players != []
    ensures Playing(s, s.rooms[i].players[0])
  {
    assert s.rooms[i].players[0] in s.rooms[i].players;
    assert HunterAt(s.hunters, s.rooms[i].players[0], i);
  }

  /** A shot past the checks: the arrow is spent, and flies on from a sound state. */
  lemma {:induction false} ShotFlies(s: State, u: User, target: int, hit: nat, regen: nat, step: nat)
    requires Structure(s) && s.running && Playing(s, u) && Looses(s, u, target)
    ensures Structure(SpendArrow(s, u)) && target < |s.rooms|
    ensures ShootPlayer(s, u, target, hit, regen, step) == Strike(SpendArrow(s, u), target, hit, regen, step)
  {
    NoShotAtOneself(s, u, target);
    SameShape(s, SpendArrow(s, u));
  }

  lemma {:induction false} ShootPlayerKeepsStructure(s: State, u: User, target: int, hit: nat, regen: nat, step: nat)
    requires Structure(s) && s.running && Playing(s, u)
    ensures Structure(ShootPlayer(s, u, target, hit, regen, step))
  {
    if Looses(s, u, target) {
      ShotFlies(s, u, target, hit, regen, step);
      StrikeKeepsStructure(SpendArrow(s, u), target, hit, regen, step);
    }
  }

  // ---------------------------------------------------------------- a new maze

  lemma {:induction false} CheckedDrawInRange(i: nat, have: seq<nat>, t: nat, size: nat)
    requires i < size && t < size
    ensures CheckedDraw(i, have, t) < size
  {
    if have != [] {
      CheckedDrawInRange(i, have[1..], if IdSoFar(i, have[0]) == t then i else t, size);
    }
  }

  lemma {:induction false} RedrawInRange(i: nat, have: seq<nat>, size: nat, t: nat, tape: seq<nat>)
    requires i < size && t < size && Redraw(i, have, size, t, tape).Some?
    ensures Redraw(i, have, size, t, tape).value.0 < size
    decreases |tape|
  {
    if t == i {
      CheckedDrawInRange(i, have, tape[0] % size, size);
      RedrawInRange(i, have, size, CheckedDraw(i, have, tape[0] % size), tape[1..]);
    }
  }

  lemma {:induction false} ExitsInRange(i: nat, n: nat, size: nat, tape: seq<nat>)
    requires i < size && DrawExits(i, n, size, tape).Some?
    ensures |DrawExits(i, n, size, tape).value.0| == n
    ensures forall e :: e in DrawExits(i, n, size, tape).value.0 ==> e < size && e != i
  {
    if n > 0 {
      ExitsInRange(i, n - 1, size, tape);
      var (have, rest) := DrawExits(i, n - 1, size, tape).value;
      RedrawInRange(i, have, size, rest[0] % size, rest[1..]);
    }
  }

  lemma {:induction false} DugShape(n: nat, size: nat, tape: seq<nat>)
    requires n <= size && size > 0 && DigRooms(n, size, tape).Some?
    ensures forall i :: 0 <= i < n ==> RoomShape(DigRooms(n, size, tape).value.0[i], i, size)
  {
    if n > 0 {
      DugShape(n - 1, size, tape);
      var (dug, rest) := DigRooms(n - 1, size, tape).value;
      ExitsInRange(n - 1, 3, size, rest);
    }
  }

  lemma {:induction false} ResidentsAreLocated(hs: seq<Hunter>, i: nat)
    requires DistinctUsers(hs)
    ensures forall u :: u in Residents(hs, i) <==> HunterAt(hs, u, i)
    ensures NoDup(Residents(hs, i))
  {
    if hs != [] {
      var (init, last) := (hs[..|hs| - 1], hs[|hs| - 1]);
      var before := Residents(init, i);
      ResidentsAreLocated(init, i);
      forall u
        ensures HunterAt(hs, u, i) <==> HunterAt(init, u, i) || (u == last.user && last.location == Some(i))
      {
        if HunterAt(init, u, i) {
          var k :| 0 <= k < |init| && init[k].user == u && init[k].location == Some(i);
          assert hs[k] == init[k];
        }
        if HunterAt(hs, u, i) {
          var k :| 0 <= k < |hs| && hs[k].user == u && hs[k].location == Some(i);
          assert k < |init| ==> init[k] == hs[k];
        }
      }
      assert forall j :: 0 <= j < |before| ==> before[j] in before;
      assert last.user !in before;
    }
  }

  lemma {:induction false} RoundsFurnish(rooms: seq<Room>, c: Contents, odds: nat, n: nat, draw: (nat, nat) -> nat)
    requires odds > 0
    ensures forall i :: 0 <= i < |rooms| ==>
              var r := ScatterRounds(rooms, c, odds, n, draw)[i]; r == rooms[i].(contents := r.contents)
  {
    if n > 0 {
      RoundsFurnish(rooms, c, odds, n - 1, draw);
    }
  }

  lemma {:induction false} FurnishOnlyFurnishes(dug: seq<Room>, d: Draws)
    requires |dug| > 0
    ensures forall i :: 0 <= i < |dug| ==> var r := Furnish(dug, d)[i]; r == dug[i].(contents := r.contents)
  {
    var withPits := Scatter(SetContents(dug, d.wumpus % |dug|, Marker), Pit, 42 * 2, d.pits);
    RoundsFurnish(withPits, Bats, 42, 2, d.bats);
    RoundsFurnish(ScatterRounds(withPits, Bats, 42, 2, d.bats), Arrows, 42, 3, d.arrows);
  }

  lemma {:induction false} RoundsBringNoBall(rooms: seq<Room>, c: Contents, odds: nat, n: nat, draw: (nat, nat) -> nat)
    requires odds > 0 && c != CrystalBall
    requires forall i :: 0 <= i < |rooms| ==> rooms[i].contents != CrystalBall
    ensures forall i :: 0 <= i < |rooms| ==> ScatterRounds(rooms, c, odds, n, draw)[i].contents != CrystalBall
  {
    if n > 0 {
      RoundsBringNoBall(rooms, c, odds, n - 1, draw);
    }
  }

  /** A new maze holds exactly one crystal ball. */
  lemma {:induction false} OneCrystalBall(dug: seq<Room>, d: Draws)
    requires |dug| > 0 && forall i :: 0 <= i < |dug| ==> dug[i].contents == Nothing
    ensures Count(Furnish(dug, d), CrystalBall) == 1
  {
    var size := |dug|;
    var withPits := Scatter(SetContents(dug, d.wumpus % size, Marker), Pit, 42 * 2, d.pits);
    var withBats := ScatterRounds(withPits, Bats, 42, 2, d.bats);
    var withArrows := ScatterRounds(withBats, Arrows, 42, 3, d.arrows);
    RoundsBringNoBall(withPits, Bats, 42, 2, d.bats);
    RoundsBringNoBall(withBats, Arrows, 42, 3, d.arrows);
    CountBound(withArrows, CrystalBall);
    var i := d.ball % size;
    CountUpdate(withArrows, i, withArrows[i].(contents := CrystalBall), CrystalBall);
  }

  /** The rooms as build_maze digs them, with nothing and nobody in them. */
  ghost predicate Bare(rooms: seq<Room>) {
    forall i :: 0 <= i < |rooms| ==> rooms[i].contents == Nothing && rooms[i].players == []
  }

  lemma {:induction false} DugEmpty(n: nat, size: nat, tape: seq<nat>)
    requires size > 0 && DigRooms(n, size, tape).Some?
    ensures Bare(DigRooms(n, size, tape).value.0)
  {
    if n > 0 {
      DugEmpty(n - 1, size, tape);
    }
  }

  predicate BuildsMaze(s: State, e: Event) {
    e.StartTimer? && TimerFires(s, e.draws) && |s.hunters| >= 2 && CappedSize(s) >= 10
  }

  lemma {:induction false} HousedMirror(rooms: seq<Room>, hs: seq<Hunter>)
    requires DistinctUsers(hs)
    requires forall k :: 0 <= k < |hs| ==> hs[k].location.Some? && hs[k].location.value < |rooms|
    ensures Mirrored(hs, House(rooms, hs))
  {
    forall i | 0 <= i < |rooms|
      ensures NoDup(House(rooms, hs)[i].players)
      ensures forall u :: u in House(rooms, hs)[i].players <==> HunterAt(hs, u, i)
    {
      ResidentsAreLocated(hs, i);
    }
    assert forall k :: 0 <= k < |hs| ==> HunterAt(hs, hs[k].user, hs[k].location.value);
  }

  lemma {:induction false} NewGameMaze(s: State, d: Draws)
    requires BuildsMaze(s, StartTimer(d))
    ensures MazeShape(StartGame(s, d).rooms) && |StartGame(s, d).rooms| == CappedSize(s)
    ensures Count(StartGame(s, d).rooms, CrystalBall) == 1
  {
    var rooms := StartGame(s, d).rooms;
    var size := CappedSize(s);
    var dug := DigRooms(size, size, d.exits).value.0;
    DugShape(size, size, d.exits);
    DugEmpty(size, size, d.exits);
    FurnishOnlyFurnishes(dug, d);
    OneCrystalBall(dug, d);
    CountSame(Furnish(dug, d), rooms, CrystalBall);
    assert MazeShape(dug);
    ShapeKept(dug, rooms);
  }

  /** The game a start timer begins: a sound maze of at most 300 rooms with one crystal ball,
      everybody housed in it, and a fresh wumpus. */
  lemma {:induction false} NewGameIsSound(s: State, d: Draws)
    requires Structure(s) && BuildsMaze(s, StartTimer(d))
    ensures Structure(StartGame(s, d))
    ensures Count(StartGame(s, d).rooms, CrystalBall) == 1
    ensures StartGame(s, d).wumpHp == 70 && StartGame(s, d).speed == 60
    ensures AllFit(s.hunters) ==> Inv(StartGame(s, d))
  {
    var size := CappedSize(s);
    NewGameMaze(s, d);
    HousedMirror(Furnish(DigRooms(size, size, d.exits).value.0, d), StartGame(s, d).hunters);
  }
}
