/** The Hunt the Wumpus game of src/wumpus.c as a value: its state, and each step of the
    game as a function of the state and of the numbers rand() happens to draw. */
module WumpusState {
  import opened Options
  import opened Sequences

  // The identity of a user_t.
  type User = nat

  datatype Contents = Nothing | Marker | Pit | Bats | Arrows | CrystalBall

  datatype Room = Room(id: nat, exits: seq<nat>, contents: Contents, players: seq<User>)

  datatype Hunter = Hunter(user: User, location: Option<nat>, arrows: int, hp: int, hasMoved: bool)

  datatype State = State(
    wumpus: int,
    mazesize: nat,
    hunters: seq<Hunter>,
    running: bool,
    starting: bool,
    rooms: seq<Room>,
    wumpHp: int,
    speed: int,
    wantsize: nat
  )

  // The zeroed global game_t.
  const INITIAL := State(0, 0, [], false, false, [], 0, 0, 0)

  // ---------------------------------------------------------------- shape

  ghost predicate NoDup<T>(l: seq<T>) {
    forall i, j :: 0 <= i < j < |l| ==> l[i] != l[j]
  }

  ghost predicate DistinctUsers(hs: seq<Hunter>) {
    forall i, j :: 0 <= i < j < |hs| ==> hs[i].user != hs[j].user
  }

  /** A room as build_maze leaves it: its id is its index and it has three exits,
      all inside the maze and none back to itself. */
  predicate RoomShape(r: Room, i: nat, size: nat) {
    r.id == i && |r.exits| == 3 && forall e :: e in r.exits ==> e < size && e != i
  }

  ghost predicate MazeShape(rooms: seq<Room>) {
    forall i :: 0 <= i < |rooms| ==> RoomShape(rooms[i], i, |rooms|)
  }

  predicate HunterAt(hs: seq<Hunter>, u: User, i: nat) {
    exists k :: 0 <= k < |hs| && hs[k].user == u && hs[k].location == Some(i)
  }

  /** The per-room player lists mirror the locations of the players of the game. */
  ghost predicate Mirrored(hs: seq<Hunter>, rooms: seq<Room>) {
    && (forall k :: 0 <= k < |hs| ==>
          && hs[k].location.Some?
          && hs[k].location.value < |rooms|
          && hs[k].user in rooms[hs[k].location.value].players)
    && (forall i, u :: 0 <= i < |rooms| && u in rooms[i].players ==> HunterAt(hs, u, i))
    && (forall i :: 0 <= i < |rooms| ==> NoDup(rooms[i].players))
  }

  /** What the steps rely on: every pointer and every index they follow is good. */
  ghost predicate Structure(s: State) {
    && DistinctUsers(s.hunters)
    && (s.running ==>
          && 10 <= |s.rooms| == s.mazesize
          && 0 <= s.wumpus < |s.rooms|
          && MazeShape(s.rooms)
          && Mirrored(s.hunters, s.rooms))
    && (!s.running ==>
          && s.rooms == []
          && forall k :: 0 <= k < |s.hunters| ==> s.hunters[k].location == None)
  }

  // ---------------------------------------------------------------- players

  /** find_player: the index of the player of user u, or the length of the list. */
  function Find(hs: seq<Hunter>, u: User): (k: nat)
    ensures k <= |hs|
    ensures k < |hs| ==> hs[k].user == u
    ensures forall j :: 0 <= j < k ==> hs[j].user != u
  {
    if hs == [] || hs[0].user == u then 0 else 1 + Find(hs[1..], u)
  }

  predicate Playing(s: State, u: User) {
    Find(s.hunters, u) < |s.hunters|
  }

  /** mowgli_node_find followed by mowgli_node_delete. */
  function RemoveFirst<T(==)>(l: seq<T>, x: T): seq<T> {
    if l == [] then [] else if l[0] == x then l[1..] else [l[0]] + RemoveFirst(l[1..], x)
  }

  function CreatePlayer(s: State, u: User): State {
    if Playing(s, u) || s.running then s
    else s.(hunters := s.hunters + [Hunter(u, None, 10, 30, false)])
  }

  function LeaveRoom(rooms: seq<Room>, i: nat, u: User): seq<Room>
    requires i < |rooms|
  {
    rooms[i := rooms[i].(players := RemoveFirst(rooms[i].players, u))]
  }

  function EnterRoom(rooms: seq<Room>, i: nat, u: User): seq<Room>
    requires i < |rooms|
  {
    rooms[i := rooms[i].(players := rooms[i].players + [u])]
  }

  function ResignPlayer(s: State, u: User): State
    requires Structure(s) && Playing(s, u)
  {
    var k := Find(s.hunters, u);
    var left := s.(hunters := Without(s.hunters, k));
    match s.hunters[k].location
    case None => left
    case Some(i) => left.(rooms := LeaveRoom(s.rooms, i, u))
  }

  // ---------------------------------------------------------------- the maze

  /** The draws of one maze: a tape for the exits, whose redraws take as many as they need,
      and one draw for every other call of rand(). */
  datatype Draws = Draws(
    exits: seq<nat>,
    wumpus: nat,
    pits: nat -> nat,
    bats: (nat, nat) -> nat,
    arrows: (nat, nat) -> nat,
    ball: nat,
    places: nat -> nat
  )

  // What rm->id reads while room i is being built: the rooms after it are still zeroed.
  function IdSoFar(i: nat, e: nat): nat {
    if e <= i then e else 0
  }

  /** The scan over the exits made so far after a redraw. */
  function CheckedDraw(i: nat, have: seq<nat>, t: nat): nat {
    if have == [] then t
    else CheckedDraw(i, have[1..], if IdSoFar(i, have[0]) == t then i else t)
  }

  /** The redraw loop: from a target t on, draw until it is not room i. None: the tape ended first. */
  function Redraw(i: nat, have: seq<nat>, size: nat, t: nat, tape: seq<nat>): (r: Option<(nat, seq<nat>)>)
    requires size > 0
    ensures r.Some? ==> r.value.0 != i && |r.value.1| <= |tape|
    decreases |tape|
  {
    if t != i then Some((t, tape))
    else if tape == [] then None
    else Redraw(i, have, size, CheckedDraw(i, have, tape[0] % size), tape[1..])
  }

  function DrawExit(i: nat, have: seq<nat>, size: nat, tape: seq<nat>): Option<(nat, seq<nat>)>
    requires size > 0
  {
    if tape == [] then None else Redraw(i, have, size, tape[0] % size, tape[1..])
  }

  /** The first n exits of room i, and the rest of the tape. */
  function DrawExits(i: nat, n: nat, size: nat, tape: seq<nat>): Option<(seq<nat>, seq<nat>)>
    requires size > 0
  {
    if n == 0 then Some(([], tape))
    else match DrawExits(i, n - 1, size, tape)
      case None => None
      case Some((have, rest)) =>
        match DrawExit(i, have, size, rest)
        case None => None
        case Some((t, rest')) => Some((have + [t], rest'))
  }

  /** The first n rooms, still empty, and the rest of the tape. */
  function DigRooms(n: nat, size: nat, tape: seq<nat>): (r: Option<(seq<Room>, seq<nat>)>)
    requires size > 0
    ensures r.Some? ==> |r.value.0| == n
  {
    if n == 0 then Some(([], tape))
    else match DigRooms(n - 1, size, tape)
      case None => None
      case Some((dug, rest)) =>
        match DrawExits(n - 1, 3, size, rest)
        case None => None
        case Some((exits, rest')) => Some((dug + [Room(n - 1, exits, Nothing, [])], rest'))
  }

  function SetContents(rooms: seq<Room>, i: nat, c: Contents): seq<Room>
    requires i < |rooms|
  {
    rooms[i := rooms[i].(contents := c)]
  }

  /** One round of scattering: chamber j gets c when its draw is a multiple of odds. */
  function Scatter(rooms: seq<Room>, c: Contents, odds: nat, draw: nat -> nat): (r: seq<Room>)
    requires odds > 0
    ensures |r| == |rooms|
  {
    seq(|rooms|, j requires 0 <= j < |rooms| =>
      if draw(j) % odds == 0 then rooms[j].(contents := c) else rooms[j])
  }

  /** n rounds of scattering. */
  function ScatterRounds(rooms: seq<Room>, c: Contents, odds: nat, n: nat, draw: (nat, nat) -> nat): (r: seq<Room>)
    requires odds > 0
    ensures |r| == |rooms|
  {
    if n == 0 then rooms
    else Scatter(ScatterRounds(rooms, c, odds, n - 1, draw), c, odds, j => draw(n - 1, j))
  }

  /** The rooms with wumpus, pits, bats, arrows and the crystal ball laid out, in that order. */
  function Furnish(dug: seq<Room>, d: Draws): (r: seq<Room>)
    requires |dug| > 0
    ensures |r| == |dug|
  {
    var size := |dug|;
    var withWumpus := SetContents(dug, d.wumpus % size, Marker);
    var withPits := Scatter(withWumpus, Pit, 42 * 2, d.pits);
    var withBats := ScatterRounds(withPits, Bats, 42, 2, d.bats);
    var withArrows := ScatterRounds(withBats, Arrows, 42, 3, d.arrows);
    SetContents(withArrows, d.ball % size, CrystalBall)
  }

  function Place(hs: seq<Hunter>, size: nat, places: nat -> nat): (r: seq<Hunter>)
    requires size > 0
    ensures |r| == |hs|
  {
    seq(|hs|, k requires 0 <= k < |hs| => hs[k].(location := Some(places(k) % size)))
  }

  /** The users located in room i, in the order of the player list. */
  function Residents(hs: seq<Hunter>, i: nat): seq<User> {
    if hs == [] then []
    else
      var before := Residents(hs[..|hs| - 1], i);
      if hs[|hs| - 1].location == Some(i) then before + [hs[|hs| - 1].user] else before
  }

  function House(rooms: seq<Room>, hs: seq<Hunter>): (r: seq<Room>)
    ensures |r| == |rooms|
  {
    seq(|rooms|, i requires 0 <= i < |rooms| => rooms[i].(players := Residents(hs, i)))
  }

  // ---------------------------------------------------------------- phases

  function EndGame(s: State): State {
    s.(hunters := [], rooms := [], wumpus := -1, running := false)
  }

  /** start_game looks for at least two players, then caps the size. */
  function CappedSize(s: State): nat {
    if s.wantsize >= 300 then 300 else s.wantsize
  }

  /** The maze start_game builds needs no draw past the end of the tape. */
  predicate TapeSuffices(s: State, d: Draws) {
    |s.hunters| >= 2 && CappedSize(s) >= 10 ==>
      DigRooms(CappedSize(s), CappedSize(s), d.exits).Some?
  }

  /** The game init_game sets up in a new maze of the given size. */
  function Settled(s: State, size: nat, d: Draws): State
    requires size > 0 && DigRooms(size, size, d.exits).Some?
  {
    var placed := Place(s.hunters, size, d.places);
    s.(mazesize := size,
       rooms := House(Furnish(DigRooms(size, size, d.exits).value.0, d), placed),
       wumpus := d.wumpus % size,
       hunters := placed,
       running := true,
       speed := 60,
       wumpHp := 70)
  }

  function StartGame(s: State, d: Draws): State
    requires TapeSuffices(s, d)
  {
    var s0 := s.(starting := false);
    if |s.hunters| < 2 then s0
    else
      var size := CappedSize(s);
      var s1 := s0.(wantsize := size);
      if size < 10 then EndGame(s1) else Settled(s1, size, d)
  }

  function CheckLastPersonAlive(s: State): State {
    if |s.hunters| <= 1 then EndGame(s) else s
  }

  // ---------------------------------------------------------------- the wumpus

  /** The players the wumpus spares when it enters room w: all but those located there. */
  function Spared(hs: seq<Hunter>, w: int): seq<Hunter> {
    if hs == [] then []
    else
      var before := Spared(hs[..|hs| - 1], w);
      var h := hs[|hs| - 1];
      if h.location.Some? && h.location.value == w then before else before + [h.(hasMoved := false)]
  }

  /** Where the wumpus steps: one of the exits of its room. */
  function WumpusTarget(s: State, step: nat): (t: nat)
    requires Structure(s) && s.running
    ensures t in s.rooms[s.wumpus].exits && t < |s.rooms| && t != s.wumpus
  {
    var exits := s.rooms[s.wumpus].exits;
    assert RoomShape(s.rooms[s.wumpus], s.wumpus, |s.rooms|);
    exits[step % 3]
  }

  /** The marker leaves the wumpus's room, what that room showed reappears anywhere, and the
      wumpus stands in its new room. */
  function Prowl(s: State, regen: nat, step: nat): State
    requires Structure(s) && s.running
  {
    var r := s.wumpus;
    var cleared := SetContents(SetContents(s.rooms, regen % s.mazesize, s.rooms[r].contents), r, Nothing);
    var t := WumpusTarget(s, step);
    s.(rooms := SetContents(cleared, t, Marker), wumpus := t)
  }

  function Feast(s: State): State
    requires 0 <= s.wumpus < |s.rooms|
  {
    s.(hunters := Spared(s.hunters, s.wumpus),
       rooms := s.rooms[s.wumpus := s.rooms[s.wumpus].(players := [])])
  }

  function MoveWumpus(s: State, regen: nat, step: nat): State
    requires Structure(s)
  {
    if s.rooms == [] then s
    else CheckLastPersonAlive(Feast(Prowl(s, regen, step)))
  }

  // ---------------------------------------------------------------- moving and shooting

  function Where(s: State, u: User): nat
    requires Structure(s) && s.running && Playing(s, u)
  {
    s.hunters[Find(s.hunters, u)].location.value
  }

  predicate Adjacent(s: State, u: User, id: int)
    requires Structure(s) && s.running && Playing(s, u)
  {
    id >= 0 && id in s.rooms[Where(s, u)].exits
  }

  /** The end of move_player: from the old room's list to the tail of the new one's. */
  function Relocate(s: State, u: User, to: nat): State
    requires Playing(s, u) && to < |s.rooms|
    requires s.hunters[Find(s.hunters, u)].location.Some?
    requires s.hunters[Find(s.hunters, u)].location.value < |s.rooms|
  {
    var k := Find(s.hunters, u);
    s.(hunters := s.hunters[k := s.hunters[k].(location := Some(to))],
       rooms := EnterRoom(LeaveRoom(s.rooms, s.hunters[k].location.value, u), to, u))
  }

  /** Bats in the chosen room carry the player, and themselves, somewhere else. */
  function Destination(s: State, id: nat, bat: nat): nat
    requires s.mazesize > 0 && id < |s.rooms|
  {
    if s.rooms[id].contents == Bats then bat % s.mazesize else id
  }

  function BatsFly(s: State, id: nat, bat: nat): seq<Room>
    requires 0 < |s.rooms| == s.mazesize && id < |s.rooms|
  {
    if s.rooms[id].contents == Bats
    then SetContents(SetContents(s.rooms, id, Nothing), bat % s.mazesize, Bats)
    else s.rooms
  }

  /** Arrows found in room i are taken or broken, and turn up somewhere else. */
  function PickArrows(rooms: seq<Room>, i: nat, arrow: nat): (r: seq<Room>)
    requires i < |rooms|
    ensures |r| == |rooms|
  {
    if rooms[i].contents == Arrows
    then SetContents(SetContents(rooms, i, Nothing), arrow % |rooms|, Arrows) else rooms
  }

  /** The crystal ball found in room i vanishes, and turns up somewhere else. */
  function PickBall(rooms: seq<Room>, i: nat, ball: nat): (r: seq<Room>)
    requires i < |rooms|
    ensures |r| == |rooms|
  {
    if rooms[i].contents == CrystalBall
    then SetContents(SetContents(rooms, i, Nothing), ball % |rooms|, CrystalBall) else rooms
  }

  function Pickup(rooms: seq<Room>, i: nat, arrow: nat, ball: nat): (r: seq<Room>)
    requires i < |rooms|
    ensures |r| == |rooms|
  {
    PickBall(PickArrows(rooms, i, arrow), i, ball)
  }

  function Restock(h: Hunter, c: Contents): Hunter {
    if c == Arrows && h.arrows == 0 then h.(arrows := h.arrows + 5) else h
  }

  predicate Fatal(s: State, id: nat, bat: nat)
    requires 0 < |s.rooms| == s.mazesize && id < |s.rooms|
  {
    var to := Destination(s, id, bat);
    s.wumpus == to || BatsFly(s, id, bat)[to].contents == Pit
  }

  /** A death on the move: the player leaves, and a lone survivor wins. */
  function Die(s: State, u: User): State
    requires Structure(s) && Playing(s, u)
  {
    CheckLastPersonAlive(ResignPlayer(s, u))
  }

  /** The player of u takes what lies in room `to`: arrows for an empty quiver, the crystal ball. */
  function Gather(s: State, u: User, to: nat, arrow: nat, ball: nat): (t: State)
    requires Structure(s) && s.running && Playing(s, u) && to < |s.rooms|
    ensures Structure(t) && Find(t.hunters, u) == Find(s.hunters, u)
  {
    var k := Find(s.hunters, u);
    var armed := s.(hunters := s.hunters[k := Restock(s.hunters[k], s.rooms[to].contents)]);
    var t := armed.(rooms := Pickup(s.rooms, to, arrow, ball));
    SameShape(s, armed);
    RefurnishedShape(armed, t);
    t
  }

  /** A player neither the wumpus nor a pit has killed enters room `to`. */
  function Arrive(s: State, u: User, to: nat, arrow: nat, ball: nat): State
    requires Structure(s) && s.running && Playing(s, u) && to < |s.rooms|
  {
    Relocate(Gather(s, u, to, arrow, ball), u, to)
  }

  // ---------------------------------------------------------------- shooting

  function SpendArrow(s: State, u: User): State
    requires Playing(s, u)
  {
    var k := Find(s.hunters, u);
    s.(hunters := s.hunters[k := s.hunters[k].(arrows := s.hunters[k].arrows - 1)])
  }

  /** The shot passes every check of shoot_player. */
  predicate Looses(s: State, u: User, target: int)
    requires Structure(s) && s.running && Playing(s, u)
  {
    && s.hunters[Find(s.hunters, u)].arrows != 0
    && Adjacent(s, u, target)
    && s.rooms[Where(s, u)].id != target
  }

  function Wound(s: State, u: User): State
    requires Playing(s, u)
  {
    var k := Find(s.hunters, u);
    s.(hunters := s.hunters[k := s.hunters[k].(hp := s.hunters[k].hp - 10)])
  }

  /** The arrow flies at the first player tu of the target room. */
  function ShootHunter(s: State, tu: User, hit: nat): State
    requires Structure(s) && Playing(s, tu)
  {
    var hp := s.hunters[Find(s.hunters, tu)].hp;
    if hit % 3 < 2 && hp <= 10 then ResignPlayer(s, tu)
    else if hp > 0 && hit % 3 < 2 then Wound(s, tu)
    else s
  }

  /** A hit weakens the wumpus, and its timer comes round sooner. */
  function Hurt(s: State): State {
    s.(wumpHp := s.wumpHp - 5, speed := s.speed - 3)
  }

  /** The arrow flies at a room that shows the wumpus. */
  function ShootWumpus(s: State, hit: nat, regen: nat, step: nat): State
    requires Structure(s)
  {
    if 0 < s.wumpHp <= 5 && hit % 3 < 2 then EndGame(s)
    else if s.wumpHp > 5 && hit % 3 < 2 then
      MoveWumpus(Hurt(s), regen, step)
    else MoveWumpus(s, regen, step)
  }

  /** Hit points, arrows and has_moved are no part of the structure. */
  lemma {:induction false} SameShape(s: State, t: State)
    requires Structure(s)
    requires t.rooms == s.rooms && t.wumpus == s.wumpus && t.mazesize == s.mazesize && t.running == s.running
    requires |t.hunters| == |s.hunters|
    requires forall k :: 0 <= k < |s.hunters| ==>
               t.hunters[k].user == s.hunters[k].user && t.hunters[k].location == s.hunters[k].location
    ensures Structure(t)
    ensures forall u :: Find(t.hunters, u) == Find(s.hunters, u)
  {
    if s.running {
      forall i, u | 0 <= i < |t.rooms| && u in t.rooms[i].players
        ensures HunterAt(t.hunters, u, i)
      {
        assert HunterAt(s.hunters, u, i);
        var k :| 0 <= k < |s.hunters| && s.hunters[k].user == u && s.hunters[k].location == Some(i);
        assert t.hunters[k].user == u;
      }
    }
  }

  /** Where the arrow lands: at the first player of the room, at the wumpus, or nowhere. */
  function Strike(s: State, target: nat, hit: nat, regen: nat, step: nat): State
    requires Structure(s) && s.running && target < |s.rooms|
  {
    var r := s.rooms[target];
    if r.players != [] then
      assert r.players[0] in r.players;
      assert HunterAt(s.hunters, r.players[0], target);
      ShootHunter(s, r.players[0], hit)
    else if r.contents == Marker then ShootWumpus(s, hit, regen, step)
    else s
  }

  function ShootPlayer(s: State, u: User, target: int, hit: nat, regen: nat, step: nat): State
    requires Structure(s) && s.running && Playing(s, u)
  {
    if !Looses(s, u, target) then s
    else
      assert RoomShape(s.rooms[Where(s, u)], Where(s, u), |s.rooms|);
      SameShape(s, SpendArrow(s, u));
      Strike(SpendArrow(s, u), target, hit, regen, step)
  }

  function MovePlayer(s: State, u: User, id: int, bat: nat, arrow: nat, ball: nat): State
    requires Structure(s) && s.running && Playing(s, u)
  {
    if !Adjacent(s, u, id) then s
    else
      assert RoomShape(s.rooms[Where(s, u)], Where(s, u), |s.rooms|);
      var flown := s.(rooms := BatsFly(s, id, bat));
      RefurnishedShape(s, flown);
      if Fatal(s, id, bat) then Die(flown, u)
      else Arrive(flown, u, Destination(s, id, bat), arrow, ball)
  }

  /** What lies in the rooms is no part of the structure. */
  lemma {:induction false} RefurnishedShape(s: State, t: State)
    requires Structure(s) && s.running
    requires t == s.(rooms := t.rooms) && |t.rooms| == |s.rooms|
    requires forall i :: 0 <= i < |s.rooms| ==> t.rooms[i] == s.rooms[i].(contents := t.rooms[i].contents)
    ensures Structure(t)
  {
    forall i | 0 <= i < |t.rooms|
      ensures RoomShape(t.rooms[i], i, |t.rooms|)
    {
      assert RoomShape(s.rooms[i], i, |s.rooms|);
    }
    forall i, u | 0 <= i < |t.rooms| && u in t.rooms[i].players
      ensures HunterAt(t.hunters, u, i)
    {
      assert u in s.rooms[i].players;
    }
  }
}
