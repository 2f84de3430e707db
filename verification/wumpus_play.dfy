/** The rules of the game over whole runs: who the wumpus finds, how it dies, what a shot costs. */
module WumpusPlay {
  import opened Options
  import opened Sequences
  import opened WumpusState
  import opened WumpusRuns
  import opened WumpusTheorems

  // ---------------------------------------------------------------- runs

  function Run(s: State, es: seq<Event>): (t: State)
    requires Structure(s)
    ensures Structure(t)
    decreases |es|
  {
    if es == [] then s
    else
      StepKeepsStructure(s, es[0]);
      Run(Step(s, es[0]), es[1..])
  }

  /** No event of the run builds a new maze: the run stays within one game, or after it. */
  predicate OneGame(s: State, es: seq<Event>)
    requires Structure(s)
    decreases |es|
  {
    es != [] ==>
      && !BuildsMaze(s, es[0])
      && (StepKeepsStructure(s, es[0]);
          OneGame(Step(s, es[0]), es[1..]))
  }

  /** Every state any run reaches from the zeroed game is sound. */
  lemma {:induction false} RunKeepsInvariant(s: State, es: seq<Event>)
    requires Inv(s)
    ensures Inv(Run(s, es))
    decreases |es|
  {
    if es != [] {
      StepKeepsInvariant(s, es[0]);
      RunKeepsInvariant(Step(s, es[0]), es[1..]);
    }
  }

  lemma {:induction false} EveryReachableStateIsSound(es: seq<Event>)
    ensures Structure(INITIAL) && Inv(Run(INITIAL, es))
  {
    RunKeepsInvariant(INITIAL, es);
  }

  lemma {:induction false} CountOnce<T>(l: seq<T>, x: T)
    requires NoDup(l)
    ensures multiset(l)[x] == if x in l then 1 else 0
  {
    if l != [] {
      assert l == [l[0]] + l[1..];
      CountOnce(l[1..], x);
    }
  }

  /** In a sound running game every player is in a room of the maze, exactly once in the list of
      that room and in no other, and the lists hold nobody who is not playing. */
  lemma {:induction false} EverybodyListedOnce(s: State, i: nat)
    requires Inv(s) && s.running && i < |s.rooms|
    ensures forall k :: 0 <= k < |s.hunters| ==>
              && s.hunters[k].location.Some? && s.hunters[k].location.value < |s.rooms|
              && multiset(s.rooms[i].players)[s.hunters[k].user] == if s.hunters[k].location == Some(i) then 1 else 0
    ensures forall u :: u in s.rooms[i].players ==> Playing(s, u) && Where(s, u) == i
  {
    forall k | 0 <= k < |s.hunters|
      ensures multiset(s.rooms[i].players)[s.hunters[k].user] == if s.hunters[k].location == Some(i) then 1 else 0
    {
      CountOnce(s.rooms[i].players, s.hunters[k].user);
      assert s.hunters[k].user in s.rooms[i].players ==> HunterAt(s.hunters, s.hunters[k].user, i);
    }
    forall u | u in s.rooms[i].players
      ensures Playing(s, u) && Where(s, u) == i
    {
      assert HunterAt(s.hunters, u, i);
    }
  }

  /** Over any run of one game the pits, the bats, the arrows and the crystal ball never multiply. */
  lemma {:induction false} HazardsNeverMultiply(s: State, es: seq<Event>, c: Contents)
    requires Structure(s) && OneGame(s, es) && Hazard(c)
    ensures Count(Run(s, es).rooms, c) <= Count(s.rooms, c)
    decreases |es|
  {
    if es != [] {
      StepKeepsStructure(s, es[0]);
      StepOnward(s, es[0]);
      HazardsNeverMultiply(Step(s, es[0]), es[1..], c);
    }
  }

  // ---------------------------------------------------------------- near the wumpus

  function CountAt(hs: seq<Hunter>, w: int): nat {
    if hs == [] then 0
    else CountAt(hs[..|hs| - 1], w) + if LocatedAt(hs[|hs| - 1], w) then 1 else 0
  }

  /** How many players share the true room of the wumpus. */
  function WithWumpus(s: State): nat {
    CountAt(s.hunters, s.wumpus)
  }

  lemma {:induction false} CountAtUpdate(hs: seq<Hunter>, k: nat, h: Hunter, w: int)
    requires k < |hs|
    ensures CountAt(hs[k := h], w) + (if LocatedAt(hs[k], w) then 1 else 0)
         == CountAt(hs, w) + (if LocatedAt(h, w) then 1 else 0)
  {
    var n := |hs| - 1;
    if k == n {
      assert hs[k := h][..n] == hs[..n];
    } else {
      assert hs[k := h][..n] == hs[..n][k := h];
      CountAtUpdate(hs[..n], k, h, w);
    }
  }

  lemma {:induction false} CountAtWithout(hs: seq<Hunter>, k: nat, w: int)
    requires k < |hs|
    ensures CountAt(Without(hs, k), w) <= CountAt(hs, w)
  {
    var n := |hs| - 1;
    if k == n {
      assert Without(hs, k) == hs[..n];
    } else {
      assert Without(hs, k)[..n - 1] == Without(hs[..n], k);
      CountAtWithout(hs[..n], k, w);
    }
  }

  lemma {:induction false} CountAtNone(hs: seq<Hunter>, w: int)
    requires forall k :: 0 <= k < |hs| ==> !LocatedAt(hs[k], w)
    ensures CountAt(hs, w) == 0
  {
    if hs != [] {
      CountAtNone(hs[..|hs| - 1], w);
    }
  }

  lemma {:induction false} CountAtZero(hs: seq<Hunter>, w: int)
    requires CountAt(hs, w) == 0
    ensures forall k :: 0 <= k < |hs| ==> !LocatedAt(hs[k], w)
  {
    if hs != [] {
      CountAtZero(hs[..|hs| - 1], w);
    }
  }

  lemma {:induction false} SparedAreAway(hs: seq<Hunter>, w: int)
    ensures CountAt(Spared(hs, w), w) == 0
  {
    if hs != [] {
      var before := Spared(hs[..|hs| - 1], w);
      SparedAreAway(hs[..|hs| - 1], w);
      if Spared(hs, w) != before {
        assert Spared(hs, w)[..|before|] == before;
      }
    }
  }

  lemma {:induction false} NotRunningNobodyNear(s: State)
    requires Structure(s) && !s.running
    ensures forall w :: CountAt(s.hunters, w) == 0
  {
    forall w ensures CountAt(s.hunters, w) == 0 {
      CountAtNone(s.hunters, w);
    }
  }

  lemma {:induction false} ProwlLeavesNobody(s: State, regen: nat, step: nat)
    requires Structure(s)
    ensures WithWumpus(MoveWumpus(s, regen, step)) == 0
  {
    if s.running {
      SparedAreAway(s.hunters, WumpusTarget(s, step));
    } else {
      NotRunningNobodyNear(s);
    }
  }

  lemma {:induction false} ResignNoNearer(s: State, u: User)
    requires Structure(s) && Playing(s, u)
    ensures WithWumpus(ResignPlayer(s, u)) <= WithWumpus(s)
  {
    CountAtWithout(s.hunters, Find(s.hunters, u), s.wumpus);
  }

  lemma {:induction false} ArriveNoNearer(s: State, u: User, to: nat, arrow: nat, ball: nat)
    requires Structure(s) && s.running && Playing(s, u) && to < |s.rooms| && to != s.wumpus
    ensures WithWumpus(Arrive(s, u, to, arrow, ball)) <= WithWumpus(s)
  {
    var k := Find(s.hunters, u);
    var h := Gather(s, u, to, arrow, ball).hunters[k].(location := Some(to));
    CountAtUpdate(s.hunters, k, h, s.wumpus);
    assert Arrive(s, u, to, arrow, ball).hunters == s.hunters[k := h];
  }

  lemma {:induction false} MovePlayerNoNearer(s: State, u: User, id: int, bat: nat, arrow: nat, ball: nat)
    requires Structure(s) && s.running && Playing(s, u)
    ensures WithWumpus(MovePlayer(s, u, id, bat, arrow, ball)) <= WithWumpus(s)
  {
    if Adjacent(s, u, id) {
      NoShotAtOneself(s, u, id);
      var flown := s.(rooms := BatsFly(s, id, bat));
      RefurnishedShape(s, flown);
      if Fatal(s, id, bat) {
        ResignNoNearer(flown, u);
      } else {
        ArriveNoNearer(flown, u, Destination(s, id, bat), arrow, ball);
      }
    }
  }

  lemma {:induction false} AttributesNoNearer(s: State, k: nat, h: Hunter)
    requires k < |s.hunters| && h.location == s.hunters[k].location
    ensures CountAt(s.hunters[k := h], s.wumpus) == CountAt(s.hunters, s.wumpus)
  {
    CountAtUpdate(s.hunters, k, h, s.wumpus);
  }

  lemma {:induction false} ShootWumpusLeavesNobody(s: State, hit: nat, regen: nat, step: nat)
    requires Structure(s)
    ensures WithWumpus(ShootWumpus(s, hit, regen, step)) == 0
  {
    SameShape(s, Hurt(s));
    ProwlLeavesNobody(s, regen, step);
    ProwlLeavesNobody(Hurt(s), regen, step);
  }

  lemma {:induction false} ShootHunterNoNearer(s: State, tu: User, hit: nat)
    requires Structure(s) && Playing(s, tu)
    ensures WithWumpus(ShootHunter(s, tu, hit)) <= WithWumpus(s)
  {
    var k := Find(s.hunters, tu);
    ResignNoNearer(s, tu);
    AttributesNoNearer(s, k, s.hunters[k].(hp := s.hunters[k].hp - 10));
  }

  lemma {:induction false} StrikeNoNearer(s: State, target: nat, hit: nat, regen: nat, step: nat)
    requires Structure(s) && s.running && target < |s.rooms|
    ensures WithWumpus(Strike(s, target, hit, regen, step)) <= WithWumpus(s)
    ensures MarkerOnly(s, target) ==> WithWumpus(Strike(s, target, hit, regen, step)) == 0
  {
    if s.rooms[target].players != [] {
      FirstIsPlaying(s, target);
      ShootHunterNoNearer(s, s.rooms[target].players[0], hit);
    } else if s.rooms[target].contents == Marker {
      ShootWumpusLeavesNobody(s, hit, regen, step);
    }
  }

  lemma {:induction false} ShootNoNearer(s: State, e: Event)
    requires Structure(s) && e.Shoot? && CanAct(s, e.user, e.room)
    ensures WithWumpus(ShootPlayer(s, e.user, e.room.value, e.hit, e.regen, e.step)) <= WithWumpus(s)
    ensures ShotAtWumpus(s, e.user, e.room) ==>
              WithWumpus(ShootPlayer(s, e.user, e.room.value, e.hit, e.regen, e.step)) == 0
  {
    var (u, target) := (e.user, e.room.value);
    if Looses(s, u, target) {
      var k := Find(s.hunters, u);
      ShotFlies(s, u, target, e.hit, e.regen, e.step);
      AttributesNoNearer(s, k, s.hunters[k].(arrows := s.hunters[k].arrows - 1));
      StrikeNoNearer(SpendArrow(s, u), target, e.hit, e.regen, e.step);
    }
  }

  /** The event makes the wumpus walk, or, for a killing shot, ends the game. */
  predicate RousesWumpus(s: State, e: Event)
    requires Structure(s)
  {
    e.WumpusTimer? || (e.Shoot? && ShotAtWumpus(s, e.user, e.room))
  }

  /** No step brings a player into the wumpus's room, and once the wumpus walks nobody is in it. */
  lemma {:induction false} StepNoNearer(s: State, e: Event)
    requires Structure(s) && !BuildsMaze(s, e)
    ensures WithWumpus(Step(s, e)) <= WithWumpus(s)
    ensures RousesWumpus(s, e) ==> WithWumpus(Step(s, e)) == 0
  {
    match e
    case Start(_) =>
    case Join(u) => if !s.running { StepKeepsStructure(s, e); NotRunningNobodyNear(Step(s, e)); }
    case StartTimer(_) =>
    case Move(u, room, bat, arrow, ball) =>
      if CanAct(s, u, room) { MovePlayerNoNearer(s, u, room.value, bat, arrow, ball); }
    case Shoot(u, room, hit, regen, step) =>
      if CanAct(s, u, room) { ShootNoNearer(s, e); }
    case Resign(u) => if Playing(s, u) { ResignNoNearer(s, u); }
    case Reset =>
    case UserDeleted(u) => if Playing(s, u) { ResignNoNearer(s, u); }
    case WumpusTimer(regen, step) => ProwlLeavesNobody(s, regen, step);
  }

  lemma {:induction false} RunNoNearer(s: State, es: seq<Event>)
    requires Structure(s) && OneGame(s, es)
    ensures WithWumpus(Run(s, es)) <= WithWumpus(s)
    decreases |es|
  {
    if es != [] {
      StepKeepsStructure(s, es[0]);
      StepNoNearer(s, es[0]);
      RunNoNearer(Step(s, es[0]), es[1..]);
    }
  }

  /** Once the wumpus has walked, no living player is ever in its true room again in that game. */
  lemma {:induction false} NobodyMeetsARousedWumpus(s: State, es: seq<Event>)
    requires Structure(s) && es != [] && RousesWumpus(s, es[0]) && OneGame(s, es)
    ensures forall h :: h in Run(s, es).hunters ==> h.location != Some(Run(s, es).wumpus)
  {
    StepKeepsStructure(s, es[0]);
    StepNoNearer(s, es[0]);
    RunNoNearer(Step(s, es[0]), es[1..]);
    CountAtZero(Run(s, es).hunters, Run(s, es).wumpus);
  }

  // ---------------------------------------------------------------- how a game ends

  predicate TornDown(s: State) {
    s.hunters == [] && s.rooms == [] && !s.running && s.wumpus == -1
  }

  /** A move that passes the checks and meets the wumpus or a pit. */
  predicate DiesMoving(s: State, e: Event)
    requires Structure(s)
  {
    && e.Move? && CanAct(s, e.user, e.room) && Adjacent(s, e.user, e.room.value)
    && e.room.value < |s.rooms| && Fatal(s, e.room.value, e.bat)
  }

  ghost predicate TwoOrNobody(s: State) {
    (s.running && |s.hunters| >= 2) || TornDown(s)
  }

  lemma {:induction false} ShootWumpusTwoOrNobody(s: State, hit: nat, regen: nat, step: nat)
    requires Structure(s) && s.running
    ensures TwoOrNobody(ShootWumpus(s, hit, regen, step))
    ensures 0 < s.wumpHp <= 5 && hit % 3 < 2 ==> TornDown(ShootWumpus(s, hit, regen, step))
  {
    SameShape(s, Hurt(s));
  }

  /** After the wumpus walked, or somebody died moving, two players are left or the game is gone. */
  lemma {:induction false} DeathLeavesTwoOrNobody(s: State, e: Event)
    requires Structure(s) && s.running && (RousesWumpus(s, e) || DiesMoving(s, e))
    ensures TwoOrNobody(Step(s, e))
    ensures KillsWumpus(s, e) ==> TornDown(Step(s, e))
  {
    if e.Shoot? {
      var (u, target) := (e.user, e.room.value);
      ShotFlies(s, u, target, e.hit, e.regen, e.step);
      ShootWumpusTwoOrNobody(SpendArrow(s, u), e.hit, e.regen, e.step);
    } else if e.Move? {
      MovingDeath(s, e.user, e.room.value, e.bat, e.arrow, e.ball);
    }
  }

  lemma {:induction false} MovingDeath(s: State, u: User, id: int, bat: nat, arrow: nat, ball: nat)
    requires Structure(s) && s.running && Playing(s, u) && Adjacent(s, u, id) && id < |s.rooms| && Fatal(s, id, bat)
    ensures TwoOrNobody(MovePlayer(s, u, id, bat, arrow, ball))
  {
    RefurnishedShape(s, s.(rooms := BatsFly(s, id, bat)));
  }

  /** The arrow kills the first player of the target room. */
  predicate KillsHunter(s: State, e: Event)
    requires Structure(s)
  {
    && e.Shoot? && CanAct(s, e.user, e.room) && Looses(s, e.user, e.room.value)
    && e.room.value < |s.rooms| && s.rooms[e.room.value].players != []
    && e.hit % 3 < 2
    && Playing(s, s.rooms[e.room.value].players[0])
    && Of(s, s.rooms[e.room.value].players[0]).hp <= 10
  }

  /** A player leaves, and nobody looks who is left. */
  predicate LeavesUnnoticed(s: State, e: Event)
    requires Structure(s)
  {
    match e
    case Resign(u) => Playing(s, u)
    case UserDeleted(u) => Playing(s, u)
    case _ => KillsHunter(s, e)
  }

  lemma {:induction false} StrikeLeaves(s: State, target: nat, hit: nat, regen: nat, step: nat)
    requires Structure(s) && s.running && |s.hunters| >= 2 && target < |s.rooms|
    ensures var l := s.rooms[target].players; var t := Strike(s, target, hit, regen, step);
      && (l != [] ==> Playing(s, l[0]))
      && (TwoOrNobody(t) <==> !(|s.hunters| == 2 && l != [] && hit % 3 < 2 && Of(s, l[0]).hp <= 10))
  {
    if s.rooms[target].players != [] {
      FirstIsPlaying(s, target);
    } else if s.rooms[target].contents == Marker {
      ShootWumpusTwoOrNobody(s, hit, regen, step);
    }
  }

  lemma {:induction false} ShotLeaves(s: State, e: Event)
    requires Structure(s) && s.running && |s.hunters| >= 2 && e.Shoot? && CanAct(s, e.user, e.room)
    ensures TwoOrNobody(Step(s, e)) <==> !(|s.hunters| == 2 && KillsHunter(s, e))
  {
    var (u, target) := (e.user, e.room.value);
    if Looses(s, u, target) {
      ShotFlies(s, u, target, e.hit, e.regen, e.step);
      StrikeLeaves(SpendArrow(s, u), target, e.hit, e.regen, e.step);
      NoShotAtOneself(s, u, target);
      var l := s.rooms[target].players;
      if l != [] {
        assert l[0] in l;
        SpendSpares(s, u, l[0]);
      }
    }
  }

  lemma {:induction false} MoveLeaves(s: State, u: User, id: int, bat: nat, arrow: nat, ball: nat)
    requires Structure(s) && s.running && |s.hunters| >= 2 && Playing(s, u)
    ensures TwoOrNobody(MovePlayer(s, u, id, bat, arrow, ball))
  {
    if Adjacent(s, u, id) {
      NoShotAtOneself(s, u, id);
      if Fatal(s, id, bat) {
        MovingDeath(s, u, id, bat, arrow, ball);
      } else {
        RefurnishedShape(s, s.(rooms := BatsFly(s, id, bat)));
      }
    }
  }

  /** The arrow is taken from nobody but the shooter, and costs no hit points. */
  lemma {:induction false} SpendSpares(s: State, u: User, v: User)
    requires Structure(s) && Playing(s, u) && Playing(s, v) && u != v
    ensures Playing(SpendArrow(s, u), v) && Of(SpendArrow(s, u), v) == Of(s, v)
  {
    SameShape(s, SpendArrow(s, u));
  }

  /** From two players or more, a step leads to two or more or to a torn down game, whatever it is;
      the exceptions are exactly one of two players resigning, quitting or being shot dead: then the
      other one stays in a game that nobody wins. */
  lemma {:induction false} SurvivorWinsUnlessUnnoticed(s: State, e: Event)
    requires Inv(s) && s.running && |s.hunters| >= 2
    ensures TwoOrNobody(Step(s, e)) <==> !(|s.hunters| == 2 && LeavesUnnoticed(s, e))
  {
    match e
    case Move(u, room, bat, arrow, ball) => if CanAct(s, u, room) { MoveLeaves(s, u, room.value, bat, arrow, ball); }
    case Shoot(u, room, hit, regen, step) => if CanAct(s, u, room) { ShotLeaves(s, e); }
    case Resign(u) => LeavingLeaves(s, u);
    case UserDeleted(u) => LeavingLeaves(s, u);
    case WumpusTimer(regen, step) => WalkLeaves(s, regen, step);
    case _ => TalkLeaves(s, e);
  }

  lemma {:induction false} LeavingLeaves(s: State, u: User)
    requires Structure(s) && s.running && |s.hunters| >= 2
    ensures TwoOrNobody(ResignCommand(s, u)) <==> !(|s.hunters| == 2 && Playing(s, u))
    ensures TwoOrNobody(DeleteUser(s, u)) <==> !(|s.hunters| == 2 && Playing(s, u))
  {
  }

  lemma {:induction false} WalkLeaves(s: State, regen: nat, step: nat)
    requires Structure(s) && s.running
    ensures TwoOrNobody(MoveWumpus(s, regen, step))
  {
  }

  lemma {:induction false} TalkLeaves(s: State, e: Event)
    requires Inv(s) && s.running && |s.hunters| >= 2 && (e.Start? || e.Join? || e.StartTimer? || e.Reset?)
    ensures TwoOrNobody(Step(s, e))
  {
  }

  /** The arrows that hit the wumpus during a run. */
  function Hits(s: State, es: seq<Event>): nat
    requires Structure(s)
    decreases |es|
  {
    if es == [] then 0
    else
      StepKeepsStructure(s, es[0]);
      (if HitsWumpus(s, es[0]) then 1 else 0) + Hits(Step(s, es[0]), es[1..])
  }

  lemma {:induction false} StrengthTracksHits(s: State, es: seq<Event>)
    requires Inv(s) && OneGame(s, es) && Run(s, es).running
    ensures s.running
    ensures Run(s, es).wumpHp == s.wumpHp - 5 * Hits(s, es)
    ensures Run(s, es).speed == s.speed - 3 * Hits(s, es)
    decreases |es|
  {
    if es != [] {
      var e := es[0];
      StepKeepsInvariant(s, e);
      StepOnward(s, e);
      StrengthTracksHits(Step(s, e), es[1..]);
      if KillsWumpus(s, e) { DeathLeavesTwoOrNobody(s, e); }
    }
  }

  /** From a new game g on, with 70 hit points and a move every 60 seconds: the wumpus dies on
      exactly its fourteenth hit, and the game with it. */
  lemma {:induction false} FourteenthHitKills(g: State, es: seq<Event>, e: Event)
    requires Inv(g) && g.running && g.wumpHp == 70 && g.speed == 60
    requires OneGame(g, es) && Run(g, es).running
    ensures var t := Run(g, es);
      && Hits(g, es) <= 13
      && t.wumpHp == 70 - 5 * Hits(g, es) && t.speed == 60 - 3 * Hits(g, es)
      && (KillsWumpus(t, e) <==> HitsWumpus(t, e) && Hits(g, es) == 13)
      && (KillsWumpus(t, e) ==> TornDown(Step(t, e)))
  {
    RunKeepsInvariant(g, es);
    StrengthTracksHits(g, es);
    if KillsWumpus(Run(g, es), e) { DeathLeavesTwoOrNobody(Run(g, es), e); }
  }

  /** Player k can shoot into room i, which shows the wumpus, and is not where it is. */
  predicate StaleShot(s: State, k: nat, i: nat)
    requires Structure(s) && s.running
  {
    && k < |s.hunters| && s.hunters[k].arrows != 0
    && i in s.rooms[s.hunters[k].location.value].exits
    && i < |s.rooms| && i != s.wumpus && MarkerOnly(s, i)
  }

  /** A hit counts wherever the arrow finds a marker: all hits of a state are in the wumpus's true room
      exactly when no player can shoot into an empty room with a marker left behind. */
  lemma {:induction false} HitsAreTrueExactlyWhen(s: State)
    requires Structure(s) && s.running
    ensures (forall e :: HitsWumpus(s, e) ==> e.room == Some(s.wumpus))
       <==> (forall k: nat, i: nat :: !StaleShot(s, k, i))
  {
    forall k: nat, i: nat | StaleShot(s, k, i)
      ensures exists e :: HitsWumpus(s, e) && e.room != Some(s.wumpus)
    {
      FoundByName(s, k);
      assert RoomShape(s.rooms[s.hunters[k].location.value], s.hunters[k].location.value, |s.rooms|);
      assert HitsWumpus(s, Shoot(s.hunters[k].user, Some(i), 0, 0, 0));
    }
    forall e | HitsWumpus(s, e) && e.room != Some(s.wumpus)
      ensures exists k: nat, i: nat :: StaleShot(s, k, i)
    {
      assert StaleShot(s, Find(s.hunters, e.user), e.room.value);
    }
  }

  // ---------------------------------------------------------------- the wumpus's meal

  predicate InOrder(hs: seq<Hunter>, g: Hunter, h: Hunter) {
    exists a, b :: 0 <= a < b < |hs| && hs[a] == g && hs[b] == h
  }

  lemma {:induction false} SparedKeepOrder(hs: seq<Hunter>, w: int, i: nat, j: nat)
    requires DistinctUsers(hs)
    requires i < j < |hs| && !LocatedAt(hs[i], w) && !LocatedAt(hs[j], w)
    ensures InOrder(Spared(hs, w), hs[i].(hasMoved := false), hs[j].(hasMoved := false))
  {
    var n := |hs| - 1;
    var before := Spared(hs[..n], w);
    if j < n {
      SparedKeepOrder(hs[..n], w, i, j);
      var a, b :| 0 <= a < b < |before|
               && before[a] == hs[i].(hasMoved := false) && before[b] == hs[j].(hasMoved := false);
      assert Spared(hs, w)[a] == before[a] && Spared(hs, w)[b] == before[b];
    } else {
      SparedMembers(hs[..n], w);
      assert hs[..n][i] == hs[i];
      assert hs[i].(hasMoved := false) in before;
      var a :| 0 <= a < |before| && before[a] == hs[i].(hasMoved := false);
      assert Spared(hs, w)[a] == before[a] && Spared(hs, w)[|before|] == hs[j].(hasMoved := false);
    }
  }

  /** The wumpus leaves its room by one of its exits; if the game goes on, it has eaten exactly the
      players of its new room, and the others, unharmed and in their old order, may move again. */
  lemma {:induction false} WumpusEatsItsRoom(s: State, regen: nat, step: nat)
    requires Structure(s) && MoveWumpus(s, regen, step).running
    ensures s.running
    ensures var t := MoveWumpus(s, regen, step);
      && t.wumpus != s.wumpus && 0 <= t.wumpus < |s.rooms| && t.wumpus in s.rooms[s.wumpus].exits
      && t.rooms[t.wumpus].players == [] && t.rooms[t.wumpus].contents == Marker
      && (forall h :: h in t.hunters <==> SparedFrom(s.hunters, t.wumpus, h))
      && (forall i, j ::
            (0 <= i < j < |s.hunters| && !LocatedAt(s.hunters[i], t.wumpus) && !LocatedAt(s.hunters[j], t.wumpus)) ==>
            InOrder(t.hunters, s.hunters[i].(hasMoved := false), s.hunters[j].(hasMoved := false)))
  {
    var w := WumpusTarget(s, step);
    SparedMembers(s.hunters, w);
    forall i, j | 0 <= i < j < |s.hunters| && !LocatedAt(s.hunters[i], w) && !LocatedAt(s.hunters[j], w)
      ensures InOrder(Spared(s.hunters, w), s.hunters[i].(hasMoved := false), s.hunters[j].(hasMoved := false))
    {
      SparedKeepOrder(s.hunters, w, i, j);
    }
  }

  // ---------------------------------------------------------------- the price of a shot

  function Of(s: State, u: User): Hunter
    requires Playing(s, u)
  {
    s.hunters[Find(s.hunters, u)]
  }

  /** Whoever is left carries what they carried. */
  ghost predicate KeepsKit(s: State, t: State) {
    forall v :: Playing(t, v) ==>
      Playing(s, v) && Of(t, v).arrows == Of(s, v).arrows && Of(t, v).hp == Of(s, v).hp
  }

  lemma {:induction false} FoundByName(s: State, k: nat)
    requires DistinctUsers(s.hunters) && k < |s.hunters|
    ensures Playing(s, s.hunters[k].user) && Of(s, s.hunters[k].user) == s.hunters[k]
  {
  }

  predicate SameKit(h: Hunter, g: Hunter) {
    h.user == g.user && h.arrows == g.arrows && h.hp == g.hp
  }

  lemma {:induction false} SubsetKeepsKit(s: State, t: State)
    requires DistinctUsers(s.hunters)
    requires forall h :: h in t.hunters ==> exists k :: 0 <= k < |s.hunters| && SameKit(h, s.hunters[k])
    ensures KeepsKit(s, t)
  {
    forall v | Playing(t, v)
      ensures Playing(s, v) && Of(t, v).arrows == Of(s, v).arrows && Of(t, v).hp == Of(s, v).hp
    {
      var h := Of(t, v);
      assert h in t.hunters;
      var k :| 0 <= k < |s.hunters| && SameKit(h, s.hunters[k]);
      FoundByName(s, k);
    }
  }

  lemma {:induction false} ResignKeepsKit(s: State, u: User)
    requires Structure(s) && Playing(s, u)
    ensures KeepsKit(s, ResignPlayer(s, u))
  {
    var k := Find(s.hunters, u);
    assert forall h :: h in Without(s.hunters, k) ==> h in s.hunters;
    SubsetKeepsKit(s, ResignPlayer(s, u));
  }

  lemma {:induction false} MoveWumpusKeepsKit(s: State, regen: nat, step: nat)
    requires Structure(s)
    ensures KeepsKit(s, MoveWumpus(s, regen, step))
  {
    if s.running {
      SparedMembers(s.hunters, WumpusTarget(s, step));
      SubsetKeepsKit(s, MoveWumpus(s, regen, step));
    }
  }

  lemma {:induction false} ShootWumpusKeepsKit(s: State, hit: nat, regen: nat, step: nat)
    requires Structure(s)
    ensures KeepsKit(s, ShootWumpus(s, hit, regen, step))
  {
    SameShape(s, Hurt(s));
    MoveWumpusKeepsKit(s, regen, step);
    MoveWumpusKeepsKit(Hurt(s), regen, step);
  }

  /** Who an arrow hits: the first player of the target room, two draws out of three. */
  predicate HitBy(s: State, target: nat, hit: nat, v: User)
    requires target < |s.rooms|
  {
    s.rooms[target].players != [] && v == s.rooms[target].players[0] && hit % 3 < 2
  }

  lemma {:induction false} ShotHunterPrice(s: State, tu: User, hit: nat)
    requires Structure(s) && Playing(s, tu)
    ensures var t := ShootHunter(s, tu, hit);
      forall v :: Playing(t, v) ==>
        && Playing(s, v) && Of(t, v).arrows == Of(s, v).arrows
        && (v != tu || hit % 3 == 2 ==> Of(t, v).hp == Of(s, v).hp)
        && (v == tu && hit % 3 < 2 && Of(s, v).hp > 10 ==> Of(t, v).hp == Of(s, v).hp - 10)
    ensures hit % 3 < 2 && Of(s, tu).hp <= 10 ==> !Playing(ShootHunter(s, tu, hit), tu)
  {
    var k := Find(s.hunters, tu);
    if hit % 3 < 2 && s.hunters[k].hp <= 10 {
      ResignKeepsKit(s, tu);
      NotFoundWithout(s.hunters, k);
    } else if hit % 3 < 2 {
      SameShape(s, Wound(s, tu));
    }
  }

  lemma {:induction false} NotFoundWithout(hs: seq<Hunter>, k: nat)
    requires DistinctUsers(hs) && k < |hs|
    ensures Find(Without(hs, k), hs[k].user) == |Without(hs, k)|
  {
    var rest := Without(hs, k);
    assert forall j :: 0 <= j < |rest| ==> rest[j] == hs[if j < k then j else j + 1];
  }

  lemma {:induction false} StrikePrice(s: State, target: nat, hit: nat, regen: nat, step: nat)
    requires Structure(s) && AllFit(s.hunters) && s.running && target < |s.rooms|
    ensures var t := Strike(s, target, hit, regen, step);
      forall v :: Playing(t, v) ==>
        && Playing(s, v) && Of(t, v).arrows == Of(s, v).arrows
        && Of(t, v).hp == Of(s, v).hp - (if HitBy(s, target, hit, v) then 10 else 0)
        && (HitBy(s, target, hit, v) ==> Of(s, v).hp > 10)
  {
    if s.rooms[target].players != [] {
      FirstIsPlaying(s, target);
      ShotHunterPrice(s, s.rooms[target].players[0], hit);
    } else if s.rooms[target].contents == Marker {
      ShootWumpusKeepsKit(s, hit, regen, step);
    }
  }

  /** A shot that fails a check changes nothing; any other costs its shooter exactly one arrow, and
      takes ten hit points from the one player it hits, who dies of it at ten or less. */
  lemma {:induction false} PriceOfAShot(s: State, e: Event)
    requires Inv(s) && e.Shoot? && CanAct(s, e.user, e.room)
    ensures !Looses(s, e.user, e.room.value) ==> Step(s, e) == s
    ensures Looses(s, e.user, e.room.value) && 0 <= e.room.value < |s.rooms| ==> var t := Step(s, e);
      forall v :: Playing(t, v) ==>
        && Playing(s, v)
        && Of(t, v).arrows == Of(s, v).arrows - (if v == e.user then 1 else 0)
        && Of(t, v).hp == Of(s, v).hp - (if HitBy(s, e.room.value, e.hit, v) then 10 else 0)
        && (HitBy(s, e.room.value, e.hit, v) ==> Of(s, v).hp > 10)
  {
    var (u, target) := (e.user, e.room.value);
    if Looses(s, u, target) {
      var shot := SpendArrow(s, u);
      ShotFlies(s, u, target, e.hit, e.regen, e.step);
      SpendOnward(s, u);
      SameShape(s, shot);
      StrikePrice(shot, target, e.hit, e.regen, e.step);
    }
  }
}
