/** The Hunt the Wumpus engine of src/wumpus.c, changing its state in place: every method is
    proved to do what the step of WumpusState with its name does. */
module Wumpus {
  import opened Options
  import opened WumpusState
  import Runs = WumpusRuns
  import Theorems = WumpusTheorems
  import Feasts = WumpusFeast
  import Smell = WumpusSmell

  class Player {
    const user: User
    var location: Option<nat>
    var arrows: int
    var hp: int
    var hasMoved: bool

    constructor (u: User)
      ensures View() == Hunter(u, None, 10, 30, false)
    {
      user, location, arrows, hp, hasMoved := u, None, 10, 30, false;
    }

    function View(): Hunter
      reads this
    {
      Hunter(user, location, arrows, hp, hasMoved)
    }
  }

  /** A room_t in the memory page: its exits are indices into the page, its players are shared
      with the player list of the game. */
  datatype Cell = Cell(id: nat, exits: seq<nat>, contents: Contents, players: seq<Player>)

  function Users(l: seq<Player>): seq<User> {
    seq(|l|, i requires 0 <= i < |l| => l[i].user)
  }

  function RoomOf(c: Cell): Room {
    Room(c.id, c.exits, c.contents, Users(c.players))
  }

  function RoomsOf(cells: seq<Cell>): seq<Room> {
    seq(|cells|, i requires 0 <= i < |cells| => RoomOf(cells[i]))
  }

  function Views(l: seq<Player>): seq<Hunter>
    reads l
  {
    seq(|l|, i requires 0 <= i < |l| reads l => l[i].View())
  }

  /** Deleting a player's node deletes the user: no two players of the list are of one user. */
  lemma {:induction false} UsersWithout(l: seq<Player>, p: Player)
    requires forall q :: q in l && q.user == p.user ==> q == p
    ensures Users(RemoveFirst(l, p)) == RemoveFirst(Users(l), p.user)
    ensures forall q :: q in RemoveFirst(l, p) ==> q in l
  {
    if l != [] {
      assert Users(l)[1..] == Users(l[1..]);
      if l[0] != p {
        UsersWithout(l[1..], p);
        assert Users([l[0]] + RemoveFirst(l[1..], p)) == [l[0].user] + Users(RemoveFirst(l[1..], p));
      }
    }
  }

  lemma {:induction false} RemoveAfter<T>(left: seq<T>, x: T, right: seq<T>)
    requires x !in left
    ensures RemoveFirst(left + [x] + right, x) == left + right
  {
    var l := left + [x] + right;
    if left == [] {
      assert l == [x] + right;
    } else {
      assert l == [left[0]] + (left[1..] + [x] + right);
      RemoveAfter(left[1..], x, right);
      assert left == [left[0]] + left[1..];
    }
  }

  lemma {:induction false} RemoveFirstAt<T>(l: seq<T>, k: nat)
    requires k < |l| && l[k] !in l[..k]
    ensures RemoveFirst(l, l[k]) == l[..k] + l[k + 1..]
  {
    var (left, x, right) := (l[..k], l[k], l[k + 1..]);
    RemoveAfter(left, x, right);
    assert left + [x] + right == l;
  }

  /** A player of a list is the one player found there under its user's name. */
  lemma {:induction false} FoundIn(l: seq<Player>, hs: seq<Hunter>, p: Player)
    requires |l| == |hs| && forall k :: 0 <= k < |l| ==> hs[k].user == l[k].user
    requires DistinctUsers(hs) && p in l
    ensures Find(hs, p.user) < |hs| && l[Find(hs, p.user)] == p
    ensures forall j :: 0 <= j < |l| && j != Find(hs, p.user) ==> l[j] != p && l[j].user != p.user
  {
    var k :| 0 <= k < |l| && l[k] == p;
    assert hs[k].user == p.user;
  }

  lemma {:induction false} RemovedMembers<T>(l: seq<T>, x: T)
    ensures forall y :: y in RemoveFirst(l, x) ==> y in l
    ensures forall y :: y in l && y != x ==> y in RemoveFirst(l, x)
  {
    if l != [] {
      RemovedMembers(l[1..], x);
      assert l == [l[0]] + l[1..];
    }
  }

  lemma {:induction false} UsersTail(l: seq<Player>)
    requires l != []
    ensures Users(l)[1..] == Users(l[1..])
    ensures NoDup(l) ==> NoDup(l[1..]) && l[0] !in l[1..]
  {
    assert forall j :: 0 <= j < |l| - 1 ==> l[1..][j] == l[j + 1];
  }

  lemma {:induction false} SameState(s: State, t: State)
    requires Structure(s) && t == s
    ensures Structure(t)
  {
  }

  lemma {:induction false} ExitsPrefix(i: nat, m: nat, n: nat, size: nat, tape: seq<nat>)
    requires size > 0 && m <= n && DrawExits(i, n, size, tape).Some?
    ensures DrawExits(i, m, size, tape).Some?
  {
    if m < n { ExitsPrefix(i, m, n - 1, size, tape); }
  }

  lemma {:induction false} RoomsPrefix(m: nat, n: nat, size: nat, tape: seq<nat>)
    requires size > 0 && m <= n && DigRooms(n, size, tape).Some?
    ensures DigRooms(m, size, tape).Some?
  {
    if m < n { RoomsPrefix(m, n - 1, size, tape); }
  }

  lemma {:induction false} RoomsOfMore(cells: seq<Cell>, c: Cell)
    ensures RoomsOf(cells + [c]) == RoomsOf(cells) + [RoomOf(c)]
  {
  }

  /** One more player in the maze. */
  lemma {:induction false} HouseOneMore(rooms: seq<Room>, hs: seq<Hunter>, h: Hunter, i: nat)
    requires i < |rooms| && h.location == Some(i)
    ensures House(rooms, hs + [h]) == EnterRoom(House(rooms, hs), i, h.user)
  {
    assert (hs + [h])[..|hs|] == hs;
  }

  lemma {:induction false} OneMoreRoom(i: nat, size: nat, tape: seq<nat>, dug: seq<Room>, rest: seq<nat>)
    requires size > 0 && DigRooms(i, size, tape) == Some((dug, rest)) && DigRooms(i + 1, size, tape).Some?
    ensures DrawExits(i, 3, size, rest).Some?
    ensures var (exits, left) := DrawExits(i, 3, size, rest).value;
      DigRooms(i + 1, size, tape) == Some((dug + [Room(i, exits, Nothing, [])], left))
  {
  }

  class Game {
    var wumpus: int
    var mazesize: nat
    var players: seq<Player>
    var running: bool
    var starting: bool
    var rmem: array?<Cell>
    var wumpHp: int
    var speed: int
    var wantsize: nat

    constructor ()
      ensures Good() && View() == INITIAL
    {
      wumpus, mazesize, players, running, starting := 0, 0, [], false, false;
      rmem, wumpHp, speed, wantsize := null, 0, 0, 0;
    }

    ghost function View(): State
      reads this, players, rmem
    {
      State(wumpus, mazesize, Views(players), running, starting,
            if rmem == null then [] else RoomsOf(rmem[..]), wumpHp, speed, wantsize)
    }

    ghost predicate ListedIn(ps: seq<Player>)
      reads this, rmem
    {
      rmem != null ==> forall i, p :: 0 <= i < rmem.Length && p in rmem[i].players ==> p in ps
    }

    /** The nodes of the rooms' lists point to players of the game. */
    ghost predicate Linked()
      reads this, rmem
    {
      ListedIn(players)
    }

    ghost predicate Good()
      reads this, players, rmem
    {
      Structure(View()) && Linked() && (rmem != null ==> rmem.Length > 0)
    }

    // ---------------------------------------------------------------- players

    method FindPlayer(u: User) returns (p: Player?)
      requires Good()
      ensures p == null <==> !Playing(View(), u)
      ensures p != null ==> p in players && p.user == u
    {
      for i := 0 to |players|
        invariant forall j :: 0 <= j < i ==> players[j].user != u
      {
        if players[i].user == u {
          assert View().hunters[i].user == u;
          return players[i];
        }
      }
      p := null;
      assert forall j :: 0 <= j < |players| ==> View().hunters[j].user == players[j].user;
    }

    method CreatePlayer(u: User) returns (p: Player?)
      requires Good()
      modifies this`players
      ensures Good() && View() == WumpusState.CreatePlayer(old(View()), u)
      ensures p != null ==> fresh(p)
    {
      p := FindPlayer(u);
      if p != null {
        return null;
      }
      if running {
        return null;
      }
      ghost var before := View();
      p := new Player(u);
      players := players + [p];
      assert View().hunters == before.hunters + [p.View()];
      assert forall j :: 0 <= j < |before.hunters| ==> before.hunters[j].user != u;
    }

    lemma {:induction false} FoundPlayer(p: Player)
      requires Good() && p in players
      ensures Playing(View(), p.user) && players[Find(View().hunters, p.user)] == p
      ensures View().hunters[Find(View().hunters, p.user)] == p.View()
      ensures forall j :: 0 <= j < |players| && j != Find(View().hunters, p.user) ==>
                players[j] != p && players[j].user != p.user
    {
      FoundIn(players, View().hunters, p);
    }

    /** The first half of resign_player: the node in the room's list. */
    method UnlinkFromRoom(p: Player, i: nat, ghost was: seq<Player>)
      requires ListedIn(was)
      requires rmem != null && i < rmem.Length
      requires forall q :: q in rmem[i].players && q.user == p.user ==> q == p
      modifies rmem
      ensures RoomsOf(rmem[..]) == LeaveRoom(old(RoomsOf(rmem[..])), i, p.user)
      ensures ListedIn(was)
    {
      UsersWithout(rmem[i].players, p);
      rmem[i] := rmem[i].(players := RemoveFirst(rmem[i].players, p));
    }

    /** Lists that mirror the players' locations hold players of the game, and no others. */
    lemma {:induction false} StillLinked(was: seq<Player>)
      requires Structure(View()) && rmem != null && running
      requires forall p, q :: p in was && q in was && p.user == q.user ==> p == q
      requires forall p :: p in players ==> p in was
      requires ListedIn(was)
      ensures Linked()
    {
      forall i, p | 0 <= i < rmem.Length && p in rmem[i].players
        ensures p in players
      {
        var k := NameListed(i, p);
        assert players[k] in was && p in was;
      }
    }

    /** Whoever is in the list of a room has the name of a player. */
    lemma {:induction false} NameListed(i: nat, p: Player) returns (k: nat)
      requires Structure(View()) && running && rmem != null && i < rmem.Length && p in rmem[i].players
      ensures k < |players| && players[k].user == p.user
    {
      var l := rmem[i].players;
      var j :| 0 <= j < |l| && l[j] == p;
      assert View().rooms[i].players[j] == p.user;
      assert HunterAt(View().hunters, p.user, i);
      k :| 0 <= k < |players| && View().hunters[k].user == p.user;
    }

    lemma OnePlayerPerUser()
      requires Good()
      ensures forall p, q :: p in players && q in players && p.user == q.user ==> p == q
    {
      assert |View().hunters| == |players|;
      assert forall k :: 0 <= k < |players| ==> View().hunters[k].user == players[k].user;
    }

    /** The second half of resign_player: the node in the list of the game. */
    method UnlinkFromGame(p: Player, ghost k: nat)
      requires k < |players| && players[k] == p && forall j :: 0 <= j < k ==> players[j] != p
      modifies this`players
      ensures players == RemoveFirst(old(players), p)
      ensures Views(players) == Views(old(players))[..k] + Views(old(players))[k + 1..]
      ensures forall q :: q in players ==> q in old(players)
    {
      assert p !in players[..k];
      RemoveFirstAt(players, k);
      players := RemoveFirst(players, p);
    }

    /** Both nodes go. */
    method Unlink(p: Player, ghost k: nat, ghost was: seq<Player>)
      requires k < |players| && players[k] == p && forall j :: 0 <= j < k ==> players[j] != p
      requires ListedIn(was)
      requires p.location.Some? ==>
                 && rmem != null && p.location.value < rmem.Length
                 && forall q :: q in rmem[p.location.value].players && q.user == p.user ==> q == p
      modifies this`players, rmem
      ensures ListedIn(was) && players == RemoveFirst(old(players), p)
      ensures forall q :: q in players ==> q in old(players)
      ensures var v := old(View());
        View() == v.(hunters := v.hunters[..k] + v.hunters[k + 1..],
                     rooms := if p.location == None then v.rooms else LeaveRoom(v.rooms, p.location.value, p.user))
    {
      if p.location.Some? {
        UnlinkFromRoom(p, p.location.value, was);
      }
      UnlinkFromGame(p, k);
    }

    method ResignPlayer(p: Player?)
      requires Good() && (p != null ==> p in players)
      modifies this`players, rmem
      ensures Good()
      ensures p == null ==> View() == old(View()) && players == old(players)
      ensures p != null ==> Playing(old(View()), p.user) && View() == WumpusState.ResignPlayer(old(View()), p.user)
      ensures p != null ==> players == RemoveFirst<Player>(old(players), p)
    {
      if p == null {
        return;
      }
      ghost var before, was := View(), players;
      FoundPlayer(p);
      OnePlayerPerUser();
      ghost var k := Find(before.hunters, p.user);
      Unlink(p, k, was);
      ghost var after := WumpusState.ResignPlayer(before, p.user);
      assert View() == after;
      Runs.ResignKeepsStructure(before, p.user);
      SameState(after, View());
      if running {
        StillLinked(was);
      }
    }

    // ---------------------------------------------------------------- the end of a game

    method EndGame()
      requires Good()
      modifies this, rmem
      ensures Good() && View() == WumpusState.EndGame(old(View()))
    {
      var rest := players;
      while rest != []
        invariant Good() && players == rest
        invariant View().(hunters := [], rooms := []) == old(View()).(hunters := [], rooms := [])
        invariant rmem == old(rmem)
      {
        var p := rest[0];
        ResignPlayer(p);
        rest := rest[1..];
      }
      rmem := null;
      wumpus := -1;
      running := false;
    }

    method CheckLastPersonAlive()
      requires Good()
      modifies this, rmem
      ensures Good() && View() == WumpusState.CheckLastPersonAlive(old(View()))
    {
      if |players| == 1 {
        EndGame();
      } else if |players| == 0 {
        EndGame();
      }
    }

    // ---------------------------------------------------------------- small changes in place

    /** Changing what one player carries changes its entry in the view, and nothing else. */
    twostate lemma Touched(p: Player)
      requires old(Good()) && p in players
      requires unchanged(this) && (rmem != null ==> unchanged(rmem))
      requires forall q :: q in players && q != p ==> unchanged(q)
      requires p.location == old(p.location)
      ensures var (v, k) := (old(View()), Find(old(View()).hunters, p.user));
        && k < |v.hunters| && v.hunters[k] == old(p.View())
        && View() == v.(hunters := v.hunters[k := p.View()])
      ensures Good()
    {
      ghost var v := old(View());
      ghost var k := Find(v.hunters, p.user);
      FoundIn(players, v.hunters, p);
      forall j | 0 <= j < |players| && j != k
        ensures View().hunters[j] == v.hunters[j]
      {
        assert players[j] in players && unchanged(players[j]);
        assert v.hunters[j] == old(players[j].View());
      }
      assert View().hunters == v.hunters[k := p.View()];
      SameShape(v, View());
    }

    // ---------------------------------------------------------------- the contents of the rooms

    /** One assignment to the contents of a room; the lists of the rooms stay as they are. */
    method Put(i: nat, c: Contents)
      requires rmem != null && i < rmem.Length
      modifies rmem
      ensures RoomsOf(rmem[..]) == SetContents(old(RoomsOf(rmem[..])), i, c)
      ensures ListsKept()
    {
      rmem[i] := rmem[i].(contents := c);
    }

    /** The lists and the exits of the rooms are as they were. */
    twostate predicate ListsKept()
      requires unchanged(this)
      reads this, rmem
    {
      rmem != null ==> forall n :: 0 <= n < rmem.Length ==>
        rmem[n].players == old(rmem[n].players) && rmem[n].exits == old(rmem[n].exits)
    }

    method RegenObj(obj: Contents, draw: nat)
      requires rmem != null && 0 < rmem.Length == mazesize
      modifies rmem
      ensures RoomsOf(rmem[..]) == SetContents(old(RoomsOf(rmem[..])), draw % mazesize, obj)
      ensures ListsKept()
    {
      Put(draw % mazesize, obj);
    }

    // ---------------------------------------------------------------- the wumpus

    /** The first half of move_wumpus: the monster walks. */
    method Walk(regen: nat, step: nat)
      requires Good() && running
      modifies this`wumpus, rmem
      ensures Good() && View() == Prowl(old(View()), regen, step)
    {
      ghost var before := View();
      var t := StepOut(regen, step);
      wumpus := rmem[t].id;
      Put(t, Marker);
      assert View() == Prowl(before, regen, step);
      Runs.ProwlKeepsStructure(before, regen, step);
      SameState(Prowl(before, regen, step), View());
    }

    /** The room the wumpus leaves: its contents are copied somewhere, and an exit is drawn. */
    method StepOut(regen: nat, step: nat) returns (t: nat)
      requires Good() && running
      modifies rmem
      ensures var v := old(View());
        && t == WumpusTarget(v, step)
        && RoomsOf(rmem[..]) ==
           SetContents(SetContents(v.rooms, regen % v.mazesize, v.rooms[v.wumpus].contents), v.wumpus, Nothing)
        && rmem[t].id == t
      ensures ListsKept()
    {
      ghost var before := View();
      var r := wumpus;
      RegenObj(rmem[r].contents, regen);
      Put(r, Nothing);
      var exits := rmem[r].exits;
      assert RoomsOf(rmem[..])[r].exits == before.rooms[r].exits;
      assert RoomShape(before.rooms[r], r, |before.rooms|);
      t := exits[step % |exits|];
      assert t == WumpusTarget(before, step);
      assert RoomsOf(rmem[..])[t].id == before.rooms[t].id;
      assert RoomShape(before.rooms[t], t, |before.rooms|);
    }

    lemma NoPlayerTwice()
      requires Good()
      ensures NoDup(players)
    {
      forall i, j | 0 <= i < j < |players|
        ensures players[i] != players[j]
      {
        assert View().hunters[i].user == players[i].user && View().hunters[j].user == players[j].user;
      }
    }

    /** The loop of move_wumpus takes out the players it finds eaten. */
    method EatRoom()
      requires Good() && running
      modifies this`players, rmem, players
      ensures Good() && View() == Feast(old(View()))
      ensures forall p :: p in players ==> p in old(players)
    {
      ghost var before := View();
      Feasts.VisitingAllFeasts(before);
      assert Users(players) == Feasts.UsersOf(before.hunters);
      VisitPlayers();
    }

    /** The loop of move_wumpus over the players. */
    method VisitPlayers()
      requires Good() && running
      modifies this`players, rmem, players
      ensures Good() && View() == Feasts.VisitAll(old(View()), Users(old(players)))
      ensures forall p :: p in players ==> p in old(players)
    {
      NoPlayerTwice();
      var rest := players;
      while rest != []
        invariant Good() && running
        invariant Feasts.VisitAll(View(), Users(rest)) == Feasts.VisitAll(old(View()), Users(old(players)))
        invariant Waiting(rest) && forall p :: p in players ==> p in old(players)
        decreases |rest|
      {
        assert rest[0] in rest;
        EatFirst(rest);
        rest := rest[1..];
      }
    }

    /** The players the loop has still to see are different, and in the game. */
    ghost predicate Waiting(rest: seq<Player>)
      reads this`players
    {
      NoDup(rest) && forall p :: p in rest ==> p in players
    }

    method EatFirst(rest: seq<Player>)
      requires Good() && running && rest != [] && Waiting(rest)
      modifies this`players, rmem, rest[0]
      ensures Good() && running && Waiting(rest[1..])
      ensures Feasts.VisitAll(View(), Users(rest[1..])) == Feasts.VisitAll(old(View()), Users(rest))
      ensures forall q :: q in players ==> q in old(players)
    {
      UsersTail(rest);
      assert rest[0] in rest;
      EatOrSpare(rest[0]);
    }

    method EatOrSpare(p: Player)
      requires Good() && running && p in players
      modifies this`players, rmem, p
      ensures Good() && running && View() == Feasts.Visit(old(View()), p.user)
      ensures forall q :: q in players ==> q in old(players)
      ensures forall q :: q in old(players) && q != p ==> q in players
    {
      ghost var before := View();
      FoundPlayer(p);
      assert RoomShape(before.rooms[p.location.value], p.location.value, |before.rooms|);
      assert before.rooms[p.location.value].id == rmem[p.location.value].id;
      if wumpus == rmem[p.location.value].id {
        RemovedMembers(players, p);
        ResignPlayer(p);
      } else {
        p.hasMoved := false;
        Touched(p);
      }
    }

    method MoveWumpus(regen: nat, step: nat)
      requires Good()
      modifies this, rmem, players
      ensures Good() && View() == WumpusState.MoveWumpus(old(View()), regen, step)
    {
      if rmem == null {
        return;
      }
      Walk(regen, step);
      EatRoom();
      CheckLastPersonAlive();
    }

    // ---------------------------------------------------------------- moving

    lemma {:induction false} HereAmI(p: Player)
      requires Good() && running && p in players
      ensures Playing(View(), p.user) && p.location.Some? && p.location.value == Where(View(), p.user)
      ensures rmem != null && p.location.value < rmem.Length == mazesize
      ensures RoomShape(View().rooms[p.location.value], p.location.value, mazesize)
      ensures rmem[p.location.value].exits == View().rooms[p.location.value].exits
    {
      FoundPlayer(p);
    }

    method AdjacentRoom(p: Player, id: int) returns (b: bool)
      requires Good() && running && p in players
      ensures Playing(View(), p.user) && b == Adjacent(View(), p.user, id)
    {
      HereAmI(p);
      var exits := rmem[p.location.value].exits;
      for k := 0 to |exits|
        invariant forall j :: 0 <= j < k ==> exits[j] != id
      {
        assert exits[k] in exits;
        assert RoomShape(View().rooms[exits[k]], exits[k], mazesize);
        assert View().rooms[exits[k]].id == rmem[exits[k]].id;
        if rmem[exits[k]].id == id {
          return true;
        }
      }
      b := false;
    }

    method LinkToRoom(p: Player, i: nat)
      requires rmem != null && i < rmem.Length && Linked() && p in players
      modifies rmem
      ensures RoomsOf(rmem[..]) == EnterRoom(old(RoomsOf(rmem[..])), i, p.user)
      ensures Linked()
    {
      assert Users(rmem[i].players + [p]) == Users(rmem[i].players) + [p.user];
      rmem[i] := rmem[i].(players := rmem[i].players + [p]);
    }

    /** The look around of distance_to_wumpus, two rooms deep. */
    method DistanceToWumpus(p: Player) returns (r: nat)
      requires Good() && running && p in players
      ensures Playing(View(), p.user)
      ensures r == Smell.Search(View().rooms, View().rooms[Where(View(), p.user)].exits)
    {
      HereAmI(p);
      ghost var rooms := View().rooms;
      var exits := rmem[p.location.value].exits;
      for k := 0 to |exits|
        invariant Smell.Search(rooms, exits[k..]) == Smell.Search(rooms, exits)
      {
        assert exits[k] in exits && exits[k..][0] == exits[k] && exits[k..][1..] == exits[k + 1..];
        var r := rmem[exits[k]];
        assert rooms[exits[k]] == RoomOf(r);
        if r.contents == Marker {
          return 1;
        }
        assert RoomShape(rooms[exits[k]], exits[k], mazesize);
        for l := 0 to |r.exits|
          invariant forall m :: 0 <= m < l ==> !Smell.Shows(rooms, r.exits[m])
        {
          assert r.exits[l] in r.exits;
          assert rooms[r.exits[l]] == RoomOf(rmem[r.exits[l]]);
          if rmem[r.exits[l]].contents == Marker {
            assert Smell.Shows(rooms, r.exits[l]);
            return 2;
          }
        }
      }
      r := 0;
    }

    /** The end of move_player: the player walks into room `to`. */
    method Enter(p: Player, to: nat)
      requires Good() && running && p in players && to < |View().rooms|
      modifies rmem, p`location
      ensures Playing(old(View()), p.user) && View() == Relocate(old(View()), p.user, to)
      ensures Good()
    {
      ghost var before := View();
      HereAmI(p);
      FoundPlayer(p);
      OnePlayerPerUser();
      Runs.RelocateKeepsStructure(before, p.user, to);
      UnlinkFromRoom(p, p.location.value, players);
      SetLocation(p, to, before.hunters);
      LinkToRoom(p, to);
      assert View() == Relocate(before, p.user, to);
      SameState(Relocate(before, p.user, to), View());
    }

    method SetLocation(p: Player, to: nat, ghost hs: seq<Hunter>)
      requires hs == Views(players) && DistinctUsers(hs) && p in players
      modifies p`location
      ensures var k := Find(hs, p.user); k < |hs| && Views(players) == hs[k := hs[k].(location := Some(to))]
    {
      FoundIn(players, hs, p);
      ghost var k := Find(hs, p.user);
      p.location := Some(to);
      assert Views(players) == hs[k := hs[k].(location := Some(to))];
    }

    method MovePlayer(p: Player, id: int, bat: nat, arrow: nat, ball: nat)
      requires Good() && running && p in players
      modifies this, rmem, players
      ensures Playing(old(View()), p.user)
      ensures Good() && View() == WumpusState.MovePlayer(old(View()), p.user, id, bat, arrow, ball)
    {
      var adjacent := AdjacentRoom(p, id);
      if !adjacent {
        return;
      }
      Runs.MoveSteps(View(), p.user, id, bat, arrow, ball);
      var to := Bats(id, bat);
      Land(p, to, arrow, ball);
    }

    /** What the room the player has got to holds for it. */
    method Land(p: Player, to: nat, arrow: nat, ball: nat)
      requires Good() && running && p in players && to < |View().rooms|
      modifies this, rmem, players
      ensures var (v, u) := (old(View()), p.user);
        && Playing(v, u)
        && View() == if v.wumpus == to || v.rooms[to].contents == Contents.Pit then Die(v, u)
                     else WumpusState.Arrive(v, u, to, arrow, ball)
      ensures Good()
    {
      assert View().rooms[to].contents == rmem[to].contents;
      if wumpus == to {
        Kill(p);
        return;
      }
      if rmem[to].contents == Contents.Pit {
        Kill(p);
        return;
      }
      Arrive(p, to, arrow, ball);
    }

    /** A player found dead leaves the game, which may end with that. */
    method Kill(p: Player)
      requires Good() && p in players
      modifies this, rmem
      ensures Playing(old(View()), p.user)
      ensures Good() && View() == Die(old(View()), p.user)
    {
      ResignPlayer(p);
      CheckLastPersonAlive();
    }

    /** A player whom neither the wumpus nor a pit kills gets what lies in the room. */
    method Arrive(p: Player, to: nat, arrow: nat, ball: nat)
      requires Good() && running && p in players && to < |View().rooms|
      modifies rmem, p
      ensures Playing(old(View()), p.user)
      ensures Good() && View() == WumpusState.Arrive(old(View()), p.user, to, arrow, ball)
    {
      Collect(p, to, arrow, ball);
      Enter(p, to);
    }

    /** Bats in the room take the player away, and move. */
    method Bats(id: nat, bat: nat) returns (to: nat)
      requires Good() && running && id < |View().rooms|
      modifies rmem
      ensures Good() && to == Destination(old(View()), id, bat)
      ensures View() == old(View()).(rooms := BatsFly(old(View()), id, bat))
    {
      ghost var before := View();
      to := id;
      assert before.rooms[id].contents == rmem[id].contents;
      if rmem[id].contents == Contents.Bats {
        to := bat % mazesize;
        Put(id, Nothing);
        Put(to, Contents.Bats);
      }
      assert View() == before.(rooms := BatsFly(before, id, bat));
      RefurnishedShape(before, before.(rooms := BatsFly(before, id, bat)));
      SameState(before.(rooms := BatsFly(before, id, bat)), View());
    }

    /** What lies in the room: arrows for an empty quiver, the crystal ball. */
    method Collect(p: Player, to: nat, arrow: nat, ball: nat)
      requires Good() && running && p in players && to < |View().rooms|
      modifies rmem, p
      ensures Playing(old(View()), p.user)
      ensures Good() && View() == Gather(old(View()), p.user, to, arrow, ball)
    {
      FoundPlayer(p);
      ghost var v := View();
      assert v.rooms[to].contents == rmem[to].contents;
      if rmem[to].contents == Contents.Arrows {
        FillQuiver(p);
        MoveArrows(to, arrow);
      }
      TakeBall(to, ball);
    }

    method FillQuiver(p: Player)
      requires Good() && p in players
      modifies p
      ensures Playing(old(View()), p.user)
      ensures var (v, k) := (old(View()), Find(old(View()).hunters, p.user));
        View() == v.(hunters := v.hunters[k := Restock(v.hunters[k], Contents.Arrows)])
      ensures Good()
    {
      if p.arrows == 0 {
        p.arrows := p.arrows + 5;
      }
      Touched(p);
    }

    method MoveArrows(to: nat, arrow: nat)
      requires Good() && running && to < |View().rooms| && View().rooms[to].contents == Contents.Arrows
      modifies rmem
      ensures Good() && View() == old(View()).(rooms := PickArrows(old(View()).rooms, to, arrow))
    {
      ghost var before := View();
      Put(to, Nothing);
      RegenObj(Contents.Arrows, arrow);
      Refurnished(before, PickArrows(before.rooms, to, arrow));
    }

    method TakeBall(to: nat, ball: nat)
      requires Good() && running && to < |View().rooms|
      modifies rmem
      ensures Good() && View() == old(View()).(rooms := PickBall(old(View()).rooms, to, ball))
    {
      ghost var before := View();
      assert before.rooms[to].contents == rmem[to].contents;
      if rmem[to].contents == Contents.CrystalBall {
        Put(to, Nothing);
        RegenObj(Contents.CrystalBall, ball);
        Refurnished(before, PickBall(before.rooms, to, ball));
      }
    }

    /** The rooms hold other things than in the good state s, and all else is the same. */
    lemma {:induction false} Refurnished(s: State, rooms: seq<Room>)
      requires Structure(s) && s.running && View() == s.(rooms := rooms) && |rooms| == |s.rooms|
      requires forall i :: 0 <= i < |s.rooms| ==> rooms[i] == s.rooms[i].(contents := rooms[i].contents)
      ensures Structure(View())
    {
      RefurnishedShape(s, View());
    }

    // ---------------------------------------------------------------- shooting

    /** The checks of shoot_player, in its order. */
    method MayShoot(p: Player, target: int) returns (ok: bool)
      requires Good() && running && p in players
      ensures Playing(View(), p.user) && ok == Looses(View(), p.user, target)
    {
      FoundPlayer(p);
      HereAmI(p);
      if p.arrows == 0 {
        return false;
      }
      var adjacent := AdjacentRoom(p, target);
      if !adjacent {
        return false;
      }
      assert View().rooms[p.location.value].id == rmem[p.location.value].id;
      ok := rmem[p.location.value].id != target;
    }

    method ShootPlayer(p: Player, target: int, hit: nat, regen: nat, step: nat)
      requires Good() && running && p in players
      modifies this, rmem, players
      ensures Playing(old(View()), p.user)
      ensures Good() && View() == WumpusState.ShootPlayer(old(View()), p.user, target, hit, regen, step)
    {
      var ok := MayShoot(p, target);
      if !ok {
        return;
      }
      Runs.NoShotAtOneself(View(), p.user, target);
      p.arrows := p.arrows - 1;
      Touched(p);
      Strike(target, hit, regen, step);
    }

    /** The arrow is in the air. */
    method Strike(target: nat, hit: nat, regen: nat, step: nat)
      requires Good() && running && target < |View().rooms|
      modifies this, rmem, players
      ensures Good() && View() == WumpusState.Strike(old(View()), target, hit, regen, step)
    {
      ghost var before := View();
      var r := rmem[target];
      assert before.rooms[target] == RoomOf(r);
      if r.players == [] && r.contents != Marker {
        return;
      }
      if r.players != [] {
        assert r.players[0] in r.players && before.rooms[target].players[0] == r.players[0].user;
        assert r.players[0] in players;
        ShootHunter(r.players[0], hit);
      } else {
        ShootWumpus(hit, regen, step);
      }
    }

    /** The arrow reaches the first player of the target room. */
    method ShootHunter(tp: Player, hit: nat)
      requires Good() && running && tp in players
      modifies this`players, rmem, tp
      ensures Playing(old(View()), tp.user)
      ensures Good() && View() == WumpusState.ShootHunter(old(View()), tp.user, hit)
    {
      FoundPlayer(tp);
      if hit % 3 < 2 && tp.hp <= 10 {
        ResignPlayer(tp);
      } else if tp.hp > 0 && hit % 3 < 2 {
        tp.hp := tp.hp - 10;
        Touched(tp);
      }
    }

    /** The arrow reaches a room that shows the wumpus. */
    method ShootWumpus(hit: nat, regen: nat, step: nat)
      requires Good() && running
      modifies this, rmem, players
      ensures Good() && View() == WumpusState.ShootWumpus(old(View()), hit, regen, step)
    {
      if 0 < wumpHp <= 5 && hit % 3 < 2 {
        EndGame();
      } else if wumpHp > 5 && hit % 3 < 2 {
        HurtWumpus();
        MoveWumpus(regen, step);
      } else {
        MoveWumpus(regen, step);
      }
    }

    method HurtWumpus()
      requires Good()
      modifies this`wumpHp, this`speed
      ensures Good() && View() == Hurt(old(View()))
    {
      ghost var before := View();
      wumpHp := wumpHp - 5;
      speed := speed - 3;
      SameShape(before, View());
    }

    // ---------------------------------------------------------------- commands, timers and hooks

    method CmdStart(size: Option<int>)
      requires Good()
      modifies this`starting, this`wantsize
      ensures Good() && View() == Runs.StartCommand(old(View()), size)
    {
      if running || starting {
        return;
      }
      starting := true;
      wantsize := 100;
      if size.Some? {
        wantsize := size.value % Runs.UINT_RANGE;
      }
    }

    method CmdJoin(u: User)
      requires Good()
      modifies this`players
      ensures Good() && View() == Runs.JoinCommand(old(View()), u)
    {
      if !starting || running {
        return;
      }
      var _ := CreatePlayer(u);
    }

    method CmdMove(u: User, id: Option<int>, bat: nat, arrow: nat, ball: nat)
      requires Good()
      modifies this, rmem, players
      ensures Good() && View() == Runs.MoveCommand(old(View()), u, id, bat, arrow, ball)
    {
      var p := FindPlayer(u);
      if p == null || id == None || !running {
        return;
      }
      MovePlayer(p, id.value, bat, arrow, ball);
    }

    method CmdShoot(u: User, id: Option<int>, hit: nat, regen: nat, step: nat)
      requires Good()
      modifies this, rmem, players
      ensures Good() && View() == Runs.ShootCommand(old(View()), u, id, hit, regen, step)
    {
      var p := FindPlayer(u);
      if p == null || id == None || !running {
        return;
      }
      ShootPlayer(p, id.value, hit, regen, step);
    }

    method CmdResign(u: User)
      requires Good()
      modifies this`players, rmem
      ensures Good() && View() == Runs.ResignCommand(old(View()), u)
    {
      var p := FindPlayer(u);
      if p == null || !running {
        return;
      }
      ResignPlayer(p);
    }

    method CmdReset()
      requires Good()
      modifies this, rmem
      ensures Good() && View() == Runs.ResetCommand(old(View()))
    {
      if running {
        EndGame();
        running := false;
        starting := false;
      }
    }

    method UserDeleted(u: User)
      requires Good()
      modifies this`players, rmem
      ensures Good() && View() == Runs.DeleteUser(old(View()), u)
    {
      var p := FindPlayer(u);
      if p != null {
        ResignPlayer(p);
      }
    }

    /** The command table, the timers and the hook: whatever comes, the game takes the step of its
        state, and stays sound. The draws must last for the maze of a start timer. */
    method Handle(e: Runs.Event)
      requires Good() && Runs.Inv(View())
      requires e.StartTimer? && starting ==> TapeSuffices(View(), e.draws)
      modifies this, rmem, players
      ensures Good() && View() == Runs.Step(old(View()), e) && Runs.Inv(View())
    {
      Theorems.StepKeepsInvariant(View(), e);
      match e {
        case Start(size) => CmdStart(size);
        case Join(u) => CmdJoin(u);
        case StartTimer(d) => if starting { StartGame(d); }
        case Move(u, room, bat, arrow, ball) => CmdMove(u, room, bat, arrow, ball);
        case Shoot(u, room, hit, regen, step) => CmdShoot(u, room, hit, regen, step);
        case Resign(u) => CmdResign(u);
        case Reset => CmdReset();
        case UserDeleted(u) => UserDeleted(u);
        case WumpusTimer(regen, step) => MoveWumpus(regen, step);
      }
    }

    // ---------------------------------------------------------------- building the maze

    /** One exit of room i: draw until the target is not the room itself, sending the target back
        to the room when a redraw repeats an exit. */
    method DrawTarget(i: nat, size: nat, tape: seq<nat>) returns (t: nat, rest: seq<nat>)
      requires rmem != null && i < size == rmem.Length
      requires forall e :: e in rmem[i].exits ==> e < size
      requires forall n :: 0 <= n < size ==> rmem[n].id == IdSoFar(i, n)
      requires DrawExit(i, rmem[i].exits, size, tape).Some?
      ensures DrawExit(i, rmem[i].exits, size, tape) == Some((t, rest))
      ensures t < size && t != i
    {
      var have := rmem[i].exits;
      t := tape[0] % size;
      rest := tape[1..];
      while t == i
        invariant t < size
        invariant Redraw(i, have, size, t, rest) == DrawExit(i, have, size, tape)
        decreases |rest|
      {
        var drawn := rest[0] % size;
        rest := rest[1..];
        t := drawn;
        for k := 0 to |have|
          invariant t < size
          invariant CheckedDraw(i, have[k..], t) == CheckedDraw(i, have, drawn)
        {
          assert have[k] in have && have[k..][0] == have[k] && have[k..][1..] == have[k + 1..];
          if rmem[have[k]].id == t {
            t := i;
          }
        }
      }
    }

    /** The three exits of room i. */
    method DigRoom(i: nat, size: nat, tape: seq<nat>) returns (rest: seq<nat>)
      requires rmem != null && i < size == rmem.Length
      requires forall n :: 0 <= n < size ==> rmem[n].id == if n < i then n else 0
      requires rmem[i] == Cell(0, [], Nothing, [])
      requires DrawExits(i, 3, size, tape).Some?
      modifies rmem
      ensures forall n :: 0 <= n < size && n != i ==> rmem[n] == old(rmem[n])
      ensures var (exits, left) := DrawExits(i, 3, size, tape).value;
        rmem[i] == Cell(i, exits, Nothing, []) && rest == left && |exits| == 3
    {
      rmem[i] := rmem[i].(id := i);
      rest := tape;
      var j := 0;
      while j < 3 && |rmem[i].exits| < 3
        invariant 0 <= j == |rmem[i].exits| <= 3
        invariant rmem[i] == Cell(i, rmem[i].exits, Nothing, [])
        invariant forall n :: 0 <= n < size && n != i ==> rmem[n] == old(rmem[n])
        invariant forall e :: e in rmem[i].exits ==> e < size
        invariant DrawExits(i, j, size, tape) == Some((rmem[i].exits, rest))
      {
        ExitsPrefix(i, j + 1, 3, size, tape);
        var t;
        t, rest := DrawTarget(i, size, rest);
        rmem[i] := rmem[i].(exits := rmem[i].exits + [t]);
        j := j + 1;
      }
    }

    /** The rooms and their exits. */
    method DigMaze(size: nat, tape: seq<nat>)
      requires size > 0 && DigRooms(size, size, tape).Some?
      modifies this`rmem
      ensures rmem != null && fresh(rmem) && rmem.Length == size
      ensures RoomsOf(rmem[..]) == DigRooms(size, size, tape).value.0
      ensures forall n :: 0 <= n < size ==> rmem[n].players == [] && |rmem[n].exits| == 3
    {
      rmem := new Cell[size](_ => Cell(0, [], Nothing, []));
      var rest := tape;
      assert rmem[..0] == [] && RoomsOf(rmem[..0]) == [];
      for i := 0 to size
        invariant rmem != null && fresh(rmem) && rmem.Length == size
        invariant forall n :: i <= n < size ==> rmem[n] == Cell(0, [], Nothing, [])
        invariant forall n :: 0 <= n < i ==> rmem[n].id == n && rmem[n].players == [] && |rmem[n].exits| == 3
        invariant DigRooms(i, size, tape) == Some((RoomsOf(rmem[..i]), rest))
      {
        RoomsPrefix(i + 1, size, size, tape);
        ghost var dug := rmem[..i];
        OneMoreRoom(i, size, tape, RoomsOf(dug), rest);
        rest := DigRoom(i, size, rest);
        assert rmem[..i + 1] == dug + [rmem[i]];
        RoomsOfMore(dug, rmem[i]);
        assert RoomOf(rmem[i]) == Room(i, rmem[i].exits, Nothing, []);
      }
      assert rmem[..size] == rmem[..];
    }

    /** One round over the chambers, scattering things. */
    method Strew(c: Contents, odds: nat, draw: nat -> nat)
      requires rmem != null && odds > 0
      modifies rmem
      ensures RoomsOf(rmem[..]) == Scatter(old(RoomsOf(rmem[..])), c, odds, draw)
      ensures ListsKept()
    {
      for j := 0 to rmem.Length
        invariant forall n :: 0 <= n < j ==>
          rmem[n] == if draw(n) % odds == 0 then old(rmem[n]).(contents := c) else old(rmem[n])
        invariant forall n :: j <= n < rmem.Length ==> rmem[n] == old(rmem[n])
      {
        if draw(j) % odds == 0 {
          rmem[j] := rmem[j].(contents := c);
        }
      }
    }

    method StrewRounds(c: Contents, odds: nat, rounds: nat, draw: (nat, nat) -> nat)
      requires rmem != null && odds > 0
      modifies rmem
      ensures RoomsOf(rmem[..]) == ScatterRounds(old(RoomsOf(rmem[..])), c, odds, rounds, draw)
      ensures ListsKept()
    {
      for i := 0 to rounds
        invariant RoomsOf(rmem[..]) == ScatterRounds(old(RoomsOf(rmem[..])), c, odds, i, draw)
        invariant ListsKept()
      {
        Strew(c, odds, j => draw(i, j));
      }
    }

    method BuildMaze(size: nat, d: Draws) returns (ok: bool)
      requires size >= 10 ==> DigRooms(size, size, d.exits).Some?
      modifies this`mazesize, this`rmem, this`wumpus
      ensures ok <==> size >= 10
      ensures !ok ==> unchanged(this)
      ensures ok ==>
        && mazesize == size && wumpus == d.wumpus % size
        && rmem != null && fresh(rmem) && rmem.Length == size
        && RoomsOf(rmem[..]) == Furnish(DigRooms(size, size, d.exits).value.0, d)
        && forall n :: 0 <= n < size ==> rmem[n].players == []
    {
      if size < 10 {
        return false;
      }
      mazesize := size;
      DigMaze(size, d.exits);
      wumpus := d.wumpus % size;
      FurnishRooms(d);
      for j := 0 to size {
        if |rmem[j].exits| < 3 {
          assert false;
        }
      }
      ok := true;
    }

    method FurnishRooms(d: Draws)
      requires rmem != null && 0 < rmem.Length && 0 <= wumpus == d.wumpus % rmem.Length
      modifies rmem
      ensures RoomsOf(rmem[..]) == Furnish(old(RoomsOf(rmem[..])), d)
      ensures ListsKept()
    {
      Put(wumpus, Marker);
      Strew(Contents.Pit, 42 * 2, d.pits);
      StrewRounds(Contents.Bats, 42, 2, d.bats);
      StrewRounds(Contents.Arrows, 42, 3, d.arrows);
      Put(d.ball % rmem.Length, CrystalBall);
    }

    // ---------------------------------------------------------------- starting a game

    /** The loop of init_game: every player is put in a room. */
    method PlacePlayers(places: nat -> nat)
      requires rmem != null && 0 < rmem.Length == mazesize
      requires DistinctUsers(Views(players))
      requires forall n :: 0 <= n < rmem.Length ==> rmem[n].players == []
      modifies rmem, players
      ensures Views(players) == Place(old(Views(players)), mazesize, places)
      ensures RoomsOf(rmem[..]) == House(old(RoomsOf(rmem[..])), Views(players))
      ensures Linked()
    {
      ghost var hs, rooms := Views(players), RoomsOf(rmem[..]);
      ghost var placed := Place(hs, mazesize, places);
      NoTwins(hs);
      for k := 0 to |players|
        invariant forall j :: 0 <= j < k ==> players[j].View() == placed[j]
        invariant forall j :: k <= j < |players| ==> players[j].View() == hs[j]
        invariant RoomsOf(rmem[..]) == House(rooms, placed[..k])
        invariant Linked()
      {
        var t := places(k) % mazesize;
        PutInRoom(players[k], t);
        HouseOneMore(rooms, placed[..k], placed[k], t);
        assert placed[..k + 1] == placed[..k] + [placed[k]];
      }
      assert Views(players) == placed && placed[..|players|] == placed;
    }

    method PutInRoom(p: Player, t: nat)
      requires rmem != null && t < rmem.Length && Linked() && p in players
      modifies rmem, p`location
      ensures p.location == Some(t) && Linked()
      ensures RoomsOf(rmem[..]) == EnterRoom(old(RoomsOf(rmem[..])), t, p.user)
    {
      p.location := Some(t);
      LinkToRoom(p, t);
    }

    lemma {:induction false} NoTwins(hs: seq<Hunter>)
      requires hs == Views(players) && DistinctUsers(hs)
      ensures forall i, j :: 0 <= i < |players| && 0 <= j < |players| && i != j ==> players[i] != players[j]
    {
      assert forall i :: 0 <= i < |players| ==> hs[i].user == players[i].user;
    }

    method InitGame(size: nat, d: Draws)
      requires Good() && !running
      requires size >= 10 ==> DigRooms(size, size, d.exits).Some?
      modifies this, rmem, players
      ensures size < 10 ==> Good() && View() == WumpusState.EndGame(old(View()))
      ensures size >= 10 ==> View() == Settled(old(View()), size, d) && Linked() && rmem != null && rmem.Length > 0
    {
      var built := BuildMaze(size, d);
      if !built {
        EndGame();
        return;
      }
      Begin(d.places);
    }

    /** The game begins in a new maze. */
    method Begin(places: nat -> nat)
      requires rmem != null && 0 < rmem.Length == mazesize
      requires DistinctUsers(Views(players))
      requires forall n :: 0 <= n < rmem.Length ==> rmem[n].players == []
      modifies this`running, this`speed, this`wumpHp, rmem, players
      ensures Linked()
      ensures var v := old(View()); var placed := Place(v.hunters, v.mazesize, places);
        View() == v.(hunters := placed, rooms := House(v.rooms, placed), running := true, speed := 60, wumpHp := 70)
    {
      PlacePlayers(places);
      running := true;
      speed := 60;
      wumpHp := 70;
    }

    method StartGame(d: Draws)
      requires Good() && starting && !running && TapeSuffices(View(), d)
      modifies this, rmem, players
      ensures Good() && View() == WumpusState.StartGame(old(View()), d)
    {
      ghost var before := View();
      starting := false;
      if |players| < 2 {
        return;
      }
      if wantsize >= 300 {
        wantsize := 300;
      }
      Launch(d, before);
    }

    method Launch(d: Draws, ghost s: State)
      requires Structure(s) && s.starting && !s.running && |s.hunters| >= 2 && TapeSuffices(s, d)
      requires Good() && View() == s.(starting := false, wantsize := CappedSize(s))
      modifies this, rmem, players
      ensures Good() && View() == WumpusState.StartGame(s, d)
    {
      InitGame(wantsize, d);
      if s.wantsize >= 10 {
        Runs.NewGameIsSound(s, d);
        SameState(WumpusState.StartGame(s, d), View());
      }
    }
  }
}
