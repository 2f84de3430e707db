/** The loop of move_wumpus over the player list, as a fold: removing players one by one while
    the list is walked removes exactly those in the wumpus's room (src/wumpus.c:613-630). */
module WumpusFeast {
  import opened WumpusState
  import opened WumpusRuns

  function UsersOf(hs: seq<Hunter>): seq<User> {
    seq(|hs|, k requires 0 <= k < |hs| => hs[k].user)
  }

  /** One turn of the loop, for the player of user u. */
  function Visit(s: State, u: User): (t: State)
    requires Structure(s) && s.running
    ensures Structure(t) && t == s.(hunters := t.hunters, rooms := t.rooms)
  {
    if !Playing(s, u) then s
    else
      var k := Find(s.hunters, u);
      ResignKeepsStructure(s, u);
      var ready := s.(hunters := s.hunters[k := s.hunters[k].(hasMoved := false)]);
      SameShape(s, ready);
      if LocatedAt(s.hunters[k], s.wumpus) then ResignPlayer(s, u) else ready
  }

  function VisitAll(s: State, us: seq<User>): (t: State)
    requires Structure(s) && s.running
    ensures Structure(t)
    decreases |us|
  {
    if us == [] then s else VisitAll(Visit(s, us[0]), us[1..])
  }

  lemma {:induction false} SparedFront(h: Hunter, hs: seq<Hunter>, w: int)
    ensures Spared([h] + hs, w) == (if LocatedAt(h, w) then [] else [h.(hasMoved := false)]) + Spared(hs, w)
  {
    if hs == [] {
      assert [h] + hs == [h];
    } else {
      var n := |hs| - 1;
      SparedFront(h, hs[..n], w);
      assert ([h] + hs)[..n + 1] == [h] + hs[..n];
    }
  }

  lemma {:induction false} MemberlessIsEmpty<T>(l: seq<T>)
    ensures (forall x :: x !in l) ==> l == []
  {
    if l != [] { assert l[0] in l; }
  }

  /** Nobody located in room i: its list is empty. */
  lemma {:induction false} EmptyRoom(s: State, i: nat)
    requires Structure(s) && s.running && i < |s.rooms|
    requires forall k :: 0 <= k < |s.hunters| ==> !LocatedAt(s.hunters[k], i)
    ensures s.rooms[i].players == []
  {
    MemberlessIsEmpty(s.rooms[i].players);
    assert forall u :: u in s.rooms[i].players ==> HunterAt(s.hunters, u, i);
  }

  function Kept(h: Hunter, w: int): seq<Hunter> {
    if LocatedAt(h, w) then [] else [h.(hasMoved := false)]
  }

  lemma {:induction false} NextFound(done: seq<Hunter>, h: Hunter, rest: seq<Hunter>)
    requires DistinctUsers(done + [h] + rest)
    ensures Find(done + [h] + rest, h.user) == |done|
    ensures (done + [h] + rest)[..|done|] == done && (done + [h] + rest)[|done| + 1..] == rest
  {
    assert (done + [h] + rest)[|done|] == h;
  }

  /** Visiting the player after the first |done| ones. */
  lemma {:induction false} VisitNext(s: State, done: seq<Hunter>, h: Hunter, rest: seq<Hunter>)
    requires Structure(s) && s.running && s.hunters == done + [h] + rest
    ensures Visit(s, h.user) ==
            s.(hunters := done + Kept(h, s.wumpus) + rest,
               rooms := if LocatedAt(h, s.wumpus) then LeaveRoom(s.rooms, s.wumpus, h.user) else s.rooms)
  {
    NextFound(done, h, rest);
    var k := |done|;
    assert s.hunters[k] == h;
    if LocatedAt(h, s.wumpus) {
      assert done + rest == done + Kept(h, s.wumpus) + rest;
    } else {
      assert s.hunters[k := h.(hasMoved := false)] == done + Kept(h, s.wumpus) + rest;
    }
  }

  function Emptied(rooms: seq<Room>, i: nat): seq<Room>
    requires i < |rooms|
  {
    rooms[i := rooms[i].(players := [])]
  }

  lemma {:induction false} VisitingFeasts(s: State, done: seq<Hunter>, todo: seq<Hunter>)
    requires Structure(s) && s.running && s.hunters == done + todo
    requires forall k :: 0 <= k < |done| ==> !LocatedAt(done[k], s.wumpus)
    ensures VisitAll(s, UsersOf(todo)) ==
            s.(hunters := done + Spared(todo, s.wumpus), rooms := Emptied(s.rooms, s.wumpus))
    decreases |todo|
  {
    if todo == [] {
      assert s.hunters == done && done + Spared(todo, s.wumpus) == done;
      EmptyRoom(s, s.wumpus);
    } else {
      var (h, rest) := (todo[0], todo[1..]);
      assert todo == [h] + rest;
      assert s.hunters == done + [h] + rest;
      VisitNext(s, done, h, rest);
      VisitAllTurn(s, h, rest);
      SparedTurn(done, h, rest, s.wumpus);
      VisitingFeasts(Visit(s, h.user), done + Kept(h, s.wumpus), rest);
      EmptiedAnyway(s.rooms, s.wumpus, h.user);
    }
  }

  lemma {:induction false} EmptiedAnyway(rooms: seq<Room>, i: nat, u: User)
    requires i < |rooms|
    ensures Emptied(LeaveRoom(rooms, i, u), i) == Emptied(rooms, i)
  {
  }

  lemma {:induction false} SparedTurn(done: seq<Hunter>, h: Hunter, rest: seq<Hunter>, w: int)
    ensures done + Kept(h, w) + Spared(rest, w) == done + Spared([h] + rest, w)
  {
    SparedFront(h, rest, w);
  }

  lemma {:induction false} VisitAllTurn(s: State, h: Hunter, rest: seq<Hunter>)
    requires Structure(s) && s.running
    ensures VisitAll(s, UsersOf([h] + rest)) == VisitAll(Visit(s, h.user), UsersOf(rest))
  {
    assert UsersOf([h] + rest)[1..] == UsersOf(rest);
  }

  /** The whole loop is the feast. */
  lemma {:induction false} VisitingAllFeasts(s: State)
    requires Structure(s) && s.running
    ensures VisitAll(s, UsersOf(s.hunters)) == Feast(s)
  {
    assert s.hunters == [] + s.hunters;
    VisitingFeasts(s, [], s.hunters);
    assert [] + Spared(s.hunters, s.wumpus) == Spared(s.hunters, s.wumpus);
  }
}
