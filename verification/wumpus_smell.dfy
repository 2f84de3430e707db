/** distance_to_wumpus of src/wumpus.c: what the depth-first look around tells, and when it is
    the distance its comment promises. */
module WumpusSmell {
  import opened WumpusState

  predicate Shows(rooms: seq<Room>, i: nat) {
    i < |rooms| && rooms[i].contents == Marker
  }

  /** One of the rooms behind room i shows the wumpus. */
  predicate LeadsOn(rooms: seq<Room>, i: nat) {
    i < |rooms| && exists k :: 0 <= k < |rooms[i].exits| && Shows(rooms, rooms[i].exits[k])
  }

  /** The search over the exits in order: 1 for an exit that shows the wumpus, 2 for an exit
      behind which it shows, whichever comes first. */
  function Search(rooms: seq<Room>, exits: seq<nat>): nat {
    if exits == [] then 0
    else if Shows(rooms, exits[0]) then 1
    else if LeadsOn(rooms, exits[0]) then 2
    else Search(rooms, exits[1..])
  }

  predicate Near(rooms: seq<Room>, exits: seq<nat>) {
    exists k :: 0 <= k < |exits| && Shows(rooms, exits[k])
  }

  predicate Beyond(rooms: seq<Room>, exits: seq<nat>) {
    exists k :: 0 <= k < |exits| && LeadsOn(rooms, exits[k])
  }

  /** Room w is behind one of the exits. */
  predicate TwoAway(rooms: seq<Room>, exits: seq<nat>, w: nat) {
    exists k :: 0 <= k < |exits| && exits[k] < |rooms| && w in rooms[exits[k]].exits
  }

  /** How many rooms away room w is, if that is 1 or 2, and 0 if it is more. */
  function Distance(rooms: seq<Room>, exits: seq<nat>, w: nat): nat {
    if w in exits then 1 else if TwoAway(rooms, exits, w) then 2 else 0
  }

  /** An exit that leads on to a room that shows the wumpus comes before every exit that shows it. */
  predicate Misled(rooms: seq<Room>, exits: seq<nat>) {
    exists a :: 0 <= a < |exits| && LeadsOn(rooms, exits[a])
                && forall b :: 0 <= b <= a ==> !Shows(rooms, exits[b])
  }

  lemma {:induction false} NearFront(rooms: seq<Room>, exits: seq<nat>)
    requires exits != []
    ensures Near(rooms, exits) <==> Shows(rooms, exits[0]) || Near(rooms, exits[1..])
  {
    assert forall k :: 0 <= k < |exits| - 1 ==> exits[1..][k] == exits[k + 1];
    if k :| 0 <= k < |exits| - 1 && Shows(rooms, exits[1..][k]) {
      assert Shows(rooms, exits[k + 1]);
    }
  }

  lemma {:induction false} BeyondFront(rooms: seq<Room>, exits: seq<nat>)
    requires exits != []
    ensures Beyond(rooms, exits) <==> LeadsOn(rooms, exits[0]) || Beyond(rooms, exits[1..])
  {
    assert forall k :: 0 <= k < |exits| - 1 ==> exits[1..][k] == exits[k + 1];
    if k :| 0 <= k < |exits| - 1 && LeadsOn(rooms, exits[1..][k]) {
      assert LeadsOn(rooms, exits[k + 1]);
    }
  }

  lemma {:induction false} MisledFront(rooms: seq<Room>, exits: seq<nat>)
    requires exits != []
    ensures Misled(rooms, exits) <==>
            !Shows(rooms, exits[0]) && (LeadsOn(rooms, exits[0]) || Misled(rooms, exits[1..]))
  {
    var rest := exits[1..];
    assert forall k :: 0 <= k < |rest| ==> rest[k] == exits[k + 1];
    if a :| 0 <= a < |rest| && LeadsOn(rooms, rest[a]) && forall b :: 0 <= b <= a ==> !Shows(rooms, rest[b]) {
      assert LeadsOn(rooms, exits[a + 1]);
      if !Shows(rooms, exits[0]) {
        assert forall b :: 1 <= b <= a + 1 ==> exits[b] == rest[b - 1];
      }
    }
    if a :| 0 < a < |exits| && LeadsOn(rooms, exits[a]) && forall b :: 0 <= b <= a ==> !Shows(rooms, exits[b]) {
      assert LeadsOn(rooms, rest[a - 1]);
    }
  }

  lemma {:induction false} SearchCases(rooms: seq<Room>, exits: seq<nat>)
    ensures Search(rooms, exits) == 0 <==> !Near(rooms, exits) && !Beyond(rooms, exits)
    ensures Search(rooms, exits) == 2 <==> Misled(rooms, exits)
    ensures Search(rooms, exits) <= 2
  {
    if exits != [] {
      SearchCases(rooms, exits[1..]);
      NearFront(rooms, exits);
      BeyondFront(rooms, exits);
      MisledFront(rooms, exits);
    }
  }

  lemma {:induction false} BeyondOnlyMisleads(rooms: seq<Room>, exits: seq<nat>)
    requires Beyond(rooms, exits) && !Near(rooms, exits)
    ensures Misled(rooms, exits)
  {
    var a :| 0 <= a < |exits| && LeadsOn(rooms, exits[a]);
    assert forall b :: 0 <= b <= a ==> !Shows(rooms, exits[b]);
  }

  lemma {:induction false} MisledIsBeyond(rooms: seq<Room>, exits: seq<nat>)
    requires Misled(rooms, exits)
    ensures Beyond(rooms, exits)
  {
    var a :| 0 <= a < |exits| && LeadsOn(rooms, exits[a]) && forall b :: 0 <= b <= a ==> !Shows(rooms, exits[b]);
  }

  /** The answer is the distance of the room w that the wumpus is in exactly when an exit shows it and
      none misleads, for a wumpus next door; when an exit misleads, for one that is two rooms away;
      and when nothing is shown near or beyond, for one farther away. */
  lemma {:induction false} SearchIsDistanceExactlyWhen(rooms: seq<Room>, exits: seq<nat>, w: nat)
    ensures Search(rooms, exits) == Distance(rooms, exits, w) <==>
            if w in exits then Near(rooms, exits) && !Misled(rooms, exits)
            else if TwoAway(rooms, exits, w) then Misled(rooms, exits)
            else !Near(rooms, exits) && !Beyond(rooms, exits)
  {
    SearchCases(rooms, exits);
    if Misled(rooms, exits) {
      MisledIsBeyond(rooms, exits);
    } else if Beyond(rooms, exits) && !Near(rooms, exits) {
      BeyondOnlyMisleads(rooms, exits);
    }
  }

  /** Where room w and no other shows the wumpus, the answer is its distance unless an exit that leads
      on to it comes before the exit that is it. */
  lemma {:induction false} OneMarkerIsDistanceUnlessMisled(rooms: seq<Room>, exits: seq<nat>, w: nat)
    requires forall i: nat :: Shows(rooms, i) <==> i == w
    ensures Search(rooms, exits) == Distance(rooms, exits, w) <==> !(Near(rooms, exits) && Misled(rooms, exits))
  {
    SearchIsDistanceExactlyWhen(rooms, exits, w);
    assert Near(rooms, exits) <==> w in exits;
    assert Beyond(rooms, exits) <==> TwoAway(rooms, exits, w) by {
      if k :| 0 <= k < |exits| && exits[k] < |rooms| && w in rooms[exits[k]].exits {
        assert LeadsOn(rooms, exits[k]);
      }
    }
    if Beyond(rooms, exits) && !Near(rooms, exits) { BeyondOnlyMisleads(rooms, exits); }
  }
}
