/** DEL of src/ns_ajoin.c with several channel names, joined by commas: the matcher runs over the items,
    and what it finds is said of the items. */
module AjoinSeveral {
  import opened CStrings
  import opened AjoinText
  import opened AjoinExact

  // ---------------------------------------------------------------- the matcher on what is left

  /** The matcher on the rest of the list, with the rest of the argument still to be matched. */
  function Found(s: string, rest: string, arg: string): bool
    requires rest != "" && arg != ""
  {
    if s == "" then false
    else if ToLower(s[0]) == ToLower(rest[0]) then |rest| == 1 || Found(s[1..], rest[1..], arg)
    else Found(s[1..], arg, arg)
  }

  lemma {:induction false} HitIsFound(list: string, arg: string, i: nat, j: nat)
    requires i <= |list| && j < |arg| && j <= i
    ensures Hit(list, arg, i, j).Some? <==> Found(list[i..], arg[j..], arg)
    decreases |list| - i
  {
    if i < |list| {
      assert list[i..][0] == list[i] && list[i..][1..] == list[i + 1..] && arg[j..][0] == arg[j];
      if ToLower(list[i]) == ToLower(arg[j]) {
        assert arg[j..][1..] == arg[j + 1..];
        if j + 1 < |arg| { HitIsFound(list, arg, i + 1, j + 1); }
      } else {
        assert arg[0..] == arg;
        HitIsFound(list, arg, i + 1, 0);
      }
    }
  }

  function Tail(items: seq<string>): string {
    if items == [] then "" else "," + Join(items)
  }

  lemma {:induction false} JoinIsFrontAndTail(items: seq<string>)
    requires items != []
    ensures Join(items) == items[0] + Tail(items[1..])
  {
    if |items| > 1 { assert items[0] + "," + Join(items[1..]) == items[0] + ("," + Join(items[1..])); }
  }

  /** The rest of an item has no '#', so it begins no match. */
  lemma {:induction false} SkipsRest(z: string, more: seq<string>, arg: string)
    requires '#' !in z && arg != "" && arg[0] == '#'
    ensures Found(z + Tail(more), arg, arg) <==> more != [] && Found(Join(more), arg, arg)
  {
    if z == "" {
      assert z + Tail(more) == Tail(more);
      if more != [] { assert Tail(more)[1..] == Join(more); }
    } else {
      FrontOf(z, Tail(more));
      assert z[0] in z;
      SkipsRest(z[1..], more, arg);
    }
  }

  lemma {:induction false} Fronts(x: string, y: string)
    requires x != "" && y != ""
    ensures StartsWith(x, y) <==> ToLower(x[0]) == ToLower(y[0]) && StartsWith(x[1..], y[1..])
    ensures EqNoCase(x, y) <==> ToLower(x[0]) == ToLower(y[0]) && EqNoCase(x[1..], y[1..])
  {
    FrontsAlike(x, y);
    if |y| <= |x| {
      FrontsAlike(x[..|y|], y);
      assert x[..|y|][1..] == x[1..][..|y| - 1];
    }
  }

  lemma {:induction false} FrontsAlike(x: string, y: string)
    requires x != "" && y != ""
    ensures EqNoCase(x, y) <==> ToLower(x[0]) == ToLower(y[0]) && EqNoCase(x[1..], y[1..])
  {
    LowerAt(x, y);
    LowerAt(x[1..], y[1..]);
    var (u, v) := (x[1..], y[1..]);
    assert forall i :: 0 <= i < |u| ==> u[i] == x[i + 1];
    assert forall i :: 0 <= i < |v| ==> v[i] == y[i + 1];
    if |x| == |y| && ToLower(x[0]) == ToLower(y[0]) && EqNoCase(u, v) {
      forall i | 0 <= i < |x| ensures ToLower(x[i]) == ToLower(y[i]) {
        if i > 0 { assert ToLower(u[i - 1]) == ToLower(v[i - 1]); }
      }
    }
    if EqNoCase(x, y) {
      forall i | 0 <= i < |u| ensures ToLower(u[i]) == ToLower(v[i]) {
        assert ToLower(x[i + 1]) == ToLower(y[i + 1]);
      }
    }
  }

  /** What follows a piece of the argument: nothing, or a comma and another piece. */
  predicate Onward(after: string) {
    after != "" ==> after[0] == ',' && |after| > 1
  }

  /** Item x against piece y: the last piece is found where x starts with it; a piece before it must be
      all of x; on anything else the matcher begins anew behind x. */
  predicate FoundBehind(x: string, y: string, after: string, more: seq<string>, arg: string)
    requires arg != "" && Onward(after)
  {
    if after == "" && StartsWith(x, y) then true
    else if more == [] then false
    else if after != "" && EqNoCase(x, y) then Found(Join(more), after[1..], arg)
    else Found(Join(more), arg, arg)
  }

  lemma {:induction false} SameBehind(x: string, y: string, after: string, more: seq<string>, arg: string)
    requires arg != "" && Onward(after) && x != "" && y != "" && ToLower(x[0]) == ToLower(y[0])
    ensures FoundBehind(x, y, after, more, arg) <==> FoundBehind(x[1..], y[1..], after, more, arg)
  {
    Fronts(x, y);
  }

  lemma {:induction false} ItemEnds(y: string, after: string, more: seq<string>, arg: string)
    requires CommaFree(y) && Onward(after) && (after == "" ==> y != "") && arg != ""
    ensures Found(Tail(more), y + after, arg) <==> FoundBehind("", y, after, more, arg)
  {
    if more != [] {
      assert Tail(more)[1..] == Join(more);
      if y == "" { assert y + after == after; } else { assert y[0] in y && (y + after)[0] == y[0]; }
    }
  }

  lemma {:induction false} Mismatch(x: string, y: string, after: string, more: seq<string>, arg: string)
    requires '#' !in x && CommaFree(x) && Onward(after) && x != "" && arg != "" && arg[0] == '#'
    requires if y == "" then after != "" else ToLower(x[0]) != ToLower(y[0])
    ensures Found(x + Tail(more), y + after, arg) <==> FoundBehind(x, y, after, more, arg)
  {
    FrontOf(x, Tail(more));
    assert x[0] in x;
    SkipsRest(x[1..], more, arg);
    if y == "" { assert y + after == after; } else { FrontOf(y, after); Fronts(x, y); }
  }

  /** The matcher in the middle of an item, in the middle of a piece. */
  lemma {:induction false} Piece(x: string, y: string, after: string, more: seq<string>, arg: string)
    requires '#' !in x && CommaFree(x) && CommaFree(y) && Onward(after) && (after == "" ==> y != "")
    requires arg != "" && arg[0] == '#'
    ensures Found(x + Tail(more), y + after, arg) <==> FoundBehind(x, y, after, more, arg)
  {
    if x == "" {
      assert x + Tail(more) == Tail(more);
      ItemEnds(y, after, more, arg);
    } else if y == "" || ToLower(x[0]) != ToLower(y[0]) {
      Mismatch(x, y, after, more, arg);
    } else {
      MatchingHeads(x, y, after, more, arg);
      SameBehind(x, y, after, more, arg);
      if |y + after| > 1 { Piece(x[1..], y[1..], after, more, arg); }
    }
  }

  lemma {:induction false} MatchingHeads(x: string, y: string, after: string, more: seq<string>, arg: string)
    requires Onward(after) && x != "" && y != "" && arg != "" && ToLower(x[0]) == ToLower(y[0])
    ensures |y + after| == 1 ==> Found(x + Tail(more), y + after, arg) && FoundBehind(x[1..], y[1..], after, more, arg)
    ensures |y + after| > 1 ==> y[1..] + after != ""
    ensures |y + after| > 1 ==>
      (Found(x + Tail(more), y + after, arg) <==> Found(x[1..] + Tail(more), y[1..] + after, arg))
  {
    FrontOf(x, Tail(more));
    FrontOf(y, after);
    if |y + after| == 1 { assert y[1..] == "" && after == ""; }
  }

  // ---------------------------------------------------------------- the matcher on items

  /** The matcher on the items, with some pieces still to be matched: a piece must be a whole item, the
      last one only its head; after an item that does not match it begins anew with the next. */
  predicate RunFrom(items: seq<string>, rest: seq<string>, args: seq<string>)
    requires rest != [] && args != []
  {
    items != []
    && if |rest| == 1 && StartsWith(items[0], rest[0]) then true
       else if |rest| > 1 && EqNoCase(items[0], rest[0]) then RunFrom(items[1..], rest[1..], args)
       else RunFrom(items[1..], args, args)
  }

  ghost predicate AllHashHeads(items: seq<string>) {
    forall k :: 0 <= k < |items| ==> HashHead(items[k])
  }

  lemma {:induction false} HashBehind(x: string)
    requires HashHead(x)
    ensures '#' !in x[1..] && CommaFree(x[1..]) && ToLower(x[0]) == '#'
  {
    assert forall i :: 0 <= i < |x| - 1 ==> x[1..][i] == x[i + 1];
  }

  lemma {:induction false} ItemAndPiece(x: string, y: string, after: string, more: seq<string>, arg: string)
    requires HashHead(x) && HashHead(y) && Onward(after) && arg != "" && arg[0] == '#'
    ensures Found(x + Tail(more), y + after, arg) <==> FoundBehind(x, y, after, more, arg)
  {
    HashBehind(x);
    HashBehind(y);
    MatchingHeads(x, y, after, more, arg);
    SameBehind(x, y, after, more, arg);
    if |y + after| > 1 { Piece(x[1..], y[1..], after, more, arg); }
  }

  /** On channel names the matcher finds the argument exactly where it runs along the items. */
  lemma {:induction false} RunIsFound(items: seq<string>, rest: seq<string>, args: seq<string>)
    requires AllHashHeads(items) && AllHashHeads(rest) && AllHashHeads(args) && rest != [] && args != []
    ensures Join(rest) != "" && Join(args) != ""
    ensures Found(Join(items), Join(rest), Join(args)) <==> RunFrom(items, rest, args)
    decreases |items|
  {
    JoinIsFrontAndTail(rest);
    JoinIsFrontAndTail(args);
    if items != [] {
      var (more, after) := (items[1..], Tail(rest[1..]));
      JoinIsFrontAndTail(items);
      if |rest| > 1 {
        JoinIsFrontAndTail(rest[1..]);
        RunIsFound(more, rest[1..], args);
        assert after[1..] == Join(rest[1..]);
      }
      RunIsFound(more, args, args);
      ItemAndPiece(items[0], rest[0], after, more, Join(args));
    }
  }

  /** DEL with several channel names reports that they are not on the list, as one that removes single
      items should, exactly unless it runs along items that match them: then it cuts them all. */
  lemma {:induction false} DelOfSeveralChannels(items: seq<string>, args: seq<string>)
    requires items != [] && |args| > 1 && AllHashHeads(items) && AllHashHeads(args)
    ensures DelText(Join(items), Join(args)) == DelItem(items, Join(args)) <==> !RunFrom(items, args, args)
  {
    var (list, arg) := (Join(items), Join(args));
    RunIsFound(items, args, args);
    HitIsFound(list, arg, 0, 0);
    assert list[0..] == list && arg[0..] == arg;
    CommaBetweenItems(args);
    DelAcrossItems(items, arg);
  }

  // ---------------------------------------------------------------- runs of items

  /** The pieces stand on the list from item k on, the last one at least as a head. */
  ghost predicate StandsAt(items: seq<string>, rest: seq<string>, k: nat)
    requires rest != []
  {
    && k + |rest| <= |items| && StartsWith(items[k + |rest| - 1], rest[|rest| - 1])
    && forall m :: 0 <= m < |rest| - 1 ==> EqNoCase(items[k + m], rest[m])
  }

  lemma {:induction false} StandsFurther(items: seq<string>, args: seq<string>, k: nat)
    requires items != [] && args != [] && StandsAt(items[1..], args, k)
    ensures StandsAt(items, args, k + 1)
  {
    var more := items[1..];
    assert forall m :: 0 <= m < |more| ==> more[m] == items[m + 1];
  }

  /** What the matcher runs along is there: from the first item on, or all the pieces later. */
  lemma {:induction false} RunStands(items: seq<string>, rest: seq<string>, args: seq<string>) returns (k: nat)
    requires rest != [] && args != [] && RunFrom(items, rest, args)
    ensures StandsAt(items, rest, 0) || StandsAt(items, args, k)
    decreases |items|
  {
    k := 0;
    if |rest| == 1 && StartsWith(items[0], rest[0]) {
    } else if |rest| > 1 && EqNoCase(items[0], rest[0]) {
      var (more, next) := (items[1..], rest[1..]);
      var n := RunStands(more, next, args);
      if StandsAt(more, next, 0) {
        assert forall m :: 1 <= m < |rest| ==> rest[m] == next[m - 1];
        assert forall m :: 1 <= m < |items| ==> items[m] == more[m - 1];
        assert StandsAt(items, rest, 0);
      } else {
        StandsFurther(items, args, n);
        k := n + 1;
      }
    } else {
      var n := RunStands(items[1..], args, args);
      var at := if StandsAt(items[1..], args, 0) then 0 else n;
      StandsFurther(items, args, at);
      k := at + 1;
    }
  }

  /** Not all that is there is found: having matched #a once, the matcher misses the #a behind it. */
  lemma RunMissed()
    ensures StandsAt(["#a", "#a", "#b"], ["#a", "#b"], 1)
    ensures !RunFrom(["#a", "#a", "#b"], ["#a", "#b"], ["#a", "#b"])
  {
    var (items, args) := (["#a", "#a", "#b"], ["#a", "#b"]);
    assert "#b"[..2] == "#b" && "#a"[..2] == "#a";
    LowerAt("#a", "#a");
    LowerAt("#a", "#b");
    LowerAt("#b", "#b");
    LowerAt("#b", "#a");
    assert "#a"[1] == 'a' && "#b"[1] == 'b';
    assert items[1..] == ["#a", "#b"] && items[1..][1..] == ["#b"] && ["#b"][1..] == [] && args[1..] == ["#b"];
    assert !StartsWith("#a", "#b");
    assert !RunFrom(["#b"], args, args);
    assert !RunFrom(["#a", "#b"], ["#b"], args);
  }
}
