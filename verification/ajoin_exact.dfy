/** When DEL of src/ns_ajoin.c is the removal of an item: on every comma-separated list, for every
    argument without a comma. */
module AjoinExact {
  import opened Options
  import opened CStrings
  import opened Sequences
  import opened AjoinText

  /** The items of the text that DEL leaves: the hit and the character after it are gone, be it
      the comma after the item, the comma before the last one, or a character of the item. */
  function Left(items: seq<string>, arg: string): seq<string>
    requires arg != "" && FirstHit(items, arg) < |items|
  {
    var k := FirstHit(items, arg);
    var (item, o) := (items[k], Offset(items, arg));
    if o + |arg| < |item| then items[..k] + [item[..o] + item[o + |arg| + 1..]] + items[k + 1..]
    else if k + 1 < |items| then items[..k] + [item[..o] + items[k + 1]] + items[k + 2..]
    else if o > 0 then items[..k] + [item[..o - 1]]
    else items[..k]
  }

  function DelListed(items: seq<string>, arg: string): Deletion
    requires arg != ""
  {
    if FirstHit(items, arg) == |items| then NotOnList else Removed(Text(Left(items, arg)))
  }

  /** Joining with another item in place k. */
  lemma {:induction false} JoinReplaced(a: seq<string>, x: string, b: seq<string>)
    ensures Join(a + [x] + b) ==
            (if a == [] then "" else Join(a) + ",") + x + (if b == [] then "" else "," + Join(b))
  {
    var (items, k) := (a + [x] + b, |a|);
    JoinAround(items, k);
    assert items[..k] == a && items[k + 1..] == b;
  }

  /** Cutting text inside the middle of three parts. */
  lemma {:induction false} CutMiddle(b: string, m: string, a: string, o: nat, n: nat)
    requires o + n < |m|
    ensures Cut(b + m + a, |b| + o, n) == Some(b + (m[..o] + m[o + n + 1..]) + a)
  {
    var l := b + m + a;
    assert l[..|b| + o] == b + m[..o];
    assert l[|b| + o + n + 1..] == m[o + n + 1..] + a;
    assert (b + m[..o]) + (m[o + n + 1..] + a) == b + (m[..o] + m[o + n + 1..]) + a;
  }

  lemma {:induction false} CutTail(b: string, m: string, a: string, o: nat, n: nat)
    requires o + n == |m|
    ensures Cut(b + m + "," + a, |b| + o, n) == Some(b + m[..o] + a)
    ensures |b| + o > 0 ==> Cut(b + m, |b| + o, n) == Some((b + m[..o])[..|b| + o - 1])
  {
    var l := b + m + "," + a;
    assert l[..|b| + o] == b + m[..o];
    assert l[|b| + o + n + 1..] == a;
    assert |b| + o > 0 ==> (b + m)[..|b| + o - 1] == (b + m[..o])[..|b| + o - 1];
  }

  /** What DEL does to the text of a list, said of its items. */
  lemma {:induction false} DelByItems(items: seq<string>, arg: string)
    requires items != [] && arg != "" && CommaFree(arg)
    ensures DelText(Join(items), arg) == DelListed(items, arg)
  {
    HitJoined(items, arg);
    var k := FirstHit(items, arg);
    if k < |items| {
      StartIsLength(items, k);
      JoinAround(items, k);
      HitCut(items, arg);
    }
  }

  lemma {:induction false} HitCut(items: seq<string>, arg: string)
    requires arg != "" && FirstHit(items, arg) < |items|
    ensures var (k, o) := (FirstHit(items, arg), Offset(items, arg));
      Cut(Before(items, k) + items[k] + After(items, k), |Before(items, k)| + o, |arg|) == Text(Left(items, arg))
  {
    var k := FirstHit(items, arg);
    var (item, o) := (items[k], Offset(items, arg));
    if o + |arg| < |item| {
      CutInside(items, k, o, |arg|);
    } else if k + 1 < |items| {
      CutWithComma(items, k, o);
    } else if |Before(items, k)| + o > 0 {
      CutAtEnd(items, k, o);
    }
  }

  lemma {:induction false} CutInside(items: seq<string>, k: nat, o: nat, n: nat)
    requires k < |items| && o + n < |items[k]|
    ensures Cut(Before(items, k) + items[k] + After(items, k), |Before(items, k)| + o, n)
         == Some(Join(items[..k] + [items[k][..o] + items[k][o + n + 1..]] + items[k + 1..]))
  {
    CutMiddle(Before(items, k), items[k], After(items, k), o, n);
    JoinReplaced(items[..k], items[k][..o] + items[k][o + n + 1..], items[k + 1..]);
  }

  lemma {:induction false} CutWithComma(items: seq<string>, k: nat, o: nat)
    requires k + 1 < |items| && o <= |items[k]|
    ensures Cut(Before(items, k) + items[k] + After(items, k), |Before(items, k)| + o, |items[k]| - o)
         == Some(Join(items[..k] + [items[k][..o] + items[k + 1]] + items[k + 2..]))
  {
    var (b, item, next) := (Before(items, k), items[k], Join(items[k + 1..]));
    CutTail(b, item, next, o, |item| - o);
    Associates(b + item, ",", next);
    JoinTail(items, k + 1);
    JoinReplaced(items[..k], item[..o] + items[k + 1], items[k + 2..]);
    Associates(b, item[..o], items[k + 1]);
    Associates(b + item[..o], items[k + 1], After(items, k + 1));
  }

  lemma {:induction false} CutAtEnd(items: seq<string>, k: nat, o: nat)
    requires k + 1 == |items| && o <= |items[k]| && |Before(items, k)| + o > 0
    ensures Cut(Before(items, k) + items[k] + After(items, k), |Before(items, k)| + o, |items[k]| - o)
         == Some(Join(if o > 0 then items[..k] + [items[k][..o - 1]] else items[..k]))
  {
    var (b, item) := (Before(items, k), items[k]);
    CutTail(b, item, "", o, |item| - o);
    assert b + item + After(items, k) == b + item;
    if o > 0 {
      var x := item[..o - 1];
      JoinReplaced(items[..k], x, []);
      assert items[..k] + [x] + [] == items[..k] + [x];
      assert Join(items[..k] + [x]) == b + x + "" == b + x;
      assert (b + item[..o])[..|b| + o - 1] == b + x;
    } else {
      assert (b + item[..o])[..|b| - 1] == Join(items[..k]);
    }
  }

  // ---------------------------------------------------------------- what a hit is

  /** A hit is a place where the list reads as the argument does. */
  lemma {:induction false} HitSound(list: string, arg: string, i: nat, j: nat)
    requires i <= |list| && j < |arg| && j <= i
    requires forall m :: 0 <= m < j ==> ToLower(list[i - j + m]) == ToLower(arg[m])
    requires Hit(list, arg, i, j).Some?
    ensures var p := Hit(list, arg, i, j).value;
      forall m :: 0 <= m < |arg| ==> ToLower(list[p + m]) == ToLower(arg[m])
    decreases |list| - i
  {
    if ToLower(list[i]) == ToLower(arg[j]) {
      if j + 1 < |arg| { HitSound(list, arg, i + 1, j + 1); }
    } else {
      HitSound(list, arg, i + 1, 0);
    }
  }

  predicate StartsWith(item: string, arg: string) {
    |arg| <= |item| && EqNoCase(item[..|arg|], arg)
  }

  /** An item that starts with the argument is hit at its start. */
  lemma {:induction false} HitAtStart(item: string, arg: string, j: nat)
    requires StartsWith(item, arg) && j < |arg|
    ensures Hit(item, arg, j, j) == Some(0)
    decreases |arg| - j
  {
    LowerAt(item[..|arg|], arg);
    assert item[..|arg|][j] == item[j];
    if j + 1 < |arg| { HitAtStart(item, arg, j + 1); }
  }

  lemma {:induction false} EqualStarts(item: string, arg: string)
    requires EqNoCase(item, arg) && arg != ""
    ensures |item| == |arg| && Hit(item, arg, 0, 0) == Some(0)
  {
    LowerAt(item, arg);
    assert item[..|arg|] == item;
    HitAtStart(item, arg, 0);
  }

  // ---------------------------------------------------------------- the exact condition

  /** The first item the matcher hits is the argument; or it only ends in it, and the next item is
      that very ending, so that taking the wrong one leaves the right text. */
  predicate SafeToDelete(items: seq<string>, arg: string)
    requires arg != ""
  {
    var k := FirstHit(items, arg);
    k < |items| ==>
      || EqNoCase(items[k], arg)
      || (var o := Offset(items, arg);
          o + |arg| == |items[k]| && k + 1 < |items| && items[k + 1] == items[k][o..])
  }

  lemma {:induction false} OffsetReads(items: seq<string>, arg: string)
    requires arg != "" && FirstHit(items, arg) < |items|
    ensures var (k, o) := (FirstHit(items, arg), Offset(items, arg));
      EqNoCase(items[k][o..o + |arg|], arg)
  {
    HitReads(items[FirstHit(items, arg)], arg);
  }

  lemma {:induction false} HitReads(item: string, arg: string)
    requires arg != "" && Hit(item, arg, 0, 0).Some?
    ensures var o := Hit(item, arg, 0, 0).value;
      EqNoCase(item[o..o + |arg|], arg)
  {
    var o := Hit(item, arg, 0, 0).value;
    var w := item[o..o + |arg|];
    HitSound(item, arg, 0, 0);
    forall m | 0 <= m < |arg| ensures ToLower(w[m]) == ToLower(arg[m]) {
      assert w[m] == item[o + m];
    }
    LowerAt(w, arg);
  }

  lemma {:induction false} FirstHitNoLater(items: seq<string>, arg: string)
    requires arg != ""
    ensures FirstHit(items, arg) <= IndexOf(items, arg)
  {
    var n := IndexOf(items, arg);
    if n < |items| { EqualStarts(items[n], arg); }
  }

  lemma {:induction false} CancelPrefix(x: string, a: string, b: string)
    ensures x + a == x + b ==> a == b
  {
    assert (x + a)[|x|..] == a && (x + b)[|x|..] == b;
  }

  /** An item before the one meant is hit: the items left are the right ones just in the lucky case. */
  lemma {:induction false} EarlyHit(items: seq<string>, arg: string)
    requires arg != "" && FirstHit(items, arg) < IndexOf(items, arg) < |items|
    ensures Left(items, arg) == Without(items, IndexOf(items, arg)) <==> SafeToDelete(items, arg)
  {
    var (k, n) := (FirstHit(items, arg), IndexOf(items, arg));
    var (item, o) := (items[k], Offset(items, arg));
    var (left, right) := (Left(items, arg), Without(items, n));
    OffsetReads(items, arg);
    if o + |arg| == |item| {
      var w := item[o..];
      assert item == item[..o] + w && item[o..o + |arg|] == w;
      assert left[k] == item[..o] + items[k + 1] && right[k] == item;
      if items[k + 1] == w {
        assert n == k + 1;
        assert left == right;
      }
      CancelPrefix(item[..o], items[k + 1], w);
    } else {
      assert |left| == |items| && |right| == |items| - 1;
    }
  }

  lemma {:induction false} LeftIsCommaFree(items: seq<string>, arg: string)
    requires AllCommaFree(items) && arg != "" && FirstHit(items, arg) < |items|
    ensures AllCommaFree(Left(items, arg))
  {
  }

  lemma {:induction false} MissingIsUnsafe(items: seq<string>, arg: string)
    requires arg != "" && FirstHit(items, arg) < |items| == IndexOf(items, arg)
    ensures !SafeToDelete(items, arg)
  {
    OffsetReads(items, arg);
    var (item, o) := (items[FirstHit(items, arg)], Offset(items, arg));
    assert o + |arg| == |item| ==> item[o..] == item[o..o + |arg|];
  }

  lemma {:induction false} RightHit(items: seq<string>, arg: string)
    requires arg != "" && FirstHit(items, arg) == IndexOf(items, arg) < |items|
    ensures Left(items, arg) == Without(items, IndexOf(items, arg))
  {
    var k := FirstHit(items, arg);
    EqualStarts(items[k], arg);
    assert Offset(items, arg) == 0 && |items[k]| == |arg|;
    if k + 1 < |items| {
      OneLess(items, k);
      assert items[k][..0] + items[k + 1] == items[k + 1];
    } else {
      assert items[..k] + items[k + 1..] == items[..k];
    }
  }

  lemma {:induction false} OneLess(items: seq<string>, k: nat)
    requires k + 1 < |items|
    ensures items[..k] + [items[k + 1]] + items[k + 2..] == Without(items, k)
  {
  }

  lemma {:induction false} SameTextSameItems(items: seq<string>, arg: string)
    requires AllCommaFree(items) && arg != "" && FirstHit(items, arg) < IndexOf(items, arg) < |items|
    ensures Text(Left(items, arg)) == Text(Without(items, IndexOf(items, arg)))
       <==> Left(items, arg) == Without(items, IndexOf(items, arg))
  {
    var (left, right) := (Left(items, arg), Without(items, IndexOf(items, arg)));
    LeftIsCommaFree(items, arg);
    if Join(left) == Join(right) { JoinInjective(left, right); }
  }

  lemma {:induction false} DelOfItem(items: seq<string>, arg: string)
    requires items != [] && AllCommaFree(items) && arg != "" && CommaFree(arg)
    ensures DelText(Join(items), arg) == DelItem(items, arg) <==> SafeToDelete(items, arg)
  {
    var (k, n) := (FirstHit(items, arg), IndexOf(items, arg));
    DelByItems(items, arg);
    FirstHitNoLater(items, arg);
    if k < |items| {
      if n == |items| {
        MissingIsUnsafe(items, arg);
      } else if n == k {
        RightHit(items, arg);
      } else {
        EarlyHit(items, arg);
        SameTextSameItems(items, arg);
      }
    }
  }

  lemma {:induction false} FirstIsEmpty(items: seq<string>)
    requires items != [] && items[0] == ""
    ensures Cut(Join(items), 0, 0) == Text(items[1..]) && DelItem(items, "") == Removed(Text(items[1..]))
  {
    LowerAt(items[0], "");
    if |items| > 1 {
      var (list, rest) := (Join(items), Join(items[1..]));
      assert list == "," + rest && list[1..] == rest && list[..0] + list[1..] == rest;
    }
    assert items[..0] + items[1..] == items[1..];
  }

  lemma {:induction false} FirstIsNot(items: seq<string>, k: nat)
    requires AllCommaFree(items) && 0 < k < |items| && items[0] != ""
    ensures Some(Join(items)[1..]) != Text(Without(items, k))
  {
    var (n, list, left) := (|items[0]|, Join(items), Join(Without(items, k)));
    assert Without(items, k)[0] == items[0];
    assert left[n - 1] == items[0][n - 1] && items[0][n - 1] in items[0];
    assert list[n] == ',' && list[1..][n - 1] == list[n];
  }

  /** An empty argument takes one character off the front of the list. */
  lemma {:induction false} DelOfNothing(items: seq<string>)
    requires items != [] && AllCommaFree(items)
    ensures DelText(Join(items), "") == DelItem(items, "") <==> items[0] == ""
  {
    var k := IndexOf(items, "");
    if items[0] == "" {
      FirstIsEmpty(items);
    } else if k < |items| {
      LowerAt(items[k], "");
      FirstIsNot(items, k);
      assert Join(items)[..0] + Join(items)[1..] == Join(items)[1..];
    }
  }

  /** An argument with a comma is no item, wherever the matcher finds it. */
  lemma {:induction false} DelAcrossItems(items: seq<string>, arg: string)
    requires AllCommaFree(items) && !CommaFree(arg)
    ensures DelItem(items, arg) == NotOnList
  {
    var p :| 0 <= p < |arg| && arg[p] == ',';
    var k := IndexOf(items, arg);
    if k < |items| {
      LowerAt(items[k], arg);
    }
  }

  /** What an argument of DEL must be, for a list of items; with commas in it, it must be found nowhere. */
  predicate SafeArgument(items: seq<string>, arg: string)
    requires items != []
  {
    if arg == "" then items[0] == ""
    else if CommaFree(arg) then SafeToDelete(items, arg)
    else Find(Join(items), arg) == None
  }

  /** DEL removes the item it is given, and reports a missing one, exactly when the argument is
      safe to delete. */
  lemma {:induction false} DelRemovesExactlyWhenSafe(items: seq<string>, arg: string)
    requires items != [] && AllCommaFree(items)
    ensures DelText(Join(items), arg) == DelItem(items, arg) <==> SafeArgument(items, arg)
  {
    if arg == "" {
      DelOfNothing(items);
    } else if CommaFree(arg) {
      DelOfItem(items, arg);
    } else {
      DelAcrossItems(items, arg);
    }
  }

  // ---------------------------------------------------------------- channel names

  /** A channel name with its only '#' at the head. */
  predicate HashHead(s: string) {
    s != "" && s[0] == '#' && CommaFree(s) && forall i :: 1 <= i < |s| ==> s[i] != '#'
  }

  lemma {:induction false} HashHitsAtStart(item: string, arg: string)
    requires HashHead(item) && HashHead(arg)
    ensures Hit(item, arg, 0, 0) == if StartsWith(item, arg) then Some(0) else None
  {
    if Hit(item, arg, 0, 0).Some? { HashHitIsStart(item, arg); }
    if StartsWith(item, arg) { HitAtStart(item, arg, 0); }
  }

  lemma {:induction false} HashHitIsStart(item: string, arg: string)
    requires HashHead(item) && HashHead(arg) && Hit(item, arg, 0, 0).Some?
    ensures StartsWith(item, arg)
  {
    var p := Hit(item, arg, 0, 0).value;
    HitSound(item, arg, 0, 0);
    assert ToLower(item[p + 0]) == '#';
    assert p == 0;
    LowerAt(item[..|arg|], arg);
  }

  /** The first item that starts with arg, or the length of the list. */
  function FirstStart(items: seq<string>, arg: string): (k: nat)
    ensures k <= |items| && (k < |items| ==> StartsWith(items[k], arg))
    ensures forall j :: 0 <= j < k ==> !StartsWith(items[j], arg)
  {
    if items == [] || StartsWith(items[0], arg) then 0 else 1 + FirstStart(items[1..], arg)
  }

  /** Channel names: DEL says "not on the list" exactly when no item starts with the argument, and
      does what it should exactly when the first item that does is the argument. */
  lemma {:induction false} DelOfChannels(items: seq<string>, arg: string)
    requires items != [] && HashHead(arg) && forall k :: 0 <= k < |items| ==> HashHead(items[k])
    ensures var k := FirstStart(items, arg);
      && (DelText(Join(items), arg) == NotOnList <==> k == |items|)
      && (DelText(Join(items), arg) == DelItem(items, arg) <==> k == |items| || EqNoCase(items[k], arg))
  {
    forall j | 0 <= j < |items|
      ensures Hit(items[j], arg, 0, 0) == if StartsWith(items[j], arg) then Some(0) else None
    {
      HashHitsAtStart(items[j], arg);
    }
    var k := FirstHit(items, arg);
    assert k == FirstStart(items, arg);
    DelRemovesExactlyWhenSafe(items, arg);
    DelByItems(items, arg);
    if k < |items| && |arg| == |items[k]| {
      assert items[k][..|arg|] == items[k];
    }
  }

  lemma FooAtHead()
    ensures FirstHit(["#foobar", "#foo"], "#foo") == 0 && Offset(["#foobar", "#foo"], "#foo") == 0
    ensures Left(["#foobar", "#foo"], "#foo") == ["ar", "#foo"]
  {
    var items := ["#foobar", "#foo"];
    assert items[0][..4] == "#foo" && StartsWith(items[0], "#foo");
    HitAtStart(items[0], "#foo", 0);
    assert items[0][..0] + items[0][5..] == "ar" && items[..0] == [] && items[1..] == ["#foo"];
  }

  lemma FooIsSecond()
    ensures DelItem(["#foobar", "#foo"], "#foo") == Removed(Some("#foobar"))
  {
    var items := ["#foobar", "#foo"];
    LowerAt("#foobar", "#foo");
    assert IndexOf(items, "#foo") == 1 by { assert items[1..][0] == "#foo"; }
    assert Without(items, 1) == ["#foobar"];
  }

  /** DEL #foo on the list #foobar,#foo: the first item loses its head, and both stay. */
  lemma DelTakesAnotherChannelsHead()
    ensures DelText("#foobar,#foo", "#foo") == Removed(Some("ar,#foo"))
    ensures DelItem(["#foobar", "#foo"], "#foo") == Removed(Some("#foobar"))
  {
    var items := ["#foobar", "#foo"];
    FooAtHead();
    FooIsSecond();
    DelByItems(items, "#foo");
    assert Join(items) == "#foobar,#foo" && Join(["ar", "#foo"]) == "ar,#foo";
  }
}
