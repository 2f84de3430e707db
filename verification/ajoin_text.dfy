/** The autojoin list of src/ns_ajoin.c as text: what DEL does to the stored string, and when that
    is the removal of an item from a list. */
module AjoinText {
  import opened Options
  import opened CStrings
  import opened Sequences

  // ---------------------------------------------------------------- the matcher

  /** Where the one-pass matcher finds arg: from index i of the list with j characters matched.
      After a mismatch it goes on with the next character; it never goes back. */
  function Hit(list: string, arg: string, i: nat, j: nat): (r: Option<nat>)
    requires i <= |list| && j < |arg| && j <= i
    ensures r.Some? ==> i <= r.value + |arg| <= |list|
    decreases |list| - i
  {
    if i == |list| then None
    else if ToLower(list[i]) == ToLower(arg[j]) then
      if j + 1 == |arg| then Some(i + 1 - |arg|) else Hit(list, arg, i + 1, j + 1)
    else Hit(list, arg, i + 1, 0)
  }

  /** The place found in a whole list; an empty argument is found at once. */
  function Find(list: string, arg: string): (r: Option<nat>)
    ensures r.Some? ==> r.value + |arg| <= |list|
  {
    if arg == "" then Some(0) else Hit(list, arg, 0, 0)
  }

  datatype Deletion = NotOnList | Removed(value: Option<string>)

  /** Cutting length characters at pos, with the comma after them, or before them at the end of
      the list; nothing is left of a list that is cut whole. */
  function Cut(list: string, pos: nat, length: nat): Option<string>
    requires pos + length <= |list|
  {
    if pos + length == |list| then
      if pos > 0 then Some(list[..pos - 1]) else None
    else Some(list[..pos] + list[pos + length + 1..])
  }

  function DelText(list: string, arg: string): Deletion {
    match Find(list, arg)
    case None => NotOnList
    case Some(pos) => Removed(Cut(list, pos, |arg|))
  }

  // ---------------------------------------------------------------- lists of items

  predicate CommaFree(s: string) {
    ',' !in s
  }

  ghost predicate AllCommaFree(items: seq<string>) {
    forall k :: 0 <= k < |items| ==> CommaFree(items[k])
  }

  function Join(items: seq<string>): string {
    if items == [] then "" else if |items| == 1 then items[0] else items[0] + "," + Join(items[1..])
  }

  function Text(items: seq<string>): Option<string> {
    if items == [] then None else Some(Join(items))
  }

  /** The index of the first item equal to arg ignoring case, or the length of the list. */
  function IndexOf(items: seq<string>, arg: string): (k: nat)
    ensures k <= |items| && (k < |items| ==> EqNoCase(items[k], arg))
    ensures forall j :: 0 <= j < k ==> !EqNoCase(items[j], arg)
  {
    if items == [] || EqNoCase(items[0], arg) then 0 else 1 + IndexOf(items[1..], arg)
  }

  /** What DEL is for: the first item equal to arg leaves the list. */
  function DelItem(items: seq<string>, arg: string): Deletion {
    var k := IndexOf(items, arg);
    if k == |items| then NotOnList else Removed(Text(Without(items, k)))
  }

  // ---------------------------------------------------------------- joining and taking apart

  lemma {:induction false} JoinSplit(a: seq<string>, b: seq<string>)
    requires a != [] && b != []
    ensures Join(a + b) == Join(a) + "," + Join(b)
  {
    if |a| == 1 {
      assert (a + b)[1..] == b;
    } else {
      assert (a + b)[1..] == a[1..] + b;
      JoinSplit(a[1..], b);
    }
  }

  /** The first comma of a joined list ends its first item, so a list can be read off its text. */
  lemma {:induction false} JoinInjective(a: seq<string>, b: seq<string>)
    requires a != [] && b != [] && AllCommaFree(a) && AllCommaFree(b)
    requires Join(a) == Join(b)
    ensures a == b
  {
    var (x, y) := (a[0], b[0]);
    if |a| > 1 && |b| > 1 {
      var (s, t) := (x + "," + Join(a[1..]), y + "," + Join(b[1..]));
      assert s == t;
      FirstComma(x, Join(a[1..]), y, Join(b[1..]));
      JoinInjective(a[1..], b[1..]);
      assert a == [x] + a[1..] && b == [y] + b[1..];
    } else {
      CommaBetweenItems(a);
      CommaBetweenItems(b);
    }
  }

  lemma {:induction false} CommaBetweenItems(a: seq<string>)
    requires a != [] && AllCommaFree(a)
    ensures ',' in Join(a) <==> |a| > 1
  {
    if |a| > 1 { assert Join(a)[|a[0]|] == ','; }
  }

  lemma {:induction false} FirstComma(x: string, s: string, y: string, t: string)
    requires CommaFree(x) && CommaFree(y) && x + "," + s == y + "," + t
    ensures x == y && s == t
  {
    var l := x + "," + s;
    assert l[|x|] == ',' && forall i :: 0 <= i < |x| ==> l[i] == x[i] && x[i] in x;
    assert l[|y|] == ',' && forall i :: 0 <= i < |y| ==> l[i] == y[i] && y[i] in y;
    assert |x| == |y|;
    assert x == l[..|x|] && y == l[..|y|] && s == l[|x| + 1..] && t == l[|y| + 1..];
  }

  // ---------------------------------------------------------------- the matcher on a joined list

  /** What comes before does not matter once the matcher starts afresh. */
  lemma {:induction false} HitShift(pre: string, t: string, arg: string, i: nat, j: nat)
    requires i <= |t| && j < |arg| && j <= i
    ensures Hit(pre + t, arg, |pre| + i, j) ==
            match Hit(t, arg, i, j) case None => None case Some(p) => Some(|pre| + p)
    decreases |t| - i
  {
    if i < |t| {
      assert (pre + t)[|pre| + i] == t[i];
      if ToLower(t[i]) == ToLower(arg[j]) {
        if j + 1 < |arg| { HitShift(pre, t, arg, i + 1, j + 1); }
      } else {
        HitShift(pre, t, arg, i + 1, 0);
      }
    }
  }

  /** A hit inside the first item stays; without one the matcher starts afresh after the comma. */
  lemma {:induction false} HitItem(s: string, t: string, arg: string, i: nat, j: nat)
    requires i <= |s| && j < |arg| && j <= i && CommaFree(arg)
    ensures Hit(s + "," + t, arg, i, j) ==
            if Hit(s, arg, i, j).Some? then Hit(s, arg, i, j) else Hit(s + "," + t, arg, |s| + 1, 0)
    decreases |s| - i
  {
    var l := s + "," + t;
    if i == |s| {
      assert l[i] == ',' && arg[j] in arg;
    } else {
      assert l[i] == s[i];
      if ToLower(s[i]) == ToLower(arg[j]) {
        if j + 1 < |arg| { HitItem(s, t, arg, i + 1, j + 1); }
      } else {
        HitItem(s, t, arg, i + 1, 0);
      }
    }
  }

  /** The first item the matcher hits when it is run on each item alone, or the length of the list. */
  function FirstHit(items: seq<string>, arg: string): (k: nat)
    requires arg != ""
    ensures k <= |items| && (k < |items| ==> Hit(items[k], arg, 0, 0).Some?)
    ensures forall j :: 0 <= j < k ==> Hit(items[j], arg, 0, 0).None?
  {
    if items == [] || Hit(items[0], arg, 0, 0).Some? then 0 else 1 + FirstHit(items[1..], arg)
  }

  /** The offset of the hit in its item. */
  function Offset(items: seq<string>, arg: string): (o: nat)
    requires arg != "" && FirstHit(items, arg) < |items|
    ensures o + |arg| <= |items[FirstHit(items, arg)]|
  {
    Hit(items[FirstHit(items, arg)], arg, 0, 0).value
  }

  /** Where item k starts in the joined list. */
  function Start(items: seq<string>, k: nat): nat
    requires k < |items|
  {
    if k == 0 then 0 else |items[0]| + 1 + Start(items[1..], k - 1)
  }

  lemma {:induction false} HitJoined(items: seq<string>, arg: string)
    requires items != [] && arg != "" && CommaFree(arg)
    ensures var k := FirstHit(items, arg);
      Hit(Join(items), arg, 0, 0) ==
      if k < |items| then Some(Start(items, k) + Offset(items, arg)) else None
  {
    if |items| > 1 {
      var (s, t) := (items[0], Join(items[1..]));
      HitItem(s, t, arg, 0, 0);
      if Hit(s, arg, 0, 0).None? {
        HitJoined(items[1..], arg);
        HitShift(s + ",", t, arg, 0, 0);
      }
    }
  }

  /** The text around item k: what precedes it and what follows. */
  function Before(items: seq<string>, k: nat): string
    requires k < |items|
  {
    if k == 0 then "" else Join(items[..k]) + ","
  }

  function After(items: seq<string>, k: nat): string
    requires k < |items|
  {
    if k == |items| - 1 then "" else "," + Join(items[k + 1..])
  }

  lemma {:induction false} JoinTail(items: seq<string>, k: nat)
    requires k < |items|
    ensures Join(items[k..]) == items[k] + After(items, k)
  {
    assert items[k..][0] == items[k] && items[k..][1..] == items[k + 1..];
  }

  lemma {:induction false} JoinAround(items: seq<string>, k: nat)
    requires k < |items|
    ensures Join(items) == Before(items, k) + items[k] + After(items, k)
  {
    JoinTail(items, k);
    if k == 0 {
      assert items[0..] == items;
    } else {
      assert items[..k] + items[k..] == items;
      JoinSplit(items[..k], items[k..]);
      Associates(Before(items, k), items[k], After(items, k));
    }
  }

  lemma {:induction false} Associates(a: string, b: string, c: string)
    ensures a + (b + c) == a + b + c
  {
  }

  lemma {:induction false} StartIsLength(items: seq<string>, k: nat)
    requires k < |items|
    ensures Start(items, k) == |Before(items, k)|
  {
    if k > 0 {
      StartIsLength(items[1..], k - 1);
      assert items[..k] == [items[0]] + items[1..][..k - 1];
      if k > 1 { JoinSplit([items[0]], items[1..][..k - 1]); }
    }
  }
}
