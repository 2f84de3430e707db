/** The AJOIN command of src/ns_ajoin.c on the stored string, edited in place, and what every run
    of it keeps. */
module Ajoin {
  import opened Options
  import opened CStrings
  import opened AjoinText

  // The size of the buffer the stored string is copied to.
  const BUFSIZE := 512
  // The length at which ADD stops.
  const MAX_TOTAL := 400

  /** The tokens a loop of strtok calls with delimiter "," sees. */
  function Pieces(s: string): seq<string>
    decreases |s|
  {
    match Strtok(s, ",")
    case (None, _) => []
    case (Some(t), rest) => [t] + Pieces(rest)
  }

  /** The channels joined on identify: only the first call also skips spaces. */
  function Joins(s: string): seq<string> {
    match Strtok(s, " ,")
    case (None, _) => []
    case (Some(t), rest) => [t] + Pieces(rest)
  }

  /** What a loop of strtok calls has still to see: the token at hand and the saved text. */
  function ToCome(token: Option<string>, saved: string): seq<string> {
    match token case None => [] case Some(t) => [t] + Pieces(saved)
  }

  lemma {:induction false} NextPiece(seen: seq<string>, t: string, saved: string)
    ensures seen + ToCome(Some(t), saved) == seen + [t] + ToCome(Strtok(saved, ",").0, Strtok(saved, ",").1)
  {
    assert Pieces(saved) == ToCome(Strtok(saved, ",").0, Strtok(saved, ",").1);
  }

  function Left(token: Option<string>, saved: string): nat {
    |saved| + if token.Some? then 1 else 0
  }

  predicate Listed(pieces: seq<string>, name: string) {
    exists k :: 0 <= k < |pieces| && EqNoCase(pieces[k], name)
  }

  /** The stored string after ADD. */
  function AddText(value: Option<string>, name: string): Option<string> {
    match value
    case None => Some(name)
    case Some(list) =>
      if Listed(Pieces(Strlcpy(list, BUFSIZE)), name) || |list| + |name| > MAX_TOTAL then value
      else Some(Strlcat(Strlcat(Strlcpy(list, BUFSIZE), ",", BUFSIZE), name, BUFSIZE))
  }

  datatype Command = AddName(name: CString) | DelName(name: CString) | ClearAll

  /** The stored string after a command. */
  function Apply(value: Option<string>, c: Command): Option<string> {
    match c
    case AddName(name) => AddText(value, name)
    case ClearAll => None
    case DelName(name) =>
      match value
      case None => None
      case Some(list) => match DelText(list, name) case NotOnList => value case Removed(left) => left
  }

  // ---------------------------------------------------------------- the stored string in place

  /** The text in front of the first NUL. */
  function CText(buf: seq<char>): (t: string)
    ensures |t| <= |buf| && '\0' !in t && (|t| < |buf| ==> buf[|t|] == '\0')
    ensures forall i :: 0 <= i < |t| ==> t[i] == buf[i]
  {
    if buf == [] || buf[0] == '\0' then "" else [buf[0]] + CText(buf[1..])
  }

  lemma {:induction false} CTextIs(buf: seq<char>, t: string)
    requires '\0' !in t && |t| < |buf| && buf[|t|] == '\0' && forall i :: 0 <= i < |t| ==> buf[i] == t[i]
    ensures CText(buf) == t
  {
    var u := CText(buf);
    forall i | 0 <= i < |t| ensures t[i] != '\0' { assert t[i] in t; }
    forall i | 0 <= i < |u| ensures u[i] != '\0' { assert u[i] in u; }
    assert |u| == |t|;
    assert u == t;
  }

  /** The strtok loop of LIST. */
  method Entries(buf: string) returns (out: seq<string>)
    ensures out == Pieces(buf)
  {
    out := [];
    var (chan, saved) := Strtok(buf, ",");
    while chan != None
      invariant out + ToCome(chan, saved) == Pieces(buf)
      decreases Left(chan, saved)
    {
      NextPiece(out, chan.value, saved);
      out := out + [chan.value];
      var next := Strtok(saved, ",");
      chan, saved := next.0, next.1;
    }
  }

  /** The strtok loop of ADD. */
  method HasEntry(buf: string, name: string) returns (found: bool)
    ensures found == Listed(Pieces(buf), name)
  {
    var (chan, saved) := Strtok(buf, ",");
    while chan != None
      invariant Listed(Pieces(buf), name) <==> Listed(ToCome(chan, saved), name)
      decreases Left(chan, saved)
    {
      ListedFront(chan.value, Pieces(saved), name);
      if EqNoCase(chan.value, name) {
        return true;
      }
      NextPiece([], chan.value, saved);
      var next := Strtok(saved, ",");
      chan, saved := next.0, next.1;
    }
    found := false;
  }

  class Entry {
    // The private:autojoin metadata of an account, NULL when there is none.
    var value: array?<char>

    constructor ()
      ensures Valid() && View() == None
    {
      value := null;
    }

    ghost predicate Valid()
      reads this, value
    {
      value != null ==> |CText(value[..])| < value.Length
    }

    function View(): Option<string>
      reads this, value
    {
      if value == null then None else Some(CText(value[..]))
    }

    /** metadata_add: the value is a copy of the text. */
    method Store(text: CString)
      modifies this
      ensures Valid() && View() == Some(text) && fresh(value)
    {
      var i := 0;
      value := new char[|text| + 1];
      while i < |text|
        invariant 0 <= i <= |text| && fresh(value) && value.Length == |text| + 1
        invariant forall k :: 0 <= k < i ==> value[k] == text[k]
      {
        value[i] := text[i];
        i := i + 1;
      }
      value[|text|] := '\0';
      CTextIs(value[..], text);
    }

    method List() returns (out: seq<string>)
      requires Valid()
      ensures out == match View() case None => [] case Some(s) => Pieces(Strlcpy(s, BUFSIZE))
    {
      out := [];
      if value != null {
        out := Entries(Strlcpy(CText(value[..]), BUFSIZE));
      }
    }

    method OnIdentify() returns (joins: seq<string>)
      requires Valid()
      ensures joins == match View() case None => [] case Some(s) => Joins(Strlcpy(s, BUFSIZE))
    {
      joins := [];
      if value == null {
        return;
      }
      var buf := Strlcpy(CText(value[..]), BUFSIZE);
      var (chan, saved) := Strtok(buf, " ,");
      while chan != None
        invariant joins + ToCome(chan, saved) == Joins(buf)
        decreases Left(chan, saved)
      {
        NextPiece(joins, chan.value, saved);
        joins := joins + [chan.value];
        var next := Strtok(saved, ",");
        chan, saved := next.0, next.1;
      }
    }

    method Add(name: CString) returns (added: bool)
      requires Valid()
      modifies this
      ensures Valid() && View() == AddText(old(View()), name)
      ensures !added ==> value == old(value) && View() == old(View())
      ensures added ==> fresh(value)
    {
      if value != null {
        var list := CText(value[..]);
        var buf := Strlcpy(list, BUFSIZE);
        var known := HasEntry(buf, name);
        if known {
          return false;
        }
        if |list| + |name| > MAX_TOTAL {
          return false;
        }
        buf := Strlcpy(list, BUFSIZE);
        buf := Strlcat(buf, ",", BUFSIZE);
        buf := Strlcat(buf, name, BUFSIZE);
        Store(buf);
      } else {
        Store(name);
      }
      added := true;
    }

    method Clear()
      modifies this
      ensures Valid() && View() == None
    {
      value := null;
    }

    /** DEL: what the matcher finds is cut out of the stored string. */
    method Del(remove: CString) returns (removed: bool)
      requires Valid()
      modifies this, value
      ensures Valid()
      ensures var d := if old(View()) == None then NotOnList else DelText(old(View()).value, remove);
        && removed == d.Removed?
        && View() == if removed then d.value else old(View())
    {
      if value == null {
        return false;
      }
      var listlen, j, itempos, rmlen := Match(value, remove);
      if At(remove, j) != '\0' {
        return false;
      }
      Excise(listlen, itempos, rmlen);
      removed := true;
    }

    /** The command as AJOIN dispatches it. */
    method Execute(c: Command)
      requires Valid()
      modifies this, value
      ensures Valid() && View() == Apply(old(View()), c)
    {
      match c {
        case AddName(name) => var _ := Add(name);
        case DelName(name) => var _ := Del(name);
        case ClearAll => Clear();
      }
    }

    /** The matcher of DEL, on the characters of the stored string: it finds the length of the list,
        and the item's place and length if all of the argument is matched. */
    method Match(list: array<char>, remove: CString) returns (i: nat, j: nat, itempos: nat, rmlen: nat)
      requires |CText(list[..])| < list.Length
      ensures i == |CText(list[..])| && j <= |remove|
      ensures At(remove, j) == '\0' ==> Find(CText(list[..]), remove) == Some(itempos) && rmlen == |remove|
      ensures At(remove, j) != '\0' ==> Find(CText(list[..]), remove) == None
    {
      ghost var t := CText(list[..]);
      ghost var found := Find(t, remove);
      rmlen, itempos, i, j := 0, 0, 0, 0;
      while list[i] != '\0'
        invariant 0 <= i <= |t| && j <= |remove|
        invariant rmlen == 0 && j < |remove| ==>
          j <= i && found == Hit(t, remove, i, j) && (j > 0 ==> itempos == i - j)
        invariant rmlen == 0 && j == |remove| ==> remove == "" && itempos == 0
        invariant rmlen > 0 ==> rmlen == j == |remove| && found == Some(itempos)
        decreases |t| - i
      {
        if rmlen == 0 {
          if ToLower(list[i]) == ToLower(At(remove, j)) {
            if j == 0 {
              itempos := i;
            }
            j := j + 1;
            if At(remove, j) == '\0' {
              rmlen := j;
            }
          } else {
            j := 0;
          }
        }
        i := i + 1;
      }
    }

    /** The cut of DEL: truncate at the end of the list, otherwise move the rest down. */
    method Excise(listlen: nat, itempos: nat, length: nat)
      requires Valid() && value != null && listlen == |CText(value[..])| && itempos + length <= listlen
      modifies this, value
      ensures Valid() && View() == Cut(old(CText(value[..])), itempos, length)
    {
      if value[itempos + length] == '\0' {
        if itempos > 0 {
          EndAt(itempos - 1);
        } else {
          value := null;
        }
      } else {
        CloseUp(listlen, itempos, length + 1);
      }
    }

    method EndAt(n: nat)
      requires Valid() && value != null && n <= |CText(value[..])|
      modifies value
      ensures Valid() && View() == Some(old(CText(value[..]))[..n])
    {
      ghost var left := CText(value[..])[..n];
      value[n] := '\0';
      CTextIs(value[..], left);
    }

    method CloseUp(listlen: nat, itempos: nat, rmlen: nat)
      requires Valid() && value != null && listlen == |CText(value[..])| && itempos + rmlen <= listlen
      modifies value
      ensures Valid()
      ensures View() == Some(old(CText(value[..]))[..itempos] + old(CText(value[..]))[itempos + rmlen..])
    {
      ghost var t := CText(value[..]);
      ghost var left := t[..itempos] + t[itempos + rmlen..];
      Memmove(value, itempos, itempos + rmlen, listlen - rmlen - itempos);
      value[listlen - rmlen] := '\0';
      assert |left| == listlen - rmlen && '\0' !in left;
      forall k | 0 <= k < |left| ensures value[k] == left[k] {
        assert left[k] == if k < itempos then t[k] else t[k + rmlen];
      }
      CTextIs(value[..], left);
    }
  }

  method Memmove(a: array<char>, dst: nat, src: nat, n: nat)
    requires dst <= src && src + n <= a.Length
    modifies a
    ensures forall k :: 0 <= k < a.Length ==>
              a[k] == if dst <= k < dst + n then old(a[k + (src - dst)]) else old(a[k])
  {
    forall k | 0 <= k < n {
      a[dst + k] := a[src + k];
    }
  }

  lemma {:induction false} ListedFront(x: string, pieces: seq<string>, name: string)
    ensures Listed([x] + pieces, name) <==> EqNoCase(x, name) || Listed(pieces, name)
  {
    if EqNoCase(x, name) { assert ([x] + pieces)[0] == x; }
    if k :| 0 <= k < |pieces| && EqNoCase(pieces[k], name) {
      assert ([x] + pieces)[k + 1] == pieces[k];
    }
  }
}
