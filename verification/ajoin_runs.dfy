/** Runs of the AJOIN commands of src/ns_ajoin.c: what the stored string means, and stays. */
module AjoinRuns {
  import opened Options
  import opened CStrings
  import opened Sequences
  import opened AjoinText
  import opened AjoinExact
  import opened Ajoin

  function Run(value: Option<string>, cs: seq<Command>): Option<string>
    decreases |cs|
  {
    if cs == [] then value else Run(Apply(value, cs[0]), cs[1..])
  }

  /** The items a stored string stands for. */
  function Items(value: Option<string>): seq<string> {
    match value case None => [] case Some(s) => Pieces(s)
  }

  predicate IsName(s: string) {
    s != "" && CommaFree(s) && ' ' !in s
  }

  ghost predicate AllNames(items: seq<string>) {
    forall k :: 0 <= k < |items| ==> IsName(items[k])
  }

  /** No two items are equal ignoring case. */
  ghost predicate Distinct(items: seq<string>) {
    forall j, k :: 0 <= j < k < |items| ==> !EqNoCase(items[j], items[k])
  }

  /** The stored string is the joined list of its items, names all different. */
  ghost predicate Sound(value: Option<string>) {
    AllNames(Items(value)) && Distinct(Items(value)) && value == Text(Items(value))
  }

  /** Names are names, and DEL is used where it removes what it is given. */
  predicate Careful(value: Option<string>, c: Command) {
    match c
    case AddName(name) => IsName(name) && |name| < BUFSIZE
    case DelName(name) => IsName(name) && SafeToDelete(Items(value), name)
    case ClearAll => true
  }

  predicate CarefulRun(value: Option<string>, cs: seq<Command>)
    decreases |cs|
  {
    cs != [] ==> Careful(value, cs[0]) && CarefulRun(Apply(value, cs[0]), cs[1..])
  }

  /** The commands on the list of items. */
  function OnItems(items: seq<string>, length: nat, c: Command): seq<string> {
    match c
    case AddName(name) =>
      if items == [] || (!Listed(items, name) && length + |name| <= 400) then items + [name] else items
    case DelName(name) => var k := IndexOf(items, name); if k < |items| then Without(items, k) else items
    case ClearAll => []
  }

  // ---------------------------------------------------------------- reading a list off its text

  /** The first item of a joined list is its first token, for any delimiters that cut at commas only. */
  lemma {:induction false} FirstToken(items: seq<string>, delims: string)
    requires items != [] && items[0] != "" && ',' in delims && forall c :: c in items[0] ==> c !in delims
    ensures Strtok(Join(items), delims) == (Some(items[0]), if |items| == 1 then "" else Join(items[1..]))
  {
    if |items| == 1 {
      StrtokLast(items[0], delims);
    } else {
      StrtokToken(items[0], ',', Join(items[1..]), delims);
      assert items[0] + [','] + Join(items[1..]) == Join(items);
    }
  }

  lemma {:induction false} PiecesOfJoin(items: seq<string>)
    requires items != [] && AllNames(items)
    ensures Pieces(Join(items)) == items
  {
    FirstToken(items, ",");
    assert items == [items[0]] + items[1..];
    if |items| == 1 {
      assert Pieces("") == [];
    } else {
      PiecesOfJoin(items[1..]);
    }
  }

  lemma {:induction false} JoinsOfJoin(items: seq<string>)
    requires items != [] && AllNames(items)
    ensures Joins(Join(items)) == items
  {
    FirstToken(items, " ,");
    assert items == [items[0]] + items[1..];
    if |items| == 1 {
      assert Pieces("") == [];
    } else {
      PiecesOfJoin(items[1..]);
    }
  }

  /** Only the first call of strtok takes a space for the end: a first item with a space in it is joined in
      two pieces, the second one with what the other calls make of the rest; later items keep theirs. */
  lemma {:induction false} JoinsSplitAtFirstSpace(a: string, rest: string)
    requires a != "" && CommaFree(a) && ' ' !in a
    ensures Joins(a + " " + rest) == [a] + Pieces(rest)
  {
    StrtokToken(a, ' ', rest, " ,");
  }

  lemma {:induction false} PiecesKeepSpaces(a: string, rest: string)
    requires a != "" && CommaFree(a)
    ensures Pieces(a + "," + rest) == [a] + Pieces(rest)
  {
    StrtokToken(a, ',', rest, ",");
  }

  lemma {:induction false} TextIsSound(items: seq<string>)
    requires AllNames(items) && Distinct(items)
    ensures Sound(Text(items)) && Items(Text(items)) == items
  {
    if items != [] { PiecesOfJoin(items); }
  }

  /** Of a sound string that fits the buffer, LIST and the identify hook see exactly the items. */
  lemma {:induction false} ListAndJoinsAreTheItems(value: Option<string>)
    requires Sound(value) && value.Some? && |value.value| < BUFSIZE
    ensures Pieces(Strlcpy(value.value, BUFSIZE)) == Items(value)
    ensures Joins(Strlcpy(value.value, BUFSIZE)) == Items(value)
  {
    JoinsOfJoin(Items(value));
  }

  // ---------------------------------------------------------------- the commands keep it

  lemma {:induction false} MoreNames(items: seq<string>, name: string)
    requires items != [] && AllNames(items) && Distinct(items) && IsName(name) && !Listed(items, name)
    ensures AllNames(items + [name]) && Distinct(items + [name])
    ensures Join(items + [name]) == Join(items) + "," + name
  {
    JoinSplit(items, [name]);
    var more := items + [name];
    forall j, k | 0 <= j < k < |more| ensures !EqNoCase(more[j], more[k]) {
      assert more[j] == items[j];
    }
  }

  lemma {:induction false} FewerNames(items: seq<string>, k: nat)
    requires k < |items| && AllNames(items) && Distinct(items)
    ensures AllNames(Without(items, k)) && Distinct(Without(items, k))
  {
    var left := Without(items, k);
    assert forall j :: 0 <= j < |left| ==> left[j] == items[if j < k then j else j + 1];
  }

  lemma {:induction false} AddKeeps(value: Option<string>, name: CString)
    requires Sound(value) && IsName(name) && (value.Some? ==> |value.value| < BUFSIZE)
    ensures Sound(AddText(value, name))
    ensures Items(AddText(value, name)) ==
            OnItems(Items(value), if value.Some? then |value.value| else 0, AddName(name))
  {
    var items := Items(value);
    if value == None {
      TextIsSound([name]);
    } else if !Listed(items, name) && |value.value| + |name| <= MAX_TOTAL {
      MoreNames(items, name);
      assert AddText(value, name) == Text(items + [name]);
      TextIsSound(items + [name]);
    }
  }

  lemma {:induction false} DelKeeps(value: Option<string>, name: CString)
    requires Sound(value) && value.Some? && IsName(name) && SafeToDelete(Items(value), name)
    ensures Sound(Apply(value, DelName(name)))
    ensures Items(Apply(value, DelName(name))) == OnItems(Items(value), |value.value|, DelName(name))
  {
    var items := Items(value);
    var k := IndexOf(items, name);
    assert DelText(value.value, name) == DelItem(items, name) by {
      DelRemovesExactlyWhenSafe(items, name);
    }
    if k < |items| {
      FewerNames(items, k);
      TextIsSound(Without(items, k));
    }
  }

  /** Each careful command does to the items what it says, and keeps the string sound. */
  lemma {:induction false} CommandKeeps(value: Option<string>, c: Command)
    requires Sound(value) && Careful(value, c) && (value.Some? ==> |value.value| < BUFSIZE)
    ensures Sound(Apply(value, c))
    ensures Items(Apply(value, c)) == OnItems(Items(value), if value.Some? then |value.value| else 0, c)
  {
    match c
    case AddName(name) => AddKeeps(value, name);
    case DelName(name) => if value.Some? { DelKeeps(value, name); }
    case ClearAll =>
  }

  // ---------------------------------------------------------------- length

  function Max(a: nat, b: nat): nat {
    if a > b then a else b
  }

  /** The longest name a run adds to an empty list. */
  function LongestFirst(value: Option<string>, cs: seq<Command>): nat
    decreases |cs|
  {
    if cs == [] then 0
    else Max(if value == None && cs[0].AddName? then |cs[0].name| else 0, LongestFirst(Apply(value, cs[0]), cs[1..]))
  }

  /** ADD never lets the string past 401 characters, except for a first name longer than that;
      DEL never lengthens it, safe or not. */
  lemma {:induction false} CommandLength(value: Option<string>, c: Command)
    ensures Apply(value, c).Some? ==> |Apply(value, c).value| <= LengthLimit(value, c)
  {
  }

  function LengthLimit(value: Option<string>, c: Command): nat {
    Max(MAX_TOTAL + 1, match value case Some(s) => |s| case None => if c.AddName? then |c.name| else 0)
  }

  lemma {:induction false} RunLength(value: Option<string>, cs: seq<Command>, bound: nat)
    requires MAX_TOTAL < bound && LongestFirst(value, cs) <= bound && (value.Some? ==> |value.value| <= bound)
    ensures Run(value, cs).Some? ==> |Run(value, cs).value| <= bound
    decreases |cs|
  {
    if cs != [] {
      CommandLength(value, cs[0]);
      RunLength(Apply(value, cs[0]), cs[1..], bound);
    }
  }

  lemma {:induction false} CarefulNames(value: Option<string>, cs: seq<Command>)
    requires CarefulRun(value, cs)
    ensures LongestFirst(value, cs) < BUFSIZE
    decreases |cs|
  {
    if cs != [] { CarefulNames(Apply(value, cs[0]), cs[1..]); }
  }

  lemma {:induction false} RunKeeps(value: Option<string>, cs: seq<Command>)
    requires Sound(value) && CarefulRun(value, cs) && (value.Some? ==> |value.value| < BUFSIZE)
    ensures Sound(Run(value, cs))
    decreases |cs|
  {
    if cs != [] {
      CommandKeeps(value, cs[0]);
      CommandLength(value, cs[0]);
      RunKeeps(Apply(value, cs[0]), cs[1..]);
    }
  }

  /** Over any run of careful commands: no name twice, no copy truncated, no more than 401
      characters or the longest first name, and LIST and the identify hook see exactly the items. */
  lemma {:induction false} EveryRunIsSound(cs: seq<Command>)
    requires CarefulRun(None, cs)
    ensures var t := Run(None, cs);
      && Sound(t)
      && (t.Some? ==>
            && |t.value| <= Max(401, LongestFirst(None, cs)) < 512
            && Strlcpy(t.value, BUFSIZE) == t.value
            && Pieces(Strlcpy(t.value, BUFSIZE)) == Items(t) == Joins(Strlcpy(t.value, BUFSIZE)))
  {
    CarefulNames(None, cs);
    RunKeeps(None, cs);
    RunLength(None, cs, Max(MAX_TOTAL + 1, LongestFirst(None, cs)));
    var t := Run(None, cs);
    if t.Some? { ListAndJoinsAreTheItems(t); }
  }
}
