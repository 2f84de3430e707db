/** get_template_name of src/cs_access_alias.c: a pointer scan over the encoded templates of a
    channel, against lookup in the list of templates they stand for. */
module AccessAlias {
  import opened Options
  import opened CStrings

  // The local buffers ss and flagname.
  const FLAGS_SIZE := 40
  const NAME_SIZE := 400

  // ---------------------------------------------------------------- the scan

  // A pointer into a string is the text from there to the end.

  /** strchr: the text from the first c on. */
  function Strchr(s: string, c: char): (r: Option<string>)
    ensures r.Some? ==> 0 < |r.value| <= |s| && r.value[0] == c && (s[0] != c ==> |r.value| < |s|)
  {
    if s == "" then None else if s[0] == c then Some(s) else Strchr(s[1..], c)
  }

  /** The flags handed to flags_to_bitmask: the text at q, up to the space at r if there is one,
      cut to the buffer. */
  function FlagText(q: string, r: Option<string>): string
    requires r.Some? ==> |r.value| <= |q|
  {
    var ss := Strlcpy(q, FLAGS_SIZE);
    if r.Some? && |q| - |r.value| < FLAGS_SIZE - 1 then ss[..|q| - |r.value|] else ss
  }

  /** The text in front of the first '='. */
  function UpToEquals(s: string): string {
    match Strchr(s, '=') case None => s case Some(e) => s[..|s| - |e|]
  }

  /** The name returned: the text at p up to its first '=', cut to the buffer. */
  function FlagName(p: string): string {
    UpToEquals(Strlcpy(p, NAME_SIZE))
  }

  /** What the scan finds from p on. */
  function Scan(s: string, decode: string -> int, level: int): Option<string>
    decreases |s|
  {
    var p := Skip(s, " ");
    match Strchr(p, '=')
    case None => None
    case Some(q) =>
      var r := Strchr(q, ' ');
      if level == decode(FlagText(q, r)) then Some(FlagName(p))
      else match r case None => None case Some(next) => Scan(next, decode, level)
  }

  // A default template and its flags.
  datatype Default = Default(key: string, flags: int)

  /** The last default with the given flags: every match overwrites the one before. */
  function LastDefault(defaults: seq<Default>, level: int): Option<string> {
    if defaults == [] then None
    else
      var last := defaults[|defaults| - 1];
      if last.flags == level then Some(last.key) else LastDefault(defaults[..|defaults| - 1], level)
  }

  /** The answer is the key of the last default with the level, and None only without any. */
  ghost predicate IsLastOf(res: Option<string>, defaults: seq<Default>, level: int) {
    if res == None then forall i :: 0 <= i < |defaults| ==> defaults[i].flags != level
    else exists i :: 0 <= i < |defaults| && defaults[i].flags == level && res == Some(defaults[i].key)
                     && forall j :: i < j < |defaults| ==> defaults[j].flags != level
  }

  lemma {:induction false} LastDefaultIsLast(defaults: seq<Default>, level: int)
    ensures IsLastOf(LastDefault(defaults, level), defaults, level)
  {
    var n := |defaults| - 1;
    if n >= 0 && defaults[n].flags != level {
      var init := defaults[..n];
      LastDefaultIsLast(init, level);
      assert forall i :: 0 <= i < n ==> init[i] == defaults[i];
      var res := LastDefault(init, level);
      if res.Some? {
        var i :| 0 <= i < n && init[i].flags == level && res == Some(init[i].key)
                 && forall j :: i < j < n ==> init[j].flags != level;
        assert defaults[i].flags == level && forall j :: i < j < |defaults| ==> defaults[j].flags != level;
      }
    }
  }

  /** global_template_search over the defaults. */
  method SearchDefaults(defaults: seq<Default>, level: int) returns (res: Option<string>)
    ensures res == LastDefault(defaults, level) && IsLastOf(res, defaults, level)
  {
    res := None;
    for k := 0 to |defaults|
      invariant res == LastDefault(defaults[..k], level)
    {
      assert defaults[..k + 1][..k] == defaults[..k];
      if defaults[k].flags == level {
        res := Some(defaults[k].key);
      }
    }
    assert defaults[..|defaults|] == defaults;
    LastDefaultIsLast(defaults, level);
  }

  /** while (*p == ' ') p++ */
  method SkipBlanks(start: string) returns (p: string)
    ensures p == Skip(start, " ")
  {
    p := start;
    while p != "" && p[0] == ' '
      invariant Skip(p, " ") == Skip(start, " ")
      decreases |p|
    {
      p := p[1..];
    }
  }

  /** The metadata of the channel, the flag decoder, the level to name, the defaults. */
  method GetTemplateName(md: Option<CString>, decode: string -> int, level: int, defaults: seq<Default>)
    returns (name: Option<string>)
    ensures name == var own := if md.Some? then Scan(md.value, decode, level) else None;
      if own.Some? then own else LastDefault(defaults, level)
    ensures (md == None || Scan(md.value, decode, level) == None) ==> IsLastOf(name, defaults, level)
  {
    name := None;
    if md.Some? {
      name := ScanTemplates(md.value, decode, level);
    }
    if name == None {
      name := SearchDefaults(defaults, level);
    }
  }

  method ScanTemplates(value: CString, decode: string -> int, level: int) returns (name: Option<string>)
    ensures name == Scan(value, decode, level)
  {
    var p: Option<string> := Some(value);
    while p != None
      invariant Scan(value, decode, level) == if p.Some? then Scan(p.value, decode, level) else None
      decreases if p.Some? then |p.value| + 1 else 0
    {
      var start := SkipBlanks(p.value);
      var q := Strchr(start, '=');
      if q == None {
        return None;
      }
      var r := Strchr(q.value, ' ');
      var ss := Strlcpy(q.value, FLAGS_SIZE);
      if r.Some? && |q.value| - |r.value| < FLAGS_SIZE - 1 {
        ss := ss[..|q.value| - |r.value|];
      }
      if level == decode(ss) {
        var flagname := Strlcpy(start, NAME_SIZE);
        var s := Strchr(flagname, '=');
        if s != None {
          flagname := flagname[..|flagname| - |s.value|];
        }
        return Some(flagname);
      }
      p := match r case None => None case Some(next) => Some(next);
    }
    name := None;
  }

  // ---------------------------------------------------------------- the list of templates

  datatype Template = Template(name: string, flags: string)

  /** A name of neither spaces nor '=', flags of no spaces. */
  predicate Encodable(t: Template) {
    ' ' !in t.name && '=' !in t.name && ' ' !in t.flags
  }

  ghost predicate AllEncodable(ts: seq<Template>) {
    forall k :: 0 <= k < |ts| ==> Encodable(ts[k])
  }

  // The text flags_to_bitmask should see.
  function Flags(t: Template): string {
    "=" + t.flags
  }

  function Encode(ts: seq<Template>): string {
    if ts == [] then "" else if |ts| == 1 then ts[0].name + Flags(ts[0])
    else ts[0].name + Flags(ts[0]) + " " + Encode(ts[1..])
  }

  /** The name of the first template whose flags decode to the level. */
  function Lookup(ts: seq<Template>, decode: string -> int, level: int): Option<string> {
    if ts == [] then None
    else if decode(Flags(ts[0])) == level then Some(ts[0].name)
    else Lookup(ts[1..], decode, level)
  }

  /** The same, on what fits the buffers. */
  function LookupCut(ts: seq<Template>, decode: string -> int, level: int): Option<string> {
    if ts == [] then None
    else if decode(Strlcpy(Flags(ts[0]), FLAGS_SIZE)) == level then Some(Strlcpy(ts[0].name, NAME_SIZE))
    else LookupCut(ts[1..], decode, level)
  }

  // ---------------------------------------------------------------- the scan is the lookup

  lemma {:induction false} ChrAfter(head: string, tail: string, c: char)
    requires c !in head && (tail == "" || tail[0] == c)
    ensures Strchr(head + tail, c) == if tail == "" then None else Some(tail)
  {
    if head == "" {
      assert head + tail == tail;
    } else {
      assert (head + tail)[1..] == head[1..] + tail && head[0] in head;
      ChrAfter(head[1..], tail, c);
    }
  }

  lemma {:induction false} NameSeen(name: string, rest: string)
    requires '=' !in name && rest != "" && rest[0] == '='
    ensures FlagName(name + rest) == Strlcpy(name, NAME_SIZE)
  {
    var b := Strlcpy(name + rest, NAME_SIZE);
    if |name| < |b| {
      assert b == name + rest[..|b| - |name|];
      ChrAfter(name, rest[..|b| - |name|], '=');
    } else {
      assert b == name[..|b|] && name[..|b|] + "" == b;
      ChrAfter(name[..|b|], "", '=');
    }
  }

  /** The flags of the first template are cut to the buffer, whatever follows them. */
  lemma {:induction false} FlagsSeen(flags: string, tail: string)
    requires tail == "" || tail[0] == ' '
    ensures FlagText(flags + tail, if tail == "" then None else Some(tail)) == Strlcpy(flags, FLAGS_SIZE)
  {
    if tail == "" { assert flags + tail == flags; }
  }

  lemma {:induction false} NothingSkipped(t: Template, tail: string)
    requires Encodable(t)
    ensures Skip(t.name + (Flags(t) + tail), " ") == t.name + (Flags(t) + tail)
  {
    var s := t.name + (Flags(t) + tail);
    assert t.name != "" ==> s[0] == t.name[0] && t.name[0] in t.name;
  }

  lemma {:induction false} ScanFirst(t: Template, tail: string, decode: string -> int, level: int)
    requires Encodable(t) && (tail == "" || tail[0] == ' ')
    ensures Scan(t.name + (Flags(t) + tail), decode, level) ==
      if decode(Strlcpy(Flags(t), FLAGS_SIZE)) == level then Some(Strlcpy(t.name, NAME_SIZE))
      else if tail == "" then None else Scan(tail, decode, level)
  {
    NothingSkipped(t, tail);
    ChrAfter(t.name, Flags(t) + tail, '=');
    ChrAfter(Flags(t), tail, ' ');
    FlagsSeen(Flags(t), tail);
    NameSeen(t.name, Flags(t) + tail);
  }

  /** Blanks in front of a template do not matter. */
  lemma {:induction false} ScanIgnoresBlanks(blanks: string, s: string, decode: string -> int, level: int)
    requires forall c :: c in blanks ==> c == ' '
    ensures Scan(blanks + s, decode, level) == Scan(s, decode, level)
  {
    if blanks == "" {
      assert blanks + s == s;
    } else {
      FrontOf(blanks, s);
      assert blanks[0] in blanks && forall c :: c in blanks[1..] ==> c in blanks;
      ScanIgnoresBlanks(blanks[1..], s, decode, level);
    }
  }

  /** For every encoded list of templates the scan is lookup, up to what fits the buffers. */
  lemma {:induction false} ScanIsLookup(ts: seq<Template>, decode: string -> int, level: int)
    requires AllEncodable(ts)
    ensures Scan(Encode(ts), decode, level) == LookupCut(ts, decode, level)
  {
    if ts != [] {
      var t := ts[0];
      assert Encodable(t);
      if |ts| == 1 {
        assert t.name + (Flags(t) + "") == Encode(ts);
        ScanFirst(t, "", decode, level);
      } else {
        var tail := " " + Encode(ts[1..]);
        assert t.name + (Flags(t) + tail) == Encode(ts);
        ScanFirst(t, tail, decode, level);
        assert tail[1..] == Encode(ts[1..]) && Skip(tail, " ") == Skip(tail[1..], " ");
        ScanIsLookup(ts[1..], decode, level);
      }
    }
  }

  // ---------------------------------------------------------------- when the buffers are large enough

  /** A template behind another one with the same flags is never found. */
  predicate Shadowed(ts: seq<Template>, i: nat)
    requires i < |ts|
  {
    exists j :: 0 <= j < i && ts[j].flags == ts[i].flags
  }

  ghost predicate Fits(ts: seq<Template>) {
    forall i :: 0 <= i < |ts| ==> |Flags(ts[i])| < FLAGS_SIZE && (Shadowed(ts, i) || |ts[i].name| < NAME_SIZE)
  }

  /** The first template that matches, or the length of the list. */
  function FirstMatch(ts: seq<Template>, decode: string -> int, level: int): (k: nat)
    ensures k <= |ts| && (k < |ts| ==> decode(Flags(ts[k])) == level)
    ensures forall j :: 0 <= j < k ==> decode(Flags(ts[j])) != level
    ensures Lookup(ts, decode, level) == if k < |ts| then Some(ts[k].name) else None
  {
    if ts == [] || decode(Flags(ts[0])) == level then 0 else 1 + FirstMatch(ts[1..], decode, level)
  }

  lemma {:induction false} CutAtMatch(ts: seq<Template>, decode: string -> int, level: int)
    requires forall i :: 0 <= i < |ts| ==> |Flags(ts[i])| < FLAGS_SIZE
    ensures var k := FirstMatch(ts, decode, level);
      LookupCut(ts, decode, level) == if k < |ts| then Some(Strlcpy(ts[k].name, NAME_SIZE)) else None
  {
    if ts != [] && decode(Flags(ts[0])) != level { CutAtMatch(ts[1..], decode, level); }
  }

  lemma {:induction false} CutFindsNothing(ts: seq<Template>, decode: string -> int, level: int)
    requires forall s :: |s| < FLAGS_SIZE ==> decode(s) != level
    ensures LookupCut(ts, decode, level) == None
  {
    if ts != [] { CutFindsNothing(ts[1..], decode, level); }
  }

  /** Too long flags, or a findable too long name: some decoder tells the difference. */
  lemma {:induction false} MisfitShows(ts: seq<Template>, i: nat)
    requires i < |ts|
    requires |Flags(ts[i])| >= FLAGS_SIZE ||
             (!Shadowed(ts, i) && |ts[i].name| >= NAME_SIZE
              && forall k :: 0 <= k < |ts| ==> |Flags(ts[k])| < FLAGS_SIZE)
    ensures var decode := s => if s == Flags(ts[i]) then 1 else 0;
      LookupCut(ts, decode, 1) != Lookup(ts, decode, 1)
  {
    var decode := s => if s == Flags(ts[i]) then 1 else 0;
    var k := FirstMatch(ts, decode, 1);
    assert decode(Flags(ts[i])) == 1;
    assert k <= i;
    if |Flags(ts[i])| >= FLAGS_SIZE {
      CutFindsNothing(ts, decode, 1);
    } else {
      CutAtMatch(ts, decode, 1);
      assert Flags(ts[k])[1..] == ts[k].flags && Flags(ts[i])[1..] == ts[i].flags;
      assert k == i;
    }
  }

  /** The scan finds what lookup finds, whatever the flags mean, exactly when all flags fit their
      buffer and so does every name that can be found. */
  lemma {:induction false} ScanIsLookupExactlyWhenAllFits(ts: seq<Template>)
    requires AllEncodable(ts)
    ensures (forall decode: string -> int, level: int :: Scan(Encode(ts), decode, level) == Lookup(ts, decode, level))
            <==> Fits(ts)
  {
    forall decode: string -> int, level: int
      ensures Scan(Encode(ts), decode, level) == LookupCut(ts, decode, level)
      ensures Fits(ts) ==> LookupCut(ts, decode, level) == Lookup(ts, decode, level)
    {
      ScanIsLookup(ts, decode, level);
      if Fits(ts) {
        CutAtMatch(ts, decode, level);
        var k := FirstMatch(ts, decode, level);
        assert k < |ts| ==> !Shadowed(ts, k);
      }
    }
    if !Fits(ts) {
      var i := Misfit(ts);
      MisfitShows(ts, i);
      var decode := s => if s == Flags(ts[i]) then 1 else 0;
      assert Scan(Encode(ts), decode, 1) != Lookup(ts, decode, 1);
    }
  }

  /** A template that shows the list does not fit. */
  lemma {:induction false} Misfit(ts: seq<Template>) returns (i: nat)
    requires !Fits(ts)
    ensures i < |ts|
    ensures |Flags(ts[i])| >= FLAGS_SIZE ||
            (!Shadowed(ts, i) && |ts[i].name| >= NAME_SIZE && forall k :: 0 <= k < |ts| ==> |Flags(ts[k])| < FLAGS_SIZE)
  {
    if k :| 0 <= k < |ts| && |Flags(ts[k])| >= FLAGS_SIZE {
      i := k;
    } else {
      i :| 0 <= i < |ts| && !Shadowed(ts, i) && |ts[i].name| >= NAME_SIZE;
    }
  }

  function Repeated(c: char, n: nat): string {
    seq(n, _ => c)
  }

  /** Flags of 39 letters are cut, and their template is not found; a name of 400 letters is cut. */
  lemma TooLongForTheBuffers()
    ensures var (flags, name) := (Repeated('v', 39), Repeated('n', 400));
      var decode := s => if s == "=" + flags || s == "=v" then 1 else 0;
      && Scan(Encode([Template("a", flags)]), decode, 1) == None
      && Lookup([Template("a", flags)], decode, 1) == Some("a")
      && Scan(Encode([Template(name, "v")]), decode, 1) == Some(Repeated('n', 399))
      && Lookup([Template(name, "v")], decode, 1) == Some(name)
  {
    var (flags, name) := (Repeated('v', 39), Repeated('n', 400));
    var decode := s => if s == "=" + flags || s == "=v" then 1 else 0;
    var (a, b) := (Template("a", flags), Template(name, "v"));
    assert Encode([a]) == a.name + (Flags(a) + "");
    ScanFirst(a, "", decode, 1);
    assert |Strlcpy(Flags(a), FLAGS_SIZE)| == 39 && |Flags(a)| == 40;
    assert Encode([b]) == b.name + (Flags(b) + "");
    ScanFirst(b, "", decode, 1);
    assert name[..399] == Repeated('n', 399);
  }
}
