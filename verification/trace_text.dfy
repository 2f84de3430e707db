/** The criteria of TRACE in src/os_trace.c as text: how a string of criteria is compiled. */
module TraceText {
  import opened Options
  import opened CStrings
  import opened Decimals

  // ---------------------------------------------------------------- criteria

  datatype Kind = RegexpKind | ServerKind | GlobKind | ChannelKind | NickageKind | NumchanKind | IdentifiedKind

  // The trace_query_domain of a criterion: servers and channels as found when it was compiled.
  datatype Criterion =
    | Server(server: Option<nat>)
    | Glob(pattern: string)
    | Channel(channel: Option<nat>)
    | Nickage(comparison: nat, nickage: int)
    | Numchan(comparison: nat, numchan: nat)
    | Identified(identified: bool)

  /** The server and channel tables of the network. */
  datatype Tables = Tables(servers: string -> Option<nat>, channels: string -> Option<nat>)

  /** mowgli_patricia_retrieve(trace_cmdtree, cmd), which folds case. */
  function KindOf(cmd: string): Option<Kind> {
    var name := Lower(cmd);
    if name == "regexp" then Some(RegexpKind)
    else if name == "server" then Some(ServerKind)
    else if name == "glob" then Some(GlobKind)
    else if name == "channel" then Some(ChannelKind)
    else if name == "nickage" then Some(NickageKind)
    else if name == "numchan" then Some(NumchanKind)
    else if name == "identified" then Some(IdentifiedKind)
    else None
  }

  /** read_comparison_operator: the code of the operator and the text after it. */
  function ReadOperator(s: string, default: nat): (nat, string) {
    if s != "" && s[0] == '<' then
      if |s| > 1 && s[1] == '=' then (2, s[2..]) else (1, s[1..])
    else if s != "" && s[0] == '>' then
      if |s| > 1 && s[1] == '=' then (4, s[2..]) else (3, s[1..])
    else if s != "" && s[0] == '=' then (0, s[1..])
    else (default, s)
  }

  const UINT_RANGE := 0x1_0000_0000

  /** The argument of one criterion, as its prepare function reads it. None: it refuses. */
  function ReadArgument(kind: Kind, arg: string, t: Tables): Option<Criterion>
    requires kind != RegexpKind
  {
    match kind
    case ServerKind => Some(Server(t.servers(arg)))
    case GlobKind => Some(Glob(arg))
    case ChannelKind => Some(Channel(t.channels(arg)))
    case NickageKind =>
      var (op, number) := ReadOperator(arg, 2);
      Some(Nickage(op, Atoi(number)))
    case NumchanKind =>
      var (op, number) := ReadOperator(arg, 0);
      Some(Numchan(op, Atoi(number) % UINT_RANGE))
    case IdentifiedKind =>
      if Lower(arg) == "yes" then Some(Identified(true))
      else if Lower(arg) == "no" then Some(Identified(false))
      else None
  }

  // ---------------------------------------------------------------- compiling with strtok

  /** What becomes of the criteria: compiled, refused, a NULL token handed to a prepare function
      that does not expect one, or a REGEXP, whose parsing belongs to the regex library. */
  datatype Compilation = Compiled(crit: seq<Criterion>) | Invalid | NullToken | RegexpSeen

  function Prepend(c: Criterion, rest: Compilation): Compilation {
    match rest case Compiled(crit) => Compiled([c] + crit) case _ => rest
  }

  /** strtok(s, delims), with NULL for s going on at the saved text. */
  function Tokenise(s: Option<string>, saved: string, delims: string): (r: (Option<string>, string))
    ensures var from := if s.Some? then s.value else saved;
      |r.1| <= |from| && (r.0.Some? ==> |r.1| < |from| && 0 < |r.0.value|)
    ensures delims == "" && r.0.Some? ==> |r.0.value| <= |if s.Some? then s.value else saved| && r.1 == ""
  {
    var from := if s.Some? then s.value else saved;
    if delims == "" then AllOf(from); Strtok(from, delims) else Strtok(from, delims)
  }

  /** strtok(NULL, "") returns all that is left, or NULL if that is nothing. */
  lemma {:induction false} AllOf(s: string)
    ensures Strtok(s, "") == if s == "" then (None, "") else (Some(s), "")
  {
    SpanOfToken(s, "", "");
    assert s + "" == s && s[..|s|] == s;
  }

  /** One turn of the criteria loop, behind the keyword: a criterion with the next args and saved
      position, or the end of the compilation. */
  datatype Turn = Next(c: Criterion, args: Option<string>, saved: string) | Stop(result: Compilation)

  function ReadCriterion(kind: Option<Kind>, s1: string, t: Tables): (r: Turn)
    ensures r.Next? ==> |s1| > 0 && |r.saved| < |s1| && (r.args.Some? ==> |r.args.value| < |s1|)
  {
    if kind == None then Stop(Invalid)
    else
      var (args1, s2) := Tokenise(None, s1, "");
      if args1 == None then Stop(Invalid)
      else if kind.value == RegexpKind then Stop(RegexpSeen)
      else
        var (arg, s3) := Tokenise(args1, s2, " ");
        if arg == None then Stop(NullToken)
        else
          var c := ReadArgument(kind.value, arg.value, t);
          if c == None then Stop(Invalid)
          else
            var (args2, s4) := Tokenise(None, s3, "");
            Next(c.value, args2, s4)
  }

  /** The loop of os_cmd_trace_run over the criteria: args, and the position strtok saved. */
  function Compile(args: Option<string>, saved: string, t: Tables): Compilation
    decreases if args.Some? then |args.value| else |saved|
  {
    var (cmd, s1) := Tokenise(args, saved, " ");
    if cmd == None then Compiled([])
    else match ReadCriterion(KindOf(cmd.value), s1, t)
      case Stop(result) => result
      case Next(c, args2, saved2) => Prepend(c, Compile(args2, saved2, t))
  }

  // ---------------------------------------------------------------- compiling words

  /** The words of a text. */
  function Words(s: string): seq<string>
    decreases |s|
  {
    match Strtok(s, " ")
    case (None, _) => []
    case (Some(w), rest) => [w] + Words(rest)
  }

  /** The last word is followed by more than the one space strtok takes. */
  function Loose(s: string): bool
    decreases |s|
  {
    match Strtok(s, " ")
    case (None, _) => false
    case (Some(_), rest) => if Strtok(rest, " ").0 == None then rest != "" else Loose(rest)
  }

  /** Criteria are pairs of a keyword and an argument. */
  function CompileWords(ws: seq<string>, loose: bool, t: Tables): Compilation {
    if ws == [] then Compiled([])
    else if |ws| == 1 then LoneKeyword(KindOf(ws[0]), loose)
    else match ReadPair(KindOf(ws[0]), ws[1], t)
      case (result, None) => result
      case (_, Some(c)) => Prepend(c, CompileWords(ws[2..], loose, t))
  }

  /** A keyword that is the last word. */
  function LoneKeyword(kind: Option<Kind>, loose: bool): Compilation {
    if kind == None || !loose then Invalid else if kind == Some(RegexpKind) then RegexpSeen else NullToken
  }

  /** A keyword with its argument: the criterion, or what is wrong. */
  function ReadPair(kind: Option<Kind>, arg: string, t: Tables): (Compilation, Option<Criterion>) {
    if kind == None then (Invalid, None)
    else if kind == Some(RegexpKind) then (RegexpSeen, None)
    else (Invalid, ReadArgument(kind.value, arg, t))
  }

  /** A word and the text after it. */
  lemma {:induction false} WordsFront(s: string)
    ensures var (w, rest) := Strtok(s, " ");
      if w == None then Words(s) == [] && !Loose(s)
      else
        && Words(s) == [w.value] + Words(rest)
        && Words(s)[1..] == Words(rest)
        && Loose(s) == (if Words(rest) == [] then rest != "" else Loose(rest))
  {
  }

  lemma {:induction false} TokeniseAll(s: string)
    ensures Tokenise(None, s, "") == if s == "" then (None, "") else (Some(s), "")
  {
    AllOf(s);
  }

  /** What a turn makes of the word behind the keyword. */
  lemma {:induction false} TurnReadsWord(kind: Option<Kind>, s1: string, arg: Option<string>, s3: string, t: Tables)
    requires Strtok(s1, " ") == (arg, s3)
    requires Tokenise(None, s1, "") == if s1 == "" then (None, "") else (Some(s1), "")
    requires Tokenise(None, s3, "") == if s3 == "" then (None, "") else (Some(s3), "")
    ensures ReadCriterion(kind, s1, t) ==
      if kind == None || s1 == "" then Stop(Invalid)
      else if kind == Some(RegexpKind) then Stop(RegexpSeen)
      else if arg == None then Stop(NullToken)
      else match ReadArgument(kind.value, arg.value, t)
        case None => Stop(Invalid)
        case Some(c) => Next(c, if s3 == "" then None else Some(s3), "")
  {
  }

  /** The loop at a keyword, with the word behind it. */
  lemma {:induction false} CompileTurn(s: string, saved: string, cmd: string, s1: string,
      arg: Option<string>, s3: string, t: Tables)
    requires Strtok(s, " ") == (Some(cmd), s1) && Strtok(s1, " ") == (arg, s3)
    ensures Compile(Some(s), saved, t) ==
            if arg == None then LoneKeyword(KindOf(cmd), s1 != "")
            else match ReadPair(KindOf(cmd), arg.value, t)
              case (result, None) => result
              case (_, Some(c)) => Prepend(c, Compile(if s3 == "" then None else Some(s3), "", t))
  {
    TokeniseAll(s1);
    TokeniseAll(s3);
    TurnReadsWord(KindOf(cmd), s1, arg, s3, t);
  }

  /** For every text, compiling with strtok is compiling the words of the text. */
  lemma {:induction false} CompileReadsWords(s: string, saved: string, t: Tables)
    ensures Compile(Some(s), saved, t) == CompileWords(Words(s), Loose(s), t)
    decreases |s|, 0
  {
    WordsFront(s);
    var (cmd, s1) := Strtok(s, " ");
    if cmd.Some? {
      WordsFront(s1);
      var (arg, s3) := Strtok(s1, " ");
      CompileTurn(s, saved, cmd.value, s1, arg, s3, t);
      if arg.Some? {
        PairOfWords(s);
        CompileOnward(s3, t);
        LooseIrrelevant(Words(s3), Loose(s), Loose(s3), t);
      }
    }
  }

  lemma {:induction false} CompileOnward(s3: string, t: Tables)
    ensures Compile(if s3 == "" then None else Some(s3), "", t) == CompileWords(Words(s3), Loose(s3), t)
    decreases |s3|, 1
  {
    if s3 == "" { NothingToCompile("", t); } else { CompileReadsWords(s3, "", t); }
  }

  lemma {:induction false} LooseIrrelevant(ws: seq<string>, a: bool, b: bool, t: Tables)
    requires ws != [] ==> a == b
    ensures CompileWords(ws, a, t) == CompileWords(ws, b, t)
  {
  }

  lemma {:induction false} PairOfWords(s: string)
    requires var (cmd, s1) := Strtok(s, " "); cmd.Some? && Strtok(s1, " ").0.Some?
    ensures var s1 := Strtok(s, " ").1; var s3 := Strtok(s1, " ").1;
      && |Words(s)| >= 2 && Words(s)[2..] == Words(s3)
      && (Words(s3) != [] ==> Loose(s) == Loose(s3))
      && |s3| < |s|
  {
    var s1 := Strtok(s, " ").1;
    WordsFront(s);
    WordsFront(s1);
    assert Words(s)[2..] == Words(s)[1..][1..];
  }

  lemma {:induction false} NothingToCompile(saved: string, t: Tables)
    requires saved == ""
    ensures Compile(None, saved, t) == Compiled([]) && Words(saved) == []
  {
    assert Strtok("", " ") == (None, "");
  }
}
