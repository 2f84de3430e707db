/** Criteria of TRACE (src/os_trace.c) as a user means them: writing them down and compiling the
    text gives them back, and they select the users they speak of. */
module TraceQuery {
  import opened Options
  import opened CStrings
  import opened Decimals
  import opened TraceText

  datatype Op = Eq | Lt | Le | Gt | Ge

  datatype Query =
    | ServerIs(name: string)
    | MaskIs(pattern: string)
    | OnChannel(name: string)
    | AgeIs(op: Option<Op>, age: int)
    | ChannelsAre(op: Option<Op>, count: nat)
    | IsIdentified(yes: bool)

  // ---------------------------------------------------------------- writing

  predicate IsWord(s: string) {
    s != "" && ' ' !in s
  }

  /** Names and patterns are single words; a channel count is an unsigned int. */
  predicate WellFormed(q: Query) {
    match q
    case ServerIs(name) => IsWord(name)
    case MaskIs(pattern) => IsWord(pattern)
    case OnChannel(name) => IsWord(name)
    case ChannelsAre(_, n) => n < UINT_RANGE
    case _ => true
  }

  function Keyword(q: Query): string {
    match q
    case ServerIs(_) => "SERVER"
    case MaskIs(_) => "GLOB"
    case OnChannel(_) => "CHANNEL"
    case AgeIs(_, _) => "NICKAGE"
    case ChannelsAre(_, _) => "NUMCHAN"
    case IsIdentified(_) => "IDENTIFIED"
  }

  function OpText(op: Option<Op>): string {
    match op
    case None => ""
    case Some(Eq) => "="
    case Some(Lt) => "<"
    case Some(Le) => "<="
    case Some(Gt) => ">"
    case Some(Ge) => ">="
  }

  function IntText(n: int): string {
    if n < 0 then "-" + Dec(-n) else Dec(n)
  }

  function Argument(q: Query): string {
    match q
    case ServerIs(name) => name
    case MaskIs(pattern) => pattern
    case OnChannel(name) => name
    case AgeIs(op, n) => OpText(op) + IntText(n)
    case ChannelsAre(op, n) => OpText(op) + IntText(n)
    case IsIdentified(yes) => if yes then "yes" else "no"
  }

  function WordsOf(qs: seq<Query>): seq<string> {
    if qs == [] then [] else [Keyword(qs[0]), Argument(qs[0])] + WordsOf(qs[1..])
  }

  /** NAME arg NAME arg ... */
  function Render(qs: seq<Query>): string {
    if qs == [] then ""
    else if |qs| == 1 then Keyword(qs[0]) + " " + Argument(qs[0])
    else Keyword(qs[0]) + " " + (Argument(qs[0]) + " " + Render(qs[1..]))
  }

  // ---------------------------------------------------------------- what is meant

  // The user_t of the network, as far as TRACE looks at it.
  datatype User = User(
    nick: string, ident: string, host: string, server: nat, ts: int,
    channels: set<nat>, identified: bool,
    isInternal: bool, isIrcop: bool, isSoper: bool
  )

  /** The time, and the library's glob matching. */
  datatype World = World(now: int, globs: (string, string) -> bool)

  predicate Holds(op: Op, a: int, b: int) {
    match op
    case Eq => a == b
    case Lt => a < b
    case Le => a <= b
    case Gt => a > b
    case Ge => a >= b
  }

  // The usermask buffer.
  const MASK_SIZE := 512

  function UserMask(u: User): string {
    Strlcpy(u.nick + "!" + u.ident + "@" + u.host, MASK_SIZE)
  }

  function OrElse(op: Option<Op>, default: Op): Op {
    match op case None => default case Some(o) => o
  }

  /** The user is one the criterion speaks of: an age without operator is an upper limit, a number
      of channels without operator is exact. */
  predicate Means(q: Query, u: User, w: World, t: Tables) {
    match q
    case ServerIs(name) => t.servers(name) == Some(u.server)
    case MaskIs(pattern) =>
      var mask := u.nick + "!" + u.ident + "@" + u.host;
      w.globs(pattern, if |mask| <= 511 then mask else mask[..511])
    case OnChannel(name) => t.channels(name).Some? && t.channels(name).value in u.channels
    case AgeIs(op, n) => Holds(OrElse(op, Le), w.now - u.ts, n)
    case ChannelsAre(op, n) => Holds(OrElse(op, Eq), |u.channels|, n)
    case IsIdentified(yes) => u.identified == yes
  }

  /** The exec function of a compiled criterion. */
  predicate Exec(c: Criterion, u: User, w: World) {
    match c
    case Server(server) => server == Some(u.server)
    case Glob(pattern) => w.globs(pattern, UserMask(u))
    case Channel(channel) => channel.Some? && channel.value in u.channels
    case Nickage(comparison, n) => Compare(comparison, w.now - u.ts, n)
    case Numchan(comparison, n) => Compare(comparison, |u.channels|, n)
    case Identified(identified) => identified == u.identified
  }

  predicate Compare(comparison: nat, a: int, b: int) {
    if comparison == 1 then a < b
    else if comparison == 2 then a <= b
    else if comparison == 3 then a > b
    else if comparison == 4 then a >= b
    else a == b
  }

  function OpCode(op: Op): nat {
    match op case Eq => 0 case Lt => 1 case Le => 2 case Gt => 3 case Ge => 4
  }

  /** The criterion a query compiles to. */
  function Resolve(q: Query, t: Tables): Criterion {
    match q
    case ServerIs(name) => Server(t.servers(name))
    case MaskIs(pattern) => Glob(pattern)
    case OnChannel(name) => Channel(t.channels(name))
    case AgeIs(op, n) => Nickage(OpCode(OrElse(op, Le)), n)
    case ChannelsAre(op, n) => Numchan(OpCode(OrElse(op, Eq)), n)
    case IsIdentified(yes) => Identified(yes)
  }

  function ResolveAll(qs: seq<Query>, t: Tables): seq<Criterion> {
    seq(|qs|, k requires 0 <= k < |qs| => Resolve(qs[k], t))
  }

  /** A compiled criterion accepts exactly the users the query means. */
  lemma {:induction false} ResolvedMeansTheSame(q: Query, u: User, w: World, t: Tables)
    ensures Exec(Resolve(q, t), u, w) <==> Means(q, u, w, t)
  {
  }

  lemma {:induction false} IntTextReads(n: int)
    ensures Atoi(IntText(n)) == n
    ensures IsWord(IntText(n)) && IntText(n)[0] != '<' && IntText(n)[0] != '>' && IntText(n)[0] != '='
  {
    if n < 0 {
      var s := IntText(n);
      assert s[0] == '-' && s[1..] == Dec(-n);
      assert SkipSpace(s) == s && Unsigned(s) == Dec(-n);
      ReadDec(-n, "");
      assert Dec(-n) + "" == Dec(-n);
    } else {
      AtoiOfDec(n);
      assert IsDigit(Dec(n)[0]);
    }
  }

  // ---------------------------------------------------------------- reading words

  /** The comparison an argument starts with. */
  function OpOf(arg: string): Option<Op> {
    if arg == "" then None
    else if arg[0] == '=' then Some(Eq)
    else
      var orEqual := |arg| > 1 && arg[1] == '=';
      if arg[0] == '<' then Some(if orEqual then Le else Lt)
      else if arg[0] == '>' then Some(if orEqual then Ge else Gt)
      else None
  }

  function NumberOf(arg: string): int {
    Atoi(arg[|OpText(OpOf(arg))|..])
  }

  /** What an argument asks for, in any case and however the number is written; None for a REGEXP, or
      an IDENTIFIED that is neither yes nor no. */
  function Ask(kind: Kind, arg: string): Option<Query> {
    match kind
    case RegexpKind => None
    case ServerKind => Some(ServerIs(arg))
    case GlobKind => Some(MaskIs(arg))
    case ChannelKind => Some(OnChannel(arg))
    case NickageKind => Some(AgeIs(OpOf(arg), NumberOf(arg)))
    case NumchanKind => Some(ChannelsAre(OpOf(arg), NumberOf(arg) % UINT_RANGE))
    case IdentifiedKind =>
      if EqNoCase(arg, "yes") then Some(IsIdentified(true))
      else if EqNoCase(arg, "no") then Some(IsIdentified(false))
      else None
  }

  /** What a keyword and its argument ask for; None for an unknown keyword too. */
  function QueryOf(keyword: string, arg: string): Option<Query> {
    match KindOf(keyword) case None => None case Some(kind) => Ask(kind, arg)
  }

  /** What pairs of words ask for, if all of them ask for something. */
  function QueriesOf(ws: seq<string>): Option<seq<Query>> {
    if ws == [] then Some([])
    else if |ws| == 1 then None
    else match (QueryOf(ws[0], ws[1]), QueriesOf(ws[2..]))
      case (Some(q), Some(qs)) => Some([q] + qs)
      case _ => None
  }

  lemma YesNo()
    ensures Lower("yes") == "yes" && Lower("no") == "no"
  {
    assert Lower("yes") == "yes" && Lower("no") == "no";
  }

  lemma {:induction false} OperatorReads(arg: string, default: nat)
    ensures var op := OpOf(arg);
      ReadOperator(arg, default) == (if op.Some? then OpCode(op.value) else default, arg[|OpText(op)|..])
  {
  }

  /** The prepare function takes exactly the arguments that ask for something, and makes the criterion
      of what they ask for. */
  lemma {:induction false} ArgumentAsks(kind: Kind, arg: string, t: Tables)
    requires kind != RegexpKind
    ensures ReadArgument(kind, arg, t) == match Ask(kind, arg) case None => None case Some(q) => Some(Resolve(q, t))
  {
    match kind
    case NickageKind => OperatorReads(arg, 2);
    case NumchanKind => OperatorReads(arg, 0);
    case IdentifiedKind => YesNo();
    case _ =>
  }

  /** Keywords are found in any case, and only those of the table. */
  lemma {:induction false} KeywordsAre(cmd: string)
    ensures KindOf(cmd) ==
      if EqNoCase(cmd, "REGEXP") then Some(RegexpKind)
      else if EqNoCase(cmd, "SERVER") then Some(ServerKind)
      else if EqNoCase(cmd, "GLOB") then Some(GlobKind)
      else if EqNoCase(cmd, "CHANNEL") then Some(ChannelKind)
      else if EqNoCase(cmd, "NICKAGE") then Some(NickageKind)
      else if EqNoCase(cmd, "NUMCHAN") then Some(NumchanKind)
      else if EqNoCase(cmd, "IDENTIFIED") then Some(IdentifiedKind)
      else None
  {
    assert Lower("REGEXP") == "regexp" && Lower("SERVER") == "server" && Lower("GLOB") == "glob";
    assert Lower("CHANNEL") == "channel" && Lower("NICKAGE") == "nickage";
    assert Lower("NUMCHAN") == "numchan" && Lower("IDENTIFIED") == "identified";
  }

  lemma {:induction false} ResolveFront(q: Query, qs: seq<Query>, t: Tables)
    ensures ResolveAll([q] + qs, t) == [Resolve(q, t)] + ResolveAll(qs, t)
  {
  }

  lemma {:induction false} PairAsks(ws: seq<string>, loose: bool, t: Tables)
    requires |ws| >= 2
    ensures CompileWords(ws, loose, t) ==
      match QueryOf(ws[0], ws[1])
      case None => (if KindOf(ws[0]) == Some(RegexpKind) then RegexpSeen else Invalid)
      case Some(q) => Prepend(Resolve(q, t), CompileWords(ws[2..], loose, t))
  {
    var kind := KindOf(ws[0]);
    if kind.Some? && kind != Some(RegexpKind) { ArgumentAsks(kind.value, ws[1], t); }
  }

  lemma {:induction false} WordsCompile(ws: seq<string>, loose: bool, t: Tables)
    ensures match QueriesOf(ws)
      case Some(qs) => CompileWords(ws, loose, t) == Compiled(ResolveAll(qs, t))
      case None => !CompileWords(ws, loose, t).Compiled?
    decreases |ws|
  {
    if |ws| >= 2 {
      PairAsks(ws, loose, t);
      WordsCompile(ws[2..], loose, t);
      if QueriesOf(ws).Some? {
        ResolveFront(QueryOf(ws[0], ws[1]).value, QueriesOf(ws[2..]).value, t);
      }
    }
  }

  /** A text whose words ask for something compiles to the criteria of just that. */
  lemma {:induction false} CompileGivesQueries(s: string, saved: string, t: Tables)
    requires QueriesOf(Words(s)).Some?
    ensures Compile(Some(s), saved, t) == Compiled(ResolveAll(QueriesOf(Words(s)).value, t))
  {
    CompileReadsWords(s, saved, t);
    WordsCompile(Words(s), Loose(s), t);
  }

  /** A text without a REGEXP, or a keyword with nothing but spaces behind it, where the loop gets to,
      compiles exactly when its words are pairs of a known keyword and an argument it takes. */
  lemma {:induction false} CompilesExactlyWhenGood(s: string, saved: string, t: Tables)
    requires Compile(Some(s), saved, t) != RegexpSeen && Compile(Some(s), saved, t) != NullToken
    ensures Compile(Some(s), saved, t).Compiled? <==> QueriesOf(Words(s)).Some?
  {
    CompileReadsWords(s, saved, t);
    WordsCompile(Words(s), Loose(s), t);
  }

  // ---------------------------------------------------------------- what is refused

  /** The first word that is no keyword of a pair that asks for something. */
  function FirstBad(ws: seq<string>): (k: nat)
    ensures k <= |ws| && k % 2 == 0
    ensures forall j :: 0 <= j < k && j % 2 == 0 ==> j + 1 < |ws| && QueryOf(ws[j], ws[j + 1]).Some?
    ensures k + 1 < |ws| ==> QueryOf(ws[k], ws[k + 1]) == None
  {
    if |ws| < 2 || QueryOf(ws[0], ws[1]) == None then 0
    else
      var rest := ws[2..];
      assert forall j :: 2 <= j < |ws| ==> ws[j] == rest[j - 2];
      2 + FirstBad(rest)
  }

  /** What the loop refuses at word k: an unknown keyword; a keyword with nothing behind it, REGEXP
      or not; an argument that the keyword does not take. */
  predicate RefusedAt(ws: seq<string>, k: nat, loose: bool)
    requires k < |ws|
  {
    || KindOf(ws[k]) == None
    || (k + 1 == |ws| && !loose)
    || (k + 1 < |ws| && KindOf(ws[k]) != Some(RegexpKind) && QueryOf(ws[k], ws[k + 1]) == None)
  }

  predicate Refused(s: string) {
    var k := FirstBad(Words(s));
    k < |Words(s)| && RefusedAt(Words(s), k, Loose(s))
  }

  lemma {:induction false} WordsRefused(ws: seq<string>, loose: bool, t: Tables)
    ensures CompileWords(ws, loose, t) == Invalid <==> FirstBad(ws) < |ws| && RefusedAt(ws, FirstBad(ws), loose)
    decreases |ws|
  {
    if |ws| >= 2 {
      PairAsks(ws, loose, t);
      if QueryOf(ws[0], ws[1]).Some? { WordsRefused(ws[2..], loose, t); }
    }
  }

  /** Criteria are invalid when the first word that is wrong is one the loop refuses; and only then,
      unless the loop meets a REGEXP before, behind which anything may be wrong. */
  lemma {:induction false} InvalidExactlyWhenRefused(s: string, saved: string, t: Tables)
    ensures Refused(s) ==> Compile(Some(s), saved, t) == Invalid
    ensures Compile(Some(s), saved, t) != RegexpSeen ==> (Compile(Some(s), saved, t) == Invalid <==> Refused(s))
  {
    CompileReadsWords(s, saved, t);
    WordsRefused(Words(s), Loose(s), t);
  }

  // ---------------------------------------------------------------- reading back what was written

  lemma {:induction false} ComparisonReads(op: Option<Op>, n: int)
    ensures var arg := OpText(op) + IntText(n);
      OpOf(arg) == op && NumberOf(arg) == n && IsWord(arg)
  {
    var (o, number) := (OpText(op), IntText(n));
    var s := o + number;
    IntTextReads(n);
    assert s[|o|..] == number && s[|o|] == number[0];
    match op
    case None => assert s == number;
    case Some(Le) => assert s[0] == '<' && s[1] == '=';
    case Some(Ge) => assert s[0] == '>' && s[1] == '=';
    case Some(_) => assert s[0] == o[0];
  }

  function KindFor(q: Query): Kind {
    match q
    case ServerIs(_) => ServerKind
    case MaskIs(_) => GlobKind
    case OnChannel(_) => ChannelKind
    case AgeIs(_, _) => NickageKind
    case ChannelsAre(_, _) => NumchanKind
    case IsIdentified(_) => IdentifiedKind
  }

  lemma {:induction false} KeywordIsWord(q: Query)
    ensures IsWord(Keyword(q))
  {
  }

  lemma {:induction false} KeywordReads(q: Query)
    ensures KindOf(Keyword(q)) == Some(KindFor(q))
  {
    match q
    case ServerIs(_) => assert Lower("SERVER") == "server";
    case MaskIs(_) => assert Lower("GLOB") == "glob";
    case OnChannel(_) => assert Lower("CHANNEL") == "channel";
    case AgeIs(_, _) => assert Lower("NICKAGE") == "nickage";
    case ChannelsAre(_, _) => assert Lower("NUMCHAN") == "numchan";
    case IsIdentified(_) => assert Lower("IDENTIFIED") == "identified";
  }

  lemma {:induction false} ArgumentReads(q: Query)
    requires WellFormed(q)
    ensures Ask(KindFor(q), Argument(q)) == Some(q) && IsWord(Argument(q))
  {
    match q
    case AgeIs(op, n) => ComparisonReads(op, n);
    case ChannelsAre(op, n) => ComparisonReads(op, n);
    case IsIdentified(_) => YesNo();
    case _ =>
  }

  /** A query is written as one pair of words, which asks for it. */
  lemma {:induction false} PairReads(q: Query)
    requires WellFormed(q)
    ensures QueryOf(Keyword(q), Argument(q)) == Some(q) && IsWord(Keyword(q)) && IsWord(Argument(q))
  {
    KeywordReads(q);
    KeywordIsWord(q);
    ArgumentReads(q);
  }

  lemma {:induction false} FrontPair(keyword: string, arg: string, ws: seq<string>)
    ensures QueriesOf([keyword, arg] + ws) ==
      match (QueryOf(keyword, arg), QueriesOf(ws))
      case (Some(q), Some(qs)) => Some([q] + qs)
      case _ => None
  {
    var all := [keyword, arg] + ws;
    assert all[0] == keyword && all[1] == arg && all[2..] == ws;
  }

  lemma {:induction false} WordsOfAsk(qs: seq<Query>)
    requires forall k :: 0 <= k < |qs| ==> WellFormed(qs[k])
    ensures QueriesOf(WordsOf(qs)) == Some(qs)
  {
    if qs != [] {
      PairReads(qs[0]);
      WordsOfAsk(qs[1..]);
      FrontPair(Keyword(qs[0]), Argument(qs[0]), WordsOf(qs[1..]));
      assert [qs[0]] + qs[1..] == qs;
    }
  }

  lemma {:induction false} WordThen(w: string, rest: string)
    requires IsWord(w)
    ensures Words(w + " " + rest) == [w] + Words(rest)
  {
    StrtokToken(w, ' ', rest, " ");
  }

  lemma {:induction false} LastWord(w: string)
    requires IsWord(w)
    ensures Words(w) == [w]
  {
    StrtokLast(w, " ");
    assert Strtok("", " ") == (None, "");
    assert Words("") == [];
  }

  lemma {:induction false} RenderedWords(qs: seq<Query>)
    requires forall k :: 0 <= k < |qs| ==> WellFormed(qs[k])
    ensures Words(Render(qs)) == WordsOf(qs)
  {
    if qs == [] {
      assert Strtok("", " ") == (None, "");
    } else {
      var (word, arg) := (Keyword(qs[0]), Argument(qs[0]));
      PairReads(qs[0]);
      if |qs| == 1 {
        WordThen(word, arg);
        LastWord(arg);
      } else {
        WordThen(word, arg + " " + Render(qs[1..]));
        WordThen(arg, Render(qs[1..]));
        RenderedWords(qs[1..]);
      }
    }
  }

  /** Writing criteria down and compiling the text gives them back, with nothing left over. */
  lemma {:induction false} CompileAfterRender(qs: seq<Query>, saved: string, t: Tables)
    requires forall k :: 0 <= k < |qs| ==> WellFormed(qs[k])
    ensures Compile(Some(Render(qs)), saved, t) == Compiled(ResolveAll(qs, t))
  {
    RenderedWords(qs);
    WordsOfAsk(qs);
    CompileGivesQueries(Render(qs), saved, t);
  }
}
