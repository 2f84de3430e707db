/** The TRACE command of src/os_trace.c: its arguments are compiled step by step, and one action is
    run on the users of the network. */
module Trace {
  import opened Options
  import opened CStrings
  import opened TraceText
  import opened TraceQuery
  import opened TraceAction

  // ---------------------------------------------------------------- arguments

  lemma {:induction false} UpToStep(s: string, start: nat, i: nat, c: char)
    requires start <= i < |s| && s[i] != c
    requires UpTo(s[start..], c) == i - start + UpTo(s[i..], c)
    ensures UpTo(s[start..], c) == i + 1 - start + UpTo(s[i + 1..], c)
  {
    assert s[i..][0] == s[i] && s[i..][1..] == s[i + 1..];
  }

  method SkipBlanks(args: string) returns (i: nat)
    ensures i <= |args| && args[i..] == Skip(args, " ")
  {
    i := 0;
    while i < |args| && args[i] == ' '
      invariant 0 <= i <= |args|
      invariant Skip(args[i..], " ") == Skip(args, " ")
    {
      assert args[i..][0] == ' ' && args[i..][1..] == args[i + 1..];
      i := i + 1;
    }
    assert i < |args| ==> args[i..][0] == args[i];
  }

  method FindClosing(args: string, start: nat, closing: char) returns (i: nat)
    requires start <= |args|
    ensures start <= i <= |args| && UpTo(args[start..], closing) == i - start
  {
    i := start;
    while i < |args| && args[i] != closing
      invariant start <= i <= |args|
      invariant UpTo(args[start..], closing) == i - start + UpTo(args[i..], closing)
    {
      UpToStep(args, start, i, closing);
      i := i + 1;
    }
    assert i < |args| ==> args[i..][0] == closing;
  }

  lemma {:induction false} QuotedParts(args: string, start: nat, i: nat)
    requires start < i <= |args| && args[start..] == Skip(args, " ") && args[start] == '"'
    requires UpTo(args[start + 1..], '"') == i - start - 1
    ensures ReasonExtract(args) ==
            if i == |args| then (None, None) else (Some(args[start + 1..i]), NonEmpty(args[i + 1..]))
  {
    var s := args[start..];
    assert s[0] == args[start] && s[1..] == args[start + 1..];
    if i < |args| {
      var n := i - start - 1;
      assert s[1..][..n] == args[start + 1..i] && s[1..][n + 1..] == args[i + 1..];
    }
  }

  lemma {:induction false} BareParts(args: string, start: nat, i: nat)
    requires start <= i <= |args| && args[start..] == Skip(args, " ") && (start < |args| ==> args[start] != '"')
    requires UpTo(args[start..], ' ') == i - start
    ensures ReasonExtract(args) == (Some(args[start..i]), if i == |args| then None else NonEmpty(args[i + 1..]))
  {
    var (s, n) := (args[start..], i - start);
    assert s != "" ==> s[0] == args[start];
    assert s[..n] == args[start..i];
    if i < |args| { assert s[n + 1..] == args[i + 1..]; }
  }

  /** reason_extract: over the blanks, over an opening quote, and on to the closing one or to a space. */
  method ExtractReason(args: string) returns (reason: Option<string>, rest: Option<string>)
    ensures (reason, rest) == ReasonExtract(args)
  {
    var start := SkipBlanks(args);
    ghost var blanks := start;
    var quotes := start < |args| && args[start] == '"';
    if quotes {
      start := start + 1;
    }
    var i := FindClosing(args, start, if quotes then '"' else ' ');
    if quotes { QuotedParts(args, blanks, i); } else { BareParts(args, blanks, i); }
    reason := Some(args[start..i]);
    rest := None;
    if i < |args| {
      if i + 1 < |args| {
        rest := Some(args[i + 1..]);
      }
    } else if quotes {
      reason := None;
    }
  }

  /** trace_akill_prepare. */
  method PrepareAkill(args: Option<string>, klineTime: int) returns (a: Option<Action>, rest: Option<string>)
    ensures (a, rest) == AkillPrepare(args, klineTime)
  {
    if args == None {
      return None, None;
    }
    var duration := klineTime;
    var (token, text) := AkillToken(Skip(args.value, " "));
    if token == Timed {
      var (s, after) := Strtok(text, " ");
      if after == "" {
        return None, None;
      }
      duration := Seconds(s.value);
      if duration == 0 {
        return None, Some(after);
      }
      text := after;
    } else if token == Permanent {
      duration := 0;
    }
    var reason;
    reason, rest := ExtractReason(text);
    a := if reason == None then None else Some(Akill(duration, reason.value));
  }

  /** The criteria loop of os_cmd_trace_run. */
  method CompileCriteria(text: string, t: Tables) returns (c: Compilation)
    ensures c == Compile(Some(text), "", t)
  {
    var args: Option<string> := Some(text);
    var saved := "";
    var crit: seq<Criterion> := [];
    PrependNothing(Compile(Some(text), "", t));
    while true
      invariant Compile(Some(text), "", t) == PrependAll(crit, Compile(args, saved, t))
      decreases if args.Some? then |args.value| else |saved|
    {
      var turn := TakeTurn(args, saved, t);
      match turn {
        case Stop(result) =>
          c := if result.Compiled? then Compiled(crit + result.crit) else result;
          return;
        case Next(criterion, args2, saved2) =>
          PrependOneMore(crit, criterion, Compile(args2, saved2, t));
          crit := crit + [criterion];
          args, saved := args2, saved2;
      }
    }
  }

  /** One turn of the loop; it also stops, with success, when there is no further token. */
  method TakeTurn(args: Option<string>, saved: string, t: Tables) returns (turn: Turn)
    ensures turn.Stop? ==> turn.result == Compile(args, saved, t)
    ensures turn.Next? ==> Compile(args, saved, t) == Prepend(turn.c, Compile(turn.args, turn.saved, t))
    ensures turn.Next? ==> var n := if args.Some? then |args.value| else |saved|;
                           |turn.saved| < n && (turn.args.Some? ==> |turn.args.value| < n)
  {
    var (cmd, s1) := Tokenise(args, saved, " ");
    if cmd == None {
      LastTurn(args, saved, s1, t);
      return Stop(Compiled([]));
    }
    turn := ReadCriterion(KindOf(cmd.value), s1, t);
    OneTurn(args, saved, cmd.value, s1, turn, t);
  }

  lemma {:induction false} PrependNothing(c: Compilation)
    ensures PrependAll([], c) == c
  {
    if c.Compiled? { assert [] + c.crit == c.crit; }
  }

  lemma {:induction false} LastTurn(args: Option<string>, saved: string, s1: string, t: Tables)
    requires Tokenise(args, saved, " ") == (None, s1)
    ensures Compile(args, saved, t) == Compiled([])
  {
  }

  lemma {:induction false} OneTurn(args: Option<string>, saved: string, cmd: string, s1: string, turn: Turn, t: Tables)
    requires Tokenise(args, saved, " ") == (Some(cmd), s1) && turn == ReadCriterion(KindOf(cmd), s1, t)
    ensures turn.Stop? ==> turn.result == Compile(args, saved, t) && !turn.result.Compiled?
    ensures turn.Next? ==> Compile(args, saved, t) == Prepend(turn.c, Compile(turn.args, turn.saved, t))
  {
  }

  function PrependAll(crit: seq<Criterion>, c: Compilation): Compilation {
    match c case Compiled(more) => Compiled(crit + more) case _ => c
  }

  lemma {:induction false} PrependOneMore(crit: seq<Criterion>, c: Criterion, rest: Compilation)
    ensures PrependAll(crit, Prepend(c, rest)) == PrependAll(crit + [c], rest)
  {
    match rest
    case Compiled(more) => assert crit + ([c] + more) == crit + [c] + more;
    case _ =>
  }

  // ---------------------------------------------------------------- the command

  /** All criteria accept the user. */
  predicate Accepts(crit: seq<Criterion>, u: User, w: World) {
    forall k :: 0 <= k < |crit| ==> Exec(crit[k], u, w)
  }

  function Selected(crit: seq<Criterion>, users: seq<User>, w: World): seq<User> {
    Filter(users, u => Accepts(crit, u, w))
  }

  // What the oper is told when the command is over.
  datatype Report =
    | SyntaxError | ActionFailed | NeedMoreParams | CriteriaFailed
    | Matches(n: nat) | NoMatches | Done | Undefined

  const NO_EFFECT := Effect(false, 0, [], [], [])

  /** The actions by name, folding case. */
  function PrepareAction(name: string, args: Option<string>, klineTime: int): Option<(Option<Action>, Option<string>)> {
    var l := Lower(name);
    if l == "print" then Some((Some(Print), args))
    else if l == "count" then Some((Some(Count), args))
    else if l == "kill" then
      Some(if args == None then (None, None)
           else match ReasonExtract(args.value)
             case (None, rest) => (None, rest)
             case (Some(reason), rest) => (Some(Kill(reason)), rest))
    else if l == "akill" then Some(AkillPrepare(args, klineTime))
    else None
  }

  /** The cleanup function of the action after a run that succeeded. */
  function Summary(a: Action, e: Effect): Report {
    if a == Count then Matches(e.matches) else if e.matched then Done else NoMatches
  }

  /** The whole command on values: the report, and the klines and killed users it leaves. */
  function Outcome(name: string, args: Option<string>, users: seq<User>, klines: seq<Kline>,
                   klineTime: int, t: Tables, w: World, p: Policy): (Report, Effect)
  {
    var e := NO_EFFECT.(klines := klines);
    match PrepareAction(name, args, klineTime)
    case None => (SyntaxError, e)
    case Some((None, _)) => (ActionFailed, e)
    case Some((_, None)) => (NeedMoreParams, e)
    case Some((Some(a), Some(text))) => RunOutcome(a, text, users, e, t, w, p)
  }

  /** os_cmd_trace_run, from the effect so far. */
  function RunOutcome(a: Action, text: string, users: seq<User>, e: Effect, t: Tables, w: World, p: Policy)
    : (Report, Effect)
  {
    match Compile(Some(text), "", t)
    case Compiled(crit) =>
      var done := ActAll(a, Selected(crit, users, w), e, p);
      (Summary(a, done), done)
    case Invalid => (CriteriaFailed, e)
    case _ => (Undefined, e)
  }

  class Services {
    // The kline list of the network.
    var klines: seq<Kline>
    // The trace_action at work, and what it did.
    var matched: bool
    var matches: nat
    var shown: seq<User>
    var killed: seq<User>

    constructor (klines: seq<Kline>)
      ensures View() == NO_EFFECT.(klines := klines)
    {
      this.klines := klines;
      matched, matches, shown, killed := false, 0, [], [];
    }

    function View(): Effect
      reads this
    {
      Effect(matched, matches, shown, killed, klines)
    }

    /** The exec functions of the actions. */
    method Perform(a: Action, u: User, p: Policy)
      modifies this
      ensures View() == Act(a, u, old(View()), p)
    {
      if u.isInternal {
        return;
      }
      match a {
        case Print =>
          matched := true;
          shown := shown + [u];
        case Count =>
          matched := true;
          matches := matches + 1;
        case Kill(_) =>
          if u.isIrcop || (u.identified && u.isSoper) || !p.operserv {
            return;
          }
          matched := true;
          killed := killed + [u];
        case Akill(duration, reason) =>
          if u.isIrcop || (u.identified && u.isSoper) || p.isLocal(u.host) {
            return;
          }
          var found := FindKline(u.host);
          if found {
            return;
          }
          matched := true;
          klines := klines + [Kline(u.host, reason, duration)];
      }
    }

    /** kline_find("*", host) */
    method FindKline(host: string) returns (found: bool)
      ensures found == Covered(klines, host)
    {
      for k := 0 to |klines|
        invariant forall j :: 0 <= j < k ==> klines[j].host != host
      {
        if klines[k].host == host {
          return true;
        }
      }
      found := false;
    }

    /** The loop of os_cmd_trace_run over the users, which leaves the criteria at the first refusal. */
    method RunOnUsers(a: Action, crit: seq<Criterion>, users: seq<User>, w: World, p: Policy)
      modifies this
      ensures View() == ActAll(a, Selected(crit, users, w), old(View()), p)
    {
      for k := 0 to |users|
        invariant View() == ActAll(a, Selected(crit, users[..k], w), old(View()), p)
      {
        var u := users[k];
        var doit := Check(crit, u, w);
        SelectedOneMore(crit, users[..k], u, w);
        assert users[..k + 1] == users[..k] + [u];
        if doit {
          ActOneMore(a, Selected(crit, users[..k], w), u, old(View()), p);
          Perform(a, u, p);
        }
      }
      assert users[..|users|] == users;
    }

    /** os_cmd_trace_run and the cleanup: nothing is done unless all criteria compile. */
    method Run(a: Action, text: string, users: seq<User>, t: Tables, w: World, p: Policy) returns (report: Report)
      requires View() == NO_EFFECT.(klines := klines)
      modifies this
      ensures (report, View()) == RunOutcome(a, text, users, old(View()), t, w, p)
    {
      var c := CompileCriteria(text, t);
      match c {
        case Invalid => report := CriteriaFailed;
        case NullToken => report := Undefined;
        case RegexpSeen => report := Undefined;
        case Compiled(crit) =>
          RunOnUsers(a, crit, users, w, p);
          report := if a == Count then Matches(matches) else if matched then Done else NoMatches;
      }
    }

    /** TRACE <action> <arguments> */
    method OsCmdTrace(name: Option<string>, args: Option<string>, users: seq<User>,
                      klineTime: int, t: Tables, w: World, p: Policy) returns (report: Report)
      modifies this
      ensures (report, View()) ==
        if name == None then (SyntaxError, NO_EFFECT.(klines := old(klines)))
        else Outcome(name.value, args, users, old(klines), klineTime, t, w, p)
    {
      matched, matches, shown, killed := false, 0, [], [];
      if name == None {
        return SyntaxError;
      }
      var prepared := PrepareAction(name.value, args, klineTime);
      if prepared == None {
        return SyntaxError;
      }
      var (action, rest) := prepared.value;
      if action == None {
        return ActionFailed;
      }
      if rest == None {
        return NeedMoreParams;
      }
      report := Run(action.value, rest.value, users, t, w, p);
    }
  }

  /** The inner loop over the criteria. */
  method Check(crit: seq<Criterion>, u: User, w: World) returns (doit: bool)
    ensures doit == Accepts(crit, u, w)
  {
    for k := 0 to |crit|
      invariant forall j :: 0 <= j < k ==> Exec(crit[j], u, w)
    {
      if !Exec(crit[k], u, w) {
        return false;
      }
    }
    doit := true;
  }

  lemma {:induction false} SelectedOneMore(crit: seq<Criterion>, users: seq<User>, u: User, w: World)
    ensures Selected(crit, users + [u], w) ==
            if Accepts(crit, u, w) then Selected(crit, users, w) + [u] else Selected(crit, users, w)
  {
    assert (users + [u])[..|users|] == users;
  }

  lemma {:induction false} ActOneMore(a: Action, us: seq<User>, u: User, e: Effect, p: Policy)
    ensures ActAll(a, us + [u], e, p) == Act(a, u, ActAll(a, us, e, p), p)
  {
    assert (us + [u])[..|us|] == us;
  }

  // ---------------------------------------------------------------- what a TRACE does

  /** The users all queries mean. */
  predicate AllMean(qs: seq<Query>, u: User, w: World, t: Tables) {
    forall k :: 0 <= k < |qs| ==> Means(qs[k], u, w, t)
  }

  lemma {:induction false} SelectedIsWhatIsMeant(qs: seq<Query>, users: seq<User>, w: World, t: Tables)
    ensures Selected(ResolveAll(qs, t), users, w) == Filter(users, u => AllMean(qs, u, w, t))
  {
    if users != [] {
      var u := users[|users| - 1];
      SelectedIsWhatIsMeant(qs, users[..|users| - 1], w, t);
      forall k | 0 <= k < |qs| ensures Exec(ResolveAll(qs, t)[k], u, w) <==> Means(qs[k], u, w, t) {
        ResolvedMeansTheSame(qs[k], u, w, t);
      }
      assert Accepts(ResolveAll(qs, t), u, w) <==> AllMean(qs, u, w, t);
    }
  }

  /** From text to effect: an action whose arguments leave criteria, however spelled and spaced, is
      done to exactly the users the criteria mean, in the order of the directory. */
  lemma {:induction false} TraceActsOnExactlyThoseMeant(name: string, args: Option<string>, a: Action, text: string,
      qs: seq<Query>, users: seq<User>, klines: seq<Kline>, klineTime: int, t: Tables, w: World, p: Policy)
    requires PrepareAction(name, args, klineTime) == Some((Some(a), Some(text)))
    requires QueriesOf(Words(text)) == Some(qs)
    ensures var done := ActAll(a, Filter(users, u => AllMean(qs, u, w, t)), NO_EFFECT.(klines := klines), p);
      Outcome(name, args, users, klines, klineTime, t, w, p) == (Summary(a, done), done)
  {
    CompileGivesQueries(text, "", t);
    SelectedIsWhatIsMeant(qs, users, w, t);
  }

  /** When the first word that is wrong is one the loop refuses, the criteria are reported as invalid and
      nobody is acted on, whatever came before it; and unless there is a REGEXP before it they are
      reported as invalid only then. */
  lemma {:induction false} BadCriterionStopsAll(name: string, args: Option<string>, a: Action, text: string,
      users: seq<User>, klines: seq<Kline>, klineTime: int, t: Tables, w: World, p: Policy)
    requires PrepareAction(name, args, klineTime) == Some((Some(a), Some(text)))
    ensures var outcome := Outcome(name, args, users, klines, klineTime, t, w, p);
      && (Refused(text) ==> outcome == (CriteriaFailed, NO_EFFECT.(klines := klines)))
      && (Compile(Some(text), "", t) != RegexpSeen ==> (outcome.0 == CriteriaFailed <==> Refused(text)))
  {
    InvalidExactlyWhenRefused(text, "", t);
  }

  /** The actions are found in any case, and only those four. */
  lemma {:induction false} ActionsAre(name: string, args: Option<string>, klineTime: int)
    ensures PrepareAction(name, args, klineTime) ==
      if EqNoCase(name, "PRINT") then Some((Some(Print), args))
      else if EqNoCase(name, "COUNT") then Some((Some(Count), args))
      else if EqNoCase(name, "KILL") then Some(
        match args
        case None => (None, None)
        case Some(text) =>
          var (reason, rest) := ReasonExtract(text);
          (if reason == None then None else Some(Kill(reason.value)), rest))
      else if EqNoCase(name, "AKILL") then Some(AkillPrepare(args, klineTime))
      else None
  {
    assert Lower("PRINT") == "print" && Lower("COUNT") == "count";
    assert Lower("KILL") == "kill" && Lower("AKILL") == "akill";
  }

  /** Without an action of that name, with one that finds its arguments wanting, or without criteria the
      command fails, each with its own report, and nobody is acted on. */
  lemma {:induction false} FailuresAre(name: string, args: Option<string>, users: seq<User>, klines: seq<Kline>,
      klineTime: int, t: Tables, w: World, p: Policy)
    ensures var outcome := Outcome(name, args, users, klines, klineTime, t, w, p);
      match PrepareAction(name, args, klineTime)
      case None => outcome == (SyntaxError, NO_EFFECT.(klines := klines))
      case Some((None, _)) => outcome == (ActionFailed, NO_EFFECT.(klines := klines))
      case Some((_, None)) => outcome == (NeedMoreParams, NO_EFFECT.(klines := klines))
      case _ => outcome.0 !in [SyntaxError, ActionFailed, NeedMoreParams]
  {
    match PrepareAction(name, args, klineTime)
    case Some((Some(a), Some(text))) => RunReports(a, text, users, NO_EFFECT.(klines := klines), t, w, p);
    case _ =>
  }

  lemma {:induction false} RunReports(a: Action, text: string, users: seq<User>, e: Effect,
      t: Tables, w: World, p: Policy)
    ensures RunOutcome(a, text, users, e, t, w, p).0 !in [SyntaxError, ActionFailed, NeedMoreParams]
  {
  }

  lemma {:induction false} ActionNames(args: Option<string>, klineTime: int)
    ensures PrepareAction("PRINT", args, klineTime) == Some((Some(Print), args))
    ensures PrepareAction("COUNT", args, klineTime) == Some((Some(Count), args))
    ensures PrepareAction("AKILL", args, klineTime) == Some(AkillPrepare(args, klineTime))
  {
    assert Lower("PRINT") == "print" && Lower("COUNT") == "count" && Lower("AKILL") == "akill";
  }

  /** COUNT tells how many of the users meant are not internal clients. */
  lemma {:induction false} CountTellsHowMany(qs: seq<Query>, text: string, users: seq<User>, klines: seq<Kline>,
      klineTime: int, t: Tables, w: World, p: Policy)
    requires QueriesOf(Words(text)) == Some(qs)
    ensures var meant := Filter(users, u => AllMean(qs, u, w, t));
      Outcome("COUNT", Some(text), users, klines, klineTime, t, w, p).0
      == Matches(|Filter(meant, (u: User) => !u.isInternal)|)
  {
    ActionNames(Some(text), klineTime);
    TraceActsOnExactlyThoseMeant("COUNT", Some(text), Count, text, qs, users, klines, klineTime, t, w, p);
    CountCounts(Filter(users, u => AllMean(qs, u, w, t)), NO_EFFECT.(klines := klines), p);
  }

  /** PRINT shows exactly those, in order, and says "No matches." exactly when there are none. */
  lemma {:induction false} PrintShowsThem(qs: seq<Query>, text: string, users: seq<User>, klines: seq<Kline>,
      klineTime: int, t: Tables, w: World, p: Policy)
    requires QueriesOf(Words(text)) == Some(qs)
    ensures var seen := Filter(Filter(users, u => AllMean(qs, u, w, t)), (u: User) => !u.isInternal);
      var (r, e) := Outcome("PRINT", Some(text), users, klines, klineTime, t, w, p);
      e.shown == seen && (r == NoMatches <==> seen == [])
  {
    ActionNames(Some(text), klineTime);
    var meant := Filter(users, u => AllMean(qs, u, w, t));
    TraceActsOnExactlyThoseMeant("PRINT", Some(text), Print, text, qs, users, klines, klineTime, t, w, p);
    PrintShows(meant, NO_EFFECT.(klines := klines), p);
    var seen := Filter(meant, (u: User) => !u.isInternal);
    assert NO_EFFECT.shown + seen == seen;
  }

  /** KILL kills exactly the users meant that are no internal clients and no opers, in order. */
  lemma {:induction false} KillKillsThem(args: string, reason: string, text: string, qs: seq<Query>, users: seq<User>,
      klines: seq<Kline>, klineTime: int, t: Tables, w: World, p: Policy)
    requires ReasonExtract(args) == (Some(reason), Some(text)) && QueriesOf(Words(text)) == Some(qs)
    ensures var meant := Filter(users, u => AllMean(qs, u, w, t));
      var hit := Filter(meant, (u: User) =>
        !u.isInternal && !u.isIrcop && !(u.identified && u.isSoper) && p.operserv);
      var (r, e) := Outcome("KILL", Some(args), users, klines, klineTime, t, w, p);
      e.killed == hit && e.klines == klines && (r == NoMatches <==> hit == [])
  {
    var meant := Filter(users, u => AllMean(qs, u, w, t));
    KillName(args, klineTime);
    TraceActsOnExactlyThoseMeant("KILL", Some(args), Kill(reason), text, qs, users, klines, klineTime, t, w, p);
    KillKills(meant, NO_EFFECT.(klines := klines), p, reason);
    var hit := Filter(meant, (u: User) =>
      !u.isInternal && !u.isIrcop && !(u.identified && u.isSoper) && p.operserv);
    assert NO_EFFECT.killed + hit == hit;
  }

  lemma {:induction false} KillName(args: string, klineTime: int)
    ensures PrepareAction("KILL", Some(args), klineTime) ==
            Some(match ReasonExtract(args)
                 case (None, rest) => (None, rest)
                 case (Some(reason), rest) => (Some(Kill(reason)), rest))
  {
    assert Lower("KILL") == "kill";
  }

  /** An AKILL leaves the old klines alone, adds one for each uncovered host of an eligible user
      meant, leaves every eligible user meant covered, and says "No matches." exactly if it adds none. */
  lemma {:induction false} AkillCoversExactlyTheEligible(args: string, a: Action, text: string, qs: seq<Query>,
      users: seq<User>, klines: seq<Kline>, klineTime: int, t: Tables, w: World, p: Policy)
    requires AkillPrepare(Some(args), klineTime) == (Some(a), Some(text)) && a.Akill?
    requires QueriesOf(Words(text)) == Some(qs)
    ensures var meant := Filter(users, u => AllMean(qs, u, w, t));
      var e := Outcome("AKILL", Some(args), users, klines, klineTime, t, w, p).1;
      && Extended(klines, e.klines, meant, a, p)
      && Outcome("AKILL", Some(args), users, klines, klineTime, t, w, p).0
         == (if |e.klines| > |klines| then Done else NoMatches)
      && (forall i :: 0 <= i < |meant| && Eligible(meant[i], p) ==> Covered(e.klines, meant[i].host))
  {
    ActionNames(Some(args), klineTime);
    var (meant, e) := (Filter(users, u => AllMean(qs, u, w, t)), NO_EFFECT.(klines := klines));
    TraceActsOnExactlyThoseMeant("AKILL", Some(args), a, text, qs, users, klines, klineTime, t, w, p);
    AkillExtends(meant, e, a, p);
    AkillCovers(meant, e, a, p);
    AkillMatchesWhatItAdds(meant, e, a, p);
  }
}
