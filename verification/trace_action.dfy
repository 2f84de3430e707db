/** The actions of TRACE in src/os_trace.c: their reasons and durations, and what they do to the
    users they are handed. */
module TraceAction {
  import opened Options
  import opened CStrings
  import opened Decimals
  import opened TraceQuery

  // ---------------------------------------------------------------- reasons

  /** The index of the first c, or the length. */
  function UpTo(s: string, c: char): (n: nat)
    ensures n <= |s| && (n < |s| ==> s[n] == c)
  {
    if s == "" || s[0] == c then 0 else 1 + UpTo(s[1..], c)
  }

  function NonEmpty(s: string): Option<string> {
    if s == "" then None else Some(s)
  }

  /** reason_extract: a quoted text, or the text up to a space, and the arguments after it. */
  function ReasonExtract(args: string): (Option<string>, Option<string>) {
    var s := Skip(args, " ");
    if s != "" && s[0] == '"' then
      var n := UpTo(s[1..], '"');
      if n == |s| - 1 then (None, None) else (Some(s[1..][..n]), NonEmpty(s[1..][n + 1..]))
    else
      var n := UpTo(s, ' ');
      (Some(s[..n]), if n == |s| then None else NonEmpty(s[n + 1..]))
  }

  lemma {:induction false} UpToIs(a: string, c: char, rest: string)
    requires c !in a
    ensures UpTo(a + [c] + rest, c) == |a| && UpTo(a, c) == |a|
  {
    if a == "" {
      assert a + [c] + rest == [c] + rest;
    } else {
      assert a[0] in a && (a + [c] + rest)[0] == a[0] && (a + [c] + rest)[1..] == a[1..] + [c] + rest;
      UpToIs(a[1..], c, rest);
    }
  }

  lemma {:induction false} SkipsBlanks(blanks: string, s: string)
    requires (forall c :: c in blanks ==> c == ' ') && (s == "" || s[0] != ' ')
    ensures Skip(blanks + s, " ") == s
  {
    if blanks == "" {
      assert blanks + s == s;
    } else {
      assert blanks[0] in blanks && (blanks + s)[0] == ' ' && (blanks + s)[1..] == blanks[1..] + s;
      assert forall c :: c in blanks[1..] ==> c in blanks;
      SkipsBlanks(blanks[1..], s);
    }
  }

  /** A quoted reason is read back, and the arguments behind it are left. */
  lemma {:induction false} QuotedReasonReads(blanks: string, reason: string, rest: string)
    requires (forall c :: c in blanks ==> c == ' ') && '"' !in reason
    ensures ReasonExtract(blanks + ("\"" + reason + "\"" + rest)) == (Some(reason), NonEmpty(rest))
  {
    var s := "\"" + reason + "\"" + rest;
    SkipsBlanks(blanks, s);
    var t := reason + ['"'] + rest;
    assert s[1..] == t;
    UpToIs(reason, '"', rest);
    assert t[..|reason|] == reason && t[|reason| + 1..] == rest;
  }

  /** So is a single word that does not start with a quote. */
  lemma {:induction false} BareReasonReads(blanks: string, word: string, rest: string)
    requires (forall c :: c in blanks ==> c == ' ') && IsWord(word) && word[0] != '"'
    ensures ReasonExtract(blanks + (word + " " + rest)) == (Some(word), NonEmpty(rest))
    ensures ReasonExtract(blanks + word) == (Some(word), None)
  {
    var s := word + " " + rest;
    assert s[0] == word[0] && word[0] in word;
    SkipsBlanks(blanks, s);
    SkipsBlanks(blanks, word);
    UpToIs(word, ' ', rest);
    assert s == word + [' '] + rest && s[..|word|] == word && s[|word| + 1..] == rest && word[..|word|] == word;
  }

  /** A quote that is not closed is no reason. */
  lemma {:induction false} UnclosedQuoteIsNoReason(text: string)
    requires '"' !in text
    ensures ReasonExtract("\"" + text).0 == None
  {
    SkipsBlanks("", "\"" + text);
    assert "" + ("\"" + text) == "\"" + text && ("\"" + text)[1..] == text;
    UpToIs(text, '"', "");
  }

  // ---------------------------------------------------------------- durations

  function DropDigits(s: string): string {
    if s != "" && IsDigit(s[0]) then DropDigits(s[1..]) else s
  }

  /** The seconds of a duration token: minutes, hours, days or weeks; 0 for any other unit. */
  function Seconds(s: string): int {
    var d := Atoi(s) * 60;
    var unit := DropDigits(s);
    if unit == "" then d
    else if unit[0] == 'h' || unit[0] == 'H' then d * 60
    else if unit[0] == 'd' || unit[0] == 'D' then d * 1440
    else if unit[0] == 'w' || unit[0] == 'W' then d * 10080
    else 0
  }

  datatype Token = NoToken | Timed | Permanent

  /** The !T or !P in front of the reason, if it stands alone, and what follows it. */
  function AkillToken(s: string): (Token, string) {
    if |s| < 2 || s[0] != '!' || (ToLower(s[1]) != 't' && ToLower(s[1]) != 'p') then (NoToken, s)
    else
      var token := if ToLower(s[1]) == 't' then Timed else Permanent;
      if |s| == 2 then (token, "") else if s[2] == ' ' then (token, s[3..]) else (NoToken, s)
  }

  datatype Action = Print | Count | Kill(reason: string) | Akill(duration: int, reason: string)

  function WithReason(duration: int, args: string): (Option<Action>, Option<string>) {
    match ReasonExtract(args)
    case (None, rest) => (None, rest)
    case (Some(reason), rest) => (Some(Akill(duration, reason)), rest)
  }

  /** trace_akill_prepare: the action, if the arguments give one, and the arguments left. */
  function AkillPrepare(args: Option<string>, klineTime: int): (Option<Action>, Option<string>) {
    if args == None then (None, None)
    else match AkillToken(Skip(args.value, " "))
      case (NoToken, a) => WithReason(klineTime, a)
      case (Permanent, a) => WithReason(0, a)
      case (Timed, a) =>
        var (s, rest) := Strtok(a, " ");
        if rest == "" || Seconds(s.value) == 0 then (None, NonEmpty(rest))
        else WithReason(Seconds(s.value), rest)
  }

  /** The text begins with a mark of its own: !t or !p, in either case, in front of a space or the end. */
  predicate Marked(s: string) {
    |s| >= 2 && s[0] == '!' && s[1] in "tTpP" && (|s| == 2 || s[2] == ' ')
  }

  /** A leading sign or white space is no digit, so it is taken for a unit, and refused. */
  lemma {:induction false} SecondsNotNegative(s: string)
    ensures Seconds(s) >= 0
  {
    if Negative(s) {
      assert s != "" && !IsDigit(s[0]);
      assert DropDigits(s) == s;
      assert IsSpace(s[0]) || s[0] == '-';
    }
  }

  lemma {:induction false} ReasonKeepsDuration(duration: int, args: string)
    ensures var a := WithReason(duration, args).0;
      a.Some? ==> a.value.Akill? && a.value.duration == duration
  {
  }

  /** Every accepted !T has a positive duration; !P is permanent; without either the network's
      default holds. */
  lemma {:induction false} AcceptedDurations(blanks: string, s: string, klineTime: int)
    requires (forall c :: c in blanks ==> c == ' ') && (s == "" || s[0] != ' ')
    requires AkillPrepare(Some(blanks + s), klineTime).0.Some?
    ensures var a := AkillPrepare(Some(blanks + s), klineTime).0.value;
      && a.Akill?
      && if !Marked(s) then a.duration == klineTime
         else if s[1] in "tT" then a.duration > 0
         else a.duration == 0
  {
    SkipsBlanks(blanks, s);
    match AkillToken(s)
    case (Timed, rest) =>
      var (token, text) := Strtok(rest, " ");
      SecondsNotNegative(token.value);
      ReasonKeepsDuration(Seconds(token.value), text);
    case (Permanent, rest) => ReasonKeepsDuration(0, rest);
    case (NoToken, rest) => ReasonKeepsDuration(klineTime, rest);
  }

  datatype Unit = Minutes | Hours | Days | Weeks

  /** The letter behind the number, in either case. */
  function UnitText(u: Unit, upper: bool): string {
    match u
    case Minutes => ""
    case Hours => if upper then "H" else "h"
    case Days => if upper then "D" else "d"
    case Weeks => if upper then "W" else "w"
  }

  function UnitMinutes(u: Unit): nat {
    match u case Minutes => 1 case Hours => 60 case Days => 1440 case Weeks => 10080
  }

  lemma {:induction false} DigitsDropped(a: string, rest: string)
    requires AllDigits(a) && (rest == "" || !IsDigit(rest[0]))
    ensures DropDigits(a + rest) == rest
  {
    if a == "" {
      assert a + rest == rest;
    } else {
      FrontOf(a, rest);
      DigitsDropped(a[1..], rest);
    }
  }

  lemma {:induction false} NumberRead(n: nat, unit: string)
    requires unit == "" || !IsDigit(unit[0])
    ensures Atoi(Dec(n) + unit) == n && DropDigits(Dec(n) + unit) == unit
  {
    var s := Dec(n) + unit;
    assert s[0] == Dec(n)[0];
    assert SkipSpace(s) == s && Unsigned(s) == s && !Negative(s);
    ReadDec(n, unit);
    DigitsDropped(Dec(n), unit);
  }

  lemma {:induction false} SecondsRead(n: nat, u: Unit, upper: bool)
    ensures Seconds(Dec(n) + UnitText(u, upper)) == 60 * n * UnitMinutes(u)
  {
    NumberRead(n, UnitText(u, upper));
  }

  /** Any other letter behind the number, whatever follows it, gives no duration. */
  lemma {:induction false} OtherUnitsRefused(n: nat, unit: string)
    requires unit != "" && !IsDigit(unit[0]) && unit[0] !in "hHdDwW"
    ensures Seconds(Dec(n) + unit) == 0
  {
    NumberRead(n, unit);
  }

  lemma {:induction false} DurationIsWord(n: nat, u: Unit, upper: bool)
    ensures IsWord(Dec(n) + UnitText(u, upper))
  {
  }

  /** Blanks, the mark !t or !p in either case, and a space in front of the rest. */
  lemma {:induction false} MarkedToken(blanks: string, letter: char, rest: string)
    requires (forall c :: c in blanks ==> c == ' ') && letter in "tTpP"
    ensures AkillToken(Skip(blanks + (['!', letter, ' '] + rest), " "))
         == (if letter in "tT" then Timed else Permanent, rest)
  {
    var s := ['!', letter, ' '] + rest;
    SkipsBlanks(blanks, s);
    assert s[0] == '!' && s[1] == letter && s[2] == ' ' && s[3..] == rest;
    assert ToLower(letter) == if letter in "tT" then 't' else 'p';
  }

  /** "!T n<unit> text", in either case and with blanks in front: the duration is read back, and the text
      gives the reason. */
  lemma {:induction false} TimedAkillReads(blanks: string, letter: char, n: nat, u: Unit, upper: bool, text: string,
      klineTime: int)
    requires (forall c :: c in blanks ==> c == ' ') && letter in "tT" && n > 0 && text != ""
    ensures AkillPrepare(Some(blanks + (['!', letter, ' '] + (Dec(n) + UnitText(u, upper) + " " + text))), klineTime)
         == WithReason(60 * n * UnitMinutes(u), text)
  {
    var token := Dec(n) + UnitText(u, upper);
    var rest := token + " " + text;
    MarkedToken(blanks, letter, rest);
    assert Strtok(rest, " ") == (Some(token), text) by {
      DurationIsWord(n, u, upper);
      StrtokToken(token, ' ', text, " ");
    }
    SecondsRead(n, u, upper);
  }

  /** "!T" with a token that gives no duration, or with nothing behind its token, is refused. */
  lemma {:induction false} TimedAkillRefused(blanks: string, letter: char, token: string, text: string, klineTime: int)
    requires (forall c :: c in blanks ==> c == ' ') && letter in "tT" && IsWord(token)
    requires text == "" || Seconds(token) == 0
    ensures AkillPrepare(Some(blanks + (['!', letter, ' '] + (token + " " + text))), klineTime).0 == None
  {
    var rest := token + " " + text;
    MarkedToken(blanks, letter, rest);
    StrtokToken(token, ' ', text, " ");
  }

  /** "!P text", in either case and with blanks in front: a permanent kline, and the text gives the reason. */
  lemma {:induction false} PermanentAkillReads(blanks: string, letter: char, text: string, klineTime: int)
    requires (forall c :: c in blanks ==> c == ' ') && letter in "pP"
    ensures AkillPrepare(Some(blanks + (['!', letter, ' '] + text)), klineTime) == WithReason(0, text)
  {
    MarkedToken(blanks, letter, text);
  }

  /** A mark with nothing behind it: "!T" is refused, and "!P" has an empty reason. */
  lemma {:induction false} LoneMark(blanks: string, letter: char, klineTime: int)
    requires (forall c :: c in blanks ==> c == ' ') && letter in "tTpP"
    ensures AkillPrepare(Some(blanks + ['!', letter]), klineTime)
         == if letter in "tT" then (None, None) else WithReason(0, "")
  {
    var s := ['!', letter];
    SkipsBlanks(blanks, s);
    assert AkillToken(s) == (if letter in "tT" then Timed else Permanent, "");
    assert Strtok("", " ") == (None, "");
  }

  /** Without a mark all of the text is for the reason, and the network's default duration holds. */
  lemma {:induction false} PlainAkillReads(blanks: string, s: string, klineTime: int)
    requires (forall c :: c in blanks ==> c == ' ') && (s == "" || s[0] != ' ') && !Marked(s)
    ensures AkillPrepare(Some(blanks + s), klineTime) == WithReason(klineTime, s)
  {
    SkipsBlanks(blanks, s);
    assert AkillToken(s) == (NoToken, s);
  }

  /** What the reason is read from gives the kline: its reason, its duration, and the criteria behind it. */
  lemma {:induction false} QuotedReasonBans(duration: int, blanks: string, reason: string, rest: string)
    requires (forall c :: c in blanks ==> c == ' ') && '"' !in reason
    ensures WithReason(duration, blanks + ("\"" + reason + "\"" + rest))
         == (Some(Akill(duration, reason)), if rest == "" then None else Some(rest))
  {
    QuotedReasonReads(blanks, reason, rest);
  }

  lemma {:induction false} BareReasonBans(duration: int, blanks: string, word: string, rest: string)
    requires (forall c :: c in blanks ==> c == ' ') && IsWord(word) && word[0] != '"'
    ensures WithReason(duration, blanks + (word + " " + rest))
         == (Some(Akill(duration, word)), if rest == "" then None else Some(rest))
  {
    BareReasonReads(blanks, word, rest);
  }

  /** No text at all gives an empty reason, and no criteria. */
  lemma {:induction false} BlankReason(blanks: string)
    requires forall c :: c in blanks ==> c == ' '
    ensures ReasonExtract(blanks) == (Some(""), None)
  {
    assert blanks + "" == blanks;
    SkipsBlanks(blanks, "");
  }

  // ---------------------------------------------------------------- the actions

  datatype Kline = Kline(host: string, reason: string, duration: int)

  /** The host masks that are never akilled, and whether operserv is there to kill. */
  datatype Policy = Policy(isLocal: string -> bool, operserv: bool)

  /** What an action has done so far: the fields of its trace_action, and the network. */
  datatype Effect = Effect(matched: bool, matches: nat, shown: seq<User>, killed: seq<User>, klines: seq<Kline>)

  predicate Covered(klines: seq<Kline>, host: string) {
    exists k :: 0 <= k < |klines| && klines[k].host == host
  }

  predicate Exempt(u: User) {
    u.isInternal || u.isIrcop || (u.identified && u.isSoper)
  }

  /** The exec function of the action, for one user. */
  function Act(a: Action, u: User, e: Effect, p: Policy): Effect {
    match a
    case Print => if u.isInternal then e else e.(matched := true, shown := e.shown + [u])
    case Count => if u.isInternal then e else e.(matched := true, matches := e.matches + 1)
    case Kill(_) =>
      if Exempt(u) || !p.operserv then e else e.(matched := true, killed := e.killed + [u])
    case Akill(duration, reason) =>
      if Exempt(u) || p.isLocal(u.host) || Covered(e.klines, u.host) then e
      else e.(matched := true, klines := e.klines + [Kline(u.host, reason, duration)])
  }

  /** The action on every user of a list, in order. */
  function ActAll(a: Action, us: seq<User>, e: Effect, p: Policy): Effect {
    if us == [] then e
    else Act(a, us[|us| - 1], ActAll(a, us[..|us| - 1], e, p), p)
  }

  /** The users that satisfy a predicate, in order. */
  function Filter(us: seq<User>, keep: User -> bool): seq<User> {
    if us == [] then []
    else
      var before := Filter(us[..|us| - 1], keep);
      if keep(us[|us| - 1]) then before + [us[|us| - 1]] else before
  }

  /** Of two lists, the filter keeps what it keeps of each; of one user, it or nothing. */
  lemma {:induction false} FilterOfParts(a: seq<User>, b: seq<User>, keep: User -> bool)
    ensures Filter(a + b, keep) == Filter(a, keep) + Filter(b, keep)
  {
    if b == [] {
      assert a + b == a;
    } else {
      var n := |b| - 1;
      assert (a + b)[..|a + b| - 1] == a + b[..n];
      FilterOfParts(a, b[..n], keep);
    }
  }

  lemma FilterOfOne(u: User, keep: User -> bool)
    ensures Filter([u], keep) == if keep(u) then [u] else []
  {
    assert [u][..0] == [];
  }

  // ---------------------------------------------------------------- COUNT and PRINT

  lemma {:induction false} CountCounts(us: seq<User>, e: Effect, p: Policy)
    ensures var t := ActAll(Count, us, e, p); var n := |Filter(us, (u: User) => !u.isInternal)|;
      t.matches == e.matches + n && (t.matched <==> e.matched || n > 0)
  {
    if us != [] { CountCounts(us[..|us| - 1], e, p); }
  }

  lemma {:induction false} PrintShows(us: seq<User>, e: Effect, p: Policy)
    ensures var t := ActAll(Print, us, e, p); var seen := Filter(us, (u: User) => !u.isInternal);
      t.shown == e.shown + seen && (t.matched <==> e.matched || seen != [])
  {
    if us != [] { PrintShows(us[..|us| - 1], e, p); }
  }

  // ---------------------------------------------------------------- KILL

  lemma {:induction false} KillKills(us: seq<User>, e: Effect, p: Policy, reason: string)
    ensures var t := ActAll(Kill(reason), us, e, p);
      var hit := Filter(us, (u: User) => !u.isInternal && !u.isIrcop && !(u.identified && u.isSoper) && p.operserv);
      t.killed == e.killed + hit && t.klines == e.klines && (t.matched <==> e.matched || hit != [])
  {
    if us != [] { KillKills(us[..|us| - 1], e, p, reason); }
  }

  // ---------------------------------------------------------------- AKILL

  /** A user AKILL acts against. */
  predicate Eligible(u: User, p: Policy) {
    !u.isInternal && !u.isIrcop && !(u.identified && u.isSoper) && !p.isLocal(u.host)
  }

  /** The kline is for the host of an eligible user of the list, with the action's reason and time. */
  predicate Deserved(k: Kline, us: seq<User>, a: Action, p: Policy)
    requires a.Akill?
  {
    k.reason == a.reason && k.duration == a.duration
    && exists i :: 0 <= i < |us| && Eligible(us[i], p) && us[i].host == k.host
  }

  /** From old klines to new: the old ones stay in front, and what is added is deserved, not
      already covered, and one per host. */
  ghost predicate Extended(old_: seq<Kline>, new_: seq<Kline>, us: seq<User>, a: Action, p: Policy)
    requires a.Akill?
  {
    && |old_| <= |new_| && new_[..|old_|] == old_
    && (forall k :: |old_| <= k < |new_| ==> Deserved(new_[k], us, a, p) && !Covered(old_, new_[k].host))
    && (forall j, k :: |old_| <= j < k < |new_| ==> new_[j].host != new_[k].host)
  }

  lemma {:induction false} AkillExtends(us: seq<User>, e: Effect, a: Action, p: Policy)
    requires a.Akill?
    ensures Extended(e.klines, ActAll(a, us, e, p).klines, us, a, p)
  {
    if us != [] {
      var (init, u) := (us[..|us| - 1], us[|us| - 1]);
      var mid := ActAll(a, init, e, p).klines;
      AkillExtends(init, e, a, p);
      forall k | |e.klines| <= k < |mid| ensures Deserved(mid[k], us, a, p) {
        assert Deserved(mid[k], init, a, p);
        var i :| 0 <= i < |init| && Eligible(init[i], p) && init[i].host == mid[k].host;
        assert us[i] == init[i];
      }
      if Eligible(u, p) && !Covered(mid, u.host) {
        var added := Kline(u.host, a.reason, a.duration);
        assert Deserved(added, us, a, p) by { assert us[|us| - 1] == u; }
        assert !Covered(e.klines, u.host) by {
          assert forall k :: 0 <= k < |e.klines| ==> mid[k] == e.klines[k];
        }
      }
    }
  }

  lemma {:induction false} CoverKept(old_: seq<Kline>, new_: seq<Kline>, host: string)
    requires |old_| <= |new_| && new_[..|old_|] == old_ && Covered(old_, host)
    ensures Covered(new_, host)
  {
    var k :| 0 <= k < |old_| && old_[k].host == host;
    assert new_[k] == old_[k];
  }

  /** An AKILL has matched exactly if it added a kline. */
  lemma {:induction false} AkillMatchesWhatItAdds(us: seq<User>, e: Effect, a: Action, p: Policy)
    requires a.Akill?
    ensures var t := ActAll(a, us, e, p);
      && |t.klines| >= |e.klines| && t.killed == e.killed && t.shown == e.shown && t.matches == e.matches
      && (t.matched <==> e.matched || |t.klines| > |e.klines|)
  {
    if us != [] { AkillMatchesWhatItAdds(us[..|us| - 1], e, a, p); }
  }

  /** In the end every eligible user is covered, however many of them share a host. */
  lemma {:induction false} AkillCovers(us: seq<User>, e: Effect, a: Action, p: Policy)
    requires a.Akill?
    ensures forall i :: 0 <= i < |us| && Eligible(us[i], p) ==> Covered(ActAll(a, us, e, p).klines, us[i].host)
  {
    if us != [] {
      var (init, u) := (us[..|us| - 1], us[|us| - 1]);
      var (mid, end) := (ActAll(a, init, e, p).klines, ActAll(a, us, e, p).klines);
      AkillCovers(init, e, a, p);
      forall i | 0 <= i < |us| && Eligible(us[i], p)
        ensures Covered(end, us[i].host)
      {
        if i < |init| {
          assert init[i] == us[i];
          CoverKept(mid, end, us[i].host);
        } else if !Covered(mid, u.host) {
          assert end[|mid|].host == u.host;
        }
      }
    }
  }
}
