/** What LOADCHANMODES of src/os_savechanmodes.c can make of a file: whatever the file holds, only
    channels that a dump can nearly hold. */
module ChanmodesGood {
  import opened Options
  import opened CStrings
  import opened Decimals
  import opened ChanmodesText

  // ---------------------------------------------------------------- tokens of a buffer

  /** A newline can only be the last character, as fgets leaves it. */
  predicate OnlyLast(s: string) {
    forall i :: 0 <= i < |s| - 1 ==> s[i] != '\n'
  }

  /** A token is free of delimiters; with the rest and the delimiter between them it fits the
      string; and a token with a rest behind it holds no newline that ends a buffer. */
  lemma {:induction false} StrtokParts(s: string, delims: string)
    requires Strtok(s, delims).0.Some?
    ensures var (t, r) := (Strtok(s, delims).0.value, Strtok(s, delims).1);
      && t != "" && |t| + |r| + (if r == "" then 0 else 1) <= |s|
      && (forall c :: c in t ==> c !in delims)
      && (OnlyLast(s) ==> OnlyLast(r) && (r != "" ==> LineFree(t)))
  {
    if s[0] in delims {
      StrtokParts(s[1..], delims);
      assert OnlyLast(s) ==> OnlyLast(s[1..]) by {
        assert forall i :: 0 <= i < |s| - 1 ==> s[1..][i] == s[i + 1];
      }
    } else {
      SpanStops(s, delims);
      var n := Span(s, delims);
      assert forall i :: 0 <= i < n ==> s[..n][i] == s[i];
      if n < |s| {
        var r := s[n + 1..];
        assert forall i :: 0 <= i < |r| ==> r[i] == s[n + 1 + i];
      }
    }
  }

  lemma {:induction false} StripShortens(s: string)
    ensures |Strip(s)| <= |s|
  {
    if s != "" { StripShortens(s[1..]); }
  }

  lemma {:induction false} TakenLine(s: string, max: nat)
    ensures OnlyLast(s[..TakeLine(s, max)])
  {
    if s != "" && max > 0 && s[0] != '\n' {
      TakenLine(s[1..], max - 1);
      var n := TakeLine(s[1..], max - 1);
      assert forall i :: 0 <= i < n ==> s[..n + 1][i + 1] == s[1..][..n][i];
    }
  }

  // ---------------------------------------------------------------- what the loader can make

  predicate GoodModes(name: string, modes: string) {
    Remainder(modes) && 6 + |name| + |modes| < BUFSIZE
  }

  // A topic may have been read from a line with a shorter spelling of its time.
  predicate GoodTopic(setter: string, ts: int, text: string) {
    Word(setter) && Remainder(text) && InTime(ts) && 8 + |setter| + |text| < BUFSIZE
  }

  predicate GoodBan(b: LoadedBan) {
    b.kind != ' ' && b.kind != '\n' && Remainder(b.mask) && 6 + |b.mask| < BUFSIZE
  }

  ghost predicate Good(name: string, e: Restored, accepts: string -> bool) {
    && Word(name) && accepts(name)
    && (forall k :: 0 <= k < |e.modes| ==> GoodModes(name, e.modes[k]))
    && (match e.topic case None => true case Some(t) => GoodTopic(t.setter, t.ts, t.text))
    && forall k :: 0 <= k < |e.bans| ==> GoodBan(e.bans[k])
  }

  ghost predicate AllGood(l: Loader, accepts: string -> bool) {
    && (forall n :: n in l.net ==> Good(n, l.net[n], accepts))
    && (l.cur.Some? ==> l.cur.value in l.net)
  }

  lemma {:induction false} GoodStays(l: Loader, name: string, e: Restored, accepts: string -> bool)
    requires AllGood(l, accepts) && Good(name, e, accepts)
    ensures AllGood(Loader(l.net[name := e], Some(name)), accepts)
  {
  }

  lemma {:induction false} RestoreIsGood(l: Loader, name: string, modes: string, accepts: string -> bool)
    requires AllGood(l, accepts) && Word(name) && GoodModes(name, modes)
    ensures AllGood(RestoreChannel(l, name, modes, accepts), accepts)
  {
    if accepts(name) {
      var e := Entry(l.net, name);
      GoodStays(l, name, e.(modes := e.modes + [modes]), accepts);
    }
  }

  lemma {:induction false} SetTopicIsGood(l: Loader, setter: string, ts: int, text: string, accepts: string -> bool)
    requires AllGood(l, accepts) && l.cur.Some? && GoodTopic(setter, ts, text)
    ensures AllGood(SetTopic(l, setter, ts, text), accepts)
  {
    var e := Entry(l.net, l.cur.value);
    GoodStays(l, l.cur.value, e.(topic := Some(LoadedTopic(setter, ts, text))), accepts);
  }

  lemma {:induction false} AddBanIsGood(l: Loader, kind: char, mask: string, accepts: string -> bool)
    requires AllGood(l, accepts) && l.cur.Some? && GoodBan(LoadedBan(kind, mask))
    ensures AllGood(AddBan(l, kind, mask), accepts)
  {
    var e := Entry(l.net, l.cur.value);
    GoodStays(l, l.cur.value, e.(bans := e.bans + [LoadedBan(kind, mask)]), accepts);
  }

  lemma {:induction false} ChanTokens(s1: string)
    requires OnlyLast(s1) && 5 + |s1| < BUFSIZE
    ensures var (name, s2) := Strtok(s1, " "); var modes := Strtok(s2, "\n").0;
      name.Some? && modes.Some? ==> Word(name.value) && GoodModes(name.value, modes.value)
  {
    var (name, s2) := Strtok(s1, " ");
    if name.Some? && Strtok(s2, "\n").0.Some? {
      StrtokParts(s1, " ");
      StrtokParts(s2, "\n");
    }
  }

  lemma {:induction false} ChanIsGood(l: Loader, s1: string, accepts: string -> bool)
    requires AllGood(l, accepts) && OnlyLast(s1) && 5 + |s1| < BUFSIZE
    ensures AllGood(ProcessChan(l, s1, accepts), accepts)
  {
    var (name, s2) := Strtok(s1, " ");
    var modes := Strtok(s2, "\n").0;
    ChanTokens(s1);
    if name.Some? && modes.Some? { RestoreIsGood(l, name.value, modes.value, accepts); }
  }

  lemma {:induction false} TopicTokens(s1: string)
    requires OnlyLast(s1) && 6 + |s1| < BUFSIZE
    ensures var (setter, s2) := Strtok(s1, " "); var (tsstr, s3) := Strtok(s2, " "); var text := Strtok(s3, "\n").0;
      setter.Some? && tsstr.Some? && text.Some? ==>
        GoodTopic(setter.value, AsTime(Strtoul(tsstr.value)), text.value)
  {
    var (setter, s2) := Strtok(s1, " ");
    var (tsstr, s3) := Strtok(s2, " ");
    var text := Strtok(s3, "\n").0;
    if setter.Some? && tsstr.Some? && text.Some? {
      StrtokParts(s1, " ");
      StrtokParts(s2, " ");
      StrtokParts(s3, "\n");
    }
  }

  lemma {:induction false} TopicIsGood(l: Loader, s1: string, accepts: string -> bool)
    requires AllGood(l, accepts) && OnlyLast(s1) && 6 + |s1| < BUFSIZE
    ensures AllGood(ProcessTopic(l, s1), accepts)
  {
    var (setter, s2) := Strtok(s1, " ");
    var (tsstr, s3) := Strtok(s2, " ");
    var text := Strtok(s3, "\n").0;
    TopicTokens(s1);
    if l.cur.Some? && setter.Some? && tsstr.Some? && text.Some? {
      SetTopicIsGood(l, setter.value, AsTime(Strtoul(tsstr.value)), text.value, accepts);
    }
  }

  lemma {:induction false} BanTokens(s1: string)
    requires OnlyLast(s1) && 4 + |s1| < BUFSIZE
    ensures var (kind, s2) := Strtok(s1, " "); var mask := Strtok(s2, "\n").0;
      kind.Some? && mask.Some? ==> kind.value != "" && GoodBan(LoadedBan(kind.value[0], mask.value))
  {
    var (kind, s2) := Strtok(s1, " ");
    if kind.Some? && Strtok(s2, "\n").0.Some? {
      StrtokParts(s1, " ");
      StrtokParts(s2, "\n");
      assert kind.value[0] in kind.value;
    }
  }

  lemma {:induction false} BanIsGood(l: Loader, s1: string, accepts: string -> bool)
    requires AllGood(l, accepts) && OnlyLast(s1) && 4 + |s1| < BUFSIZE
    ensures AllGood(ProcessBan(l, s1), accepts)
  {
    var (kind, s2) := Strtok(s1, " ");
    var mask := Strtok(s2, "\n").0;
    BanTokens(s1);
    if l.cur.Some? && kind.Some? && mask.Some? { AddBanIsGood(l, kind.value[0], mask.value, accepts); }
  }

  lemma {:induction false} ProcessIsGood(l: Loader, buf: string, accepts: string -> bool)
    requires AllGood(l, accepts) && OnlyLast(buf) && |buf| < BUFSIZE
    ensures AllGood(Process(l, buf, accepts), accepts)
  {
    var (token, s1) := Strtok(buf, " ");
    if token.Some? {
      StrtokParts(buf, " ");
      StripShortens(token.value);
      var item := Strip(token.value);
      if s1 == "" {
        assert Strtok(s1, " ").0 == None;
      } else if item == "chan" {
        ChanIsGood(l, s1, accepts);
      } else if item == "topic" {
        TopicIsGood(l, s1, accepts);
      } else if item == "ban" {
        BanIsGood(l, s1, accepts);
      }
    }
  }

  /** Whatever the file holds, only channels that survive a dump are made of it. */
  lemma {:induction false} LoadIsGood(l: Loader, file: string, accepts: string -> bool)
    requires AllGood(l, accepts)
    ensures AllGood(Load(l, file, accepts), accepts)
    decreases |file|
  {
    if file != "" {
      var n := TakeLine(file, BUFSIZE - 1);
      TakenLine(file, BUFSIZE - 1);
      ProcessIsGood(l, file[..n], accepts);
      LoadIsGood(Process(l, file[..n], accepts), file[n..], accepts);
    }
  }

  /** All that survival asks for, except that the time stamp may make the topic line too long. */
  ghost predicate Nearly(c: Channel, accepts: string -> bool) {
    && Word(c.name) && Remainder(c.modes) && |ChanLine(c)| < BUFSIZE && accepts(c.name)
    && (match c.topic case None => true case Some(t) => GoodTopic(t.setter, t.ts, t.text))
    && forall k :: 0 <= k < |c.bans| ==> BanSurvives(c.bans[k])
  }

  lemma {:induction false} GoodImageIsNear(c: Channel, accepts: string -> bool)
    requires Good(c.name, Image(c), accepts)
    ensures Nearly(c, accepts)
  {
    assert Image(c).modes[0] == c.modes;
    forall k | 0 <= k < |c.bans| ensures BanSurvives(c.bans[k]) {
      assert Image(c).bans[k] == LoadedBan(c.bans[k].kind, c.bans[k].mask);
    }
  }
}
