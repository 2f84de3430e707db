/** A dump of src/os_savechanmodes.c with a topic line that does not fit the buffer: its channel does not
    come back, whatever the pieces of the line and the lines behind it bring. */
module ChanmodesLost {
  import opened Options
  import opened CStrings
  import opened Decimals
  import opened ChanmodesText
  import opened ChanmodesRoundTrip
  import opened ChanmodesGood

  // ---------------------------------------------------------------- a topic line that does not fit

  function LoadedFrom(t: Topic): LoadedTopic {
    LoadedTopic(t.setter, t.ts, t.text)
  }

  /** The channel will never be given the topic t again: a line for it comes too often, its topic is
      another one, or it has none and is no longer current. */
  predicate Doomed(l: Loader, name: string, t: Topic) {
    && name in l.net
    && var e := l.net[name];
       || |e.modes| >= 2
       || (e.topic.Some? && e.topic != Some(LoadedFrom(t)))
       || (e.topic == None && |e.modes| == 1 && l.cur != Some(name))
  }

  /** The channel is current, and still has no topic. */
  predicate Pending(l: Loader, name: string) {
    l.cur == Some(name) && name in l.net && l.net[name].topic == None && |l.net[name].modes| == 1
  }

  lemma {:induction false} RestoreDooms(l: Loader, n: string, modes: string, accepts: string -> bool,
      name: string, t: Topic)
    requires Doomed(l, name, t) || Pending(l, name)
    ensures Doomed(RestoreChannel(l, n, modes, accepts), name, t)
  {
  }

  lemma {:induction false} DoomedStays(l: Loader, buf: string, accepts: string -> bool, name: string, t: Topic)
    requires Doomed(l, name, t)
    ensures Doomed(Process(l, buf, accepts), name, t)
  {
    var (token, s1) := Strtok(buf, " ");
    if token.Some? && Strip(token.value) == "chan" {
      var (n, s2) := Strtok(s1, " ");
      var modes := Strtok(s2, "\n").0;
      if n.Some? && modes.Some? { RestoreDooms(l, n.value, modes.value, accepts, name, t); }
    }
  }

  lemma {:induction false} DoomedForGood(l: Loader, file: string, accepts: string -> bool, name: string, t: Topic)
    requires Doomed(l, name, t)
    ensures Doomed(Load(l, file, accepts), name, t)
    decreases |file|
  {
    if file != "" {
      var n := TakeLine(file, BUFSIZE - 1);
      DoomedStays(l, file[..n], accepts, name, t);
      DoomedForGood(Process(l, file[..n], accepts), file[n..], accepts, name, t);
    }
  }

  /** A buffer with no room for the setter does not bring the topic. */
  lemma {:induction false} ShortBuffer(l: Loader, buf: string, accepts: string -> bool, name: string, t: Topic)
    requires Pending(l, name) && |buf| <= |t.setter|
    ensures var l' := Process(l, buf, accepts);
      Pending(l', name) || Doomed(l', name, t)
  {
    var (token, s1) := Strtok(buf, " ");
    if token.Some? {
      var (first, s2) := Strtok(s1, " ");
      if Strip(token.value) == "chan" {
        var modes := Strtok(s2, "\n").0;
        if first.Some? && modes.Some? { RestoreDooms(l, first.value, modes.value, accepts, name, t); }
      } else if first.Some? {
        StrtokParts(s1, " ");
      }
    }
  }

  /** Cut short, the fields of a topic give no topic or a shorter text; no topic only if the cut is
      not behind the time stamp. */
  lemma {:induction false} CutFields(l: Loader, setter: string, ts: string, text: string, n: nat)
    requires l.cur.Some? && Word(setter) && Word(ts) && LineFree(text)
    requires n < |setter| + |ts| + 2 + |text|
    ensures var l' := ProcessTopic(l, (setter + " " + (ts + " " + text))[..n]);
      || (l' == l && n <= |setter| + |ts| + 2)
      || exists m :: 0 <= m < |text| && l' == SetTopic(l, setter, AsTime(Strtoul(ts)), text[..m])
  {
    var s := (setter + " " + (ts + " " + text))[..n];
    assert Strtok("", " ") == Strtok("", "\n") == (None, "");
    if n <= |setter| {
      assert s == setter[..n];
      if n > 0 { StrtokLast(s, " "); }
    } else if n <= |setter| + 1 + |ts| {
      var part := ts[..n - |setter| - 1];
      assert s == setter + " " + part;
      Field(setter, part);
      if part != "" { StrtokLast(part, " "); }
    } else {
      var m := n - |setter| - |ts| - 2;
      assert s == setter + " " + (ts + " " + text[..m]);
      Field(setter, ts + " " + text[..m]);
      Field(ts, text[..m]);
      if m > 0 { StrtokLast(text[..m], "\n"); }
    }
  }

  lemma {:induction false} TimeDigits(ts: int)
    ensures Word(Dec(AsUnsigned(ts))) && |Dec(AsUnsigned(ts))| <= 20
  {
    Pow10At20();
    DecLength(AsUnsigned(ts), 20);
  }

  /** The first bufferful of an over-long topic line brings a wrong topic, or none if the setter takes
      up nearly all of it. */
  lemma {:induction false} FirstPiece(l: Loader, name: string, t: Topic, accepts: string -> bool)
    requires Pending(l, name) && GoodTopic(t.setter, t.ts, t.text) && |TopicLine(t)| >= BUFSIZE
    ensures var l' := Process(l, TopicLine(t)[..BUFSIZE - 1], accepts);
      Doomed(l', name, t) || (l' == l && |t.setter| >= 2000)
  {
    var ts := Dec(AsUnsigned(t.ts));
    var fields := t.setter + " " + (ts + " " + t.text);
    var n := BUFSIZE - 7;
    TimeDigits(t.ts);
    assert TopicLine(t)[..BUFSIZE - 1] == "topic" + " " + fields[..n];
    assert Process(l, "topic" + " " + fields[..n], accepts) == ProcessTopic(l, fields[..n]) by {
      Keywords();
      KeywordDecides(l, "topic", fields[..n], accepts);
    }
    CutFields(l, t.setter, ts, t.text, n);
  }

  /** Whatever follows an over-long topic line, its topic is not set by it. */
  lemma {:induction false} TopicLineDooms(l: Loader, name: string, t: Topic, rest: string, accepts: string -> bool)
    returns (l': Loader)
    requires Pending(l, name) && GoodTopic(t.setter, t.ts, t.text) && |TopicLine(t)| >= BUFSIZE
    ensures Load(l, TopicLine(t) + "\n" + rest, accepts) == Load(l', rest, accepts)
    ensures Pending(l', name) || Doomed(l', name, t)
  {
    var line := TopicLine(t);
    var file := line + "\n" + rest;
    var (head, tail) := (line[..BUFSIZE - 1], line[BUFSIZE - 1..]);
    TimeDigits(t.ts);
    TopicLineFree(t);
    TakesWholeLine(line, rest, BUFSIZE - 1);
    assert file[..BUFSIZE - 1] == head && file[BUFSIZE - 1..] == tail + "\n" + rest;
    var mid := Process(l, head, accepts);
    assert Load(l, file, accepts) == Load(mid, tail + "\n" + rest, accepts);
    FirstPiece(l, name, t, accepts);
    TakesWholeLine(tail, rest, BUFSIZE - 1);
    var last := tail + "\n";
    assert (tail + "\n" + rest)[..|last|] == last && (tail + "\n" + rest)[|last|..] == rest;
    l' := Process(mid, last, accepts);
    if Doomed(mid, name, t) {
      DoomedStays(mid, last, accepts, name, t);
    } else {
      ShortBuffer(mid, last, accepts, name, t);
    }
  }

  predicate Back(net: map<string, Restored>, c: Channel) {
    c.name in net && net[c.name] == Image(c)
  }

  lemma {:induction false} NotBack(l: Loader, c: Channel)
    requires c.topic.Some? && (Pending(l, c.name) || Doomed(l, c.name, c.topic.value))
    ensures !Back(l.net, c)
  {
  }

  /** A channel whose topic line does not fit is not what it was. */
  lemma {:induction false} OverLongIsLost(l: Loader, c: Channel, more: seq<Channel>, accepts: string -> bool)
    requires Nearly(c, accepts) && c.topic.Some? && |TopicLine(c.topic.value)| >= BUFSIZE
    requires Entry(l.net, c.name) == BLANK
    requires more != [] ==> Nearly(more[0], accepts) && more[0].name != c.name
    ensures !Back(Load(l, Written(ChannelLines(c)) + Written(Lines(more)), accepts).net, c)
  {
    var (t, rest) := (c.topic.value, Written(Lines(more)));
    var banText := Written(BanLines(c.bans)) + rest;
    ChannelWritten(c, rest);
    LoadChan(l, c, Written(TopicLines(c.topic)) + banText, accepts);
    var l1 := RestoreChannel(l, c.name, c.modes, accepts);
    assert Written(TopicLines(c.topic)) + banText == TopicLine(t) + "\n" + banText by {
      assert Written([TopicLine(t)]) == TopicLine(t) + "\n" + "" == TopicLine(t) + "\n";
    }
    var l2 := TopicLineDooms(l1, c.name, t, banText, accepts);
    if Doomed(l2, c.name, t) {
      DoomedForGood(l2, banText, accepts, c.name, t);
      NotBack(Load(l2, banText, accepts), c);
    } else {
      LoadBanLines(l2, c.name, c.bans, rest, accepts);
      PendingIsLost(WithBans(l2, c.name, LoadedBans(c.bans)), c, more, accepts);
    }
  }

  lemma {:induction false} PendingIsLost(l: Loader, c: Channel, more: seq<Channel>, accepts: string -> bool)
    requires c.topic.Some? && Pending(l, c.name)
    requires more != [] ==> Nearly(more[0], accepts) && more[0].name != c.name
    ensures !Back(Load(l, Written(Lines(more)), accepts).net, c)
  {
    var t := c.topic.value;
    if more == [] {
      NotBack(l, c);
    } else {
      var (next, rest) := (more[0], Written(Lines(more[1..])));
      WrittenAppended(ChannelLines(next), Lines(more[1..]));
      ChannelWritten(next, rest);
      var text := Written(TopicLines(next.topic)) + (Written(BanLines(next.bans)) + rest);
      LoadChan(l, next, text, accepts);
      var l1 := RestoreChannel(l, next.name, next.modes, accepts);
      RestoreDooms(l, next.name, next.modes, accepts, c.name, t);
      DoomedForGood(l1, text, accepts, c.name, t);
      NotBack(Load(l1, text, accepts), c);
    }
  }

  lemma {:induction false} RestIsNear(cs: seq<Channel>, accepts: string -> bool)
    requires cs != [] && forall k :: 0 <= k < |cs| ==> Nearly(cs[k], accepts)
    ensures Nearly(cs[0], accepts) && forall k :: 0 <= k < |cs| - 1 ==> Nearly(cs[1..][k], accepts)
  {
  }

  /** The file of all channels, read in two steps: a surviving first one, and the rest. */
  lemma {:induction false} FirstComesBack(l: Loader, cs: seq<Channel>, accepts: string -> bool)
    requires cs != [] && Directory(cs) && Survives(cs[0], accepts) && Entry(l.net, cs[0].name) == BLANK
    ensures Load(l, Written(Lines(cs)), accepts)
         == Load(Loader(l.net[cs[0].name := Image(cs[0])], Some(cs[0].name)), Written(Lines(cs[1..])), accepts)
  {
    WrittenAppended(ChannelLines(cs[0]), Lines(cs[1..]));
    LoadChannel(l, cs[0], Written(Lines(cs[1..])), accepts);
  }

  lemma {:induction false} FirstIsLost(l: Loader, cs: seq<Channel>, accepts: string -> bool)
    requires cs != [] && Directory(cs) && (forall k :: 0 <= k < |cs| ==> Nearly(cs[k], accepts))
    requires Entry(l.net, cs[0].name) == BLANK && !Survives(cs[0], accepts)
    ensures !Back(Load(l, Written(Lines(cs)), accepts).net, cs[0])
  {
    WrittenAppended(ChannelLines(cs[0]), Lines(cs[1..]));
    NotAmongTheRest(cs);
    RestIsNear(cs, accepts);
    OverLongIsLost(l, cs[0], cs[1..], accepts);
  }

  /** If only over-long topic lines keep channels from surviving, the first such channel is lost. */
  lemma {:induction false} SomebodyIsLost(l: Loader, cs: seq<Channel>, i: nat, accepts: string -> bool) returns (k: nat)
    requires Directory(cs) && (forall k :: 0 <= k < |cs| ==> Nearly(cs[k], accepts))
    requires forall k :: 0 <= k < |cs| ==> Entry(l.net, cs[k].name) == BLANK
    requires i < |cs| && !Survives(cs[i], accepts)
    ensures k < |cs| && !Back(Load(l, Written(Lines(cs)), accepts).net, cs[k])
    decreases |cs|
  {
    if Survives(cs[0], accepts) {
      NotAmongTheRest(cs);
      RestIsNear(cs, accepts);
      StillBlank(l, cs);
      FirstComesBack(l, cs, accepts);
      k := SomebodyIsLost(Loader(l.net[cs[0].name := Image(cs[0])], Some(cs[0].name)), cs[1..], i - 1, accepts);
      k := k + 1;
    } else {
      FirstIsLost(l, cs, accepts);
      k := 0;
    }
  }
}
