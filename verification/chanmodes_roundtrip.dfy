/** LOADCHANMODES after SAVECHANMODES (src/os_savechanmodes.c): every channel that survives the
    file format comes back. */
module ChanmodesRoundTrip {
  import opened Options
  import opened CStrings
  import opened Decimals
  import opened ChanmodesText

  // What may follow the content of a line in the buffer.
  predicate LineEnd(e: string) {
    e == "" || e == "\n"
  }

  lemma {:induction false} LastField(s: string, e: string)
    requires Remainder(s) && LineEnd(e)
    ensures Strtok(s + e, "\n").0 == Some(s)
  {
    if e == "" {
      assert s + e == s;
      StrtokLast(s, "\n");
    } else {
      StrtokToken(s, '\n', "", "\n");
      assert s + ['\n'] + "" == s + e;
    }
  }

  lemma {:induction false} Field(s: string, rest: string)
    requires Word(s)
    ensures Strtok(s + " " + rest, " ") == (Some(s), rest)
  {
    StrtokToken(s, ' ', rest, " ");
  }

  lemma {:induction false} StripNothing(s: string)
    requires forall i :: 0 <= i < |s| ==> s[i] != '\n' && s[i] != '\r' && s[i] != 1 as char
    ensures Strip(s) == s
  {
    if s != "" {
      StripNothing(s[1..]);
      assert s == [s[0]] + s[1..];
    }
  }

  lemma Keywords()
    ensures Word("chan") && Word("topic") && Word("ban")
    ensures Strip("chan") == "chan" && Strip("topic") == "topic" && Strip("ban") == "ban"
  {
    StripNothing("chan");
    StripNothing("topic");
    StripNothing("ban");
  }

  /** The keyword of a line decides what is done with the rest of it. */
  lemma {:induction false} KeywordDecides(l: Loader, word: string, rest: string, accepts: string -> bool)
    requires Word(word) && Strip(word) == word
    ensures word == "chan" ==> Process(l, word + " " + rest, accepts) == ProcessChan(l, rest, accepts)
    ensures word == "topic" ==> Process(l, word + " " + rest, accepts) == ProcessTopic(l, rest)
    ensures word == "ban" ==> Process(l, word + " " + rest, accepts) == ProcessBan(l, rest)
  {
    assert Strtok(word + " " + rest, " ") == (Some(word), rest) by { Field(word, rest); }
  }

  lemma {:induction false} ChanFields(l: Loader, name: string, modes: string, e: string, accepts: string -> bool)
    requires Word(name) && Remainder(modes) && LineEnd(e)
    ensures ProcessChan(l, name + " " + (modes + e), accepts) == RestoreChannel(l, name, modes, accepts)
  {
    assert Strtok(name + " " + (modes + e), " ") == (Some(name), modes + e) by { Field(name, modes + e); }
    assert Strtok(modes + e, "\n").0 == Some(modes) by { LastField(modes, e); }
  }

  lemma {:induction false} ChanLineLoads(l: Loader, c: Channel, e: string, accepts: string -> bool)
    requires Word(c.name) && Remainder(c.modes) && LineEnd(e)
    ensures Process(l, ChanLine(c) + e, accepts) == RestoreChannel(l, c.name, c.modes, accepts)
  {
    var fields := c.name + " " + (c.modes + e);
    assert ChanLine(c) + e == "chan" + " " + fields;
    assert Process(l, "chan" + " " + fields, accepts) == ProcessChan(l, fields, accepts) by {
      Keywords();
      KeywordDecides(l, "chan", fields, accepts);
    }
    ChanFields(l, c.name, c.modes, e, accepts);
  }

  lemma {:induction false} TopicFields(l: Loader, setter: string, ts: string, text: string, e: string)
    requires l.cur.Some? && Word(setter) && Word(ts) && Remainder(text) && LineEnd(e)
    ensures ProcessTopic(l, setter + " " + (ts + " " + (text + e))) == SetTopic(l, setter, AsTime(Strtoul(ts)), text)
  {
    var last := text + e;
    assert Strtok(setter + " " + (ts + " " + last), " ") == (Some(setter), ts + " " + last) by {
      Field(setter, ts + " " + last);
    }
    assert Strtok(ts + " " + last, " ") == (Some(ts), last) by { Field(ts, last); }
    assert Strtok(last, "\n").0 == Some(text) by { LastField(text, e); }
  }

  /** Time stamps survive printing and reading, before 1970 too. */
  lemma {:induction false} TimeSurvives(ts: int)
    requires InTime(ts)
    ensures AsTime(Strtoul(Dec(AsUnsigned(ts)))) == ts
    ensures Word(Dec(AsUnsigned(ts)))
  {
    StrtoulOfDec(AsUnsigned(ts));
  }

  lemma {:induction false} TopicLineSplit(t: Topic, e: string)
    ensures TopicLine(t) + e == "topic" + " " + (t.setter + " " + (Dec(AsUnsigned(t.ts)) + " " + (t.text + e)))
  {
  }

  lemma {:induction false} TopicLineLoads(l: Loader, t: Topic, e: string, accepts: string -> bool)
    requires l.cur.Some? && Word(t.setter) && Remainder(t.text) && InTime(t.ts) && LineEnd(e)
    ensures Process(l, TopicLine(t) + e, accepts) == SetTopic(l, t.setter, t.ts, t.text)
  {
    var ts := Dec(AsUnsigned(t.ts));
    var fields := t.setter + " " + (ts + " " + (t.text + e));
    TopicLineSplit(t, e);
    assert Process(l, "topic" + " " + fields, accepts) == ProcessTopic(l, fields) by {
      Keywords();
      KeywordDecides(l, "topic", fields, accepts);
    }
    TimeSurvives(t.ts);
    TopicFields(l, t.setter, ts, t.text, e);
  }

  lemma {:induction false} BanFields(l: Loader, kind: char, mask: string, e: string)
    requires l.cur.Some? && kind != ' ' && kind != '\n' && Remainder(mask) && LineEnd(e)
    ensures ProcessBan(l, [kind] + " " + (mask + e)) == AddBan(l, kind, mask)
  {
    assert Strtok([kind] + " " + (mask + e), " ") == (Some([kind]), mask + e) by { Field([kind], mask + e); }
    assert Strtok(mask + e, "\n").0 == Some(mask) by { LastField(mask, e); }
  }

  lemma {:induction false} BanLineLoads(l: Loader, b: Ban, e: string, accepts: string -> bool)
    requires l.cur.Some? && b.kind != ' ' && b.kind != '\n' && Remainder(b.mask) && LineEnd(e)
    ensures Process(l, BanLine(b) + e, accepts) == AddBan(l, b.kind, b.mask)
  {
    var fields := [b.kind] + " " + (b.mask + e);
    assert BanLine(b) + e == "ban" + " " + fields;
    assert Process(l, "ban" + " " + fields, accepts) == ProcessBan(l, fields) by {
      Keywords();
      KeywordDecides(l, "ban", fields, accepts);
    }
    BanFields(l, b.kind, b.mask, e);
  }

  // ---------------------------------------------------------------- fgets

  lemma {:induction false} TakesWholeLine(content: string, rest: string, max: nat)
    requires LineFree(content)
    ensures TakeLine(content + "\n" + rest, max) == if |content| < max then |content| + 1 else max
  {
    if content == "" {
      assert content + "\n" + rest == "\n" + rest;
    } else if max > 0 {
      assert (content + "\n" + rest)[1..] == content[1..] + "\n" + rest;
      TakesWholeLine(content[1..], rest, max - 1);
    }
  }

  lemma {:induction false} NothingLeft(l: Loader, buf: string, token: string, rest: string, accepts: string -> bool)
    requires Strtok(buf, " ") == (Some(token), rest) && Strip(token) == ""
    ensures Process(l, buf, accepts) == l
  {
  }

  lemma NewlineToken()
    ensures Strtok("\n", " ") == (Some("\n"), "")
  {
    StrtokLast("\n", " ");
  }

  lemma {:induction false} NewlineAlone(l: Loader, accepts: string -> bool)
    ensures Process(l, "\n", accepts) == l
  {
    NewlineToken();
    NothingLeft(l, "\n", "\n", "", accepts);
  }

  /** A line whose content fits the buffer is processed once, even when its newline no longer fits
      and is read as a line of its own. */
  lemma {:induction false} LoadLine(l: Loader, content: string, rest: string, l': Loader, accepts: string -> bool)
    requires content != "" && LineFree(content) && |content| < BUFSIZE
    requires Process(l, content, accepts) == l' && Process(l, content + "\n", accepts) == l'
    ensures Load(l, content + "\n" + rest, accepts) == Load(l', rest, accepts)
  {
    var file := content + "\n" + rest;
    TakesWholeLine(content, rest, BUFSIZE - 1);
    if |content| < BUFSIZE - 1 {
      assert file[..|content| + 1] == content + "\n" && file[|content| + 1..] == rest;
    } else {
      assert file[..|content|] == content && file[|content|..] == "\n" + rest;
      TakesWholeLine("", rest, BUFSIZE - 1);
      assert "" + "\n" + rest == "\n" + rest;
      assert ("\n" + rest)[..1] == "\n" && ("\n" + rest)[1..] == rest;
      NewlineAlone(l', accepts);
    }
  }

  // ---------------------------------------------------------------- channel by channel

  lemma {:induction false} FreeTogether(a: string, b: string)
    requires LineFree(a) && LineFree(b)
    ensures LineFree(a + " " + b)
  {
  }

  lemma {:induction false} ChanLineFree(c: Channel)
    requires Word(c.name) && Remainder(c.modes)
    ensures LineFree(ChanLine(c)) && ChanLine(c) != ""
  {
    FreeTogether("chan", c.name);
    FreeTogether("chan " + c.name, c.modes);
    assert "chan" + " " + c.name + " " + c.modes == ChanLine(c);
  }

  lemma {:induction false} TopicLineFree(t: Topic)
    requires Word(t.setter) && Remainder(t.text)
    ensures LineFree(TopicLine(t)) && TopicLine(t) != ""
  {
    var ts := Dec(AsUnsigned(t.ts));
    FreeTogether("topic", t.setter);
    FreeTogether("topic" + " " + t.setter, ts);
    FreeTogether("topic" + " " + t.setter + " " + ts, t.text);
    assert "topic" + " " + t.setter + " " + ts + " " + t.text == TopicLine(t);
  }

  lemma {:induction false} BanLineFree(b: Ban)
    requires b.kind != '\n' && Remainder(b.mask)
    ensures LineFree(BanLine(b)) && BanLine(b) != ""
  {
    FreeTogether("ban", [b.kind]);
    FreeTogether("ban" + " " + [b.kind], b.mask);
    assert "ban" + " " + [b.kind] + " " + b.mask == BanLine(b);
  }

  lemma {:induction false} WrittenAppended(a: seq<string>, b: seq<string>)
    ensures Written(a + b) == Written(a) + Written(b)
  {
    if a == [] {
      assert a + b == b;
    } else {
      assert (a + b)[1..] == a[1..] + b;
      WrittenAppended(a[1..], b);
      assert a[0] + "\n" + (Written(a[1..]) + Written(b)) == a[0] + "\n" + Written(a[1..]) + Written(b);
    }
  }

  lemma {:induction false} LoadBan(l: Loader, b: Ban, rest: string, accepts: string -> bool)
    requires l.cur.Some? && BanSurvives(b)
    ensures Load(l, BanLine(b) + "\n" + rest, accepts) == Load(AddBan(l, b.kind, b.mask), rest, accepts)
  {
    BanLineFree(b);
    BanLineLoads(l, b, "", accepts);
    BanLineLoads(l, b, "\n", accepts);
    assert BanLine(b) + "" == BanLine(b);
    LoadLine(l, BanLine(b), rest, AddBan(l, b.kind, b.mask), accepts);
  }

  /** The loader with the bans of the current channel added. */
  function WithBans(l: Loader, name: string, bans: seq<LoadedBan>): Loader
    requires name in l.net
  {
    l.(net := l.net[name := l.net[name].(bans := l.net[name].bans + bans)])
  }

  lemma {:induction false} BanLinesFront(b: Ban, more: seq<Ban>, rest: string)
    ensures Written(BanLines([b] + more)) + rest == BanLine(b) + "\n" + (Written(BanLines(more)) + rest)
    ensures LoadedBans([b] + more) == [LoadedBan(b.kind, b.mask)] + LoadedBans(more)
  {
    assert ([b] + more)[1..] == more;
    assert BanLines([b] + more)[1..] == BanLines(more);
    Rebracket(BanLine(b) + "\n", Written(BanLines(more)), rest);
  }

  lemma {:induction false} Rebracket(a: string, b: string, c: string)
    ensures a + b + c == a + (b + c)
  {
  }

  lemma {:induction false} MoreBans(l: Loader, name: string, b: LoadedBan, more: seq<LoadedBan>)
    requires l.cur == Some(name) && name in l.net
    ensures WithBans(AddBan(l, b.kind, b.mask), name, more) == WithBans(l, name, [b] + more)
  {
    assert l.net[name].bans + [b] + more == l.net[name].bans + ([b] + more);
  }

  lemma {:induction false} LoadBanLines(l: Loader, name: string, bans: seq<Ban>, rest: string, accepts: string -> bool)
    requires l.cur == Some(name) && name in l.net && forall k :: 0 <= k < |bans| ==> BanSurvives(bans[k])
    ensures Load(l, Written(BanLines(bans)) + rest, accepts) == Load(WithBans(l, name, LoadedBans(bans)), rest, accepts)
    decreases |bans|
  {
    if bans == [] {
      assert Written(BanLines(bans)) + rest == rest;
      assert WithBans(l, name, LoadedBans(bans)) == l by {
        assert l.net[name].bans + LoadedBans(bans) == l.net[name].bans;
      }
    } else {
      var (b, more) := (bans[0], bans[1..]);
      assert bans == [b] + more;
      BanLinesFront(b, more, rest);
      LoadBan(l, b, Written(BanLines(more)) + rest, accepts);
      LoadBanLines(AddBan(l, b.kind, b.mask), name, more, rest, accepts);
      MoreBans(l, name, LoadedBan(b.kind, b.mask), LoadedBans(more));
    }
  }

  lemma {:induction false} LoadTopic(l: Loader, t: Topic, rest: string, accepts: string -> bool)
    requires l.cur.Some? && TopicSurvives(t) && InTime(t.ts)
    ensures Load(l, TopicLine(t) + "\n" + rest, accepts) == Load(SetTopic(l, t.setter, t.ts, t.text), rest, accepts)
  {
    TopicLineFree(t);
    TopicLineLoads(l, t, "", accepts);
    TopicLineLoads(l, t, "\n", accepts);
    assert TopicLine(t) + "" == TopicLine(t);
    LoadLine(l, TopicLine(t), rest, SetTopic(l, t.setter, t.ts, t.text), accepts);
  }

  lemma {:induction false} LoadChan(l: Loader, c: Channel, rest: string, accepts: string -> bool)
    requires Word(c.name) && Remainder(c.modes) && |ChanLine(c)| < BUFSIZE
    ensures Load(l, ChanLine(c) + "\n" + rest, accepts)
         == Load(RestoreChannel(l, c.name, c.modes, accepts), rest, accepts)
  {
    ChanLineFree(c);
    ChanLineLoads(l, c, "", accepts);
    ChanLineLoads(l, c, "\n", accepts);
    assert ChanLine(c) + "" == ChanLine(c);
    LoadLine(l, ChanLine(c), rest, RestoreChannel(l, c.name, c.modes, accepts), accepts);
  }

  function TopicLines(t: Option<Topic>): seq<string> {
    match t case None => [] case Some(t) => [TopicLine(t)]
  }

  lemma {:induction false} ChannelWritten(c: Channel, rest: string)
    ensures Written(ChannelLines(c)) + rest
         == ChanLine(c) + "\n" + (Written(TopicLines(c.topic)) + (Written(BanLines(c.bans)) + rest))
  {
    WrittenAppended([ChanLine(c)] + TopicLines(c.topic), BanLines(c.bans));
    WrittenAppended([ChanLine(c)], TopicLines(c.topic));
  }

  function Titled(l: Loader, t: Option<Topic>): Loader
    requires l.cur.Some?
  {
    match t case None => l case Some(t) => SetTopic(l, t.setter, t.ts, t.text)
  }

  lemma {:induction false} LoadTopicLines(l: Loader, t: Option<Topic>, rest: string, accepts: string -> bool)
    requires l.cur.Some? && (t.Some? ==> TopicSurvives(t.value) && InTime(t.value.ts))
    ensures Load(l, Written(TopicLines(t)) + rest, accepts) == Load(Titled(l, t), rest, accepts)
  {
    match t {
      case None =>
        assert Written(TopicLines(t)) + rest == rest;
      case Some(topic) =>
        LoadTopic(l, topic, rest, accepts);
        assert Written([TopicLine(topic)]) == TopicLine(topic) + "\n" + "" == TopicLine(topic) + "\n";
    }
  }

  /** From nothing known of a channel, its lines build its image. */
  lemma {:induction false} LinesBuildImage(l: Loader, c: Channel)
    requires Entry(l.net, c.name) == BLANK
    ensures var l1 := Loader(l.net[c.name := BLANK.(modes := BLANK.modes + [c.modes])], Some(c.name));
      && c.name in Titled(l1, c.topic).net
      && WithBans(Titled(l1, c.topic), c.name, LoadedBans(c.bans))
         == Loader(l.net[c.name := Image(c)], Some(c.name))
  {
    assert BLANK.modes + [c.modes] == [c.modes];
    assert BLANK.bans + LoadedBans(c.bans) == LoadedBans(c.bans);
    var l1 := Loader(l.net[c.name := BLANK.(modes := BLANK.modes + [c.modes])], Some(c.name));
    assert WithBans(Titled(l1, c.topic), c.name, LoadedBans(c.bans)).net == l.net[c.name := Image(c)];
  }

  /** One surviving channel: whatever the loader was at, the channel is current afterwards, and is
      as it was dumped, if nothing was known of it before. */
  lemma {:induction false} LoadChannel(l: Loader, c: Channel, rest: string, accepts: string -> bool)
    requires Survives(c, accepts) && (c.topic.Some? ==> InTime(c.topic.value.ts))
    requires Entry(l.net, c.name) == BLANK
    ensures Load(l, Written(ChannelLines(c)) + rest, accepts)
         == Load(Loader(l.net[c.name := Image(c)], Some(c.name)), rest, accepts)
  {
    var banText := Written(BanLines(c.bans)) + rest;
    ChannelWritten(c, rest);
    LoadChan(l, c, Written(TopicLines(c.topic)) + banText, accepts);
    var l1 := RestoreChannel(l, c.name, c.modes, accepts);
    LoadTopicLines(l1, c.topic, banText, accepts);
    LinesBuildImage(l, c);
    LoadBanLines(Titled(l1, c.topic), c.name, c.bans, rest, accepts);
  }

  lemma {:induction false} ImagesNames(cs: seq<Channel>)
    ensures forall n :: n in Images(cs) <==> exists k :: 0 <= k < |cs| && cs[k].name == n
  {
    if cs != [] {
      ImagesNames(cs[1..]);
      assert forall k :: 0 <= k < |cs| - 1 ==> cs[1..][k] == cs[k + 1];
      forall n | exists k :: 0 <= k < |cs| && cs[k].name == n
        ensures n in Images(cs)
      {
        var k :| 0 <= k < |cs| && cs[k].name == n;
        if k > 0 { assert cs[1..][k - 1].name == n; }
      }
    }
  }

  lemma {:induction false} NotAmongTheRest(cs: seq<Channel>)
    requires cs != [] && Directory(cs)
    ensures cs[0].name !in Images(cs[1..]) && Directory(cs[1..])
    ensures forall k :: 0 <= k < |cs| - 1 ==> cs[1..][k] == cs[k + 1] && cs[1..][k].name != cs[0].name
  {
    ImagesNames(cs[1..]);
  }

  lemma {:induction false} StillBlank(l: Loader, cs: seq<Channel>)
    requires cs != [] && Directory(cs) && forall k :: 0 <= k < |cs| ==> Entry(l.net, cs[k].name) == BLANK
    ensures forall k :: 0 <= k < |cs| - 1 ==> Entry(l.net[cs[0].name := Image(cs[0])], cs[1..][k].name) == BLANK
    ensures l.net[cs[0].name := Image(cs[0])] + Images(cs[1..]) == l.net + Images(cs)
  {
    NotAmongTheRest(cs);
  }

  lemma {:induction false} LoadAll(l: Loader, cs: seq<Channel>, accepts: string -> bool)
    requires Directory(cs) && (forall k :: 0 <= k < |cs| ==> Survives(cs[k], accepts))
    requires forall k :: 0 <= k < |cs| ==> Entry(l.net, cs[k].name) == BLANK
    ensures Load(l, Written(Lines(cs)), accepts).net == l.net + Images(cs)
    decreases |cs|
  {
    if cs == [] {
      assert l.net + Images(cs) == l.net;
    } else {
      var (c, more) := (cs[0], cs[1..]);
      var l' := Loader(l.net[c.name := Image(c)], Some(c.name));
      assert Load(l, Written(Lines(cs)), accepts) == Load(l', Written(Lines(more)), accepts) by {
        WrittenAppended(ChannelLines(c), Lines(more));
        LoadChannel(l, c, Written(Lines(more)), accepts);
      }
      NotAmongTheRest(cs);
      StillBlank(l, cs);
      LoadAll(l', more, accepts);
    }
  }
}
