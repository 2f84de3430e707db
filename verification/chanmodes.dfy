/** SAVECHANMODES and LOADCHANMODES of src/os_savechanmodes.c: the printing loops and the reading
    loop, which carries a current channel and changes the channels of the network. */
module Chanmodes {
  import opened Options
  import opened CStrings
  import opened Decimals
  import opened ChanmodesText
  import RoundTrip = ChanmodesRoundTrip
  import Exact = ChanmodesExact

  lemma {:induction false} LinesPrefix(cs: seq<Channel>, k: nat)
    requires k < |cs|
    ensures Written(Lines(cs[..k + 1])) == Written(Lines(cs[..k])) + Written(ChannelLines(cs[k]))
  {
    LinesAppended(cs[..k], cs[k]);
    assert cs[..k + 1] == cs[..k] + [cs[k]];
    RoundTrip.WrittenAppended(Lines(cs[..k]), ChannelLines(cs[k]));
  }

  lemma {:induction false} LinesAppended(cs: seq<Channel>, c: Channel)
    ensures Lines(cs + [c]) == Lines(cs) + ChannelLines(c)
  {
    if cs == [] {
      assert Lines([c]) == ChannelLines(c) + Lines([c][1..]);
      assert [] + [c] == [c];
    } else {
      assert (cs + [c])[1..] == cs[1..] + [c];
      LinesAppended(cs[1..], c);
    }
  }

  lemma {:induction false} BanLinesAppended(bans: seq<Ban>, b: Ban)
    ensures Written(BanLines(bans + [b])) == Written(BanLines(bans)) + BanLine(b) + "\n"
  {
    if bans == [] {
      assert [] + [b] == [b];
      assert BanLines([b]) == [BanLine(b)];
      assert Written([BanLine(b)]) == BanLine(b) + "\n";
    } else {
      assert (bans + [b])[1..] == bans[1..] + [b];
      BanLinesAppended(bans[1..], b);
      RoundTrip.Rebracket(BanLine(bans[0]) + "\n", Written(BanLines(bans[1..])), BanLine(b) + "\n");
      RoundTrip.Rebracket(Written(BanLines(bans)), BanLine(b), "\n");
      RoundTrip.Rebracket(Written(BanLines(bans[1..])), BanLine(b), "\n");
    }
  }

  /** One channel of the dump. */
  method SaveChannel(c: Channel) returns (out: string)
    ensures out == Written(ChannelLines(c))
  {
    var head := SaveHead(c);
    var bans := SaveBans(c.bans);
    out := head + bans;
    HeadOfChannel(c, head, bans);
  }

  method SaveHead(c: Channel) returns (out: string)
    ensures out == ChanLine(c) + "\n" + (match c.topic case None => "" case Some(t) => TopicLine(t) + "\n")
  {
    out := "chan " + c.name + " " + c.modes + "\n";
    if c.topic.Some? {
      var t := c.topic.value;
      out := out + ("topic " + t.setter + " " + Dec(AsUnsigned(t.ts)) + " " + t.text + "\n");
    }
  }

  method SaveBans(bans: seq<Ban>) returns (out: string)
    ensures out == Written(BanLines(bans))
  {
    out := "";
    for k := 0 to |bans|
      invariant out == Written(BanLines(bans[..k]))
    {
      var cb := bans[k];
      BanLinesAppended(bans[..k], cb);
      assert bans[..k + 1] == bans[..k] + [cb];
      out := out + "ban " + [cb.kind] + " " + cb.mask + "\n";
    }
    assert bans[..|bans|] == bans;
  }

  lemma {:induction false} HeadOfChannel(c: Channel, head: string, bans: string)
    requires bans == Written(BanLines(c.bans))
    requires head == ChanLine(c) + "\n" + (match c.topic case None => "" case Some(t) => TopicLine(t) + "\n")
    ensures head + bans == Written(ChannelLines(c))
  {
    RoundTrip.WrittenAppended([ChanLine(c)] + RoundTrip.TopicLines(c.topic), BanLines(c.bans));
    RoundTrip.WrittenAppended([ChanLine(c)], RoundTrip.TopicLines(c.topic));
    assert Written([ChanLine(c)]) == ChanLine(c) + "\n";
    match c.topic
    case None =>
    case Some(t) => assert Written([TopicLine(t)]) == TopicLine(t) + "\n";
  }

  /** The file SAVECHANMODES writes. */
  method SaveChanModes(cs: seq<Channel>) returns (out: string)
    ensures out == Written(Lines(cs))
  {
    out := "";
    for k := 0 to |cs|
      invariant out == Written(Lines(cs[..k]))
    {
      var lines := SaveChannel(cs[k]);
      LinesPrefix(cs, k);
      out := out + lines;
    }
    assert cs[..|cs|] == cs;
  }

  class Network {
    // The channels by name, with what was restored of each.
    var channels: map<string, Restored>

    constructor ()
      ensures channels == map[]
    {
      channels := map[];
    }

    /** restore_channel: None when the channel cannot be joined. */
    method RestoreChannelByName(name: string, modes: string, accepts: string -> bool) returns (c: Option<string>)
      modifies this
      ensures forall l: Loader :: l.net == old(channels) ==>
                RestoreChannel(l, name, modes, accepts) == Loader(channels, c)
    {
      if accepts(name) {
        var e := Entry(channels, name);
        channels := channels[name := e.(modes := e.modes + [modes])];
        return Some(name);
      }
      c := None;
    }

    method LoadChanModes(file: string, accepts: string -> bool)
      modifies this
      ensures channels == Load(Loader(old(channels), None), file, accepts).net
    {
      var rest := file;
      var c: Option<string> := None;
      while rest != ""
        invariant Load(Loader(channels, c), rest, accepts) == Load(Loader(old(channels), None), file, accepts)
        decreases |rest|
      {
        var n := TakeLine(rest, BUFSIZE - 1);
        c := ReadLine(rest[..n], c, accepts);
        rest := rest[n..];
      }
    }

    /** The body of the loop. */
    method ReadLine(buf: string, cur: Option<string>, accepts: string -> bool) returns (c: Option<string>)
      modifies this
      ensures Loader(channels, c) == Process(Loader(old(channels), cur), buf, accepts)
    {
      c := cur;
      var (token, saved) := Strtok(buf, " ");
      if token == None {
        return;
      }
      var item := Strip(token.value);
      if item == "chan" {
        c := ReadChan(saved, cur, accepts);
      } else if item == "topic" {
        ReadTopic(saved, cur);
      } else if item == "ban" {
        ReadBan(saved, cur);
      }
    }

    method ReadChan(s1: string, cur: Option<string>, accepts: string -> bool) returns (c: Option<string>)
      modifies this
      ensures Loader(channels, c) == ProcessChan(Loader(old(channels), cur), s1, accepts)
    {
      c := cur;
      var (name, s2) := Strtok(s1, " ");
      var (modes, _) := Strtok(s2, "\n");
      if name == None || modes == None {
        return;
      }
      c := RestoreChannelByName(name.value, modes.value, accepts);
    }

    method ReadTopic(s1: string, c: Option<string>)
      modifies this
      ensures Loader(channels, c) == ProcessTopic(Loader(old(channels), c), s1)
    {
      if c == None {
        return;
      }
      var (setter, s2) := Strtok(s1, " ");
      var (tsstr, s3) := Strtok(s2, " ");
      var (topic, _) := Strtok(s3, "\n");
      if setter == None || tsstr == None || topic == None {
        return;
      }
      var e := Entry(channels, c.value);
      if e.topic != None {
        return;
      }
      var ts := AsTime(Strtoul(tsstr.value));
      channels := channels[c.value := e.(topic := Some(LoadedTopic(setter.value, ts, topic.value)))];
    }

    method ReadBan(s1: string, c: Option<string>)
      modifies this
      ensures Loader(channels, c) == ProcessBan(Loader(old(channels), c), s1)
    {
      if c == None {
        return;
      }
      var (kind, s2) := Strtok(s1, " ");
      var (mask, _) := Strtok(s2, "\n");
      if kind == None || mask == None {
        return;
      }
      var e := Entry(channels, c.value);
      channels := channels[c.value := e.(bans := e.bans + [LoadedBan(kind.value[0], mask.value)])];
    }
  }

  /** Dump a directory, load it into an empty network: it is back exactly when all of it survives
      the file format. */
  method SaveThenLoad(cs: seq<Channel>, accepts: string -> bool) returns (net: Network)
    requires Directory(cs)
    ensures fresh(net)
    ensures net.channels == Images(cs) <==> forall k :: 0 <= k < |cs| ==> Survives(cs[k], accepts)
  {
    var file := SaveChanModes(cs);
    net := new Network();
    net.LoadChanModes(file, accepts);
    Exact.ComeBackExactlyWhenTheySurvive(cs, accepts);
  }
}
