/** The dump of SAVECHANMODES in src/os_savechanmodes.c, and what LOADCHANMODES makes of a file. */
module ChanmodesText {
  import opened Options
  import opened CStrings
  import opened Decimals

  // A C char that is not the terminating NUL.
  type NonNul = c: char | c != '\0' witness 'a'

  datatype Ban = Ban(kind: NonNul, mask: CString)

  datatype Topic = Topic(setter: CString, ts: int, text: CString)

  datatype Channel = Channel(name: CString, modes: CString, topic: Option<Topic>, bans: seq<Ban>)

  // ---------------------------------------------------------------- the dump

  /** A time_t as the unsigned long it is printed as. */
  function AsUnsigned(ts: int): nat {
    ts % ULONG_RANGE
  }

  /** The unsigned long that strtoul returns, stored in a time_t. */
  function AsTime(u: nat): int {
    if u < ULONG_RANGE / 2 then u else u - ULONG_RANGE
  }

  function ChanLine(c: Channel): string {
    "chan " + c.name + " " + c.modes
  }

  function TopicLine(t: Topic): string {
    "topic " + t.setter + " " + Dec(AsUnsigned(t.ts)) + " " + t.text
  }

  function BanLine(b: Ban): string {
    "ban " + [b.kind] + " " + b.mask
  }

  function BanLines(bans: seq<Ban>): seq<string> {
    if bans == [] then [] else [BanLine(bans[0])] + BanLines(bans[1..])
  }

  function ChannelLines(c: Channel): seq<string> {
    [ChanLine(c)] + (match c.topic case None => [] case Some(t) => [TopicLine(t)]) + BanLines(c.bans)
  }

  function Lines(cs: seq<Channel>): seq<string> {
    if cs == [] then [] else ChannelLines(cs[0]) + Lines(cs[1..])
  }

  /** The file: every line with its newline. */
  function Written(lines: seq<string>): string {
    if lines == [] then "" else lines[0] + "\n" + Written(lines[1..])
  }

  // ---------------------------------------------------------------- reading

  // The size of the line buffer.
  const BUFSIZE := 2048

  /** The length of what fgets takes: a line with its newline, or as much as the buffer holds. */
  function TakeLine(s: string, max: nat): (n: nat)
    ensures n <= |s| && n <= max
    ensures s != "" && max > 0 ==> n > 0
  {
    if s == "" || max == 0 then 0 else if s[0] == '\n' then 1 else 1 + TakeLine(s[1..], max - 1)
  }

  /** A channel as LOADCHANMODES leaves it: the mode strings it was given, its topic and its bans. */
  datatype Restored = Restored(modes: seq<string>, topic: Option<LoadedTopic>, bans: seq<LoadedBan>)

  datatype LoadedTopic = LoadedTopic(setter: string, ts: int, text: string)

  datatype LoadedBan = LoadedBan(kind: char, mask: string)

  const BLANK := Restored([], None, [])

  /** The channels on the network, and the current channel of the loop. */
  datatype Loader = Loader(net: map<string, Restored>, cur: Option<string>)

  /** strip(): the token ends at its first newline, carriage return or \1. */
  function Strip(s: string): string {
    if s == "" || s[0] == '\n' || s[0] == '\r' || s[0] == 1 as char then "" else [s[0]] + Strip(s[1..])
  }

  function Entry(net: map<string, Restored>, name: string): Restored {
    if name in net then net[name] else BLANK
  }

  /** restore_channel: the channel is joined, which may fail, and given the modes. */
  function RestoreChannel(l: Loader, name: string, modes: string, accepts: string -> bool): Loader {
    if accepts(name) then
      var e := Entry(l.net, name);
      Loader(l.net[name := e.(modes := e.modes + [modes])], Some(name))
    else l.(cur := None)
  }

  function SetTopic(l: Loader, setter: string, ts: int, text: string): Loader
    requires l.cur.Some?
  {
    var e := Entry(l.net, l.cur.value);
    if e.topic.Some? then l
    else l.(net := l.net[l.cur.value := e.(topic := Some(LoadedTopic(setter, ts, text)))])
  }

  function AddBan(l: Loader, kind: char, mask: string): Loader
    requires l.cur.Some?
  {
    var e := Entry(l.net, l.cur.value);
    l.(net := l.net[l.cur.value := e.(bans := e.bans + [LoadedBan(kind, mask)])])
  }

  /** The body of the loop for one buffer. */
  function Process(l: Loader, buf: string, accepts: string -> bool): Loader {
    match Strtok(buf, " ")
    case (None, _) => l
    case (Some(token), s1) =>
      var item := Strip(token);
      if item == "chan" then ProcessChan(l, s1, accepts)
      else if item == "topic" then ProcessTopic(l, s1)
      else if item == "ban" then ProcessBan(l, s1)
      else l
  }

  function ProcessChan(l: Loader, s1: string, accepts: string -> bool): Loader {
    var (name, s2) := Strtok(s1, " ");
    var (modes, _) := Strtok(s2, "\n");
    if name == None || modes == None then l else RestoreChannel(l, name.value, modes.value, accepts)
  }

  function ProcessTopic(l: Loader, s1: string): Loader {
    if l.cur == None then l
    else
      var (setter, s2) := Strtok(s1, " ");
      var (tsstr, s3) := Strtok(s2, " ");
      var (topic, _) := Strtok(s3, "\n");
      if setter == None || tsstr == None || topic == None then l
      else SetTopic(l, setter.value, AsTime(Strtoul(tsstr.value)), topic.value)
  }

  function ProcessBan(l: Loader, s1: string): Loader {
    if l.cur == None then l
    else
      var (kind, s2) := Strtok(s1, " ");
      var (mask, _) := Strtok(s2, "\n");
      if kind == None || mask == None then l else AddBan(l, kind.value[0], mask.value)
  }

  /** The whole loop. */
  function Load(l: Loader, file: string, accepts: string -> bool): Loader
    decreases |file|
  {
    if file == "" then l
    else
      var n := TakeLine(file, BUFSIZE - 1);
      Load(Process(l, file[..n], accepts), file[n..], accepts)
  }

  // ---------------------------------------------------------------- what survives

  predicate LineFree(s: string) {
    '\n' !in s
  }

  predicate Word(s: string) {
    s != "" && ' ' !in s && LineFree(s)
  }

  predicate Remainder(s: string) {
    s != "" && LineFree(s)
  }

  predicate TopicSurvives(t: Topic) {
    Word(t.setter) && Remainder(t.text) && |TopicLine(t)| < BUFSIZE
  }

  predicate BanSurvives(b: Ban) {
    b.kind != ' ' && b.kind != '\n' && Remainder(b.mask) && |BanLine(b)| < BUFSIZE
  }

  /** What a channel needs to come back: words and non-empty rests of lines, no newline inside,
      lines that fit the buffer, and a network that lets the channel be joined. */
  ghost predicate Survives(c: Channel, accepts: string -> bool) {
    && Word(c.name) && Remainder(c.modes) && |ChanLine(c)| < BUFSIZE && accepts(c.name)
    && (c.topic.Some? ==> TopicSurvives(c.topic.value))
    && forall k :: 0 <= k < |c.bans| ==> BanSurvives(c.bans[k])
  }

  function LoadedBans(bans: seq<Ban>): seq<LoadedBan> {
    seq(|bans|, k requires 0 <= k < |bans| => LoadedBan(bans[k].kind, bans[k].mask))
  }

  /** The channel as the dump describes it. */
  function Image(c: Channel): Restored {
    Restored([c.modes],
             match c.topic case None => None case Some(t) => Some(LoadedTopic(t.setter, t.ts, t.text)),
             LoadedBans(c.bans))
  }

  /** Channels are listed once, under one name each, and time stamps fit a time_t. */
  ghost predicate Directory(cs: seq<Channel>) {
    && (forall j, k :: 0 <= j < k < |cs| ==> cs[j].name != cs[k].name)
    && forall k :: 0 <= k < |cs| && cs[k].topic.Some? ==> InTime(cs[k].topic.value.ts)
  }

  predicate InTime(ts: int) {
    -(ULONG_RANGE / 2) <= ts < ULONG_RANGE / 2
  }

  function Images(cs: seq<Channel>): map<string, Restored> {
    if cs == [] then map[] else Images(cs[1..])[cs[0].name := Image(cs[0])]
  }
}
