/** Which channels come back from a dump of src/os_savechanmodes.c: exactly those that survive the
    file format. */
module ChanmodesExact {
  import opened Options
  import opened ChanmodesText
  import opened ChanmodesRoundTrip
  import opened ChanmodesGood
  import opened ChanmodesLost

  lemma {:induction false} ImageOf(cs: seq<Channel>, k: nat)
    requires Directory(cs) && k < |cs|
    ensures cs[k].name in Images(cs) && Images(cs)[cs[k].name] == Image(cs[k])
  {
    if k > 0 {
      NotAmongTheRest(cs);
      ImageOf(cs[1..], k - 1);
      assert cs[1..][k - 1] == cs[k];
    }
  }

  lemma {:induction false} AllBackIsNear(cs: seq<Channel>, accepts: string -> bool)
    requires Directory(cs) && Load(Loader(map[], None), Written(Lines(cs)), accepts).net == Images(cs)
    ensures forall k :: 0 <= k < |cs| ==> Nearly(cs[k], accepts)
  {
    LoadIsGood(Loader(map[], None), Written(Lines(cs)), accepts);
    forall k | 0 <= k < |cs| ensures Nearly(cs[k], accepts) {
      ImageOf(cs, k);
      GoodImageIsNear(cs[k], accepts);
    }
  }

  lemma {:induction false} OneLostIsEnough(cs: seq<Channel>, i: nat, accepts: string -> bool)
    requires Directory(cs) && i < |cs| && !Survives(cs[i], accepts)
    ensures Load(Loader(map[], None), Written(Lines(cs)), accepts).net != Images(cs)
  {
    var l := Loader(map[], None);
    if Load(l, Written(Lines(cs)), accepts).net == Images(cs) {
      AllBackIsNear(cs, accepts);
      var k := SomebodyIsLost(l, cs, i, accepts);
      ImageOf(cs, k);
    }
  }

  lemma {:induction false} SurvivorsComeBack(cs: seq<Channel>, accepts: string -> bool)
    requires Directory(cs) && forall k :: 0 <= k < |cs| ==> Survives(cs[k], accepts)
    ensures Load(Loader(map[], None), Written(Lines(cs)), accepts).net == Images(cs)
  {
    LoadAll(Loader(map[], None), cs, accepts);
    assert map[] + Images(cs) == Images(cs);
  }

  /** SAVE and LOAD into an empty network give back the channels exactly when all of them survive
      the file format: one channel that does not is enough to lose or change something. */
  lemma {:induction false} ComeBackExactlyWhenTheySurvive(cs: seq<Channel>, accepts: string -> bool)
    requires Directory(cs)
    ensures Load(Loader(map[], None), Written(Lines(cs)), accepts).net == Images(cs)
            <==> forall k :: 0 <= k < |cs| ==> Survives(cs[k], accepts)
  {
    if i :| 0 <= i < |cs| && !Survives(cs[i], accepts) {
      OneLostIsEnough(cs, i, accepts);
    } else {
      SurvivorsComeBack(cs, accepts);
    }
  }

  /** An empty topic is dumped, and lost. */
  lemma EmptyTopicIsLost()
    ensures var c := Channel("#a", "+nt", Some(Topic("x", 5, "")), []);
      Load(Loader(map[], None), Written(Lines([c])), _ => true).net != Images([c])
  {
    var c := Channel("#a", "+nt", Some(Topic("x", 5, "")), []);
    ComeBackExactlyWhenTheySurvive([c], _ => true);
    assert !TopicSurvives(c.topic.value);
    assert !Survives([c][0], _ => true);
  }

  function LongTopic(n: nat): Channel {
    Channel("#a", "+nt", Some(Topic("x", 5, seq(n, _ => 'a'))), [])
  }

  /** So is a topic of 2048 letters or more. */
  lemma OverLongTopicIsLost(n: nat)
    requires n >= BUFSIZE
    ensures Load(Loader(map[], None), Written(Lines([LongTopic(n)])), _ => true).net != Images([LongTopic(n)])
  {
    var c := LongTopic(n);
    ComeBackExactlyWhenTheySurvive([c], _ => true);
    assert !TopicSurvives(c.topic.value);
    assert !Survives([c][0], _ => true);
  }
}
