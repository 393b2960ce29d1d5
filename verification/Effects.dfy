/** What the handling of one message does, told in the fields of the message and of the clients' queues,
    for every message tag. */
module Effects {
  import opened Messages
  import opened Lists
  import opened Subscriptions
  import opened Monitor
  import opened Broker

  /** Nothing happens to this client's queue and monitor entry. */
  ghost predicate Unchanged(s: Server, s': Server, c: string) {
    QueueOf(s', c) == QueueOf(s, c) && Find(s'.mon, c) == Find(s.mon, c)
  }

  ghost predicate OthersUnchanged(s: Server, s': Server, c: string) {
    forall x :: x != c ==> Unchanged(s, s', x)
  }

  /** The message comes to the end of the queue, in place of the oldest one if the queue was full; a
      queue that cannot be opened stays as it is. */
  ghost predicate Delivered(cfg: Config, q: Queue, q': Queue, m: Msg) {
    if q.linked then q'.msgs == (if |q.msgs| < cfg.cap then q.msgs else q.msgs[1..]) + [m] else q' == q
  }

  /** One send of a message in its own fields. */
  lemma OneSend(cfg: Config, s: Server, m: Msg, c: string)
    requires OnePerClient(s.mon) && Deliverable(m)
    ensures var s' := Send(cfg, s, m, c);
      && OnePerClient(s'.mon) && OthersUnchanged(s, s', c)
      && Delivered(cfg, QueueOf(s, c), QueueOf(s', c), m)
      && (!QueueOf(s, c).linked ==> Unchanged(s, s', c))
      && (m.tag == Response ==> s'.subs == s.subs && QueueOf(s', c).linked == QueueOf(s, c).linked)
  {
    hide Send, Find;
    SendIsLocal(cfg, s, m, c);
    QueueAfterSend(cfg, s, m, c);
    hide Deliver;
    if !QueueOf(s, c).linked { SendWithoutEffect(cfg, s, m, c); }
  }

  // ---------- subscribe and unsubscribe ----------

  /** The entries a request asks to remove. */
  function Named(m: Msg): Sub -> bool {
    (e: Sub) => e.client == m.source && (m.topic == "ALL" || e.topic == m.topic)
  }

  lemma {:induction false} DropAgrees(s: seq<Sub>, p: Sub -> bool, q: Sub -> bool)
    requires forall x :: x in s ==> p(x) == q(x)
    ensures Drop(s, p) == Drop(s, q)
  {
    if s != [] {
      assert s[|s| - 1] in s;
      DropAgrees(s[..|s| - 1], p, q);
    }
  }

  lemma DropTheOne(front: seq<Sub>, x: Sub, back: seq<Sub>, p: Sub -> bool)
    requires p(x) && (forall e :: e in front ==> !p(e)) && (forall e :: e in back ==> !p(e))
    ensures Drop((front + [x]) + back, p) == front + back
  {
    hide Drop;
    DropInTheMiddle(front, x, back, p);
    DropNothing(front, p);
    DropNothing(back, p);
    assert front + [] == front;
  }

  /** Deleting the only entry that satisfies a predicate is the filter. */
  lemma DeleteTheOne(s: seq<Sub>, k: nat, p: Sub -> bool)
    requires k < |s| && forall j :: 0 <= j < |s| ==> (p(s[j]) <==> j == k)
    ensures DeleteAt(s, k) == Drop(s, p)
  {
    hide Drop;
    assert s == (s[..k] + [s[k]]) + s[k + 1..];
    DropTheOne(s[..k], s[k], s[k + 1..], p);
  }

  /** The list after an unsubscribe request: the entries named are gone, the others in their order. */
  lemma {:induction false} UnsubscribeFilters(cfg: Config, subs: seq<Sub>, m: Msg)
    requires m.tag == Unsubscribe && NoDuplicates(subs)
    ensures Answer(cfg, subs, m).0 == Drop(subs, Named(m))
  {
    var pair := Sub(m.source, m.topic);
    if m.topic == ALL {
      UnsubscribeAllTruth(cfg, subs, m);
      DropAgrees(subs, OfClient(m.source), Named(m));
    } else if pair in subs {
      var k := First(subs, IsPair(pair));
      var j :| 0 <= j < |subs| && subs[j] == pair;
      assert IsPair(pair)(subs[j]);
      assert k < |subs| && subs[k] == pair;
      forall i | 0 <= i < |subs| ensures Named(m)(subs[i]) <==> i == k {
        assert Named(m)(subs[i]) <==> subs[i] == pair;
      }
      DeleteTheOne(subs, k, Named(m));
    } else {
      DropNothing(subs, Named(m));
    }
  }

  /** A request changes the list as asked for, unless it is refused or there is nothing to change. */
  lemma RequestChangesList(cfg: Config, s: Server, m: Msg)
    requires OnePerClient(s.mon) && NoDuplicates(s.subs)
    requires m.tag == Subscribe || m.tag == Unsubscribe
    ensures var pair, subs' := Sub(m.source, m.topic), Handle(cfg, s, m).subs;
      if m.tag == Unsubscribe then subs' == Drop(s.subs, Named(m))
      else if pair in s.subs || (|Topics(s.subs)| == cfg.maxTopic && forall e :: e in s.subs ==> e.topic != m.topic)
      then subs' == s.subs
      else subs' == s.subs + [pair]
  {
    hide Send, Topics, Drop, Named, Answer;
    AnswerIsTruthful(cfg, s.subs, m);
    var (subs, reply) := Answer(cfg, s.subs, m);
    OneSend(cfg, s.(subs := subs), Reply(m, reply.value), m.source);
    if m.tag == Unsubscribe {
      UnsubscribeFilters(cfg, s.subs, m);
    } else {
      SubscribeTruth(cfg, s.subs, m);
    }
  }

  /** The verdict the requester is due: of a subscribe request that the pair is in the list now, of an
      unsubscribe request that there was something to remove or everything was meant. */
  ghost predicate Granted(m: Msg, before: seq<Sub>, after: seq<Sub>) {
    var pair := Sub(m.source, m.topic);
    if m.tag == Subscribe then pair in after else m.topic == "ALL" || pair in before
  }

  /** A request is answered with one response in its requester's queue, from the requester's name, on
      the topic asked for and with the true verdict; and nobody else is concerned. */
  lemma {:induction false} RequestIsAnswered(cfg: Config, s: Server, m: Msg)
    requires OnePerClient(s.mon) && NoDuplicates(s.subs)
    requires m.tag == Subscribe || m.tag == Unsubscribe
    ensures var s' := Handle(cfg, s, m);
      var q, q', granted := QueueOf(s, m.source), QueueOf(s', m.source), Granted(m, s.subs, s'.subs);
      && OthersUnchanged(s, s', m.source) && q'.linked == q.linked
      && Delivered(cfg, q, q', Msg(Response, m.source, m.topic,
           match (m.tag == Subscribe, granted)
           case (true, true) => "CMS_SUBCRIBE_SUCCESS"
           case (true, false) => "CMS_SUBCRIBE_FAIL"
           case (false, true) => "CMS_UNSUBCRIBE_SUCCESS"
           case (false, false) => "CMS_UNSUBCRIBE_FAIL"))
  {
    VerdictIsDue(cfg, s.subs, m);
    hide Send, Answer, Granted, Delivered;
    var (subs, reply) := Answer(cfg, s.subs, m);
    var before, r := s.(subs := subs), Reply(m, reply.value);
    OneSend(cfg, before, r, m.source);
    assert Handle(cfg, s, m) == Send(cfg, before, r, m.source);
    assert QueueOf(before, m.source) == QueueOf(s, m.source);
    assert forall x :: Unchanged(before, Send(cfg, before, r, m.source), x) ==> Unchanged(s, Handle(cfg, s, m), x);
  }

  lemma {:induction false} VerdictIsDue(cfg: Config, subs: seq<Sub>, m: Msg)
    requires NoDuplicates(subs) && (m.tag == Subscribe || m.tag == Unsubscribe)
    ensures var (after, reply) := Answer(cfg, subs, m);
      reply == Some(if Granted(m, subs, after) then SuccessFor(m) else FailFor(m))
  {
    hide Topics, Where, DeleteDown;
    if m.tag == Subscribe {
      SubscribeTruth(cfg, subs, m);
    } else if m.topic == ALL {
      UnsubscribeAllTruth(cfg, subs, m);
    } else {
      UnsubscribeTopicTruth(cfg, subs, m);
    }
  }

  // ---------- the other messages ----------

  /** A message to one client comes to the end of its queue as it is, and concerns nobody else; the
      list changes only if the client is declared crashed, and then loses its entries. */
  lemma {:induction false} MessageIsForwarded(cfg: Config, s: Server, m: Msg)
    requires OnePerClient(s.mon) && m.tag == RequestSendTo
    ensures var s' := Handle(cfg, s, m);
      && OthersUnchanged(s, s', m.topic)
      && Delivered(cfg, QueueOf(s, m.topic), QueueOf(s', m.topic), m)
      && (if QueueOf(s, m.topic).linked && !QueueOf(s', m.topic).linked
          then s'.subs == Drop(s.subs, OfClient(m.topic)) && Find(s'.mon, m.topic) == None
          else s'.subs == s.subs)
  {
    OneSend(cfg, s, m, m.topic);
    PurgeIsSeen(cfg, s, m, m.topic);
    hide Drop, Find, Send, OthersUnchanged, Delivered;
  }

  /** A send purges the client exactly if the queue's name goes. */
  lemma PurgeIsSeen(cfg: Config, s: Server, m: Msg, c: string)
    requires OnePerClient(s.mon)
    ensures var s' := Send(cfg, s, m, c);
      if QueueOf(s, c).linked && !QueueOf(s', c).linked
      then s'.subs == Drop(s.subs, OfClient(c)) && Find(s'.mon, c) == None
      else s'.subs == s.subs
  {
    hide Deliver, Drop, Find, SetEntry;
    SendIsLocal(cfg, s, m, c);
    CrashIsUnlinking(cfg, s.oldest, QueueOf(s, c), Find(s.mon, c), m, c);
  }

  /** A request to set the log level is answered, on its own topic, with whether the level is one of the
      five; a configuration message on any other topic is not answered. The list stays as it is. */
  lemma {:induction false} LogLevelIsAnswered(cfg: Config, s: Server, m: Msg)
    requires OnePerClient(s.mon) && m.tag == ConfigServer
    ensures var s' := Handle(cfg, s, m);
      var known := m.data == "CMS_LOG_LEVEL_DEBUG" || m.data == "CMS_LOG_LEVEL_INFO"
        || m.data == "CMS_LOG_LEVEL_WARNING" || m.data == "CMS_LOG_LEVEL_ERROR" || m.data == "CMS_LOG_LEVEL_NONE";
      && s'.subs == s.subs && OthersUnchanged(s, s', m.source)
      && (if m.topic != "--set-log-level" then s' == s
          else Delivered(cfg, QueueOf(s, m.source), QueueOf(s', m.source),
                         Msg(Response, m.source, m.topic, if known then "CMS_CONFIG_SUCCESS" else "CMS_CONFIG_FAIL")))
  {
    hide Send;
    if m.topic == CTRL_SET_LOG {
      assert s.(subs := s.subs) == s;
      OneSend(cfg, s, Reply(m, if m.data in LOG_LEVELS then CONFIG_SUCCESS else CONFIG_FAIL), m.source);
    }
  }

  /** Responses and messages with an unknown tag change nothing. */
  lemma OthersAreIgnored(cfg: Config, s: Server, m: Msg)
    requires m.tag == Response || m.tag.Other?
    ensures Handle(cfg, s, m) == s
  {
  }

  // ---------- broadcasts ----------

  /** A broadcast changes nothing for its source, and what it changes for others is to put this very
      message at the end of their queues. */
  ghost predicate Carried(s: Server, s': Server, m: Msg) {
    forall c :: Unchanged(s, s', c) || (c != m.source && EndsIn(QueueOf(s', c).msgs, m))
  }

  ghost predicate EndsIn(q: seq<Msg>, m: Msg) {
    q != [] && q[|q| - 1] == m
  }

  lemma VisitCarries(cfg: Config, s: Server, m: Msg, i: nat)
    requires OnePerClient(s.mon) && m.tag == RequestSend
    ensures OnePerClient(Visit(cfg, s, m, i).mon) && Carried(s, Visit(cfg, s, m, i), m)
  {
    hide Send, Find;
    if i < |s.subs| && s.subs[i].client != m.source { OneSend(cfg, s, m, s.subs[i].client); }
  }

  lemma {:induction false} CastCarries(cfg: Config, s: Server, m: Msg, todo: seq<nat>)
    requires OnePerClient(s.mon) && m.tag == RequestSend
    ensures Carried(s, Cast(cfg, s, m, todo), m)
    decreases |todo|
  {
    hide Visit, QueueOf, Find;
    if todo != [] {
      VisitCarries(cfg, s, m, todo[|todo| - 1]);
      CastCarries(cfg, Visit(cfg, s, m, todo[|todo| - 1]), m, todo[..|todo| - 1]);
    }
  }

  lemma {:induction false} BroadcastCarries(cfg: Config, s: Server, m: Msg)
    requires OnePerClient(s.mon) && m.tag == RequestSend
    ensures Unchanged(s, Handle(cfg, s, m), m.source)
    ensures Carried(s, Handle(cfg, s, m), m)
  {
    hide Cast, Targets, QueueOf, Find;
    CastCarries(cfg, s, m, Targets(s.subs, m));
  }
}
