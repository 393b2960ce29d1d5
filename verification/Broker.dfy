/** What one call of each server operation does, as functions on values. The class in Server.dfy
    is proved to compute exactly these, and the run theorems are proved about them. */
module Broker {
  import opened Messages
  import opened Lists
  import opened Subscriptions
  import opened Monitor

  /** `maxMsg` is the server's configured queue length, `cap` the capacity of client queues.
      A queue cannot be created with a capacity below one. */
  datatype ConfigRaw = Config(maxTopic: int, maxMsg: int, cap: nat)
  type Config = c: ConfigRaw | c.maxMsg >= 1 && c.cap >= 1 witness Config(100, 10, 10)

  /** A client queue; `linked` says whether its name can still be opened. */
  datatype Queue = Queue(msgs: seq<Msg>, linked: bool)
  const NO_QUEUE := Queue([], false)

  datatype Server = Server(subs: seq<Sub>, mon: seq<Payload>, queues: map<string, Queue>, oldest: Msg)

  function QueueOf(s: Server, c: string): Queue {
    if c in s.queues then s.queues[c] else NO_QUEUE
  }

  // ---------- one send to one client ----------

  /** The effect of one send on the addressee's queue and monitor entry. `ok` is the status
      returned; `crashed` says that the addressee was declared crashed and is to be purged. */
  datatype Delivery = Delivery(queue: Queue, entry: Option<Payload>, oldest: Msg, ok: bool, crashed: bool)

  /** The payload recorded at the first overflow. For a response, source and topic change places. */
  function Recorded(m: Msg, c: string): Payload {
    if m.tag == Response then Payload(m.topic, m.source, m.data, c, 0)
    else Payload(m.source, m.topic, m.data, c, 0)
  }

  /** The comparison of the recorded payload with the message removed from the queue. For a
      response, the recorded topic is compared with the removed message's source. */
  predicate Matches(tag: Tag, e: Payload, removed: Msg) {
    && e.source == removed.source
    && e.topic == (if tag == Response then removed.source else removed.topic)
    && e.data == removed.data
  }

  /** The entry after an overflow: the first one recorded, or the count increased. */
  function Noted(e: Option<Payload>, first: Payload): Payload {
    if e.None? then first else e.value.(sendCount := e.value.sendCount + 1)
  }

  function Count(m: Msg, e: Option<Payload>, c: string): Payload {
    Noted(e, Recorded(m, c))
  }

  function Overflow(cfg: Config, oldest: Msg, q: Queue, e: Option<Payload>, m: Msg, c: string): Delivery
    requires q.msgs != []
  {
    if !Deliverable(m) then Delivery(q, e, oldest, true, false)
    else
      var counted := Count(m, e, c);
      var removed := q.msgs[0];
      var rotated := q.(msgs := q.msgs[1..] + [m]);
      if e.Some? && counted.sendCount >= cfg.maxMsg && Matches(m.tag, counted, removed) then
        if m.tag == Response then Delivery(rotated, None, removed, false, false)
        else Delivery(rotated.(linked := false), None, removed, false, true)
      else Delivery(rotated, Some(counted), removed, true, false)
  }

  function Deliver(cfg: Config, oldest: Msg, q: Queue, e: Option<Payload>, m: Msg, c: string): Delivery {
    if !q.linked then Delivery(q, e, oldest, false, false)
    else if |q.msgs| < cfg.cap then Delivery(q.(msgs := q.msgs + [m]), None, oldest, true, false)
    else Overflow(cfg, oldest, q, e, m, c)
  }

  /** The message removed last is only passed on. */
  lemma DeliverIgnoresOldest(cfg: Config, o: Msg, o': Msg, q: Queue, e: Option<Payload>, m: Msg, c: string)
    ensures var d, d' := Deliver(cfg, o, q, e, m, c), Deliver(cfg, o', q, e, m, c);
      d.queue == d'.queue && d.entry == d'.entry && d.ok == d'.ok && d.crashed == d'.crashed
  {
    hide Matches, Count;
  }

  /** A declared crash takes the queue's name and the entry, and nothing else takes the name. */
  lemma CrashIsUnlinking(cfg: Config, oldest: Msg, q: Queue, e: Option<Payload>, m: Msg, c: string)
    ensures var d := Deliver(cfg, oldest, q, e, m, c);
      (d.crashed <==> q.linked && !d.queue.linked) && (d.crashed ==> d.entry == None)
  {
    hide Matches, Count;
  }

  function DeliverTo(cfg: Config, s: Server, m: Msg, c: string): Delivery {
    Deliver(cfg, s.oldest, QueueOf(s, c), Find(s.mon, c), m, c)
  }

  function Send(cfg: Config, s: Server, m: Msg, c: string): Server {
    var d := DeliverTo(cfg, s, m, c);
    Server(
      if d.crashed then Drop(s.subs, OfClient(c)) else s.subs,
      SetEntry(s.mon, c, d.entry),
      if c in s.queues then s.queues[c := d.queue] else s.queues,
      d.oldest)
  }

  /** The overflow is noted and the queue rotated. */
  function Rotated(s: Server, m: Msg, c: string, counted: Payload): (s': Server)
    requires c in s.queues && s.queues[c].msgs != []
    ensures c in s'.queues
  {
    var q := s.queues[c];
    s.(mon := SetEntry(s.mon, c, Some(counted)), oldest := q.msgs[0],
       queues := s.queues[c := q.(msgs := q.msgs[1..] + [m])])
  }

  /** The client's monitor entry is gone. */
  function Forgotten(s: Server, c: string): Server {
    s.(mon := SetEntry(s.mon, c, None))
  }

  /** So are its subscriptions and its queue's name. */
  function Purged(s: Server, c: string): Server
    requires c in s.queues
  {
    s.(mon := SetEntry(s.mon, c, None), subs := Drop(s.subs, OfClient(c)),
       queues := s.queues[c := s.queues[c].(linked := false)])
  }

  predicate Crashed(cfg: Config, m: Msg, e: Option<Payload>, counted: Payload, removed: Msg) {
    e.Some? && counted.sendCount >= cfg.maxMsg && Matches(m.tag, counted, removed)
  }

  /** A send that finds the queue full, in the order the server proceeds: note the overflow, rotate
      the queue, then remove what a declared crash removes. */
  lemma SendWhenFull(cfg: Config, s: Server, m: Msg, c: string)
    requires c in s.queues && s.queues[c].linked && |s.queues[c].msgs| >= cfg.cap && Deliverable(m)
    ensures var q, e := s.queues[c], Find(s.mon, c);
      var counted := Count(m, e, c);
      var s1, crashed := Rotated(s, m, c, counted), Crashed(cfg, m, e, counted, q.msgs[0]);
      && Send(cfg, s, m, c) ==
           (if !crashed then s1 else if m.tag == Response then Forgotten(s1, c) else Purged(s1, c))
      && DeliverTo(cfg, s, m, c).ok == !crashed
  {
    hide SetEntry, Matches, Find;
    var q, e := s.queues[c], Find(s.mon, c);
    SetEntryTwice(s.mon, c, Count(m, e, c));
    assert s.queues[c := Queue(q.msgs[1..] + [m], true)][c := Queue(q.msgs[1..] + [m], false)]
        == s.queues[c := Queue(q.msgs[1..] + [m], false)];
  }

  /** The status of a send. It fails for a queue that cannot be opened, never for one with room, and for
      a full one exactly if the monitored client's count is up and the message taken out has the data
      and source on record, and for its topic, or when a response is sent its source, the topic. */
  lemma SendStatus(cfg: Config, s: Server, m: Msg, c: string)
    ensures var q, e, ok := QueueOf(s, c), Find(s.mon, c), DeliverTo(cfg, s, m, c).ok;
      && (!q.linked ==> !ok)
      && (q.linked && |q.msgs| < cfg.cap ==> ok)
      && (q.linked && |q.msgs| >= cfg.cap ==>
            (ok <==> !(Deliverable(m) && e.Some? && e.value.sendCount + 1 >= cfg.maxMsg
                       && e.value.data == q.msgs[0].data && e.value.source == q.msgs[0].source
                       && e.value.topic == if m.tag == Response then q.msgs[0].source else q.msgs[0].topic)))
  {
  }

  /** What a send leaves in the addressee's queue: the message at the end, the oldest one gone if the
      queue was full, or the queue as it was if it cannot be opened. */
  lemma QueueAfterSend(cfg: Config, s: Server, m: Msg, c: string)
    requires Deliverable(m)
    ensures var q, q' := QueueOf(s, c), QueueOf(Send(cfg, s, m, c), c);
      && (!q.linked ==> q' == q)
      && (q.linked ==> q'.msgs == (if |q.msgs| < cfg.cap then q.msgs else q.msgs[1..]) + [m])
      && (m.tag == Response ==> q'.linked == q.linked)
  {
    hide Matches, Drop, SetEntry;
  }

  lemma SendWhenRoom(cfg: Config, s: Server, m: Msg, c: string)
    requires c in s.queues && s.queues[c].linked && |s.queues[c].msgs| < cfg.cap
    ensures Send(cfg, s, m, c) == s.(
              mon := SetEntry(s.mon, c, None),
              queues := s.queues[c := Queue(s.queues[c].msgs + [m], true)])
  {
  }

  /** A send that cannot be made, or that the full-queue handler does not know, changes nothing. */
  lemma SendWithoutEffect(cfg: Config, s: Server, m: Msg, c: string)
    requires !QueueOf(s, c).linked || (|QueueOf(s, c).msgs| >= cfg.cap && !Deliverable(m))
    ensures Send(cfg, s, m, c) == s
  {
    var k := First(s.mon, For(c));
    assert c in s.queues ==> s.queues[c := s.queues[c]] == s.queues;
    if k < |s.mon| { assert s.mon[k := s.mon[k]] == s.mon; }
  }

  // ---------- one incoming message ----------

  const LOG_LEVELS := {
    "CMS_LOG_LEVEL_DEBUG", "CMS_LOG_LEVEL_INFO", "CMS_LOG_LEVEL_WARNING",
    "CMS_LOG_LEVEL_ERROR", "CMS_LOG_LEVEL_NONE" }

  /** The new subscription list and the data of the response, if a response is sent. */
  function Answer(cfg: Config, subs: seq<Sub>, m: Msg): (seq<Sub>, Option<string>) {
    var pair := Sub(m.source, m.topic);
    match m.tag
    case Subscribe =>
      if |Topics(subs)| == cfg.maxTopic && Where(subs, OnTopic(m.topic)) == [] then (subs, Some(SUBSCRIBE_FAIL))
      else if pair in subs then (subs, Some(SUBSCRIBE_SUCCESS))
      else (subs + [pair], Some(SUBSCRIBE_SUCCESS))
    case Unsubscribe =>
      if m.topic == ALL then (DeleteDown(subs, Where(subs, OfClient(m.source))), Some(UNSUBSCRIBE_SUCCESS))
      else if pair in subs then (DeleteAt(subs, First(subs, IsPair(pair))), Some(UNSUBSCRIBE_SUCCESS))
      else (subs, Some(UNSUBSCRIBE_FAIL))
    case ConfigServer =>
      if m.topic != CTRL_SET_LOG then (subs, None)
      else (subs, Some(if m.data in LOG_LEVELS then CONFIG_SUCCESS else CONFIG_FAIL))
    case _ => (subs, None)
  }

  /** Handling of every message that needs at most one send. */
  function HandleDirect(cfg: Config, s: Server, m: Msg): Server {
    if m.tag == RequestSendTo then Send(cfg, s, m, m.topic)
    else
      var (subs, reply) := Answer(cfg, s.subs, m);
      if reply.None? then s else Send(cfg, s.(subs := subs), Reply(m, reply.value), m.source)
  }

  /** The list indices a broadcast is going to visit, from the last one to the first. */
  function Targets(subs: seq<Sub>, m: Msg): seq<nat> {
    if m.topic == ALL then Range(|subs|) else Where(subs, OnTopic(m.topic))
  }

  /** One iteration of a broadcast loop: the entry found now at index `i`, if any. */
  function Visit(cfg: Config, s: Server, m: Msg, i: nat): Server {
    if i < |s.subs| && s.subs[i].client != m.source then Send(cfg, s, m, s.subs[i].client) else s
  }

  function Cast(cfg: Config, s: Server, m: Msg, todo: seq<nat>): Server
    decreases |todo|
  {
    if todo == [] then s
    else Cast(cfg, Visit(cfg, s, m, todo[|todo| - 1]), m, todo[..|todo| - 1])
  }

  /** `cms_msg_handler` when nothing else touches the queues meanwhile. */
  function Handle(cfg: Config, s: Server, m: Msg): Server {
    if m.tag == RequestSend then Cast(cfg, s, m, Targets(s.subs, m)) else HandleDirect(cfg, s, m)
  }

  lemma SubscribeHandled(cfg: Config, s: Server, m: Msg)
    requires m.tag == Subscribe
    ensures var pair := Sub(m.source, m.topic);
      var refused := |Topics(s.subs)| == cfg.maxTopic && Where(s.subs, OnTopic(m.topic)) == [];
      var after := if refused || pair in s.subs then s else s.(subs := s.subs + [pair]);
      Handle(cfg, s, m) ==
        Send(cfg, after, Reply(m, if refused then SUBSCRIBE_FAIL else SUBSCRIBE_SUCCESS), m.source)
  {
    assert s.(subs := s.subs) == s;
  }

  // ---------- properties of single operations ----------

  lemma EntryIsOwn(cfg: Config, s: Server, m: Msg, c: string)
    ensures var e := DeliverTo(cfg, s, m, c).entry; e.Some? ==> e.value.client == c
  {
  }

  /** A send changes only the addressee's queue and monitor entry; it changes the subscription
      list only by purging the addressee, and never when a response is sent. */
  lemma SendIsLocal(cfg: Config, s: Server, m: Msg, c: string)
    requires OnePerClient(s.mon)
    ensures var s', d := Send(cfg, s, m, c), DeliverTo(cfg, s, m, c);
      && OnePerClient(s'.mon)
      && Find(s'.mon, c) == d.entry
      && (forall x :: x != c ==> Find(s'.mon, x) == Find(s.mon, x))
      && Drop(s'.mon, For(c)) == Drop(s.mon, For(c))
      && QueueOf(s', c) == d.queue
      && s'.queues.Keys == s.queues.Keys
      && (forall x :: x != c ==> QueueOf(s', x) == QueueOf(s, x))
      && (m.tag == Response ==> s'.subs == s.subs)
  {
    hide SetEntry, Find, Drop, Matches, Count;
    var d := DeliverTo(cfg, s, m, c);
    EntryIsOwn(cfg, s, m, c);
    SetEntryFinds(s.mon, c, d.entry);
    SetEntryKeepsOthers(s.mon, c, d.entry);
    forall x | x != c ensures Find(SetEntry(s.mon, c, d.entry), x) == Find(s.mon, x) {
      SetEntryKeepsLookups(s.mon, c, d.entry, x);
    }
  }

  /** Collecting a client's indices and deleting from the last to the first removes exactly that
      client's entries and keeps the others in order. */
  lemma PurgeRemoves(subs: seq<Sub>, c: string)
    ensures DeleteDown(subs, Where(subs, OfClient(c))) == Drop(subs, OfClient(c))
    ensures forall e :: e in Drop(subs, OfClient(c)) <==> e in subs && e.client != c
  {
    DeleteDownIsDrop(subs, OfClient(c));
    DropMembers(subs, OfClient(c));
  }

  /** A declared crash removes all the client's subscriptions, its monitor entry and its queue
      name, and keeps the other subscriptions in order. */
  lemma CrashPurges(cfg: Config, s: Server, m: Msg, c: string)
    requires OnePerClient(s.mon) && DeliverTo(cfg, s, m, c).crashed
    ensures var s' := Send(cfg, s, m, c);
      && s'.subs == DeleteDown(s.subs, Where(s.subs, OfClient(c)))
      && (forall e :: e in s'.subs <==> e in s.subs && e.client != c)
      && Find(s'.mon, c) == None
      && !QueueOf(s', c).linked
  {
    hide Drop, Find, Where, DeleteDown, SetEntry, Matches, Count;
    SendIsLocal(cfg, s, m, c);
    PurgeRemoves(s.subs, c);
  }

  /** The verdict sent for a subscribe or unsubscribe request is the truth. */
  ghost predicate Truthful(req: Msg, ok: bool, before: seq<Sub>, after: seq<Sub>) {
    var pair := Sub(req.source, req.topic);
    if req.tag == Subscribe then
      ok <==> pair in after
    else if req.topic == ALL then
      ok && forall e :: e in after ==> e.client != req.source
    else
      (ok <==> pair in before) && pair !in after
  }

  /** Subscribe succeeds exactly when the pair is in the list afterwards; it is refused exactly
      when the limit is reached and nobody is on the topic. */
  lemma SubscribeTruth(cfg: Config, subs: seq<Sub>, m: Msg)
    requires m.tag == Subscribe
    ensures var pair, (after, reply) := Sub(m.source, m.topic), Answer(cfg, subs, m);
      && (after == subs || (pair !in subs && after == subs + [pair]))
      && reply == Some(if pair in after then SUBSCRIBE_SUCCESS else SUBSCRIBE_FAIL)
      && (pair !in after <==> |Topics(subs)| == cfg.maxTopic && forall e :: e in subs ==> e.topic != m.topic)
  {
    NobodyOn(subs, m.topic);
    var pair := Sub(m.source, m.topic);
    assert pair in subs + [pair];
    assert pair in subs ==> exists e :: e in subs && e.topic == m.topic;
  }

  lemma SubscribeKeepsLimits(cfg: Config, subs: seq<Sub>, m: Msg)
    requires m.tag == Subscribe && NoDuplicates(subs)
    ensures var (after, _) := Answer(cfg, subs, m);
      && NoDuplicates(after)
      && (|Topics(subs)| <= cfg.maxTopic ==> |Topics(after)| <= cfg.maxTopic)
  {
    var pair := Sub(m.source, m.topic);
    var (after, _) := Answer(cfg, subs, m);
    SubscribeTruth(cfg, subs, m);
    if after != subs && |Topics(subs)| <= cfg.maxTopic {
      assert pair in after;
      if |Topics(subs)| == cfg.maxTopic {
        var e :| e in subs && e.topic == m.topic;
        assert pair.topic != "" ==> pair.topic in Topics(subs);
      }
      TopicsAdd(subs, pair, cfg.maxTopic);
    }
  }

  lemma TopicsAdd(subs: seq<Sub>, e: Sub, limit: int)
    requires |Topics(subs)| <= limit
    requires |Topics(subs)| == limit && e.topic != "" ==> e.topic in Topics(subs)
    ensures |Topics(subs + [e])| <= limit
  {
    TopicsSnoc(subs, e);
    if e.topic in Topics(subs) {
      assert Topics(subs) + {e.topic} == Topics(subs);
    }
  }

  lemma NobodyOn(subs: seq<Sub>, t: string)
    ensures Where(subs, OnTopic(t)) == [] <==> forall e :: e in subs ==> e.topic != t
    ensures t != "" ==> (Where(subs, OnTopic(t)) == [] <==> t !in Topics(subs))
  {
    WhereIsExact(subs, OnTopic(t));
    var found := Where(subs, OnTopic(t));
    if found != [] {
      assert found[0] in found;
      assert subs[found[0]] in subs;
    } else {
      forall e | e in subs ensures e.topic != t {
        var k :| 0 <= k < |subs| && subs[k] == e;
        assert k !in found;
      }
    }
  }

  lemma {:induction false} UnsubscribeAllTruth(cfg: Config, subs: seq<Sub>, m: Msg)
    requires m.tag == Unsubscribe && m.topic == ALL
    ensures var (after, reply) := Answer(cfg, subs, m);
      && reply == Some(UNSUBSCRIBE_SUCCESS)
      && after == Drop(subs, OfClient(m.source))
      && (forall e :: e in after <==> e in subs && e.client != m.source)
      && (NoDuplicates(subs) ==> NoDuplicates(after))
  {
    PurgeRemoves(subs, m.source);
    if NoDuplicates(subs) { DropKeepsDistinct(subs, OfClient(m.source)); }
  }

  lemma UnsubscribeTopicTruth(cfg: Config, subs: seq<Sub>, m: Msg)
    requires m.tag == Unsubscribe && m.topic != ALL
    requires NoDuplicates(subs)
    ensures var pair, (after, reply) := Sub(m.source, m.topic), Answer(cfg, subs, m);
      && reply == Some(if pair in subs then UNSUBSCRIBE_SUCCESS else UNSUBSCRIBE_FAIL)
      && (forall e :: e in after <==> e in subs && e != pair)
      && NoDuplicates(after)
  {
    var pair := Sub(m.source, m.topic);
    var k := First(subs, IsPair(pair));
    if pair in subs {
      var j :| 0 <= j < |subs| && subs[j] == pair;
      assert IsPair(pair)(subs[j]);
      assert k < |subs| && subs[k] == pair;
      DeleteAtKeepsDistinct(subs, k);
      var after := DeleteAt(subs, k);
      forall e | e in subs && e != pair ensures e in after {
        var i :| 0 <= i < |subs| && subs[i] == e;
        assert after[if i < k then i else i - 1] == e;
      }
    }
  }

  /** Subscribe and unsubscribe requests always get exactly one response, whose verdict is true,
      and keep pairs unique and the number of topics within the limit. */
  lemma AnswerIsTruthful(cfg: Config, subs: seq<Sub>, m: Msg)
    requires m.tag == Subscribe || m.tag == Unsubscribe
    requires NoDuplicates(subs)
    ensures var (after, reply) := Answer(cfg, subs, m);
      && reply.Some? && (reply.value == SuccessFor(m) || reply.value == FailFor(m))
      && Truthful(m, reply.value == SuccessFor(m), subs, after)
      && NoDuplicates(after)
      && (|Topics(subs)| <= cfg.maxTopic ==> |Topics(after)| <= cfg.maxTopic)
  {
    VerdictsDiffer(m);
    var (after, _) := Answer(cfg, subs, m);
    if m.tag == Subscribe {
      SubscribeTruth(cfg, subs, m);
      SubscribeKeepsLimits(cfg, subs, m);
    } else if m.topic == ALL {
      UnsubscribeAllTruth(cfg, subs, m);
      TopicsOfSome(subs, after);
    } else {
      UnsubscribeTopicTruth(cfg, subs, m);
      TopicsOfSome(subs, after);
    }
  }
}
