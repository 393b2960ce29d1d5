/** The server itself: two linked lists and the client queues, changed in place. Every method is
    proved to compute the corresponding function of module Broker on the abstract state. */
module HmxServer {
  import opened Messages
  import opened Lists
  import opened Subscriptions
  import opened Monitor
  import opened Broker

  datatype Errno = OK | EAGAIN | EBADF

  /** A POSIX message queue opened non-blocking, all messages of priority 0 (IEEE Std 1003.1-2017,
      System Interfaces chapter 3, mq_send and mq_receive). */
  class MessageQueue {
    const cap: nat
    var msgs: seq<Msg>
    var linked: bool

    constructor (cap: nat)
      ensures this.cap == cap && msgs == [] && linked
    {
      this.cap := cap;
      msgs, linked := [], true;
    }

    method Send(m: Msg) returns (e: Errno)
      modifies this`msgs
      ensures e == if |old(msgs)| < cap then OK else EAGAIN
      ensures msgs == if e == OK then old(msgs) + [m] else old(msgs)
    {
      if |msgs| >= cap {
        return EAGAIN;
      }
      msgs := msgs + [m];
      return OK;
    }

    method Receive() returns (m: Option<Msg>)
      modifies this`msgs
      ensures if old(msgs) == [] then m == None && msgs == []
              else m == Some(old(msgs)[0]) && msgs == old(msgs)[1..]
    {
      if msgs == [] {
        return None;
      }
      m := Some(msgs[0]);
      msgs := msgs[1..];
    }

    function Value(): Queue
      reads this
    {
      Queue(msgs, linked)
    }
  }

  class CmsServer {
    const cfg: Config
    const clients: SubscriptionList
    const monitor: MonitorList
    /** The queues by name, as the operating system knows them. */
    const queues: map<string, MessageQueue>
    var oldest: Msg
    ghost var Repr: set<object>

    ghost predicate Valid()
      reads this, Repr
      ensures Valid() ==> this in Repr
    {
      && this in Repr
      && clients in Repr && clients.Repr <= Repr && this !in clients.Repr && clients.Valid()
      && monitor in Repr && monitor.Repr <= Repr && this !in monitor.Repr && monitor.Valid()
      && clients.Repr !! monitor.Repr
      && (forall n :: n in queues ==>
            && queues[n] in Repr && queues[n] !in clients.Repr && queues[n] !in monitor.Repr
            && queues[n].cap == cfg.cap && |queues[n].msgs| <= cfg.cap)
      && (forall n, k :: n in queues && k in queues && n != k ==> queues[n] != queues[k])
    }

    ghost function Queues(): map<string, Queue>
      requires Valid()
      reads this, Repr
    {
      map n | n in queues :: queues[n].Value()
    }

    ghost function Abs(): Server
      requires Valid()
      reads this, Repr
    {
      Server(clients.contents, monitor.contents, Queues(), oldest)
    }

    constructor (cfg: Config, queues: map<string, MessageQueue>)
      requires forall n :: n in queues ==> queues[n].cap == cfg.cap && |queues[n].msgs| <= cfg.cap
      requires forall n, k :: n in queues && k in queues && n != k ==> queues[n] != queues[k]
      ensures Valid() && this.cfg == cfg && this.queues == queues
      ensures Abs().subs == [] && Abs().mon == []
    {
      this.cfg, this.queues := cfg, queues;
      oldest := Msg(Other(0), "", "", "");
      clients := new SubscriptionList();
      monitor := new MonitorList();
      new;
      Repr := {this} + clients.Repr + monitor.Repr + (set n | n in queues :: queues[n] as object);
    }

    /** `mq_open` without creation; null stands for the error descriptor. */
    method Open(name: string) returns (q: MessageQueue?)
      requires Valid()
      ensures q == if name in queues && queues[name].linked then queues[name] else null
    {
      q := if name in queues && queues[name].linked then queues[name] else null;
    }

    /** A change of one queue is a change of one value of the abstract map. */
    twostate lemma OneQueueChanged(name: string)
      requires old(Valid()) && Valid() && name in queues
      requires forall n :: n in queues && n != name ==> queues[n].Value() == old(queues[n].Value())
      ensures Queues() == old(Queues())[name := queues[name].Value()]
    {
    }

    /** Starts monitoring a client. */
    method AddEntry(payload: PayloadCell)
      requires Valid() && payload !in Repr
      modifies monitor.Repr, this`Repr
      ensures Valid() && fresh(Repr - old(Repr) - {payload})
      ensures Abs() == old(Abs()).(mon := old(monitor.contents) + [payload.Value()])
    {
      var _ := monitor.Add(payload);
      Repr := Repr + monitor.Repr;
      assert Queues() == old(Queues());
    }

    /** Counts a further overflow through the entry found. */
    method CountEntry(pl: PayloadCell, ghost k: nat)
      requires Valid() && k < |monitor.nodes| && pl == monitor.nodes[k].payload
      modifies monitor.Repr
      ensures Valid() && Repr == old(Repr)
      ensures var e := old(monitor.contents)[k];
        var counted := e.(sendCount := e.sendCount + 1);
        && pl.Value() == counted
        && Abs() == old(Abs()).(mon := old(monitor.contents)[k := counted])
    {
      monitor.CountOverflow(pl, k);
      assert Queues() == old(Queues());
    }

    /** Stores the first overflow in the monitor list, or counts a further one. */
    method NoteOverflow(pl: PayloadCell?, ghost k: nat, source: string, topic: string, data: string, name: string)
      requires Valid()
      requires k == First(monitor.contents, For(name))
      requires if k < |monitor.contents| then pl == monitor.nodes[k].payload else pl == null
      modifies Repr
      ensures Valid() && fresh(Repr - old(Repr))
      ensures var e := Find(old(monitor.contents), name);
        var noted := Noted(e, Payload(source, topic, data, name, 0));
        && Abs() == old(Abs()).(mon := SetEntry(old(monitor.contents), name, Some(noted)))
        && (pl != null <==> e.Some?) && (pl != null ==> pl.Value() == noted)
    {
      if pl == null {
        var payload := new PayloadCell(source, topic, data, name);
        AddEntry(payload);
      } else {
        CountEntry(pl, k);
      }
    }

    /** Receives from the queue, then sends the new message to it. */
    method Exchange(m: Msg, q: MessageQueue) returns (received: Option<Msg>, e: Errno)
      requires 0 < |q.msgs| <= q.cap
      modifies q`msgs
      ensures received == Some(old(q.msgs)[0]) && e == OK && q.msgs == old(q.msgs)[1..] + [m]
    {
      received := q.Receive();
      e := EBADF;
      if received.Some? {
        e := q.Send(m);
      }
    }

    /** Removes the oldest message of a full queue and appends the new one. */
    method Overwrite(m: Msg, q: MessageQueue, name: string) returns (r: int)
      requires Valid() && name in queues && q == queues[name] && |q.msgs| == cfg.cap
      modifies this`oldest, q`msgs
      ensures Valid() && Repr == old(Repr) && r == CMS_SUCCESS
      ensures oldest == old(q.msgs)[0] && q.msgs == old(q.msgs)[1..] + [m]
      ensures Abs() == old(Abs()).(
                oldest := oldest, queues := old(Queues())[name := Queue(q.msgs, old(q.linked))])
    {
      var received, e := Exchange(m, q);
      if received.None? || e != OK {
        return CMS_ERROR;
      }
      oldest := received.value;
      OneQueueChanged(name);
      return CMS_SUCCESS;
    }

    method DeleteEntry(index: nat) returns (r: int)
      requires Valid() && index < |clients.contents|
      modifies clients.Repr
      ensures Valid() && Repr == old(Repr) && clients.Repr == old(clients.Repr) && r == CMS_SUCCESS
      ensures Abs() == old(Abs()).(subs := DeleteAt(old(clients.contents), index))
    {
      r := clients.DeleteClient(index);
      assert Queues() == old(Queues());
    }

    /** Deletes the list entries at the collected indices, from the last to the first, and adds up
        the results. */
    method DeleteIndices(indexGr: array<nat>, num: int, ghost idx: seq<nat>) returns (ret: int)
      requires Valid() && indexGr !in Repr
      requires num == CountOrError(|idx|) && Increasing(idx, |clients.contents|)
      requires |idx| <= indexGr.Length && indexGr[..|idx|] == idx
      modifies clients.Repr
      ensures Valid() && Repr == old(Repr) && clients.Repr == old(clients.Repr)
      ensures ret == CMS_SUCCESS
      ensures Abs() == old(Abs()).(subs := DeleteDown(old(clients.contents), idx))
    {
      ret := CMS_SUCCESS;
      if num == CMS_ERROR {
        return;
      }
      ghost var s := clients.contents;
      var i := num - 1;
      assert idx[i + 1..] == [];
      while i >= 0
        invariant -1 <= i < |idx|
        invariant Valid() && Repr == old(Repr) && clients.Repr == old(clients.Repr)
        invariant Abs() == old(Abs()).(subs := DeleteDown(s, idx[i + 1..]))
        invariant ret == CMS_SUCCESS
      {
        DeleteDownInRange(s, idx[i..]);
        assert idx[i..][1..] == idx[i + 1..];
        assert indexGr[i] == indexGr[..|idx|][i] == idx[i];
        var r := DeleteEntry(indexGr[i]);
        ret := ret + r;
        i := i - 1;
      }
      assert idx[0..] == idx;
    }

    method CollectByName(name: string) returns (indexGr: array<nat>, num: int)
      requires Valid()
      ensures fresh(indexGr)
      ensures var idx := Where(clients.contents, OfClient(name));
        && num == CountOrError(|idx|)
        && |idx| <= indexGr.Length && indexGr[..|idx|] == idx
    {
      var length := clients.GetLengthList();
      indexGr := new nat[length];
      num := clients.GetIndexByName(name, indexGr);
    }

    method RemoveEntry(name: string)
      requires Valid()
      modifies monitor.Repr
      ensures Valid() && Repr == old(Repr)
      ensures Abs() == Forgotten(old(Abs()), name)
    {
      var _ := monitor.Delete(name);
      assert Queues() == old(Queues());
    }

    /** `mq_unlink`: the name can no longer be opened; the client keeps its descriptor. */
    method Unlink(name: string)
      requires Valid() && name in queues
      modifies queues[name]
      ensures Valid() && Repr == old(Repr)
      ensures Abs() == old(Abs()).(queues := old(Queues())[name := Queue(old(queues[name].msgs), false)])
    {
      queues[name].linked := false;
      OneQueueChanged(name);
    }

    /** Collects and deletes all subscriptions of a client. */
    method DeleteClientEntries(name: string) returns (ret: int)
      requires Valid()
      modifies clients.Repr
      ensures Valid() && Repr == old(Repr) && clients.Repr == old(clients.Repr) && ret == CMS_SUCCESS
      ensures Abs() == old(Abs()).(subs := DeleteDown(old(clients.contents),
                                     Where(old(clients.contents), OfClient(name))))
    {
      WhereIsExact(clients.contents, OfClient(name));
      ghost var idx := Where(clients.contents, OfClient(name));
      var indexGr, num := CollectByName(name);
      ret := DeleteIndices(indexGr, num, idx);
    }

    /** Removes a crashed client: its monitor entry, its subscriptions and its queue name. */
    method PurgeCrashed(name: string)
      requires Valid() && name in queues
      modifies Repr
      ensures Valid() && Repr == old(Repr)
      ensures name in old(Abs()).queues && Abs() == Purged(old(Abs()), name)
    {
      ghost var was := Abs();
      assert queues[name].Value() == Queues()[name];
      RemoveEntry(name);
      DeleteDownIsDrop(clients.contents, OfClient(name));
      var ret := DeleteClientEntries(name);
      assert Abs() == was.(subs := Drop(was.subs, OfClient(name)), mon := SetEntry(was.mon, name, None));
      assert queues[name].Value() == Queues()[name];
      if ret == CMS_SUCCESS {
        Unlink(name);
      }
    }

    /** Notes the overflow, then removes the oldest message and adds the new one. */
    method NoteAndOverwrite(m: Msg, q: MessageQueue, name: string, source: string, topic: string,
                            pl: PayloadCell?, ghost k: nat)
      returns (r: int)
      requires Valid() && name in queues && q == queues[name] && |q.msgs| == cfg.cap
      requires k == First(monitor.contents, For(name))
      requires if k < |monitor.contents| then pl == monitor.nodes[k].payload else pl == null
      modifies Repr
      ensures Valid() && fresh(Repr - old(Repr)) && r == CMS_SUCCESS
      ensures var s, e := old(Abs()), Find(old(monitor.contents), name);
        var noted := Noted(e, Payload(source, topic, m.data, name, 0));
        && (pl != null <==> e.Some?) && (pl != null ==> pl.Value() == noted)
        && name in s.queues && s.queues[name] == Queue(old(q.msgs), old(q.linked)) && oldest == old(q.msgs)[0]
        && Abs() == Rotated(s, m, name, noted)
    {
      hide SetEntry, Find, First, Noted;
      assert q.Value() == Queues()[name];
      NoteOverflow(pl, k, source, topic, m.data, name);
      assert q.Value() == Queues()[name];
      r := Overwrite(m, q, name);
    }

    /** The request branch of the full-queue handler. */
    method FullOnRequest(m: Msg, q: MessageQueue, name: string, pl: PayloadCell?, ghost k: nat) returns (r: int)
      requires Valid() && name in queues && q == queues[name] && q.linked && |q.msgs| == cfg.cap
      requires m.tag == RequestSend || m.tag == RequestSendTo
      requires k == First(monitor.contents, For(name))
      requires if k < |monitor.contents| then pl == monitor.nodes[k].payload else pl == null
      modifies Repr
      ensures Valid() && fresh(Repr - old(Repr))
      ensures Abs() == Send(cfg, old(Abs()), m, name)
      ensures r == if DeliverTo(cfg, old(Abs()), m, name).ok then CMS_SUCCESS else CMS_ERROR
    {
      hide Send, DeliverTo, Rotated, Forgotten, Purged;
      ghost var s, e := Abs(), Find(monitor.contents, name);
      ghost var counted := Count(m, e, name);
      assert s.queues[name] == q.Value();
      assert counted == Noted(e, Payload(m.source, m.topic, m.data, name, 0));
      hide Count, Noted;
      SendWhenFull(cfg, s, m, name);
      r := NoteAndOverwrite(m, q, name, m.source, m.topic, pl, k);
      var crashed := pl != null && pl.sendCount >= cfg.maxMsg
        && pl.source == oldest.source && pl.topic == oldest.topic && pl.data == oldest.data;
      assert crashed == Crashed(cfg, m, e, counted, oldest);
      if crashed {
        PurgeCrashed(name);
        return CMS_ERROR;
      }
    }

    /** The response branch: the payload is stored with source and topic exchanged, and a
        declared crash removes the monitor entry only. */
    method FullOnResponse(m: Msg, q: MessageQueue, name: string, pl: PayloadCell?, ghost k: nat) returns (r: int)
      requires Valid() && name in queues && q == queues[name] && q.linked && |q.msgs| == cfg.cap
      requires m.tag == Response
      requires k == First(monitor.contents, For(name))
      requires if k < |monitor.contents| then pl == monitor.nodes[k].payload else pl == null
      modifies Repr
      ensures Valid() && fresh(Repr - old(Repr))
      ensures Abs() == Send(cfg, old(Abs()), m, name)
      ensures r == if DeliverTo(cfg, old(Abs()), m, name).ok then CMS_SUCCESS else CMS_ERROR
    {
      hide Send, DeliverTo, Rotated, Forgotten, Purged;
      ghost var s, e := Abs(), Find(monitor.contents, name);
      ghost var counted := Count(m, e, name);
      assert s.queues[name] == q.Value();
      assert counted == Noted(e, Payload(m.topic, m.source, m.data, name, 0));
      hide Count, Noted;
      SendWhenFull(cfg, s, m, name);
      r := NoteAndOverwrite(m, q, name, m.topic, m.source, pl, k);
      var crashed := pl != null && pl.sendCount >= cfg.maxMsg
        && pl.source == oldest.source && pl.topic == oldest.source && pl.data == oldest.data;
      assert crashed == Crashed(cfg, m, e, counted, oldest);
      if crashed {
        RemoveEntry(name);
        return CMS_ERROR;
      }
    }

    method FullQueueHandler(m: Msg, q: MessageQueue, name: string) returns (r: int)
      requires Valid() && name in queues && q == queues[name] && q.linked && |q.msgs| == cfg.cap
      modifies Repr
      ensures Valid() && fresh(Repr - old(Repr))
      ensures Abs() == Send(cfg, old(Abs()), m, name)
      ensures r == if DeliverTo(cfg, old(Abs()), m, name).ok then CMS_SUCCESS else CMS_ERROR
      ensures var e, popped := Find(old(monitor.contents), name), old(q.msgs)[0];
        r == CMS_ERROR <==>
          && Deliverable(m) && e.Some? && e.value.sendCount + 1 >= cfg.maxMsg
          && e.value.data == popped.data && e.value.source == popped.source
          && e.value.topic == if m.tag == Response then popped.source else popped.topic
    {
      hide Send;
      SendStatus(cfg, Abs(), m, name);
      assert Abs().queues[name] == q.Value();
      hide DeliverTo;
      var pl, k := monitor.Get(name);
      if m.tag == Response {
        r := FullOnResponse(m, q, name, pl, k);
      } else if m.tag == RequestSend || m.tag == RequestSendTo {
        r := FullOnRequest(m, q, name, pl, k);
      } else {
        assert q.Value() == Queues()[name];
        SendWithoutEffect(cfg, Abs(), m, name);
        r := CMS_SUCCESS;
      }
    }

    /** `mq_send` to the client's queue. */
    method TrySend(m: Msg, q: MessageQueue, name: string) returns (e: Errno)
      requires Valid() && name in queues && q == queues[name]
      modifies q
      ensures Valid() && Repr == old(Repr)
      ensures e == if |old(q.msgs)| < cfg.cap then OK else EAGAIN
      ensures q.linked == old(q.linked) && q.msgs == if e == OK then old(q.msgs) + [m] else old(q.msgs)
      ensures Abs() == if e == OK then old(Abs()).(queues := old(Queues())[name := q.Value()]) else old(Abs())
    {
      assert q.Value() == Queues()[name];
      e := q.Send(m);
      OneQueueChanged(name);
    }

    /** A client that takes messages again is monitored no longer. */
    method StopMonitoring(name: string)
      requires Valid()
      modifies monitor.Repr
      ensures Valid() && Repr == old(Repr)
      ensures Abs() == old(Abs()).(mon := SetEntry(old(monitor.contents), name, None))
    {
      SetEntryTwice(monitor.contents, name, Payload("", "", "", name, 0));
      var pl, _ := monitor.Get(name);
      if pl != null {
        RemoveEntry(name);
      }
    }

    /** `q` is the descriptor the caller opened for `name`; null makes every send on it fail. */
    method ServerSend(m: Msg, q: MessageQueue?, name: string) returns (r: int)
      requires Valid()
      requires q == if name in queues && queues[name].linked then queues[name] else null
      modifies Repr
      ensures Valid() && fresh(Repr - old(Repr))
      ensures Abs() == Send(cfg, old(Abs()), m, name)
      ensures r == if DeliverTo(cfg, old(Abs()), m, name).ok then CMS_SUCCESS else CMS_ERROR
      ensures q == null ==> r == CMS_ERROR
      ensures q != null && |old(q.msgs)| < cfg.cap ==> r == CMS_SUCCESS
    {
      hide Send, SetEntry;
      ghost var s := Abs();
      assert name in queues ==> s.queues[name] == queues[name].Value();
      if q == null {
        SendWithoutEffect(cfg, s, m, name);
        return CMS_ERROR;
      }
      var e := TrySend(m, q, name);
      if e == EAGAIN {
        r := FullQueueHandler(m, q, name);
      } else {
        SendWhenRoom(cfg, s, m, name);
        StopMonitoring(name);
        return CMS_SUCCESS;
      }
    }

    /** Opens the requester's queue and sends it one response. */
    method Respond(m: Msg, data: string)
      requires Valid()
      modifies Repr
      ensures Valid() && fresh(Repr - old(Repr))
      ensures Abs() == Send(cfg, old(Abs()), Reply(m, data), m.source)
    {
      hide Send, DeliverTo;
      var q := Open(m.source);
      var _ := ServerSend(Msg(Response, m.source, m.topic, data), q, m.source);
    }

    method CollectByTopic(topic: string) returns (indexGr: array<nat>, num: int)
      requires Valid()
      ensures fresh(indexGr)
      ensures var idx := Where(clients.contents, OnTopic(topic));
        && num == CountOrError(|idx|)
        && |idx| <= indexGr.Length && indexGr[..|idx|] == idx
    {
      var length := clients.GetLengthList();
      indexGr := new nat[length];
      num := clients.GetIndexByTopic(topic, indexGr);
    }

    method AddEntryToList(data: Sub) returns (r: int)
      requires Valid()
      modifies clients.Repr, this`Repr
      ensures Valid() && fresh(Repr - old(Repr)) && r == CMS_SUCCESS
      ensures Abs() == old(Abs()).(subs := old(clients.contents) + [data])
    {
      r := clients.AddClient(data);
      Repr := Repr + clients.Repr;
      assert Queues() == old(Queues());
    }

    /** The topic limit is reached and nobody is on the topic. */
    method TopicRefused(topic: string) returns (refused: bool)
      requires Valid()
      ensures Valid() && Abs() == old(Abs())
      ensures refused <==> |Topics(clients.contents)| == cfg.maxTopic
                           && Where(clients.contents, OnTopic(topic)) == []
    {
      var numTopic := clients.CountTopic();
      var _, foo := CollectByTopic(topic);
      refused := numTopic == cfg.maxTopic && foo == CMS_ERROR;
    }

    method AddAndRespond(m: Msg, data: Sub)
      requires Valid()
      modifies Repr
      ensures Valid() && fresh(Repr - old(Repr))
      ensures Abs() == Send(cfg, old(Abs()).(subs := old(clients.contents) + [data]),
                            Reply(m, SUBSCRIBE_SUCCESS), m.source)
    {
      hide Send;
      var r := AddEntryToList(data);
      Respond(m, if r == CMS_ERROR then SUBSCRIBE_FAIL else SUBSCRIBE_SUCCESS);
    }

    method HandleSubscribe(m: Msg)
      requires Valid() && m.tag == Subscribe
      modifies Repr
      ensures Valid() && fresh(Repr - old(Repr))
      ensures Abs() == Handle(cfg, old(Abs()), m)
    {
      hide Send, Handle, Topics, Where, DeliverTo;
      ghost var s := Abs();
      SubscribeHandled(cfg, s, m);
      var refused := TopicRefused(m.topic);
      if refused {
        Respond(m, SUBSCRIBE_FAIL);
        return;
      }
      var data := Sub(m.source, m.topic);
      var index := clients.GetIndexByData(data);
      assert Abs() == s;
      if index != CMS_ERROR {
        Respond(m, SUBSCRIBE_SUCCESS);
      } else {
        AddAndRespond(m, data);
      }
    }

    method HandleUnsubscribeTopic(m: Msg)
      requires Valid() && m.tag == Unsubscribe && m.topic != ALL
      modifies Repr
      ensures Valid() && fresh(Repr - old(Repr))
      ensures Abs() == Handle(cfg, old(Abs()), m)
    {
      hide Send, Where, DeliverTo, DeleteDown, Cast;
      ghost var s := Abs();
      assert s.(subs := s.subs) == s;
      var index := clients.GetIndexByData(Sub(m.source, m.topic));
      if index == CMS_ERROR {
        Respond(m, UNSUBSCRIBE_FAIL);
        return;
      }
      var r := DeleteEntry(index);
      Respond(m, if r == CMS_ERROR then UNSUBSCRIBE_FAIL else UNSUBSCRIBE_SUCCESS);
    }

    method HandleUnsubscribe(m: Msg)
      requires Valid() && m.tag == Unsubscribe
      modifies Repr
      ensures Valid() && fresh(Repr - old(Repr))
      ensures Abs() == Handle(cfg, old(Abs()), m)
    {
      hide Send, Cast, DeliverTo;
      if m.topic == ALL {
        var ret := DeleteClientEntries(m.source);
        Respond(m, if ret == CMS_SUCCESS then UNSUBSCRIBE_SUCCESS else UNSUBSCRIBE_FAIL);
      } else {
        HandleUnsubscribeTopic(m);
      }
    }

    /** One iteration of a broadcast loop. */
    method VisitIndex(m: Msg, i: nat) returns (r: int)
      requires Valid()
      modifies Repr
      ensures Valid() && fresh(Repr - old(Repr))
      ensures Abs() == Visit(cfg, old(Abs()), m, i)
    {
      hide Send, DeliverTo;
      var data := clients.GetDataByIndex(i);
      if data.None? {
        return CMS_SUCCESS;
      }
      if data.value.client == m.source {
        return CMS_SUCCESS;
      }
      var q := Open(data.value.client);
      r := ServerSend(m, q, data.value.client);
    }

    method HandleSendAll(m: Msg) returns (ret: int)
      requires Valid() && m.tag == RequestSend && m.topic == ALL
      modifies Repr
      ensures Valid() && fresh(Repr - old(Repr))
      ensures Abs() == Handle(cfg, old(Abs()), m)
    {
      hide Visit, DeliverTo;
      ret := CMS_SUCCESS;
      var lengthList := clients.GetLengthList();
      var i := lengthList as int - 1;
      while i >= 0
        invariant -1 <= i < lengthList
        invariant Valid() && fresh(Repr - old(Repr))
        invariant Cast(cfg, Abs(), m, Range(i + 1)) == Handle(cfg, old(Abs()), m)
      {
        assert Range(i + 1)[..i] == Range(i);
        var r := VisitIndex(m, i);
        ret := ret + r;
        i := i - 1;
      }
    }

    /** The broadcast loop over collected indices. */
    method CastIndices(m: Msg, indexGr: array<nat>, num: nat, ghost idx: seq<nat>) returns (ret: int)
      requires Valid() && indexGr !in Repr
      requires num == |idx| <= indexGr.Length && indexGr[..num] == idx
      modifies Repr
      ensures Valid() && fresh(Repr - old(Repr))
      ensures Abs() == Cast(cfg, old(Abs()), m, idx)
    {
      hide Visit;
      ret := CMS_SUCCESS;
      var i := num as int - 1;
      assert idx[..num] == idx;
      while i >= 0
        invariant -1 <= i < num
        invariant Valid() && fresh(Repr - old(Repr)) && indexGr !in Repr
        invariant indexGr[..num] == idx
        invariant Cast(cfg, Abs(), m, idx[..i + 1]) == Cast(cfg, old(Abs()), m, idx)
      {
        assert idx[..i + 1][..i] == idx[..i];
        assert indexGr[i] == indexGr[..num][i];
        var r := VisitIndex(m, indexGr[i]);
        ret := ret + r;
        i := i - 1;
      }
    }

    method HandleSendTopic(m: Msg) returns (ret: int)
      requires Valid() && m.tag == RequestSend && m.topic != ALL
      modifies Repr
      ensures Valid() && fresh(Repr - old(Repr))
      ensures Abs() == Handle(cfg, old(Abs()), m)
    {
      ghost var idx := Where(clients.contents, OnTopic(m.topic));
      var indexGr, numMember := CollectByTopic(m.topic);
      if numMember == CMS_ERROR {
        return CMS_SUCCESS;
      }
      ret := CastIndices(m, indexGr, numMember, idx);
    }

    method HandleSend(m: Msg)
      requires Valid() && m.tag == RequestSend
      modifies Repr
      ensures Valid() && fresh(Repr - old(Repr))
      ensures Abs() == Handle(cfg, old(Abs()), m)
    {
      if m.topic == ALL {
        var _ := HandleSendAll(m);
      } else {
        var _ := HandleSendTopic(m);
      }
    }

    method HandleSendTo(m: Msg)
      requires Valid() && m.tag == RequestSendTo
      modifies Repr
      ensures Valid() && fresh(Repr - old(Repr))
      ensures Abs() == Handle(cfg, old(Abs()), m)
    {
      hide Send, DeliverTo;
      var q := Open(m.topic);
      var _ := ServerSend(m, q, m.topic);
    }

    method HandleConfig(m: Msg)
      requires Valid() && m.tag == ConfigServer
      modifies Repr
      ensures Valid() && fresh(Repr - old(Repr))
      ensures Abs() == Handle(cfg, old(Abs()), m)
    {
      hide Send, DeliverTo;
      ghost var s := Abs();
      assert s.(subs := s.subs) == s;
      if m.topic == CTRL_SET_LOG {
        if m.data in LOG_LEVELS {
          Respond(m, CONFIG_SUCCESS);
        } else {
          Respond(m, CONFIG_FAIL);
        }
      }
    }

    method MsgHandler(m: Msg)
      requires Valid()
      modifies Repr
      ensures Valid() && fresh(Repr - old(Repr))
      ensures Abs() == Handle(cfg, old(Abs()), m)
    {
      match m.tag
      case Subscribe => HandleSubscribe(m);
      case Unsubscribe => HandleUnsubscribe(m);
      case RequestSend => HandleSend(m);
      case RequestSendTo => HandleSendTo(m);
      case ConfigServer => HandleConfig(m);
      case Response =>
      case Other(_) =>
    }

    /** The receive loop on what `mq_receive` yields in turn, until it stops or `arrivals` ends. */
    method Start(arrivals: seq<Arrival>) returns (stopped: bool)
      requires Valid()
      modifies Repr
      ensures Valid() && fresh(Repr - old(Repr))
      ensures (Abs(), stopped) == Serving(cfg, old(Abs()), arrivals, 0)
    {
      var countErr := 0;
      for k := 0 to |arrivals|
        invariant Valid() && fresh(Repr - old(Repr)) && countErr <= 3
        invariant Serving(cfg, Abs(), arrivals[k..], countErr) == Serving(cfg, old(Abs()), arrivals, 0)
      {
        assert arrivals[k..][0] == arrivals[k] && arrivals[k..][1..] == arrivals[k + 1..];
        match arrivals[k]
        case Nothing =>
        case Failed =>
          countErr := countErr + 1;
          if countErr > 3 {
            return true;
          }
        case Received(m) =>
          countErr := 0;
          MsgHandler(m);
      }
      return false;
    }
  }

  /** A receive on the server's queue: empty, any other error, or a message. */
  datatype Arrival = Nothing | Failed | Received(m: Msg)

  function Serving(cfg: Config, s: Server, arrivals: seq<Arrival>, errors: nat): (Server, bool)
    decreases |arrivals|
  {
    if arrivals == [] then (s, false)
    else match arrivals[0]
      case Nothing => Serving(cfg, s, arrivals[1..], errors)
      case Failed => if errors >= 3 then (s, true) else Serving(cfg, s, arrivals[1..], errors + 1)
      case Received(m) => Serving(cfg, Handle(cfg, s, m), arrivals[1..], 0)
  }

  /** Receive errors since the last message, `errors` of them before `arrivals`. */
  function Failures(errors: nat, arrivals: seq<Arrival>): nat {
    if arrivals == [] then errors
    else
      var past := Failures(errors, arrivals[..|arrivals| - 1]);
      match arrivals[|arrivals| - 1]
      case Nothing => past
      case Failed => past + 1
      case Received(_) => 0
  }

  lemma {:induction false} FailuresFromFront(errors: nat, arrivals: seq<Arrival>)
    requires arrivals != []
    ensures Failures(errors, arrivals) == Failures(Failures(errors, arrivals[..1]), arrivals[1..])
  {
    var n := |arrivals| - 1;
    if n > 0 {
      FailuresFromFront(errors, arrivals[..n]);
      assert arrivals[..n][..1] == arrivals[..1];
      assert arrivals[..n][1..] == arrivals[1..][..n - 1];
    }
  }

  /** The server stops exactly when four receives have failed with no message in between; finding
      the queue empty neither counts nor clears the count. */
  lemma {:induction false} StopsAfterFourFailures(cfg: Config, s: Server, arrivals: seq<Arrival>, errors: nat)
    requires errors <= 3
    ensures Serving(cfg, s, arrivals, errors).1 <==>
              exists k :: 0 <= k <= |arrivals| && Failures(errors, arrivals[..k]) >= 4
    decreases |arrivals|
  {
    if arrivals != [] {
      var rest, next := arrivals[1..], Failures(errors, arrivals[..1]);
      assert arrivals[..1][..0] == [];
      forall k | 1 <= k <= |arrivals|
        ensures Failures(errors, arrivals[..k]) == Failures(next, rest[..k - 1])
      {
        FailuresFromFront(errors, arrivals[..k]);
        assert arrivals[..k][..1] == arrivals[..1] && arrivals[..k][1..] == rest[..k - 1];
      }
      if next <= 3 {
        var s' := if arrivals[0].Received? then Handle(cfg, s, arrivals[0].m) else s;
        StopsAfterFourFailures(cfg, s', rest, next);
        if k :| 0 <= k <= |rest| && Failures(next, rest[..k]) >= 4 {
          assert Failures(errors, arrivals[..k + 1]) >= 4;
        }
      } else {
        assert Failures(errors, arrivals[..1]) >= 4;
      }
    }
  }

  lemma DeleteDownInRange<T(!new)>(s: seq<T>, idx: seq<nat>)
    requires idx != [] && Increasing(idx, |s|)
    ensures idx[0] < |DeleteDown(s, idx[1..])|
  {
    if s != [] { DeleteDownSnoc(s, s[0], idx); }
  }
}
