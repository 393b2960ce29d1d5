/** One client as the server sees it: its queue and its monitor entry, driven by sends to it and
    by what the client does with its queue, in any order. */
module ClientView {
  import opened Messages
  import opened Monitor
  import opened Broker

  datatype View = View(queue: Queue, entry: Option<Payload>)

  /** A send by the server, a read by the client, and the client (re)creating or removing its queue. */
  datatype Act = Sent(m: Msg) | Got | Opened | Closed

  /** The send as far as one client is concerned; the last removed message is not part of it. */
  function Hit(cfg: Config, v: View, m: Msg, c: string): Delivery {
    Deliver(cfg, m, v.queue, v.entry, m, c)
  }

  function Apply(cfg: Config, c: string, v: View, a: Act): View {
    match a
    case Sent(m) => var d := Hit(cfg, v, m, c); View(d.queue, d.entry)
    case Got => if v.queue.msgs == [] then v else v.(queue := v.queue.(msgs := v.queue.msgs[1..]))
    case Opened => v.(queue := Queue([], true))
    case Closed => v.(queue := v.queue.(linked := false))
  }

  const UNKNOWN := View(NO_QUEUE, None)

  function After(cfg: Config, c: string, log: seq<Act>): View {
    if log == [] then UNKNOWN
    else Apply(cfg, c, After(cfg, c, log[..|log| - 1]), log[|log| - 1])
  }

  lemma AfterSnoc(cfg: Config, c: string, log: seq<Act>, a: Act)
    ensures After(cfg, c, log + [a]) == Apply(cfg, c, After(cfg, c, log), a)
  {
    assert (log + [a])[..|log|] == log;
  }

  ghost predicate AllDeliverable(log: seq<Act>) {
    forall i :: 0 <= i < |log| && log[i].Sent? ==> Deliverable(log[i].m)
  }

  predicate Full(cfg: Config, v: View) {
    v.queue.linked && |v.queue.msgs| >= cfg.cap
  }

  /** A queue never holds more than its capacity, and a send that finds it full leaves it full. */
  lemma {:induction false} QueueIsBounded(cfg: Config, c: string, log: seq<Act>)
    ensures |After(cfg, c, log).queue.msgs| <= cfg.cap
    ensures Full(cfg, After(cfg, c, log)) ==>
              forall m :: |Apply(cfg, c, After(cfg, c, log), Sent(m)).queue.msgs| == cfg.cap
  {
    if log != [] {
      QueueIsBounded(cfg, c, log[..|log| - 1]);
    }
  }

  // ---------- conservation of messages ----------

  /** What became of a message taken out of the queue. */
  datatype Taken = ByClient(m: Msg) | Overwritten(m: Msg)

  /** The messages put into the queue so far, after one more act. */
  function Accept(cfg: Config, v: View, a: Act, past: seq<Msg>): seq<Msg> {
    match a
    case Sent(m) =>
      if v.queue.linked && (|v.queue.msgs| < cfg.cap || Deliverable(m)) then past + [m] else past
    case Opened => []
    case _ => past
  }

  /** The messages taken out of the queue so far, after one more act. */
  function Remove(cfg: Config, v: View, a: Act, past: seq<Taken>): seq<Taken> {
    match a
    case Sent(m) => if Full(cfg, v) && Deliverable(m) then past + [Overwritten(v.queue.msgs[0])] else past
    case Got => if v.queue.msgs != [] then past + [ByClient(v.queue.msgs[0])] else past
    case Opened => []
    case Closed => past
  }

  /** The messages the server put into the current queue of the client, in order. */
  function Accepted(cfg: Config, c: string, log: seq<Act>): seq<Msg> {
    if log == [] then []
    else
      var n := |log| - 1;
      Accept(cfg, After(cfg, c, log[..n]), log[n], Accepted(cfg, c, log[..n]))
  }

  /** The messages that left the queue, in order, each with the side that took it. */
  function Removed(cfg: Config, c: string, log: seq<Act>): seq<Taken> {
    if log == [] then []
    else
      var n := |log| - 1;
      Remove(cfg, After(cfg, c, log[..n]), log[n], Removed(cfg, c, log[..n]))
  }

  function Texts(ts: seq<Taken>): (ms: seq<Msg>)
    ensures |ms| == |ts|
    ensures forall i :: 0 <= i < |ts| ==> ms[i] == ts[i].m
  {
    seq(|ts|, i requires 0 <= i < |ts| => ts[i].m)
  }

  /** One act keeps the balance. */
  lemma ActConserves(cfg: Config, c: string, v: View, a: Act, accepted: seq<Msg>, removed: seq<Taken>)
    requires accepted == Texts(removed) + v.queue.msgs
    ensures Accept(cfg, v, a, accepted) == Texts(Remove(cfg, v, a, removed)) + Apply(cfg, c, v, a).queue.msgs
  {
    var q := v.queue.msgs;
    if q != [] {
      assert q == [q[0]] + q[1..];
      TextsSnoc(removed, ByClient(q[0]));
      TextsSnoc(removed, Overwritten(q[0]));
    }
  }

  /** Nothing is lost unnoticed, duplicated or reordered: what was accepted is what was taken out,
      by the client or by an overwrite, followed by what is still queued. */
  lemma {:induction false} MessagesAreConserved(cfg: Config, c: string, log: seq<Act>)
    ensures Accepted(cfg, c, log) == Texts(Removed(cfg, c, log)) + After(cfg, c, log).queue.msgs
  {
    hide Accept, Remove, Apply;
    if log != [] {
      var n := |log| - 1;
      MessagesAreConserved(cfg, c, log[..n]);
      ActConserves(cfg, c, After(cfg, c, log[..n]), log[n], Accepted(cfg, c, log[..n]), Removed(cfg, c, log[..n]));
    }
  }

  lemma TextsSnoc(ts: seq<Taken>, t: Taken)
    ensures Texts(ts + [t]) == Texts(ts) + [t.m]
  {
  }
}
