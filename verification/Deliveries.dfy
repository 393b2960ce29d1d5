/** A broadcast followed from the message in the server's queue to the queues of its addressees. */
module Deliveries {
  import opened Messages
  import opened Lists
  import opened Subscriptions
  import opened Broker
  import opened Network
  import opened Broadcast
  import opened CalmBroadcast
  import opened Reach
  import opened Effects

  /** The sends made during a run, in order, each with its addressee and its message. */
  function Sendings(cfg: Config, st: System, ls: seq<Label>): seq<(string, Msg)> {
    if ls == [] then []
    else
      var past := ls[..|ls| - 1];
      var t := Target(cfg, Run(cfg, st, past));
      Sendings(cfg, st, past) + if ls[|ls| - 1] == Serve && t.Some? then [t.value] else []
  }

  /** The server takes a broadcast message: it is in the loop over the list as it is now. */
  ghost predicate Taking(st: System, m: Msg) {
    st.phase == Idle && st.inbox != [] && st.inbox[0] == m && m.tag == RequestSend
  }

  lemma BroadcastBegins(cfg: Config, st: System, m: Msg)
    requires Inv(cfg, st) && Taking(st, m)
    ensures var begun := Step(cfg, st, Serve);
      && begun == st.(inbox := st.inbox[1..], phase := Casting(m, Targets(st.server.subs, m)))
      && Inv(cfg, begun)
  {
    StepKeepsInv(cfg, st, Serve);
  }

  /** Every send of a broadcast loop is of its message, unchanged, to somebody other than its source. */
  lemma {:induction false} OnlyThisMessage(cfg: Config, st: System, m: Msg, todo: seq<nat>, ls: seq<Label>)
    requires st.phase == Casting(m, todo) && Serves(ls) <= |todo|
    ensures var got := Recipients(cfg, st, ls);
      && |Sendings(cfg, st, ls)| == |got|
      && forall i :: 0 <= i < |got| ==> Sendings(cfg, st, ls)[i] == (got[i], m) && got[i] != m.source
  {
    hide Run, Step, Target;
    if ls != [] {
      var past := ls[..|ls| - 1];
      OnlyThisMessage(cfg, st, m, todo, past);
      LoopPhase(cfg, st, m, todo, past);
      if ls[|ls| - 1] == Serve { TargetIsVisited(cfg, Run(cfg, st, past)); }
    }
  }

  lemma SendingsOfRecipients(cfg: Config, st: System, m: Msg, todo: seq<nat>, ls: seq<Label>, d: string, x: Msg)
    requires st.phase == Casting(m, todo) && Serves(ls) <= |todo|
    ensures (d, x) in Sendings(cfg, st, ls) <==> x == m && d in Recipients(cfg, st, ls)
  {
    OnlyThisMessage(cfg, st, m, todo, ls);
    hide Sendings, Recipients, Serves;
    var got, sent := Recipients(cfg, st, ls), Sendings(cfg, st, ls);
    if (d, x) in sent {
      var i :| 0 <= i < |sent| && sent[i] == (d, x);
      assert got[i] == d;
    }
    if d in got {
      var i :| 0 <= i < |got| && got[i] == d;
      assert sent[i] == (d, m);
    }
  }

  /** From the message at the head of the server's queue: until the loop ends, whatever clients do
      meanwhile, the server sends this message, unchanged, and never to its source. */
  lemma {:induction false} PostedIsSent(cfg: Config, st: System, m: Msg, ls: seq<Label>)
    requires Inv(cfg, st) && Taking(st, m) && Serves(ls) <= |Targets(st.server.subs, m)|
    ensures forall d, x :: (d, x) in Sendings(cfg, Step(cfg, st, Serve), ls) ==> x == m && d != m.source
  {
    BroadcastBegins(cfg, st, m);
    var begun := Step(cfg, st, Serve);
    OnlyThisMessage(cfg, begun, m, Targets(st.server.subs, m), ls);
    hide Step, Sendings, Recipients, Serves, Targets, Inv;
    var sent := Sendings(cfg, begun, ls);
    forall d, x | (d, x) in sent ensures x == m && d != m.source {
      var i :| 0 <= i < |sent| && sent[i] == (d, x);
    }
  }

  /** When the loop ends, "ALL" has been sent to exactly the clients in the list other than the source. */
  lemma {:induction false} PostedToAll(cfg: Config, st: System, m: Msg, ls: seq<Label>)
    requires Inv(cfg, st) && Taking(st, m) && m.topic == "ALL" && Serves(ls) == |st.server.subs|
    ensures var sent := Sendings(cfg, Step(cfg, st, Serve), ls);
      forall d, x :: (d, x) in sent <==>
        x == m && d != m.source && exists e :: e in st.server.subs && e.client == d
  {
    BroadcastBegins(cfg, st, m);
    var begun, subs := Step(cfg, st, Serve), st.server.subs;
    AllReachesEverybody(cfg, begun, m, ls);
    hide Step, Serves, Sendings, Recipients;
    forall d, x ensures (d, x) in Sendings(cfg, begun, ls) <==> x == m && d in Recipients(cfg, begun, ls) {
      SendingsOfRecipients(cfg, begun, m, Range(|subs|), ls, d, x);
    }
  }

  /** The same for a topic, if the broadcast is calm when it begins: exactly its subscribers other than
      the source; for the broadcasts that are not, see `EachOnceIff`. */
  lemma {:induction false} PostedToTopic(cfg: Config, st: System, m: Msg, ls: seq<Label>)
    requires Inv(cfg, st) && QueuesBounded(cfg, st) && Taking(st, m) && m.topic != "ALL"
    requires Calm(cfg, st, m, Targets(st.server.subs, m)) && Serves(ls) == |Targets(st.server.subs, m)|
    ensures var sent := Sendings(cfg, Step(cfg, st, Serve), ls);
      forall d, x :: (d, x) in sent <==> x == m && d != m.source && Sub(d, m.topic) in st.server.subs
  {
    BroadcastBegins(cfg, st, m);
    var begun, todo := Step(cfg, st, Serve), Targets(st.server.subs, m);
    BegunIsCalm(cfg, st, begun, m, todo);
    TopicReachesEachOnce(cfg, begun, m);
    hide Step, Serves, Sendings, Recipients, Inv, Calm, QueuesBounded, Targets;
    assert EachOnce(st.server.subs, m, Recipients(cfg, begun, ls));
    forall d, x ensures (d, x) in Sendings(cfg, begun, ls) <==> x == m && d in Recipients(cfg, begun, ls) {
      SendingsOfRecipients(cfg, begun, m, todo, ls, d, x);
    }
  }

  lemma BegunIsCalm(cfg: Config, st: System, begun: System, m: Msg, todo: seq<nat>)
    requires begun.server == st.server
    ensures Calm(cfg, st, m, todo) <==> Calm(cfg, begun, m, todo)
    ensures QueuesBounded(cfg, st) <==> QueuesBounded(cfg, begun)
  {
    hide DeliverTo, QueueOf, Spared;
  }

  // ---------- the queues after an undisturbed broadcast ----------

  lemma {:induction false} ServeTimesIsRun(cfg: Config, st: System, n: nat)
    ensures ServeTimes(cfg, st, n) == Run(cfg, st, Times(n))
    ensures ServeTimes(cfg, st, n + 1) == Step(cfg, ServeTimes(cfg, st, n), Serve)
  {
    hide Step;
    ServeTimesLast(cfg, st, n);
    if n > 0 {
      ServeTimesIsRun(cfg, st, n - 1);
      assert Times(n)[..n - 1] == Times(n - 1);
    }
  }

  lemma {:induction false} ServeTimesLast(cfg: Config, st: System, n: nat)
    ensures ServeTimes(cfg, st, n + 1) == Step(cfg, ServeTimes(cfg, st, n), Serve)
    decreases n
  {
    hide Step;
    var next := Step(cfg, st, Serve);
    assert ServeTimes(cfg, st, n + 1) == ServeTimes(cfg, next, n);
    if n > 0 { ServeTimesLast(cfg, next, n - 1); }
  }

  /** When the server works alone, a queue that was sent to and could be opened ends in the message. */
  lemma {:induction false} SentIsLast(cfg: Config, st: System, m: Msg, todo: seq<nat>, n: nat, c: string)
    requires Inv(cfg, st) && QueuesBounded(cfg, st) && st.phase == Casting(m, todo) && n <= |todo|
    requires QueueOf(st.server, c).linked && c in Recipients(cfg, st, Times(n))
    ensures Inv(cfg, Run(cfg, st, Times(n))) && EndsIn(QueueOf(Run(cfg, st, Times(n)).server, c).msgs, m)
  {
    var past := Times(n - 1);
    assert Times(n)[..n - 1] == past;
    var s := Run(cfg, st, past);
    assert |QueueOf(st.server, c).msgs| <= cfg.cap;
    LastStep(cfg, st, Times(n), {});
    TimesServes(n - 1);
    hide Run, Times, Recipients, Serves, Step, Target, Inv, Follows, Unsent, EndsIn, OnlyServes;
    LoopPhase(cfg, st, m, todo, past);
    TargetIsVisited(cfg, s);
    var t := Target(cfg, s);
    if c in Recipients(cfg, st, past) {
      SentIsLast(cfg, st, m, todo, n - 1, c);
    } else {
      UntilSentTo(cfg, st, past, c);
    }
    StepKeepsInv(cfg, s, Serve);
    if t.Some? && t.value.0 == c {
      SentNow(cfg, s, m, c);
    } else {
      ServeToOthers(cfg, s, c);
    }
  }

  lemma SentNow(cfg: Config, s: System, m: Msg, c: string)
    requires Inv(cfg, s) && s.phase.Casting? && Target(cfg, s) == Some((c, m))
    requires QueueOf(s.server, c).linked || EndsIn(QueueOf(s.server, c).msgs, m)
    ensures EndsIn(QueueOf(Step(cfg, s, Serve).server, c).msgs, m)
  {
    hide Send;
    OneSend(cfg, s.server, m, c);
  }

  lemma {:induction false} HandleIsTheRun(cfg: Config, st: System, m: Msg)
    requires Inv(cfg, st) && Taking(st, m)
    ensures Handle(cfg, st.server, m) == Run(cfg, Step(cfg, st, Serve), Times(|Targets(st.server.subs, m)|)).server
  {
    var begun, todo := Step(cfg, st, Serve), Targets(st.server.subs, m);
    BroadcastBegins(cfg, st, m);
    HandleIsServing(cfg, st);
    TimesServes(|todo|);
    LoopPhase(cfg, begun, m, todo, Times(|todo|));
    assert ServeTimes(cfg, st, |todo| + 2) == ServeTimes(cfg, begun, |todo| + 1);
    ServeTimesIsRun(cfg, begun, |todo|);
    hide Handle, Targets, Run, Visit, Inv;
  }

  /** What an undisturbed broadcast leaves in each queue: a client sent to has the message at the end of
      its queue, if that could be opened, and nothing has changed for the others. */
  lemma {:induction false} HandleLeaves(cfg: Config, st: System, m: Msg, c: string)
    requires Inv(cfg, st) && QueuesBounded(cfg, st) && Taking(st, m)
    ensures var begun, s' := Step(cfg, st, Serve), Handle(cfg, st.server, m);
      if c in Recipients(cfg, begun, Times(|Targets(st.server.subs, m)|))
      then QueueOf(st.server, c).linked ==> EndsIn(QueueOf(s', c).msgs, m)
      else Unchanged(st.server, s', c)
  {
    var begun, todo := Step(cfg, st, Serve), Targets(st.server.subs, m);
    BroadcastBegins(cfg, st, m);
    BegunIsCalm(cfg, st, begun, m, todo);
    HandleIsTheRun(cfg, st, m);
    TimesServes(|todo|);
    assert |QueueOf(st.server, c).msgs| <= cfg.cap;
    hide Step, Handle, Targets, Run, Inv, Recipients, Calm, Times, Serves, OnlyServes, Unsent, EndsIn;
    if c in Recipients(cfg, begun, Times(|todo|)) {
      if QueueOf(st.server, c).linked { SentIsLast(cfg, begun, m, todo, |todo|, c); }
    } else {
      UntilSentTo(cfg, begun, Times(|todo|), c);
    }
  }

  /** `cms_msg_handler` on a message to "ALL": every client in the list other than the source, if its queue
      can be opened, has the message at its end; for everybody else nothing has changed. */
  lemma {:induction false} HandleToAll(cfg: Config, st: System, m: Msg, c: string)
    requires Inv(cfg, st) && QueuesBounded(cfg, st) && Taking(st, m) && m.topic == "ALL"
    ensures var s' := Handle(cfg, st.server, m);
      if c != m.source && exists e :: e in st.server.subs && e.client == c
      then QueueOf(st.server, c).linked ==> EndsIn(QueueOf(s', c).msgs, m)
      else Unchanged(st.server, s', c)
  {
    var begun, n := Step(cfg, st, Serve), |st.server.subs|;
    BroadcastBegins(cfg, st, m);
    HandleLeaves(cfg, st, m, c);
    TimesServes(n);
    hide Step, Handle, Run, Inv, Recipients, Times, Serves, EndsIn, Unchanged;
    AllReachesEverybody(cfg, begun, m, Times(n));
  }

  /** And on a message to a topic, if it is calm: every subscriber other than the source. */
  lemma {:induction false} HandleToTopic(cfg: Config, st: System, m: Msg, c: string)
    requires Inv(cfg, st) && QueuesBounded(cfg, st) && Taking(st, m) && m.topic != "ALL"
    requires Calm(cfg, st, m, Targets(st.server.subs, m))
    ensures var s' := Handle(cfg, st.server, m);
      if c != m.source && Sub(c, m.topic) in st.server.subs
      then QueueOf(st.server, c).linked ==> EndsIn(QueueOf(s', c).msgs, m)
      else Unchanged(st.server, s', c)
  {
    var begun, todo := Step(cfg, st, Serve), Targets(st.server.subs, m);
    BroadcastBegins(cfg, st, m);
    BegunIsCalm(cfg, st, begun, m, todo);
    HandleLeaves(cfg, st, m, c);
    TimesServes(|todo|);
    hide Step, Handle, Run, Inv, Recipients, Times, Serves, EndsIn, Unchanged, Calm, Targets, QueuesBounded;
    TopicReachesEachOnce(cfg, begun, m);
    assert EachOnce(st.server.subs, m, Recipients(cfg, begun, Times(|todo|)));
  }
}
