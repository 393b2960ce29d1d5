/** Topic broadcasts that are not calm: one misses a subscriber, one comes out right by accident;
    both are reached from the initial state, with every configuration that admits their two topics. */
module MissedSubscriber {
  import opened Messages
  import opened Lists
  import opened Subscriptions
  import opened Monitor
  import opened Broker
  import opened ClientView
  import opened Network
  import opened Broadcast

  const EMPTY := View(Queue([], true), None)

  /** Three clients; `a` is going to stop reading, `b` reads, `s` sends. */
  datatype Clients = Clients(a: string, b: string, s: string)

  ghost predicate Different(x: Clients) {
    x.a != x.b && x.a != x.s && x.b != x.s
  }

  /** The server is idle with this list, all three clients are free, and so `a` and `b` are seen. */
  ghost predicate Ready(cfg: Config, ls: seq<Label>, x: Clients, subs: seq<Sub>, va: View) {
    var st := Run(cfg, INIT, ls);
    && st.phase == Idle && st.inbox == [] && st.server.subs == subs
    && st.pcs == map[x.a := Free, x.b := Free, x.s := Free]
    && ViewOf(st.server, x.a) == va && ViewOf(st.server, x.b) == EMPTY
  }

  lemma OneStarts(cfg: Config, st: System, c: string)
    requires c !in st.pcs
    ensures var st' := Step(cfg, st, Start(c));
      && st'.phase == st.phase && st'.inbox == st.inbox && st'.server.subs == st.server.subs
      && st'.pcs == st.pcs[c := Free] && st'.server.mon == st.server.mon
      && QueueOf(st'.server, c) == Queue([], true)
      && forall d :: d != c ==> QueueOf(st'.server, d) == QueueOf(st.server, d)
  {
  }

  lemma Started(cfg: Config, x: Clients) returns (ls: seq<Label>)
    requires Different(x)
    ensures Ready(cfg, ls, x, [], EMPTY)
  {
    var l0: seq<Label> := [];
    var l1 := l0 + [Start(x.a)];
    var l2 := l1 + [Start(x.b)];
    assert Run(cfg, INIT, l0) == INIT;
    hide Run, Step, QueueOf;
    RunSnoc(cfg, INIT, l0, Start(x.a));
    RunSnoc(cfg, INIT, l1, Start(x.b));
    RunSnoc(cfg, INIT, l2, Start(x.s));
    OneStarts(cfg, INIT, x.a);
    OneStarts(cfg, Run(cfg, INIT, l1), x.b);
    OneStarts(cfg, Run(cfg, INIT, l2), x.s);
    ls := l2 + [Start(x.s)];
  }

  // ---------- subscribing ----------

  /** The request for this entry is not refused: the limit is not reached or the topic is in use. */
  ghost predicate Admits(cfg: Config, subs: seq<Sub>, e: Sub) {
    |Topics(subs)| != cfg.maxTopic || exists x :: x in subs && x.topic == e.topic
  }

  /** No entry is refused when they are asked for in order. */
  ghost predicate AllAdmitted(cfg: Config, subs: seq<Sub>) {
    forall k :: 0 <= k < |subs| ==> Admits(cfg, subs[..k], subs[k])
  }

  lemma AdmittedAnswer(cfg: Config, subs: seq<Sub>, m: Msg)
    requires m.tag == Subscribe && Sub(m.source, m.topic) !in subs && Admits(cfg, subs, Sub(m.source, m.topic))
    ensures Answer(cfg, subs, m) == (subs + [Sub(m.source, m.topic)], Some(SUBSCRIBE_SUCCESS))
  {
    hide Topics, Where;
    SubscribeTruth(cfg, subs, m);
  }

  lemma SubscribeIsAnswered(cfg: Config, st: System, e: Sub)
    requires Inv(cfg, st) && st.phase == Idle && st.inbox == [Msg(Subscribe, e.client, e.topic, "SUBCRIBE TOPIC")]
    requires e !in st.server.subs && Admits(cfg, st.server.subs, e)
    requires ViewOf(st.server, e.client) == EMPTY
    ensures var st', r := Step(cfg, st, Serve), Reply(st.inbox[0], SUBSCRIBE_SUCCESS);
      && st' == System(st'.server, [], Idle, st.pcs) && st'.server.subs == st.server.subs + [e]
      && ViewOf(st'.server, e.client) == View(Queue([r], true), None)
      && forall d :: d != e.client ==> ViewOf(st'.server, d) == ViewOf(st.server, d)
  {
    var m := st.inbox[0];
    var r := Reply(m, SUBSCRIBE_SUCCESS);
    AdmittedAnswer(cfg, st.server.subs, m);
    hide Answer, Admits, Find, Send;
    assert Target(cfg, st) == Some((e.client, r));
    SendIsLocal(cfg, st.server.(subs := st.server.subs + [e]), r, e.client);
    forall d ensures ViewOf(Step(cfg, st, Serve).server, d) ==
                     if d == e.client then View(Queue([r], true), None) else ViewOf(st.server, d)
    {
      hide ServeStep;
      ServeProjects(cfg, st, d);
    }
  }

  lemma Subscribes(cfg: Config, ls: seq<Label>, x: Clients, subs: seq<Sub>, e: Sub) returns (more: seq<Label>)
    requires Different(x) && Ready(cfg, ls, x, subs, EMPTY) && (e.client == x.a || e.client == x.b)
    requires e !in subs && Admits(cfg, subs, e)
    ensures Ready(cfg, more, x, subs + [e], EMPTY)
  {
    hide Run, ServeStep, Answer, Topics, Find;
    var req := Msg(Subscribe, e.client, e.topic, "SUBCRIBE TOPIC");
    var asked := ls + [Post(e.client, req)];
    var answered := asked + [Serve];
    RunSnoc(cfg, INIT, ls, Post(e.client, req));
    RunSnoc(cfg, INIT, asked, Serve);
    RunSnoc(cfg, INIT, answered, Read(e.client));
    more := answered + [Read(e.client)];
    assert [] + [req] == [req];
    RunsKeepInv(cfg, asked);
    RunsKeepInv(cfg, answered);
    SubscribeIsAnswered(cfg, Run(cfg, INIT, asked), e);
    assert Run(cfg, INIT, answered).inbox == [] && Run(cfg, INIT, answered).phase == Idle;
    StepProjects(cfg, Run(cfg, INIT, answered), Read(e.client), x.a);
    StepProjects(cfg, Run(cfg, INIT, answered), Read(e.client), x.b);
  }

  lemma {:induction false} ListIsBuilt(cfg: Config, x: Clients, subs: seq<Sub>) returns (ls: seq<Label>)
    requires Different(x) && NoDuplicates(subs) && AllAdmitted(cfg, subs)
    requires forall e :: e in subs ==> e.client == x.a || e.client == x.b
    ensures Ready(cfg, ls, x, subs, EMPTY)
  {
    hide Ready, Admits;
    if subs == [] {
      ls := Started(cfg, x);
    } else {
      var n := |subs| - 1;
      forall k | 0 <= k < n ensures Admits(cfg, subs[..n][..k], subs[..n][k]) {
        assert subs[..n][..k] == subs[..k] && Admits(cfg, subs[..k], subs[k]);
      }
      var past := ListIsBuilt(cfg, x, subs[..n]);
      assert subs == subs[..n] + [subs[n]] && Admits(cfg, subs[..n], subs[n]);
      ls := Subscribes(cfg, past, x, subs[..n], subs[n]);
    }
  }

  // ---------- broadcasting ----------

  /** The subscribers of the message's topic are `b` at index `i` and `a` at the higher index `k`. */
  ghost predicate TwoSubscribers(x: Clients, subs: seq<Sub>, m: Msg, i: nat, k: nat) {
    && m.tag == RequestSend && m.source == x.s && m.topic != ALL
    && Where(subs, OnTopic(m.topic)) == [i, k] && i < |subs| && k < |subs|
    && subs[i].client == x.b && subs[k].client == x.a
  }

  /** The broadcast begins. */
  lemma {:induction false} Begins(cfg: Config, ls: seq<Label>, x: Clients, subs: seq<Sub>, va: View,
                                  m: Msg, i: nat, k: nat)
    returns (begun: seq<Label>)
    requires Different(x) && Ready(cfg, ls, x, subs, va) && TwoSubscribers(x, subs, m, i, k)
    ensures var st, st' := Run(cfg, INIT, ls), Run(cfg, INIT, begun);
      st' == st.(phase := Casting(m, [i, k]))
  {
    var posted := ls + [Post(x.s, m)];
    begun := posted + [Serve];
    RunSnoc(cfg, INIT, ls, Post(x.s, m));
    RunSnoc(cfg, INIT, posted, Serve);
    assert [] + [m] == [m];
  }

  lemma Visits(cfg: Config, st: System, m: Msg, todo: seq<nat>, d: string)
    requires Inv(cfg, st) && st.phase == Casting(m, todo) && todo != []
    requires todo[|todo| - 1] < |st.server.subs| && st.server.subs[todo[|todo| - 1]].client == d != m.source
    requires !DeliverTo(cfg, st.server, m, d).crashed
    ensures var st' := Step(cfg, st, Serve);
      && Inv(cfg, st') && st' == System(st'.server, st.inbox, Casting(m, todo[..|todo| - 1]), st.pcs)
      && st'.server.subs == st.server.subs
      && ViewOf(st'.server, d) == Apply(cfg, d, ViewOf(st.server, d), Sent(m))
      && forall y :: y != d ==> ViewOf(st'.server, y) == ViewOf(st.server, y)
  {
    hide Visit, Inv, Deliver, DeliverTo;
    StepKeepsInv(cfg, st, Serve);
    IterationShrinks(cfg, st);
    forall y ensures ViewOf(Step(cfg, st, Serve).server, y) ==
                     if y == d then Apply(cfg, d, ViewOf(st.server, d), Sent(m)) else ViewOf(st.server, y)
    {
      ServeProjects(cfg, st, y);
    }
  }

  function Serve3(cfg: Config, st: System): System {
    Step(cfg, Step(cfg, Step(cfg, st, Serve), Serve), Serve)
  }

  lemma {:induction false} BothAreSent(cfg: Config, st: System, x: Clients, m: Msg, i: nat, k: nat)
    requires Different(x) && Inv(cfg, st) && st.phase == Casting(m, [i, k])
    requires TwoSubscribers(x, st.server.subs, m, i, k) && ViewOf(st.server, x.b) == EMPTY
    requires !DeliverTo(cfg, st.server, m, x.a).crashed
    ensures var st' := Serve3(cfg, st);
      && Inv(cfg, st') && st' == System(st'.server, st.inbox, Idle, st.pcs) && st'.server.subs == st.server.subs
      && ViewOf(st'.server, x.a) == Apply(cfg, x.a, ViewOf(st.server, x.a), Sent(m))
      && ViewOf(st'.server, x.b) == View(Queue([m], true), None)
  {
    hide Visit, Inv, Where;
    Visits(cfg, st, m, [i, k], x.a);
    assert [i, k][..1] == [i] && [i][..0] == [];
    var st2 := Step(cfg, st, Serve);
    Visits(cfg, st2, m, [i], x.b);
    StepKeepsInv(cfg, Step(cfg, st2, Serve), Serve);
  }

  /** A whole round: both get the message, `b` reads it. */
  lemma Round(cfg: Config, ls: seq<Label>, x: Clients, subs: seq<Sub>, va: View, m: Msg, i: nat, k: nat)
    returns (more: seq<Label>)
    requires Different(x) && Ready(cfg, ls, x, subs, va) && TwoSubscribers(x, subs, m, i, k)
    requires !Hit(cfg, va, m, x.a).crashed
    ensures Ready(cfg, more, x, subs, Apply(cfg, x.a, va, Sent(m)))
  {
    hide Run, ServeStep, Apply, Where, Inv;
    var begun := Begins(cfg, ls, x, subs, va, m, i, k);
    RunsKeepInv(cfg, begun);
    BothAreSent(cfg, Run(cfg, INIT, begun), x, m, i, k);
    RunSnoc(cfg, INIT, begun, Serve);
    RunSnoc(cfg, INIT, begun + [Serve], Serve);
    RunSnoc(cfg, INIT, begun + [Serve] + [Serve], Serve);
    var sent := begun + [Serve] + [Serve] + [Serve];
    RunSnoc(cfg, INIT, sent, Read(x.b));
    more := sent + [Read(x.b)];
    StepProjects(cfg, Run(cfg, INIT, sent), Read(x.b), x.a);
    StepProjects(cfg, Run(cfg, INIT, sent), Read(x.b), x.b);
  }

  function Copies(m: Msg, n: nat): (r: seq<Msg>)
    ensures |r| == n && forall i :: 0 <= i < n ==> r[i] == m
  {
    seq(n, _ => m)
  }

  /** How `a` is seen after `n` rounds without reading. */
  function Silent(cfg: Config, a: string, m: Msg, n: nat): View {
    if n <= cfg.cap then View(Queue(Copies(m, n), true), None)
    else View(Queue(Copies(m, cfg.cap), true), Some(Recorded(m, a).(sendCount := n - cfg.cap - 1)))
  }

  lemma SilentStep(cfg: Config, a: string, m: Msg, n: nat)
    requires m.tag == RequestSend && n <= cfg.cap + cfg.maxMsg
    ensures var v := Silent(cfg, a, m, n);
      if n == cfg.cap + cfg.maxMsg then Hit(cfg, v, m, a).crashed
      else !Hit(cfg, v, m, a).crashed && Apply(cfg, a, v, Sent(m)) == Silent(cfg, a, m, n + 1)
  {
    assert Copies(m, n) + [m] == Copies(m, n + 1);
    assert Copies(m, cfg.cap)[1..] + [m] == Copies(m, cfg.cap);
  }

  lemma {:induction false} Rounds(cfg: Config, x: Clients, subs: seq<Sub>, m: Msg, i: nat, k: nat, n: nat)
    returns (ls: seq<Label>)
    requires Different(x) && NoDuplicates(subs) && AllAdmitted(cfg, subs) && n <= cfg.cap + cfg.maxMsg
    requires forall e :: e in subs ==> e.client == x.a || e.client == x.b
    requires TwoSubscribers(x, subs, m, i, k)
    ensures Ready(cfg, ls, x, subs, Silent(cfg, x.a, m, n))
  {
    if n == 0 {
      ls := ListIsBuilt(cfg, x, subs);
      assert Copies(m, 0) == [];
    } else {
      var past := Rounds(cfg, x, subs, m, i, k, n - 1);
      SilentStep(cfg, x.a, m, n - 1);
      ls := Round(cfg, past, x, subs, Silent(cfg, x.a, m, n - 1), m, i, k);
    }
  }

  /** From the initial state to the start of a broadcast with `a` on the brink of being declared
      crashed, and `b` alive with an empty queue that can be opened. */
  lemma BrinkIsReached(cfg: Config, x: Clients, subs: seq<Sub>, m: Msg, i: nat, k: nat) returns (ls: seq<Label>)
    requires Different(x) && NoDuplicates(subs) && AllAdmitted(cfg, subs)
    requires forall e :: e in subs ==> e.client == x.a || e.client == x.b
    requires TwoSubscribers(x, subs, m, i, k)
    ensures var st := Run(cfg, INIT, ls);
      && st.phase == Casting(m, Targets(subs, m)) && st.server.subs == subs
      && DeliverTo(cfg, st.server, m, x.a).crashed
      && Alive(st, x.b) && QueueOf(st.server, x.b) == Queue([], true)
  {
    var n := cfg.cap + cfg.maxMsg;
    var past := Rounds(cfg, x, subs, m, i, k, n);
    ls := Begins(cfg, past, x, subs, Silent(cfg, x.a, m, n), m, i, k);
    SilentStep(cfg, x.a, m, n);
    assert ViewOf(Run(cfg, INIT, ls).server, x.a) == Silent(cfg, x.a, m, n);
  }

  // ---------- what then happens ----------

  lemma ServesTwice(cfg: Config, st: System)
    ensures var ls := [Serve, Serve];
      && Serves(ls) == 2 && Run(cfg, st, ls) == Step(cfg, Step(cfg, st, Serve), Serve)
      && Recipients(cfg, st, ls) ==
           (if Target(cfg, st).Some? then [Target(cfg, st).value.0] else []) +
           (if Target(cfg, Step(cfg, st, Serve)).Some? then [Target(cfg, Step(cfg, st, Serve)).value.0] else [])
  {
    var one, two := [Serve], [Serve, Serve];
    assert one[..0] == [] && two[..1] == one;
    assert Serves(one) == 1 && Run(cfg, st, one) == Step(cfg, st, Serve);
    assert Recipients(cfg, st, one) == if Target(cfg, st).Some? then [Target(cfg, st).value.0] else [];
  }

  /** A subscriber is missed: `a` is purged at the last index, and its other entry at index 0 shifts
      `b` out of the index visited next. The message does not get into the queue of `b`. */
  lemma SubscriberCanBeMissed(cfg: Config, st: System, m: Msg, a: string, b: string, other: string)
    requires Inv(cfg, st) && st.phase == Casting(m, Targets(st.server.subs, m))
    requires st.server.subs == [Sub(a, other), Sub(b, m.topic), Sub(a, m.topic)]
    requires m.topic != ALL && other != m.topic && a != b && a != m.source && b != m.source
    requires DeliverTo(cfg, st.server, m, a).crashed
    ensures var ls := [Serve, Serve];
      && Serves(ls) == |Targets(st.server.subs, m)| && Recipients(cfg, st, ls) == [a]
      && Run(cfg, st, ls).server.subs == [Sub(b, m.topic)]
      && QueueOf(Run(cfg, st, ls).server, b) == QueueOf(st.server, b)
  {
    ThreeEntries(a, b, other, m.topic);
    ServesTwice(cfg, st);
    IterationShrinks(cfg, st);
    var s := Step(cfg, st, Serve);
    assert s.phase == Casting(m, [1]) && s.server.subs == [Sub(b, m.topic)];
    IterationShrinks(cfg, s);
    StepKeepsInv(cfg, st, Serve);
    ServeProjects(cfg, st, b);
    ServeProjects(cfg, s, b);
  }

  lemma ThreeEntries(a: string, b: string, other: string, topic: string)
    requires other != topic && a != b
    ensures var subs := [Sub(a, other), Sub(b, topic), Sub(a, topic)];
      Where(subs, OnTopic(topic)) == [1, 2] && Drop(subs, OfClient(a)) == [Sub(b, topic)]
  {
    var subs := [Sub(a, other), Sub(b, topic), Sub(a, topic)];
    var p, d := OnTopic(topic), OfClient(a);
    assert subs[..2] == [Sub(a, other), Sub(b, topic)] && subs[..2][..1] == [Sub(a, other)];
    assert Where(subs[..2][..1], p) == [] && Where(subs[..2], p) == [1];
    assert Drop(subs[..2][..1], d) == [] && Drop(subs[..2], d) == [Sub(b, topic)];
  }

  /** The first entry is refused only by a limit of zero, the second, on another topic, only if the
      first topic alone reaches the limit; the topics of the others are in use. */
  lemma TwoTopicsAreAdmitted(cfg: Config, subs: seq<Sub>)
    requires |subs| >= 2 && cfg.maxTopic != 0 && (cfg.maxTopic == 1 ==> subs[0].topic == "")
    requires forall k :: 2 <= k < |subs| ==> subs[k].topic == subs[0].topic || subs[k].topic == subs[1].topic
    ensures AllAdmitted(cfg, subs)
  {
    var nobody: seq<Sub> := [];
    assert Topics(nobody) == {} && subs[..0] == nobody && subs[..1] == nobody + [subs[0]];
    TopicsSnoc(nobody, subs[0]);
    assert Topics(subs[..1]) == if subs[0].topic == "" then {} else {subs[0].topic};
    forall k | 2 <= k < |subs| ensures Admits(cfg, subs[..k], subs[k]) {
      assert subs[..k][0] in subs[..k] && subs[..k][1] in subs[..k];
    }
  }

  /** A run from the initial state, for every configuration with room for the topics, after which a
      finished broadcast misses a subscriber that is alive and whose queue is open and empty. */
  lemma {:induction false} MissedSubscriberExists(cfg: Config, x: Clients, t: string, other: string)
    returns (ls: seq<Label>, m: Msg)
    requires Different(x) && t != other && t != ALL
    requires cfg.maxTopic != 0 && (cfg.maxTopic == 1 ==> other == "")
    ensures var st, end := Run(cfg, INIT, ls), Run(cfg, Run(cfg, INIT, ls), [Serve, Serve]);
      && m.topic == t && st.phase == Casting(m, Targets(st.server.subs, m))
      && Serves([Serve, Serve]) == |Targets(st.server.subs, m)|
      && Sub(x.b, t) in st.server.subs && x.b != m.source
      && Alive(st, x.b) && QueueOf(st.server, x.b) == Queue([], true)
      && x.b !in Recipients(cfg, st, [Serve, Serve])
      && Sub(x.b, t) in end.server.subs && QueueOf(end.server, x.b) == Queue([], true)
  {
    m := Msg(RequestSend, x.s, t, "");
    var subs := [Sub(x.a, other), Sub(x.b, t), Sub(x.a, t)];
    ThreeEntries(x.a, x.b, other, t);
    TwoTopicsAreAdmitted(cfg, subs);
    hide Run, Where, Drop, AllAdmitted, DeliverTo;
    ls := BrinkIsReached(cfg, x, subs, m, 1, 2);
    RunsKeepInv(cfg, ls);
    SubscriberCanBeMissed(cfg, Run(cfg, INIT, ls), m, x.a, x.b, other);
  }

  lemma FourEntries(a: string, b: string, t: string, u: string)
    requires t != u && a != b
    ensures var subs := [Sub(a, u), Sub(b, t), Sub(b, u), Sub(a, t)];
      Where(subs, OnTopic(t)) == [1, 3] && Drop(subs, OfClient(a)) == [Sub(b, t), Sub(b, u)]
  {
    var subs := [Sub(a, u), Sub(b, t), Sub(b, u), Sub(a, t)];
    var p, d := OnTopic(t), OfClient(a);
    var three, two := [Sub(a, u), Sub(b, t), Sub(b, u)], [Sub(a, u), Sub(b, t)];
    assert subs[..3] == three && three[..2] == two && two[..1] == [Sub(a, u)] && two[..1][..0] == [];
    assert Where(two[..1], p) == [] && Where(two, p) == [1] && Where(three, p) == [1];
    assert Drop(two[..1], d) == [] && Drop(two, d) == [Sub(b, t)] && Drop(three, d) == [Sub(b, t), Sub(b, u)];
  }

  lemma HarmlessShift(cfg: Config, st: System, m: Msg, a: string, b: string, u: string)
    requires Inv(cfg, st) && st.phase == Casting(m, Targets(st.server.subs, m)) && m.topic != ALL
    requires st.server.subs == [Sub(a, u), Sub(b, m.topic), Sub(b, u), Sub(a, m.topic)]
    requires m.topic != u && a != b && a != m.source && b != m.source
    requires DeliverTo(cfg, st.server, m, a).crashed
    ensures var two := [Serve, Serve];
      && Serves(two) == |Targets(st.server.subs, m)| && !Steady(cfg, st, two)
      && Recipients(cfg, st, two) == [a, b]
  {
    FourEntries(a, b, m.topic, u);
    ServesTwice(cfg, st);
    NotSteadyTwice(cfg, st);
    hide Run, Where, Drop, DeliverTo, Recipients, Serves, Steady, Inv;
    IterationShrinks(cfg, st);
    TargetIsVisited(cfg, st);
    var s := Step(cfg, st, Serve);
    assert s.phase == Casting(m, [1]) && s.server.subs == [Sub(b, m.topic), Sub(b, u)];
    TargetIsVisited(cfg, s);
    assert st.server.subs[0].client == a && !SparesNext(cfg, st);
  }

  lemma NotSteadyTwice(cfg: Config, st: System)
    requires st.phase.Casting? && st.phase.todo != []
    ensures !SparesNext(cfg, st) ==> !Steady(cfg, st, [Serve, Serve])
  {
    hide SparesNext, Step;
    var one, two := [Serve], [Serve, Serve];
    assert one[..0] == [] && two[..1] == one;
    assert Run(cfg, st, []) == st && (Steady(cfg, st, one) ==> SparesNext(cfg, st));
  }

  /** Keeping to the plan is not needed to reach each subscriber once: in a run from the initial
      state, a broadcast that leaves its plan still sends exactly once to each subscriber, because the
      shifted index holds another entry of the same client. */
  lemma {:induction false} ShiftCanBeHarmless(cfg: Config, x: Clients, t: string, u: string)
    returns (ls: seq<Label>, m: Msg)
    requires Different(x) && t != u && t != ALL
    requires cfg.maxTopic != 0 && (cfg.maxTopic == 1 ==> u == "")
    ensures var st, two := Run(cfg, INIT, ls), [Serve, Serve];
      && m.topic == t && st.phase == Casting(m, Targets(st.server.subs, m))
      && Serves(two) == |Targets(st.server.subs, m)| && !Steady(cfg, st, two)
      && Recipients(cfg, st, two) == [x.a, x.b]
      && (forall c :: Sub(c, t) in st.server.subs <==> c == x.a || c == x.b)
      && x.a != m.source && x.b != m.source
  {
    m := Msg(RequestSend, x.s, t, "");
    var subs := [Sub(x.a, u), Sub(x.b, t), Sub(x.b, u), Sub(x.a, t)];
    FourEntries(x.a, x.b, t, u);
    TwoTopicsAreAdmitted(cfg, subs);
    hide Run, Where, Drop, AllAdmitted, DeliverTo;
    ls := BrinkIsReached(cfg, x, subs, m, 1, 3);
    RunsKeepInv(cfg, ls);
    HarmlessShift(cfg, Run(cfg, INIT, ls), m, x.a, x.b, u);
    assert subs[1] in subs && subs[3] in subs;
  }
}
