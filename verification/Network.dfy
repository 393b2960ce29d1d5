/** The whole system: one server, any number of clients, every interleaving. A server step is one
    send (or one loop iteration that sends nothing), so clients may run between two sends of the
    same broadcast. */
module Network {
  import opened Messages
  import opened Lists
  import opened Subscriptions
  import opened Monitor
  import opened Broker
  import opened ClientView

  /** Where the server is: waiting for a message, or inside a broadcast loop with the list
      indices `todo` left, the last one next. */
  datatype Phase = Idle | Casting(m: Msg, todo: seq<nat>)

  /** A client is free, or inside subscribe/unsubscribe reading until a response arrives. */
  datatype Pc = Free | Awaiting(req: Msg)

  datatype System = System(server: Server, inbox: seq<Msg>, phase: Phase, pcs: map<string, Pc>)

  /** `Start`, `Quit`: client initialisation and closing; `Kill`: the process dies at any point;
      `Read`: it takes a message from its queue; `Post`: it sends a request to the server;
      `Inject`: any other program puts any message into the server's queue. */
  datatype Label =
    | Start(c: string)
    | Quit(c: string)
    | Kill(c: string)
    | Read(c: string)
    | Post(c: string, m: Msg)
    | Inject(m: Msg)
    | Serve

  const NO_MSG := Msg(Other(0), "", "", "")
  const INIT := System(Server([], [], map[], NO_MSG), [], Idle, map[])

  predicate Asking(m: Msg) {
    m.tag == Subscribe || m.tag == Unsubscribe
  }

  predicate Posted(m: Msg) {
    Asking(m) || m.tag == RequestSend || m.tag == RequestSendTo
  }

  predicate Alive(st: System, c: string) { c in st.pcs }

  predicate IsFree(st: System, c: string) { c in st.pcs ==> st.pcs[c] == Free }

  predicate Enabled(cfg: Config, st: System, l: Label) {
    match l
    case Start(c) => IsFree(st, c)
    case Quit(c) => Alive(st, c) && IsFree(st, c)
    case Kill(c) => Alive(st, c)
    case Read(c) => Alive(st, c) && QueueOf(st.server, c).msgs != []
    case Post(c, m) => Alive(st, c) && IsFree(st, c) && m.source == c && Posted(m) && |st.inbox| < cfg.maxMsg
    case Inject(m) => |st.inbox| < cfg.maxMsg
    case Serve => st.phase.Casting? || st.inbox != []
  }

  function SetQueue(st: System, c: string, q: Queue): System {
    st.(server := st.server.(queues := st.server.queues[c := q]))
  }

  function ReadStep(st: System, c: string): System
    requires Alive(st, c) && QueueOf(st.server, c).msgs != []
  {
    var q := QueueOf(st.server, c);
    var st' := SetQueue(st, c, q.(msgs := q.msgs[1..]));
    if q.msgs[0].tag == Response then st'.(pcs := st.pcs[c := Free]) else st'
  }

  function ServeStep(cfg: Config, st: System): System
    requires st.phase.Casting? || st.inbox != []
  {
    match st.phase
    case Casting(m, todo) =>
      if todo == [] then st.(phase := Idle)
      else
        var n := |todo| - 1;
        st.(server := Visit(cfg, st.server, m, todo[n]), phase := Casting(m, todo[..n]))
    case Idle =>
      var m := st.inbox[0];
      if m.tag == RequestSend then
        st.(inbox := st.inbox[1..], phase := Casting(m, Targets(st.server.subs, m)))
      else
        st.(inbox := st.inbox[1..], server := HandleDirect(cfg, st.server, m))
  }

  /** A label that is not enabled changes nothing, so every sequence of labels is a run. */
  function Step(cfg: Config, st: System, l: Label): System {
    if !Enabled(cfg, st, l) then st
    else
      match l
      case Start(c) => SetQueue(st, c, Queue([], true)).(pcs := st.pcs[c := Free])
      case Quit(c) => SetQueue(st, c, QueueOf(st.server, c).(linked := false)).(pcs := st.pcs - {c})
      case Kill(c) => st.(pcs := st.pcs - {c})
      case Read(c) => ReadStep(st, c)
      case Post(c, m) =>
        st.(inbox := st.inbox + [m], pcs := if Asking(m) then st.pcs[c := Awaiting(m)] else st.pcs)
      case Inject(m) => st.(inbox := st.inbox + [m])
      case Serve => ServeStep(cfg, st)
  }

  function Run(cfg: Config, st: System, ls: seq<Label>): System {
    if ls == [] then st
    else Step(cfg, Run(cfg, st, ls[..|ls| - 1]), ls[|ls| - 1])
  }

  lemma RunSnoc(cfg: Config, st: System, ls: seq<Label>, l: Label)
    ensures Run(cfg, st, ls + [l]) == Step(cfg, Run(cfg, st, ls), l)
  {
    assert (ls + [l])[..|ls|] == ls;
  }

  // ---------- what a step does to one client ----------

  /** The one send a server step makes, if it makes one: the addressee and the message. */
  function Target(cfg: Config, st: System): Option<(string, Msg)> {
    match st.phase
    case Casting(m, todo) =>
      if todo != [] && todo[|todo| - 1] < |st.server.subs|
        && st.server.subs[todo[|todo| - 1]].client != m.source
      then Some((st.server.subs[todo[|todo| - 1]].client, m)) else None
    case Idle =>
      if st.inbox == [] then None
      else
        var m := st.inbox[0];
        if m.tag == RequestSend then None
        else if m.tag == RequestSendTo then Some((m.topic, m))
        else
          var reply := Answer(cfg, st.server.subs, m).1;
          if reply.None? then None else Some((m.source, Reply(m, reply.value)))
  }

  function ViewOf(s: Server, c: string): View {
    View(QueueOf(s, c), Find(s.mon, c))
  }

  function ActOf(cfg: Config, st: System, l: Label, c: string): Option<Act> {
    if !Enabled(cfg, st, l) then None
    else
      match l
      case Start(d) => if d == c then Some(Opened) else None
      case Quit(d) => if d == c then Some(Closed) else None
      case Read(d) => if d == c then Some(Got) else None
      case Serve =>
        var t := Target(cfg, st);
        if t.Some? && t.value.0 == c then Some(Sent(t.value.1)) else None
      case _ => None
  }

  /** Everything that happened to client `c` during a run. */
  function Log(cfg: Config, ls: seq<Label>, c: string): seq<Act> {
    if ls == [] then []
    else
      var past := ls[..|ls| - 1];
      var a := ActOf(cfg, Run(cfg, INIT, past), ls[|ls| - 1], c);
      Log(cfg, past, c) + (if a.Some? then [a.value] else [])
  }

  // ---------- invariants of every run ----------

  ghost predicate Inv(cfg: Config, st: System) {
    && NoDuplicates(st.server.subs)
    && OnePerClient(st.server.mon)
    && (0 <= cfg.maxTopic ==> |Topics(st.server.subs)| <= cfg.maxTopic)
    && |st.inbox| <= cfg.maxMsg
    && (st.phase.Casting? ==> st.phase.m.tag == RequestSend)
  }

  ghost predicate GoodSubs(cfg: Config, subs: seq<Sub>) {
    NoDuplicates(subs) && (0 <= cfg.maxTopic ==> |Topics(subs)| <= cfg.maxTopic)
  }

  lemma SendKeepsInv(cfg: Config, s: Server, m: Msg, c: string)
    requires GoodSubs(cfg, s.subs) && OnePerClient(s.mon)
    ensures GoodSubs(cfg, Send(cfg, s, m, c).subs) && OnePerClient(Send(cfg, s, m, c).mon)
  {
    SendIsLocal(cfg, s, m, c);
    DropMembers(s.subs, OfClient(c));
    DropKeepsDistinct(s.subs, OfClient(c));
    TopicsOfSome(s.subs, Drop(s.subs, OfClient(c)));
  }

  lemma AnswerKeepsInv(cfg: Config, subs: seq<Sub>, m: Msg)
    requires GoodSubs(cfg, subs)
    ensures GoodSubs(cfg, Answer(cfg, subs, m).0)
  {
    if Asking(m) {
      AnswerIsTruthful(cfg, subs, m);
    }
  }

  /** A server step is a single send, possibly after the list was changed by the request. */
  lemma ServeIsOneSend(cfg: Config, st: System)
    requires st.phase.Casting? || st.inbox != []
    ensures var st', t := ServeStep(cfg, st), Target(cfg, st);
      if t.None? then st'.server == st.server
      else
        var subs := if st.phase.Idle? then Answer(cfg, st.server.subs, st.inbox[0]).0 else st.server.subs;
        st'.server == Send(cfg, st.server.(subs := subs), t.value.1, t.value.0)
  {
  }

  lemma {:induction false} StepKeepsInv(cfg: Config, st: System, l: Label)
    requires Inv(cfg, st)
    ensures Inv(cfg, Step(cfg, st, l))
  {
    if l.Serve? && Enabled(cfg, st, l) {
      ServeIsOneSend(cfg, st);
      var t := Target(cfg, st);
      if t.Some? {
        var subs := if st.phase.Idle? then Answer(cfg, st.server.subs, st.inbox[0]).0 else st.server.subs;
        if st.phase.Idle? { AnswerKeepsInv(cfg, st.server.subs, st.inbox[0]); }
        SendKeepsInv(cfg, st.server.(subs := subs), t.value.1, t.value.0);
      }
    }
  }

  /** In every reachable state: no pair is subscribed twice, at most one monitor entry per client,
      at most `maxTopic` topics, and the server's queue within its length. */
  lemma {:induction false} RunsKeepInv(cfg: Config, ls: seq<Label>)
    ensures Inv(cfg, Run(cfg, INIT, ls))
  {
    if ls != [] {
      RunsKeepInv(cfg, ls[..|ls| - 1]);
      StepKeepsInv(cfg, Run(cfg, INIT, ls[..|ls| - 1]), ls[|ls| - 1]);
    } else {
      assert Topics([]) == {};
    }
  }

  lemma {:induction false} SendProjects(cfg: Config, s: Server, m: Msg, c: string, d: string)
    requires OnePerClient(s.mon)
    ensures var v := ViewOf(s, d);
      ViewOf(Send(cfg, s, m, c), d) == if c == d then Apply(cfg, d, v, Sent(m)) else v
  {
    hide Send, Find, Deliver, Answer;
    DeliverIgnoresOldest(cfg, s.oldest, m, QueueOf(s, c), Find(s.mon, c), m, c);
    SendIsLocal(cfg, s, m, c);
  }

  lemma ServeProjects(cfg: Config, st: System, c: string)
    requires Inv(cfg, st) && Enabled(cfg, st, Serve)
    ensures var a, v := ActOf(cfg, st, Serve, c), ViewOf(st.server, c);
      && ViewOf(ServeStep(cfg, st).server, c) == (if a.Some? then Apply(cfg, c, v, a.value) else v)
      && (a.Some? && a.value.Sent? ==> Deliverable(a.value.m))
  {
    ServeIsOneSend(cfg, st);
    var t := Target(cfg, st);
    if t.Some? {
      var subs := if st.phase.Idle? then Answer(cfg, st.server.subs, st.inbox[0]).0 else st.server.subs;
      var before := st.server.(subs := subs);
      SendProjects(cfg, before, t.value.1, t.value.0, c);
      assert ViewOf(before, c) == ViewOf(st.server, c);
    }
  }

  /** A step changes a client's queue and monitor entry only by the act recorded for it. */
  lemma {:induction false} StepProjects(cfg: Config, st: System, l: Label, c: string)
    requires Inv(cfg, st)
    ensures var a, v := ActOf(cfg, st, l, c), ViewOf(st.server, c);
      && ViewOf(Step(cfg, st, l).server, c) == (if a.Some? then Apply(cfg, c, v, a.value) else v)
      && (a.Some? && a.value.Sent? ==> Deliverable(a.value.m))
  {
    hide ServeStep, Inv, Target, Find;
    if l.Serve? && Enabled(cfg, st, l) {
      ServeProjects(cfg, st, c);
    }
  }

  /** The server's view of each client is a function of what happened to that client alone. */
  lemma {:induction false} RunProjects(cfg: Config, ls: seq<Label>, c: string)
    ensures ViewOf(Run(cfg, INIT, ls).server, c) == After(cfg, c, Log(cfg, ls, c))
    ensures AllDeliverable(Log(cfg, ls, c))
  {
    hide Step, ActOf, ServeStep, Apply, Find, Inv;
    if ls != [] {
      var past := ls[..|ls| - 1];
      var st := Run(cfg, INIT, past);
      RunProjects(cfg, past, c);
      RunsKeepInv(cfg, past);
      StepProjects(cfg, st, ls[|ls| - 1], c);
      var a := ActOf(cfg, st, ls[|ls| - 1], c);
      if a.Some? {
        AfterSnoc(cfg, c, Log(cfg, past, c), a.value);
        assert Log(cfg, ls, c) == Log(cfg, past, c) + [a.value];
      } else {
        assert Log(cfg, ls, c) == Log(cfg, past, c);
      }
    }
  }

  // ---------- undisturbed handling ----------

  /** The server alone takes `n` steps. */
  function ServeTimes(cfg: Config, st: System, n: nat): System
    decreases n
  {
    if n == 0 then st else ServeTimes(cfg, Step(cfg, st, Serve), n - 1)
  }

  lemma {:induction false} CastIsServing(cfg: Config, st: System, m: Msg, todo: seq<nat>)
    requires st.phase == Casting(m, todo)
    ensures ServeTimes(cfg, st, |todo| + 1) == st.(server := Cast(cfg, st.server, m, todo), phase := Idle)
    decreases |todo|
  {
    var next := Step(cfg, st, Serve);
    if todo == [] {
      assert ServeTimes(cfg, next, 0) == next;
    } else {
      CastIsServing(cfg, next, m, todo[..|todo| - 1]);
    }
  }

  /** A message handled without interruption: the server's steps, one by one, add up to `Handle`. */
  lemma HandleIsServing(cfg: Config, st: System)
    requires st.phase == Idle && st.inbox != []
    ensures var m := st.inbox[0];
      var n := if m.tag == RequestSend then |Targets(st.server.subs, m)| + 2 else 1;
      ServeTimes(cfg, st, n) == st.(server := Handle(cfg, st.server, m), inbox := st.inbox[1..])
  {
    var m, next := st.inbox[0], Step(cfg, st, Serve);
    if m.tag == RequestSend {
      CastIsServing(cfg, next, m, Targets(st.server.subs, m));
    } else {
      assert ServeTimes(cfg, next, 0) == next;
    }
  }
}
