/** The request/response exchange of subscribe and unsubscribe, over whole runs. */
module Handshake {
  import opened Messages
  import opened Lists
  import opened Subscriptions
  import opened Broker
  import opened ClientView
  import opened Network

  /** A client sends a request; the server answers it, with the list before and after that very
      step; the client's call returns, `ok` meaning CMS_SUCCESS. */
  datatype Event =
    | Asked(req: Msg)
    | Answered(req: Msg, ok: bool, before: seq<Sub>, after: seq<Sub>)
    | Returned(req: Msg, ok: bool)

  function EventOf(cfg: Config, st: System, l: Label, c: string): Option<Event> {
    if !Enabled(cfg, st, l) then None
    else
      match l
      case Post(d, m) => if d == c && Asking(m) then Some(Asked(m)) else None
      case Serve =>
        if st.phase.Idle? && Asking(st.inbox[0]) && st.inbox[0].source == c then
          var m := st.inbox[0];
          Some(Answered(m, Answer(cfg, st.server.subs, m).1 == Some(SuccessFor(m)),
                        st.server.subs, ServeStep(cfg, st).server.subs))
        else None
      case Read(d) =>
        var r := QueueOf(st.server, d).msgs[0];
        if d == c && st.pcs[d].Awaiting? && r.tag == Response
        then Some(Returned(st.pcs[d].req, r.data == SuccessFor(st.pcs[d].req))) else None
      case _ => None
  }

  /** The events of `c` on a run that starts in `st`. */
  function EventsFrom(cfg: Config, st: System, ls: seq<Label>, c: string): seq<Event> {
    if ls == [] then []
    else
      var past := ls[..|ls| - 1];
      Extend(EventsFrom(cfg, st, past, c), EventOf(cfg, Run(cfg, st, past), ls[|ls| - 1], c))
  }

  function Extend(h: seq<Event>, e: Option<Event>): seq<Event> {
    h + if e.Some? then [e.value] else []
  }

  function History(cfg: Config, ls: seq<Label>, c: string): seq<Event> {
    EventsFrom(cfg, INIT, ls, c)
  }

  /** The messages the server answers with a response to their source. */
  predicate Answerable(m: Msg) {
    Asking(m) || (m.tag == ConfigServer && m.topic == CTRL_SET_LOG)
  }

  /** Nobody else makes the server respond to `c`, and `c` is not killed inside a call. What other
      clients and programs do, or suffer, is not restricted. */
  ghost predicate Undisturbed(st: System, l: Label, c: string) {
    && (l.Inject? && l.m.source == c ==> !Answerable(l.m))
    && (l == Kill(c) && Alive(st, c) ==> IsFree(st, c))
  }

  ghost predicate UndisturbedFrom(cfg: Config, st: System, ls: seq<Label>, c: string) {
    ls == [] ||
    var past := ls[..|ls| - 1];
    UndisturbedFrom(cfg, st, past, c) && Undisturbed(Run(cfg, st, past), ls[|ls| - 1], c)
  }

  ghost predicate LibraryRun(cfg: Config, ls: seq<Label>, c: string) {
    UndisturbedFrom(cfg, INIT, ls, c)
  }

  /** A history is a sequence of complete exchanges, then at most one incomplete exchange: every
      answer is to the request asked just before and is truthful, and every return carries the
      verdict of the answer to that very request. */
  ghost predicate FollowsFrom(e: Event, prev: Option<Event>) {
    match e
    case Asked(req) => Asking(req) && (prev == None || prev.value.Returned?)
    case Answered(req, ok, before, after) => prev == Some(Asked(req)) && Truthful(req, ok, before, after)
    case Returned(req, ok) => prev.Some? && prev.value.Answered? && prev.value.req == req && prev.value.ok == ok
  }

  function Last(h: seq<Event>): Option<Event> {
    if h == [] then None else Some(h[|h| - 1])
  }

  ghost predicate WellFormed(h: seq<Event>) {
    forall k :: 0 <= k < |h| ==> FollowsFrom(h[k], Last(h[..k]))
  }

  lemma WellFormedSnoc(h: seq<Event>, e: Event)
    requires WellFormed(h) && FollowsFrom(e, Last(h))
    ensures WellFormed(h + [e])
  {
    forall k | 0 <= k < |h| + 1 ensures FollowsFrom((h + [e])[k], Last((h + [e])[..k])) {
      assert (h + [e])[..k] == h[..k];
      assert h[..|h|] == h;
      if k < |h| { assert (h + [e])[k] == h[k]; }
    }
  }

  // ---------- what is on its way for one client ----------

  function NotAskedBy(c: string): Msg -> bool { (m: Msg) => !(Asking(m) && m.source == c) }
  function NotResponse(): Msg -> bool { (m: Msg) => m.tag != Response }

  /** The unanswered requests of `c` in the server's queue. */
  function Requests(inbox: seq<Msg>, c: string): seq<Msg> { Drop(inbox, NotAskedBy(c)) }

  /** The responses waiting in a client's queue. */
  function Responses(q: seq<Msg>): seq<Msg> { Drop(q, NotResponse()) }

  function VerdictFor(req: Msg, ok: bool): Msg {
    Msg(Response, req.source, req.topic, if ok then SuccessFor(req) else FailFor(req))
  }

  /** The exchange of one client: its state, its last event, its request and its response. */
  ghost predicate Exchange(c: string, pc: Pc, last: Option<Event>, requests: seq<Msg>, responses: seq<Msg>) {
    match pc
    case Free => (last == None || last.value.Returned?) && requests == [] && responses == []
    case Awaiting(req) =>
      && Asking(req) && req.source == c
      && last.Some? && !last.value.Returned? && last.value.req == req
      && match last.value
         case Answered(_, ok, _, _) => requests == [] && (responses == [] || responses == [VerdictFor(req, ok)])
         case _ => requests == [req] && responses == []
  }

  function PcOf(st: System, c: string): Pc {
    if c in st.pcs then st.pcs[c] else Free
  }

  /** Only the client's own requests are going to be answered to it. */
  ghost predicate OwnAnswersOnly(inbox: seq<Msg>, c: string) {
    forall m :: m in inbox && m.source == c && Answerable(m) ==> Asking(m)
  }

  ghost predicate HandshakeInv(st: System, c: string, h: seq<Event>) {
    && WellFormed(h)
    && OwnAnswersOnly(st.inbox, c)
    && Exchange(c, PcOf(st, c), Last(h), Requests(st.inbox, c), Responses(QueueOf(st.server, c).msgs))
  }

  lemma RequestsSnoc(inbox: seq<Msg>, m: Msg, c: string)
    ensures Requests(inbox + [m], c) == Requests(inbox, c) + if Asking(m) && m.source == c then [m] else []
  {
    assert (inbox + [m])[..|inbox|] == inbox;
  }

  lemma RequestsTail(inbox: seq<Msg>, c: string)
    requires inbox != []
    ensures Requests(inbox, c) ==
            (if Asking(inbox[0]) && inbox[0].source == c then [inbox[0]] else []) + Requests(inbox[1..], c)
  {
    DropAround(inbox, 0, NotAskedBy(c));
  }

  lemma ResponsesSnoc(q: seq<Msg>, m: Msg)
    ensures Responses(q + [m]) == Responses(q) + if m.tag == Response then [m] else []
  {
    assert (q + [m])[..|q|] == q;
  }

  lemma ResponsesTail(q: seq<Msg>)
    requires q != []
    ensures Responses(q) == (if q[0].tag == Response then [q[0]] else []) + Responses(q[1..])
  {
    DropAround(q, 0, NotResponse());
  }

  /** A send adds a response only if it is one; an overwrite can only lose a response. */
  lemma SendAndResponses(cfg: Config, c: string, v: View, m: Msg)
    requires |Responses(v.queue.msgs)| <= 1
    ensures var r, r' := Responses(v.queue.msgs), Responses(Apply(cfg, c, v, Sent(m)).queue.msgs);
      var added := if m.tag == Response then [m] else [];
      r' == r || r' == r + added || r' == added
  {
    hide Matches, Count, Drop;
    var q := v.queue.msgs;
    ResponsesSnoc(q, m);
    if q != [] {
      ResponsesTail(q);
      ResponsesSnoc(q[1..], m);
    }
  }

  // ---------- every step keeps the exchange in order ----------

  lemma {:induction false} PostKeepsHandshake(cfg: Config, st: System, d: string, m: Msg, c: string, h: seq<Event>)
    requires HandshakeInv(st, c, h) && Enabled(cfg, st, Post(d, m))
    ensures HandshakeInv(Step(cfg, st, Post(d, m)), c, Extend(h, EventOf(cfg, st, Post(d, m), c)))
  {
    hide Drop, WellFormed;
    RequestsSnoc(st.inbox, m, c);
    if d == c && Asking(m) { WellFormedSnoc(h, Asked(m)); }
    assert Extend(h, None) == h;
  }

  /** A response read ends the exchange with the verdict the server gave. */
  lemma ResponseEndsExchange(c: string, pc: Pc, h: seq<Event>, requests: seq<Msg>, q: seq<Msg>)
    requires WellFormed(h) && q != [] && q[0].tag == Response
    requires Exchange(c, pc, Last(h), requests, Responses(q))
    ensures pc.Awaiting? && requests == [] && Responses(q[1..]) == []
    ensures WellFormed(h + [Returned(pc.req, q[0].data == SuccessFor(pc.req))])
  {
    ResponsesTail(q);
    var req, ok := pc.req, h[|h| - 1].ok;
    assert q[0] == VerdictFor(req, ok) by { assert Responses(q)[0] == q[0]; }
    VerdictsDiffer(req);
    WellFormedSnoc(h, Returned(req, ok));
  }

  lemma ReadKeepsHandshake(cfg: Config, st: System, d: string, c: string, h: seq<Event>)
    requires HandshakeInv(st, c, h) && Enabled(cfg, st, Read(d))
    ensures HandshakeInv(Step(cfg, st, Read(d)), c, Extend(h, EventOf(cfg, st, Read(d), c)))
  {
    hide Drop, WellFormed;
    var q := QueueOf(st.server, d).msgs;
    assert Extend(h, None) == h;
    if d == c {
      if q[0].tag == Response {
        ResponseEndsExchange(c, PcOf(st, c), h, Requests(st.inbox, c), q);
      } else {
        ResponsesTail(q);
      }
    }
  }

  /** The step that answers a request: the list after it is the one the verdict is about, and the
      client's queue receives this verdict, or nothing. */
  lemma AnswerStep(cfg: Config, st: System, c: string, ok: bool)
    requires Inv(cfg, st) && st.phase.Idle? && st.inbox != []
    requires Asking(st.inbox[0]) && st.inbox[0].source == c
    requires Responses(QueueOf(st.server, c).msgs) == []
    requires ok == (Answer(cfg, st.server.subs, st.inbox[0]).1 == Some(SuccessFor(st.inbox[0])))
    ensures var m, st' := st.inbox[0], ServeStep(cfg, st);
      && Truthful(m, ok, st.server.subs, st'.server.subs)
      && var r' := Responses(QueueOf(st'.server, c).msgs); r' == [] || r' == [VerdictFor(m, ok)]
  {
    hide Drop, Send, Truthful;
    var m := st.inbox[0];
    var (after, reply) := Answer(cfg, st.server.subs, m);
    AnswerIsTruthful(cfg, st.server.subs, m);
    var r := Reply(m, reply.value);
    var s := st.server.(subs := after);
    assert ServeStep(cfg, st).server == Send(cfg, s, r, c);
    SendIsLocal(cfg, s, r, c);
    SendProjects(cfg, s, r, c, c);
    assert ViewOf(s, c) == ViewOf(st.server, c);
    SendAndResponses(cfg, c, ViewOf(s, c), r);
  }

  lemma AnswerKeepsHandshake(cfg: Config, st: System, c: string, h: seq<Event>)
    requires Inv(cfg, st) && HandshakeInv(st, c, h) && st.phase.Idle? && st.inbox != []
    requires Asking(st.inbox[0]) && st.inbox[0].source == c
    ensures HandshakeInv(Step(cfg, st, Serve), c, Extend(h, EventOf(cfg, st, Serve, c)))
  {
    hide Drop, Send, Truthful;
    var m, st' := st.inbox[0], ServeStep(cfg, st);
    RequestsTail(st.inbox, c);
    assert Requests(st.inbox, c)[0] == m;
    assert PcOf(st, c) == Awaiting(m) && Last(h) == Some(Asked(m)) && Requests(st.inbox[1..], c) == [];
    var ok := Answer(cfg, st.server.subs, m).1 == Some(SuccessFor(m));
    AnswerStep(cfg, st, c, ok);
    var e := Answered(m, ok, st.server.subs, st'.server.subs);
    assert EventOf(cfg, st, Serve, c) == Some(e);
    WellFormedSnoc(h, e);
    assert st'.inbox == st.inbox[1..] && st'.pcs == st.pcs;
  }

  /** A server step that answers no message of `c` sends it no response. */
  lemma OtherServeSendsNoResponse(cfg: Config, st: System, c: string)
    requires Inv(cfg, st) && Enabled(cfg, st, Serve)
    requires st.phase.Idle? ==> !(Answerable(st.inbox[0]) && st.inbox[0].source == c)
    ensures var a, st' := ActOf(cfg, st, Serve, c), Step(cfg, st, Serve);
      && (a.Some? ==> a.value.Sent? && a.value.m.tag != Response)
      && Requests(st'.inbox, c) == Requests(st.inbox, c)
      && (OwnAnswersOnly(st.inbox, c) ==> OwnAnswersOnly(st'.inbox, c))
      && st'.pcs == st.pcs
  {
    hide Drop;
    if st.phase.Idle? { RequestsTail(st.inbox, c); }
  }

  lemma HeadIsOwn(st: System, c: string)
    requires OwnAnswersOnly(st.inbox, c) && st.inbox != []
    ensures Answerable(st.inbox[0]) && st.inbox[0].source == c ==> Asking(st.inbox[0])
  {
    assert st.inbox[0] in st.inbox;
  }

  lemma OtherServeKeepsHandshake(cfg: Config, st: System, c: string, h: seq<Event>)
    requires Inv(cfg, st) && HandshakeInv(st, c, h) && Enabled(cfg, st, Serve)
    requires st.phase.Idle? ==> !(Asking(st.inbox[0]) && st.inbox[0].source == c)
    ensures HandshakeInv(Step(cfg, st, Serve), c, h)
  {
    if st.phase.Idle? { HeadIsOwn(st, c); }
    OtherServeSendsNoResponse(cfg, st, c);
    ServeProjects(cfg, st, c);
    var a := ActOf(cfg, st, Serve, c);
    if a.Some? { SendAndResponses(cfg, c, ViewOf(st.server, c), a.value.m); }
  }

  lemma ServeKeepsHandshake(cfg: Config, st: System, c: string, h: seq<Event>)
    requires Inv(cfg, st) && HandshakeInv(st, c, h) && Enabled(cfg, st, Serve)
    ensures HandshakeInv(Step(cfg, st, Serve), c, Extend(h, EventOf(cfg, st, Serve, c)))
  {
    hide HandshakeInv, Inv, Step, ServeStep;
    if st.phase.Idle? && Asking(st.inbox[0]) && st.inbox[0].source == c {
      AnswerKeepsHandshake(cfg, st, c, h);
    } else {
      OtherServeKeepsHandshake(cfg, st, c, h);
      assert Extend(h, None) == h;
    }
  }

  /** A start, the end of a process, or an injected message. */
  lemma OtherStepKeepsHandshake(cfg: Config, st: System, l: Label, c: string, h: seq<Event>)
    requires HandshakeInv(st, c, h) && Undisturbed(st, l, c) && Enabled(cfg, st, l)
    requires l.Start? || l.Quit? || l.Kill? || l.Inject?
    ensures HandshakeInv(Step(cfg, st, l), c, Extend(h, EventOf(cfg, st, l, c)))
  {
    assert Extend(h, None) == h && Responses([]) == [];
    hide Drop;
    if l.Inject? { RequestsSnoc(st.inbox, l.m, c); }
  }

  lemma DisabledChangesNothing(cfg: Config, st: System, l: Label, c: string, h: seq<Event>)
    requires !Enabled(cfg, st, l)
    ensures Step(cfg, st, l) == st && Extend(h, EventOf(cfg, st, l, c)) == h
  {
  }

  lemma {:induction false} StepKeepsHandshake(cfg: Config, st: System, l: Label, c: string, h: seq<Event>)
    requires Inv(cfg, st) && HandshakeInv(st, c, h) && Undisturbed(st, l, c)
    ensures HandshakeInv(Step(cfg, st, l), c, Extend(h, EventOf(cfg, st, l, c)))
  {
    hide HandshakeInv, Inv, Step, Extend;
    if Enabled(cfg, st, l) {
      match l
      case Post(d, m) => PostKeepsHandshake(cfg, st, d, m, c, h);
      case Read(d) => ReadKeepsHandshake(cfg, st, d, c, h);
      case Serve => ServeKeepsHandshake(cfg, st, c, h);
      case _ => OtherStepKeepsHandshake(cfg, st, l, c, h);
    } else {
      DisabledChangesNothing(cfg, st, l, c, h);
    }
  }

  lemma ExtendAppend(h: seq<Event>, more: seq<Event>, e: Option<Event>)
    ensures h + Extend(more, e) == Extend(h + more, e)
  {
  }

  /** From any state in which the exchange of `c` is in order, it stays in order. */
  lemma {:induction false} HandshakeGoesOn(cfg: Config, st: System, ls: seq<Label>, c: string, h: seq<Event>)
    requires Inv(cfg, st) && HandshakeInv(st, c, h) && UndisturbedFrom(cfg, st, ls, c)
    ensures Inv(cfg, Run(cfg, st, ls))
    ensures HandshakeInv(Run(cfg, st, ls), c, h + EventsFrom(cfg, st, ls, c))
  {
    if ls == [] {
      assert h + [] == h;
    } else {
      var past, l := ls[..|ls| - 1], ls[|ls| - 1];
      HandshakeGoesOn(cfg, st, past, c, h);
      var s, e := Run(cfg, st, past), EventsFrom(cfg, st, past, c);
      StepKeepsInv(cfg, s, l);
      StepKeepsHandshake(cfg, s, l, c, h + e);
      ExtendAppend(h, e, EventOf(cfg, s, l, c));
    }
  }

  /** In every run that is undisturbed for `c`, it has at most one unanswered request, and every
      verdict it is given is the truth about the list at the step that answered that request. */
  lemma {:induction false} HandshakeIsSafe(cfg: Config, ls: seq<Label>, c: string)
    requires LibraryRun(cfg, ls, c)
    ensures HandshakeInv(Run(cfg, INIT, ls), c, History(cfg, ls, c))
  {
    RunsKeepInv(cfg, []);
    HandshakeGoesOn(cfg, INIT, ls, c, []);
    assert [] + History(cfg, ls, c) == History(cfg, ls, c);
  }

  /** In such a run every response in the queue of a waiting client bears its name and the topic of its
      request, and the true verdict on that request. */
  lemma {:induction false} ResponsesBelong(cfg: Config, ls: seq<Label>, c: string, r: Msg)
    requires LibraryRun(cfg, ls, c) && PcOf(Run(cfg, INIT, ls), c).Awaiting?
    requires r in QueueOf(Run(cfg, INIT, ls).server, c).msgs && r.tag == Response
    ensures var req, last := PcOf(Run(cfg, INIT, ls), c).req, Last(History(cfg, ls, c));
      && r.source == c == req.source && r.topic == req.topic
      && last.Some? && last.value.Answered? && last.value.req == req
      && r.data == (if last.value.ok then SuccessFor(req) else FailFor(req))
      && Truthful(req, last.value.ok, last.value.before, last.value.after)
  {
    var st, h := Run(cfg, INIT, ls), History(cfg, ls, c);
    HandshakeIsSafe(cfg, ls, c);
    hide Run, EventsFrom, UndisturbedFrom, Drop;
    DropMembers(QueueOf(st.server, c).msgs, NotResponse());
    assert r in Responses(QueueOf(st.server, c).msgs);
    assert FollowsFrom(h[|h| - 1], Last(h[..|h| - 1]));
  }

  /** If `cms_subcribe_topic` returns CMS_SUCCESS, the pair was in the server's list at the step
      that answered this request; otherwise it was not. */
  lemma SubscribeVerdictIsTrue(cfg: Config, ls: seq<Label>, c: string, k: nat)
    requires LibraryRun(cfg, ls, c)
    requires var h := History(cfg, ls, c); k < |h| && h[k].Returned? && h[k].req.tag == Subscribe
    ensures var h := History(cfg, ls, c);
      && k >= 2 && h[k - 2] == Asked(h[k].req)
      && h[k - 1].Answered? && h[k - 1].req == h[k].req
      && (h[k].ok <==> Sub(h[k].req.source, h[k].req.topic) in h[k - 1].after)
  {
    var h := History(cfg, ls, c);
    HandshakeIsSafe(cfg, ls, c);
    assert FollowsFrom(h[k], Last(h[..k]));
    assert FollowsFrom(h[k - 1], Last(h[..k - 1]));
  }

  lemma HistorySnoc(cfg: Config, ls: seq<Label>, l: Label, c: string)
    ensures Run(cfg, INIT, ls + [l]) == Step(cfg, Run(cfg, INIT, ls), l)
    ensures History(cfg, ls + [l], c) == Extend(History(cfg, ls, c), EventOf(cfg, Run(cfg, INIT, ls), l, c))
    ensures LibraryRun(cfg, ls + [l], c) <==> LibraryRun(cfg, ls, c) && Undisturbed(Run(cfg, INIT, ls), l, c)
    ensures ls + [l] != []
  {
    assert (ls + [l])[..|ls|] == ls;
  }

  /** A client killed inside subscribe and started again can be told CMS_SUCCESS for a topic it is
      not subscribed to: the answer to its first life's request is taken for the second's. */
  lemma {:induction false} KilledClientIsMisled(cfg: Config, c: string, x: string, y: string) returns (ls: seq<Label>)
    requires cfg.maxTopic != 0 && cfg.maxMsg >= 2 && x != y
    ensures var h, st := History(cfg, ls, c), Run(cfg, INIT, ls);
      && h != [] && h[|h| - 1] == Returned(Msg(Subscribe, c, y, "SUBCRIBE TOPIC"), true)
      && st.server.subs == [Sub(c, x)] && st.inbox == [Msg(Subscribe, c, y, "SUBCRIBE TOPIC")]
  {
    hide Run, EventsFrom, UndisturbedFrom, Drop;
    var first, second := Msg(Subscribe, c, x, "SUBCRIBE TOPIC"), Msg(Subscribe, c, y, "SUBCRIBE TOPIC");
    var waiting := Misled(cfg, c, first, second);
    var s := Run(cfg, INIT, waiting);
    FirstSubscriber(cfg, first);
    var reply := Reply(first, SUBSCRIBE_SUCCESS);
    HistorySnoc(cfg, waiting, Serve, c);
    var answered := waiting + [Serve];
    var s' := Run(cfg, INIT, answered);
    assert QueueOf(s'.server, c).msgs == [reply] && s'.server.subs == [Sub(c, x)];
    HistorySnoc(cfg, answered, Read(c), c);
    ls := answered + [Read(c)];
  }

  /** The system with one client, the messages `q` in its queue. */
  function OneClient(c: string, q: seq<Msg>, inbox: seq<Msg>, pcs: map<string, Pc>): System {
    System(Server([], [], map[c := Queue(q, true)], NO_MSG), inbox, Idle, pcs)
  }

  lemma FirstLifeSteps(cfg: Config, c: string, first: Msg)
    requires cfg.maxMsg >= 2 && Asking(first) && first.source == c
    ensures Step(cfg, INIT, Start(c)) == OneClient(c, [], [], map[c := Free])
    ensures Step(cfg, OneClient(c, [], [], map[c := Free]), Post(c, first)) ==
            OneClient(c, [], [first], map[c := Awaiting(first)])
    ensures Step(cfg, OneClient(c, [], [first], map[c := Awaiting(first)]), Kill(c)) == OneClient(c, [], [first], map[])
    ensures Step(cfg, OneClient(c, [], [first], map[]), Start(c)) == OneClient(c, [], [first], map[c := Free])
  {
    hide ServeStep, ReadStep;
    assert [] + [first] == [first];
  }

  /** Started, killed inside its first call, and started again. */
  lemma {:induction false} SecondLife(cfg: Config, c: string, first: Msg) returns (ls: seq<Label>)
    requires cfg.maxMsg >= 2 && Asking(first) && first.source == c
    ensures Run(cfg, INIT, ls) == OneClient(c, [], [first], map[c := Free])
  {
    var l0: seq<Label> := [];
    assert Run(cfg, INIT, l0) == INIT;
    hide Run, Step, OneClient;
    var l1, l2 := l0 + [Start(c)], l0 + [Start(c)] + [Post(c, first)];
    var l3 := l2 + [Kill(c)];
    RunSnoc(cfg, INIT, l0, Start(c));
    RunSnoc(cfg, INIT, l1, Post(c, first));
    RunSnoc(cfg, INIT, l2, Kill(c));
    RunSnoc(cfg, INIT, l3, Start(c));
    FirstLifeSteps(cfg, c, first);
    ls := l3 + [Start(c)];
  }

  lemma {:induction false} Misled(cfg: Config, c: string, first: Msg, second: Msg) returns (ls: seq<Label>)
    requires cfg.maxMsg >= 2 && Asking(first) && Asking(second) && first.source == c && second.source == c
    ensures Run(cfg, INIT, ls) ==
            OneClient(c, [], [first, second], map[c := Awaiting(second)])
  {
    hide Run, ServeStep, ReadStep;
    var again := SecondLife(cfg, c, first);
    RunSnoc(cfg, INIT, again, Post(c, second));
    assert [first] + [second] == [first, second];
    ls := again + [Post(c, second)];
  }

  // ---------- requests forged by another program ----------

  lemma AskedBehindForged(cfg: Config, c: string, forged: Msg, req: Msg)
    requires cfg.maxMsg >= 2 && Asking(req) && req.source == c
    ensures Step(cfg, INIT, Start(c)) == OneClient(c, [], [], map[c := Free])
    ensures Step(cfg, OneClient(c, [], [], map[c := Free]), Inject(forged)) ==
            OneClient(c, [], [forged], map[c := Free])
    ensures Step(cfg, OneClient(c, [], [forged], map[c := Free]), Post(c, req)) ==
            OneClient(c, [], [forged, req], map[c := Awaiting(req)])
  {
    hide ServeStep, ReadStep;
    assert [] + [forged] == [forged] && [forged] + [req] == [forged, req];
  }

  /** The log-level request of any program is answered to the client it names. */
  lemma ForgedIsAnswered(cfg: Config, c: string, data: string, req: Msg)
    requires data !in LOG_LEVELS
    ensures var forged := Msg(ConfigServer, c, CTRL_SET_LOG, data);
      var r := Msg(Response, c, CTRL_SET_LOG, CONFIG_FAIL);
      Step(cfg, OneClient(c, [], [forged, req], map[c := Awaiting(req)]), Serve) ==
        OneClient(c, [r], [req], map[c := Awaiting(req)])
  {
    var forged := Msg(ConfigServer, c, CTRL_SET_LOG, data);
    var r := Msg(Response, c, CTRL_SET_LOG, CONFIG_FAIL);
    assert [forged, req][1..] == [req] && [] + [r] == [r];
    hide Send;
    var asked := OneClient(c, [], [forged, req], map[c := Awaiting(req)]);
    assert asked.server.(subs := asked.server.subs) == asked.server;
    SendWhenRoom(cfg, asked.server, r, c);
  }

  lemma ResponseIsRead(cfg: Config, c: string, r: Msg, req: Msg)
    requires r.tag == Response
    ensures Step(cfg, OneClient(c, [r], [req], map[c := Awaiting(req)]), Read(c)) ==
            OneClient(c, [], [req], map[c := Free])
  {
    assert [r][1..] == [];
  }

  lemma FirstSubscriber(cfg: Config, req: Msg)
    requires cfg.maxTopic != 0 && req.tag == Subscribe
    ensures Answer(cfg, [], req) == ([Sub(req.source, req.topic)], Some(SUBSCRIBE_SUCCESS))
  {
    var nobody: seq<Sub> := [];
    assert Topics(nobody) == {} && nobody + [Sub(req.source, req.topic)] == [Sub(req.source, req.topic)];
  }

  lemma ThenSubscribed(cfg: Config, c: string, t: string, req: Msg)
    requires cfg.maxTopic != 0 && req.tag == Subscribe && req.source == c && req.topic == t
    ensures var st' := Step(cfg, OneClient(c, [], [req], map[c := Free]), Serve);
      st'.server.subs == [Sub(c, t)] && st'.inbox == []
  {
    hide Answer, Send, DeliverTo;
    FirstSubscriber(cfg, req);
    var s := OneClient(c, [], [req], map[c := Free]).server;
    SendIsLocal(cfg, s.(subs := [Sub(c, t)]), Reply(req, SUBSCRIBE_SUCCESS), c);
    assert [req][1..] == [];
  }

  /** Why other programs must not make the server answer to a client's name: in this run one program does,
      the client is told CMS_FAIL, and it is subscribed all the same. */
  lemma {:induction false} ForgedRequestMisleads(cfg: Config, c: string, t: string) returns (ls: seq<Label>)
    requires cfg.maxTopic != 0 && cfg.maxMsg >= 2
    ensures var h, st := History(cfg, ls, c), Run(cfg, INIT, ls);
      && Returned(Msg(Subscribe, c, t, "SUBCRIBE TOPIC"), false) in h
      && st.server.subs == [Sub(c, t)] && st.inbox == []
  {
    var req, forged := Msg(Subscribe, c, t, "SUBCRIBE TOPIC"), Msg(ConfigServer, c, CTRL_SET_LOG, "");
    AskedBehindForged(cfg, c, forged, req);
    ForgedIsAnswered(cfg, c, "", req);
    ResponseIsRead(cfg, c, Msg(Response, c, CTRL_SET_LOG, CONFIG_FAIL), req);
    ThenSubscribed(cfg, c, t, req);
    VerdictsDiffer(req);
    assert |CONFIG_FAIL| != |SUBSCRIBE_SUCCESS|;
    var l0: seq<Label> := [];
    assert Run(cfg, INIT, l0) == INIT;
    hide Run, Step, History;
    HistorySnoc(cfg, l0, Start(c), c);
    HistorySnoc(cfg, l0 + [Start(c)], Inject(forged), c);
    var l2 := l0 + [Start(c)] + [Inject(forged)];
    HistorySnoc(cfg, l2, Post(c, req), c);
    HistorySnoc(cfg, l2 + [Post(c, req)], Serve, c);
    var l4 := l2 + [Post(c, req)] + [Serve];
    HistorySnoc(cfg, l4, Read(c), c);
    HistorySnoc(cfg, l4 + [Read(c)], Serve, c);
    assert EventOf(cfg, Run(cfg, INIT, l4), Read(c), c) == Some(Returned(req, false));
    ls := l4 + [Read(c)] + [Serve];
  }
}
