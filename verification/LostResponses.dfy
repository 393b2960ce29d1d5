/** When the response to a waiting client gets lost, and what that means for its call. */
module LostResponses {
  import opened Messages
  import opened Lists
  import opened Broker
  import opened ClientView
  import opened Network
  import opened Runs
  import opened Handshake

  /** The client waits, its request has been taken and no response is in its queue. */
  ghost predicate Stranded(st: System, c: string) {
    && PcOf(st, c).Awaiting?
    && Requests(st.inbox, c) == [] && Responses(QueueOf(st.server, c).msgs) == []
  }

  /** The step sends to a waiting client and loses its response: either this is the response and
      the queue has no name any more, or the full queue's oldest message, overwritten now, is it. */
  ghost predicate Loses(cfg: Config, st: System, l: Label, c: string) {
    && l == Serve && Enabled(cfg, st, Serve) && PcOf(st, c).Awaiting?
    && Target(cfg, st).Some? && Target(cfg, st).value.0 == c
    && if st.phase.Idle? && Asking(st.inbox[0]) then !QueueOf(st.server, c).linked
       else Full(cfg, ViewOf(st.server, c)) && QueueOf(st.server, c).msgs[0].tag == Response
  }

  /** What a send leaves of the responses in a queue, case by case. */
  lemma ResponsesAfterSend(cfg: Config, c: string, v: View, m: Msg)
    requires Deliverable(m)
    ensures var q, q' := v.queue.msgs, Apply(cfg, c, v, Sent(m)).queue.msgs;
      var added := if m.tag == Response then [m] else [];
      Responses(q') ==
        if !v.queue.linked then Responses(q)
        else if |q| < cfg.cap then Responses(q) + added
        else Responses(q[1..]) + added
  {
    var q := v.queue.msgs;
    ResponsesSnoc(q, m);
    if q != [] { ResponsesSnoc(q[1..], m); }
  }

  lemma AnswerMayBeLost(cfg: Config, st: System, c: string, h: seq<Event>)
    requires Inv(cfg, st) && HandshakeInv(st, c, h) && st.phase.Idle? && st.inbox != []
    requires Asking(st.inbox[0]) && st.inbox[0].source == c
    ensures PcOf(st, c).Awaiting? && !Stranded(st, c)
    ensures Stranded(Step(cfg, st, Serve), c) <==> !QueueOf(st.server, c).linked
  {
    hide Drop, Send, WellFormed;
    var m, v := st.inbox[0], ViewOf(st.server, c);
    RequestsTail(st.inbox, c);
    assert Requests(st.inbox, c)[0] == m;
    AnswerIsTruthful(cfg, st.server.subs, m);
    var r := Reply(m, Answer(cfg, st.server.subs, m).1.value);
    assert ActOf(cfg, st, Serve, c) == Some(Sent(r));
    ServeProjects(cfg, st, c);
    ResponsesAfterSend(cfg, c, v, r);
  }

  /** An ordinary message sent to a queue that holds one response loses it exactly when the queue is
      full and the response is its oldest message. */
  lemma OrdinarySend(cfg: Config, c: string, v: View, m: Msg)
    requires Deliverable(m) && m.tag != Response && |Responses(v.queue.msgs)| == 1
    ensures Responses(Apply(cfg, c, v, Sent(m)).queue.msgs) == [] <==>
              Full(cfg, v) && v.queue.msgs[0].tag == Response
  {
    ResponsesAfterSend(cfg, c, v, m);
    if v.queue.msgs != [] { ResponsesTail(v.queue.msgs); }
  }

  lemma HeadIsOrdinary(q: seq<Msg>)
    requires Responses(q) == []
    ensures q != [] ==> q[0].tag != Response
  {
    if q != [] { ResponsesTail(q); }
  }

  lemma OverwriteMayLose(cfg: Config, st: System, c: string, h: seq<Event>)
    requires Inv(cfg, st) && HandshakeInv(st, c, h) && Enabled(cfg, st, Serve) && !Stranded(st, c)
    requires st.phase.Idle? ==> !(Asking(st.inbox[0]) && st.inbox[0].source == c)
    ensures Stranded(Step(cfg, st, Serve), c) <==> Loses(cfg, st, Serve, c)
  {
    hide Drop, ServeStep, Answer, WellFormed;
    var q, a := QueueOf(st.server, c).msgs, ActOf(cfg, st, Serve, c);
    if st.phase.Idle? { HeadIsOwn(st, c); }
    OtherServeSendsNoResponse(cfg, st, c);
    if Requests(st.inbox, c) != [] {
      assert PcOf(st, c).Awaiting? ==> Responses(q) == [];
      if PcOf(st, c).Awaiting? { HeadIsOrdinary(q); }
    } else if PcOf(st, c).Awaiting? {
      assert |Responses(q)| == 1;
      ServeProjects(cfg, st, c);
      if a.Some? { OrdinarySend(cfg, c, ViewOf(st.server, c), a.value.m); }
    }
  }

  /** What a step other than the server's leaves of a request and a response on their way. */
  lemma OthersKeepExchange(cfg: Config, st: System, l: Label, c: string)
    requires l != Serve && Undisturbed(st, l, c) && PcOf(st, c).Awaiting?
    ensures var st' := Step(cfg, st, l);
      && Requests(st'.inbox, c) == Requests(st.inbox, c)
      && (PcOf(st', c).Awaiting? ==> Responses(QueueOf(st'.server, c).msgs) == Responses(QueueOf(st.server, c).msgs))
      && (!PcOf(st', c).Awaiting? ==> EventOf(cfg, st, l, c).Some? && Responses(QueueOf(st.server, c).msgs) != [])
      && (PcOf(st', c).Awaiting? ==> EventOf(cfg, st, l, c) == None)
  {
    hide ServeStep, Answer, Drop;
    if Enabled(cfg, st, l) {
      match l
      case Post(d, m) => RequestsSnoc(st.inbox, m, c);
      case Inject(m) => RequestsSnoc(st.inbox, m, c);
      case Read(d) => if d == c { ResponsesTail(QueueOf(st.server, c).msgs); }
      case _ =>
    }
  }

  lemma NewCallIsNotStranded(cfg: Config, st: System, l: Label, c: string)
    requires !PcOf(st, c).Awaiting?
    ensures !Stranded(Step(cfg, st, l), c)
  {
    if l.Post? { RequestsSnoc(st.inbox, l.m, c); }
  }

  /** A step strands a client exactly when it loses its response. */
  lemma {:induction false} StrandingStep(cfg: Config, st: System, l: Label, c: string, h: seq<Event>)
    requires Inv(cfg, st) && HandshakeInv(st, c, h) && Undisturbed(st, l, c) && !Stranded(st, c)
    ensures Stranded(Step(cfg, st, l), c) <==> Loses(cfg, st, l, c)
  {
    if !PcOf(st, c).Awaiting? {
      NewCallIsNotStranded(cfg, st, l, c);
    } else if l != Serve {
      OthersKeepExchange(cfg, st, l, c);
    } else if Enabled(cfg, st, l) {
      if st.phase.Idle? && Asking(st.inbox[0]) && st.inbox[0].source == c {
        AnswerMayBeLost(cfg, st, c, h);
        AnswerIsTruthful(cfg, st.server.subs, st.inbox[0]);
      } else {
        OverwriteMayLose(cfg, st, c, h);
      }
    }
  }

  lemma {:induction false} StrandedStays(cfg: Config, st: System, l: Label, c: string)
    requires Inv(cfg, st) && OwnAnswersOnly(st.inbox, c) && Stranded(st, c) && Undisturbed(st, l, c)
    ensures Stranded(Step(cfg, st, l), c) && EventOf(cfg, st, l, c) == None
  {
    if l != Serve {
      OthersKeepExchange(cfg, st, l, c);
    } else if Enabled(cfg, st, l) {
      StrandedServe(cfg, st, c);
    }
  }

  lemma StrandedServe(cfg: Config, st: System, c: string)
    requires Inv(cfg, st) && OwnAnswersOnly(st.inbox, c) && Stranded(st, c) && Enabled(cfg, st, Serve)
    ensures Stranded(Step(cfg, st, Serve), c) && EventOf(cfg, st, Serve, c) == None
  {
    if st.phase.Idle? {
      RequestsTail(st.inbox, c);
      HeadIsOwn(st, c);
    }
    OtherServeSendsNoResponse(cfg, st, c);
    ServeProjects(cfg, st, c);
    var a := ActOf(cfg, st, Serve, c);
    if a.Some? { SendAndResponses(cfg, c, ViewOf(st.server, c), a.value.m); }
  }

  /** Some step of the run lost a response of `c`. */
  ghost predicate LostDuring(cfg: Config, ls: seq<Label>, c: string) {
    ls != [] &&
    var past := ls[..|ls| - 1];
    LostDuring(cfg, past, c) || Loses(cfg, Run(cfg, INIT, past), ls[|ls| - 1], c)
  }

  /** In every run that is undisturbed for `c`, it is stranded at the end exactly when some step of
      the run lost its response. */
  lemma {:induction false} StrandedIffLost(cfg: Config, ls: seq<Label>, c: string)
    requires LibraryRun(cfg, ls, c)
    ensures Stranded(Run(cfg, INIT, ls), c) <==> LostDuring(cfg, ls, c)
  {
    if ls != [] {
      var past, l := ls[..|ls| - 1], ls[|ls| - 1];
      var st := Run(cfg, INIT, past);
      StrandedIffLost(cfg, past, c);
      HandshakeIsSafe(cfg, past, c);
      RunsKeepInv(cfg, past);
      if Stranded(st, c) {
        StrandedStays(cfg, st, l, c);
      } else {
        StrandingStep(cfg, st, l, c, History(cfg, past, c));
      }
    }
  }

  /** A lost response is never made up for: the call returns in no continuation of the run. */
  lemma {:induction false} LostResponseStrands(cfg: Config, past: seq<Label>, ls: seq<Label>, c: string)
    requires past <= ls && LibraryRun(cfg, ls, c) && Stranded(Run(cfg, INIT, past), c)
    ensures Stranded(Run(cfg, INIT, ls), c) && History(cfg, ls, c) == History(cfg, past, c)
  {
    if |past| < |ls| {
      var shorter := ls[..|ls| - 1];
      LostResponseStrands(cfg, past, shorter, c);
      RunsKeepInv(cfg, shorter);
      HandshakeIsSafe(cfg, shorter, c);
      StrandedStays(cfg, Run(cfg, INIT, shorter), ls[|ls| - 1], c);
    } else {
      assert past == ls;
    }
  }

  // ---------- a waiting client without a queue name ----------

  /** The client waits, its queue cannot be opened any more and holds no response. */
  ghost predicate CutOff(st: System, c: string) {
    PcOf(st, c).Awaiting? && !QueueOf(st.server, c).linked && Responses(QueueOf(st.server, c).msgs) == []
  }

  lemma CutOffStays(cfg: Config, st: System, l: Label, c: string)
    requires Inv(cfg, st) && CutOff(st, c) && (l == Kill(c) ==> !Alive(st, c))
    ensures CutOff(Step(cfg, st, l), c)
    ensures var e := EventOf(cfg, st, l, c); e.Some? ==> !e.value.Returned?
  {
    hide Visit, HandleDirect, Drop;
    StepProjects(cfg, st, l, c);
    if l == Read(c) && Enabled(cfg, st, l) { ResponsesTail(QueueOf(st.server, c).msgs); }
  }

  /** A call that waits on such a queue returns in no continuation, whatever anybody sends. */
  lemma {:induction false} CutOffCallHangs(cfg: Config, st: System, ls: seq<Label>, c: string)
    requires Inv(cfg, st) && CutOff(st, c) && Kill(c) !in ls
    ensures Inv(cfg, Run(cfg, st, ls)) && CutOff(Run(cfg, st, ls), c)
    ensures forall e :: e in EventsFrom(cfg, st, ls, c) ==> !e.Returned?
  {
    if ls != [] {
      var past, l := ls[..|ls| - 1], ls[|ls| - 1];
      CutOffCallHangs(cfg, st, past, c);
      StepKeepsInv(cfg, Run(cfg, st, past), l);
      CutOffStays(cfg, Run(cfg, st, past), l, c);
    }
  }

  /** A client declared crashed while its request is still unanswered waits for ever. */
  lemma {:induction false} PurgedCallHangs(cfg: Config, ls: seq<Label>, c: string, m: Msg, more: seq<Label>)
    requires LibraryRun(cfg, ls, c) && DeclaresCrash(cfg, Run(cfg, INIT, ls), c, m)
    requires PcOf(Run(cfg, INIT, ls), c).Awaiting? && Requests(Run(cfg, INIT, ls).inbox, c) != []
    requires Kill(c) !in more
    ensures var purged := Step(cfg, Run(cfg, INIT, ls), Serve);
      && PcOf(Run(cfg, purged, more), c).Awaiting?
      && forall e :: e in EventsFrom(cfg, purged, more, c) ==> !e.Returned?
  {
    hide Drop, Run, EventsFrom, UndisturbedFrom, WellFormed, HandleDirect, Visit;
    var st := Run(cfg, INIT, ls);
    RunsKeepInv(cfg, ls);
    HandshakeIsSafe(cfg, ls, c);
    DeclaredCrashPurges(cfg, st, c, m);
    StepKeepsInv(cfg, st, Serve);
    ServeProjects(cfg, st, c);
    assert m.tag != Response && ActOf(cfg, st, Serve, c) == Some(Sent(m));
    SendAndResponses(cfg, c, ViewOf(st.server, c), m);
    CutOffCallHangs(cfg, Step(cfg, st, Serve), more, c);
  }

  // ---------- a run that loses a response ----------

  /** Only what the client library itself does. */
  ghost predicate LibraryLabels(ls: seq<Label>) {
    forall l :: l in ls ==> !l.Inject? && !l.Kill?
  }

  /** `c` waits with its response at the head of its queue and `n` other messages behind it. */
  ghost predicate Behind(cfg: Config, ls: seq<Label>, c: string, d: string, n: nat) {
    var st := Run(cfg, INIT, ls);
    var q := QueueOf(st.server, c);
    && LibraryRun(cfg, ls, c) && LibraryLabels(ls) && st.phase == Idle && st.inbox == []
    && PcOf(st, c).Awaiting? && Alive(st, d) && IsFree(st, d)
    && q.linked && |q.msgs| == n + 1 && q.msgs[0].tag == Response
  }

  lemma {:induction false} AskedRun(cfg: Config, c: string, d: string, req: Msg) returns (ls: seq<Label>)
    requires c != d && Asking(req) && req.source == c
    ensures LibraryRun(cfg, ls, c) && LibraryLabels(ls)
    ensures Run(cfg, INIT, ls) ==
            System(Server([], [], map[c := Queue([], true), d := Queue([], true)], NO_MSG), [req], Idle,
                   map[c := Awaiting(req), d := Free])
  {
    var l0: seq<Label> := [];
    var l1 := l0 + [Start(c)];
    var l2 := l1 + [Start(d)];
    HistorySnoc(cfg, l0, Start(c), c);
    HistorySnoc(cfg, l1, Start(d), c);
    HistorySnoc(cfg, l2, Post(c, req), c);
    ls := l2 + [Post(c, req)];
    assert [] + [req] == [req];
  }

  /** A request answered into an empty queue: the response is alone there. */
  lemma AnswerArrives(cfg: Config, st: System, c: string, req: Msg)
    requires Inv(cfg, st) && st.phase == Idle && st.inbox == [req] && Asking(req) && req.source == c
    requires QueueOf(st.server, c) == Queue([], true)
    ensures var st' := Step(cfg, st, Serve);
      && st'.phase == Idle && st'.inbox == [] && st'.pcs == st.pcs
      && var q := QueueOf(st'.server, c); q.linked && |q.msgs| == 1 && q.msgs[0].tag == Response
  {
    hide Answer, Send, Drop;
    AnswerIsTruthful(cfg, st.server.subs, req);
    ServeProjects(cfg, st, c);
  }

  lemma AnsweredRun(cfg: Config, c: string, d: string, topic: string) returns (ls: seq<Label>)
    requires c != d
    ensures Behind(cfg, ls, c, d, 0)
  {
    var req := Msg(Subscribe, c, topic, "SUBCRIBE TOPIC");
    var asked := AskedRun(cfg, c, d, req);
    ls := asked + [Serve];
    var st := Run(cfg, INIT, asked);
    hide Run, UndisturbedFrom, History, Step;
    HistorySnoc(cfg, asked, Serve, c);
    RunsKeepInv(cfg, asked);
    AnswerArrives(cfg, st, c, req);
  }

  lemma {:induction false} OneMoreBehind(cfg: Config, ls: seq<Label>, c: string, d: string, n: nat)
    returns (posted: seq<Label>)
    requires c != d && Behind(cfg, ls, c, d, n) && n + 1 <= cfg.cap
    ensures LibraryRun(cfg, posted + [Serve], c) && LibraryLabels(posted + [Serve])
    ensures n + 1 < cfg.cap ==> Behind(cfg, posted + [Serve], c, d, n + 1)
    ensures n + 1 == cfg.cap ==> Loses(cfg, Run(cfg, INIT, posted), Serve, c)
  {
    hide Run, UndisturbedFrom, History, Drop, HandleDirect, Visit;
    var m := Msg(RequestSendTo, d, c, "");
    posted := ls + [Post(d, m)];
    HistorySnoc(cfg, ls, Post(d, m), c);
    HistorySnoc(cfg, posted, Serve, c);
    var st := Run(cfg, INIT, posted);
    assert st.inbox == [m] && Target(cfg, st) == Some((c, m));
    RunsKeepInv(cfg, posted);
    ServeProjects(cfg, st, c);
  }

  lemma {:induction false} QueueFills(cfg: Config, c: string, d: string, topic: string, n: nat) returns (ls: seq<Label>)
    requires c != d && n < cfg.cap
    ensures Behind(cfg, ls, c, d, n)
  {
    if n == 0 {
      ls := AnsweredRun(cfg, c, d, topic);
    } else {
      ls := QueueFills(cfg, c, d, topic, n - 1);
      var posted := OneMoreBehind(cfg, ls, c, d, n - 1);
      ls := posted + [Serve];
    }
  }

  /** For every configuration there is a run, of library calls only, that ends with a client
      stranded in subscribe: its response is overwritten before it reads it. */
  lemma {:induction false} ResponseCanBeLost(cfg: Config, c: string, d: string, topic: string) returns (ls: seq<Label>)
    requires c != d
    ensures LibraryRun(cfg, ls, c) && LibraryLabels(ls) && Stranded(Run(cfg, INIT, ls), c)
  {
    var filled := QueueFills(cfg, c, d, topic, cfg.cap - 1);
    var posted := OneMoreBehind(cfg, filled, c, d, cfg.cap - 1);
    ls := posted + [Serve];
    assert ls[..|ls| - 1] == posted;
    StrandedIffLost(cfg, ls, c);
  }
}
