/** Which subscribe and unsubscribe calls can be given the answer to something else. */
module MisledCalls {
  import opened Messages
  import opened Lists
  import opened Broker
  import opened ClientView
  import opened Network
  import opened Handshake
  import opened LostResponses

  /** Whether the step takes a message out of the server's queue. */
  predicate TakesOne(cfg: Config, st: System, l: Label) {
    l == Serve && Enabled(cfg, st, l) && st.phase.Idle?
  }

  function Takes(cfg: Config, st: System, ls: seq<Label>): nat {
    if ls == [] then 0
    else
      var past := ls[..|ls| - 1];
      Takes(cfg, st, past) + if TakesOne(cfg, Run(cfg, st, past), ls[|ls| - 1]) then 1 else 0
  }

  /** The client is inside its call during the whole run. */
  ghost predicate StillWaiting(cfg: Config, st: System, ls: seq<Label>, c: string) {
    && PcOf(Run(cfg, st, ls), c).Awaiting?
    && (ls == [] || StillWaiting(cfg, st, ls[..|ls| - 1], c))
  }

  /** The call of `c` going on in `st` returns at the last step of `ls`, although the server has
      not taken more than `ahead` messages by then. */
  ghost predicate ReturnsEarly(cfg: Config, st: System, ls: seq<Label>, c: string, ahead: nat) {
    && ls != [] && ls[|ls| - 1] == Read(c)
    && StillWaiting(cfg, st, ls[..|ls| - 1], c)
    && !PcOf(Run(cfg, st, ls), c).Awaiting?
    && Takes(cfg, st, ls) <= ahead
  }

  /** The call of `c` going on in `st` returns at the last step of `ls`. */
  ghost predicate Returns(cfg: Config, st: System, ls: seq<Label>, c: string) {
    ReturnsEarly(cfg, st, ls, c, Takes(cfg, st, ls))
  }

  /** What a client can find when it is about to ask: a response left in its queue, or an older
      message of its name still to be answered into a queue that can be opened. */
  ghost predicate Misleadable(st: System, c: string) {
    || Responses(QueueOf(st.server, c).msgs) != []
    || (QueueOf(st.server, c).linked && exists m :: m in st.inbox && m.source == c && Answerable(m))
  }

  // ---------- a call that cannot be misled ----------

  /** After `k` messages were taken: no response is in the queue, the messages that were ahead are
      the next ones, and a queue without a name has none yet. */
  ghost predicate Untouched(st: System, c: string, ahead: nat, s: System, k: nat)
    requires k <= ahead <= |st.inbox|
  {
    && Responses(QueueOf(s.server, c).msgs) == []
    && ahead - k <= |s.inbox| && s.inbox[..ahead - k] == st.inbox[k..ahead]
    && (ahead < |st.inbox| ==> ahead - k < |s.inbox|)
    && (!QueueOf(st.server, c).linked ==> !QueueOf(s.server, c).linked)
  }

  ghost predicate NothingAhead(st: System, c: string, ahead: nat)
    requires ahead <= |st.inbox|
  {
    QueueOf(st.server, c).linked ==>
      forall i :: 0 <= i < ahead ==> !(st.inbox[i].source == c && Answerable(st.inbox[i]))
  }

  lemma AheadAfterTake(before: seq<Msg>, inbox: seq<Msg>, ahead: nat, k: nat)
    requires k < ahead <= |before| && ahead - k <= |inbox| && inbox[..ahead - k] == before[k..ahead]
    ensures inbox[0] == before[k] && inbox[1..][..ahead - k - 1] == before[k + 1..ahead]
  {
    assert inbox[0] == inbox[..ahead - k][0];
    assert inbox[1..][..ahead - k - 1] == inbox[..ahead - k][1..];
  }

  lemma {:induction false} UntouchedServe(cfg: Config, st: System, c: string, ahead: nat, s: System, k: nat)
    requires ahead < |st.inbox| && k <= ahead && Untouched(st, c, ahead, s, k) && NothingAhead(st, c, ahead)
    requires Inv(cfg, s) && Enabled(cfg, s, Serve) && (s.phase.Idle? ==> k < ahead)
    ensures Untouched(st, c, ahead, Step(cfg, s, Serve), if s.phase.Idle? then k + 1 else k)
  {
    hide Drop, HandleDirect, Visit;
    var v, a := ViewOf(s.server, c), ActOf(cfg, s, Serve, c);
    ServeProjects(cfg, s, c);
    if s.phase.Idle? {
      AheadAfterTake(st.inbox, s.inbox, ahead, k);
    }
    if a.Some? {
      ResponsesAfterSend(cfg, c, v, a.value.m);
      if v.queue.msgs != [] { ResponsesTail(v.queue.msgs); }
      if v.queue.linked { OtherServeSendsNoResponse(cfg, s, c); }
    }
  }

  lemma UntouchedStep(cfg: Config, st: System, c: string, ahead: nat, s: System, k: nat, l: Label)
    requires ahead < |st.inbox| && k <= ahead && Untouched(st, c, ahead, s, k) && NothingAhead(st, c, ahead)
    requires Inv(cfg, s) && PcOf(s, c).Awaiting?
    requires TakesOne(cfg, s, l) ==> k < ahead
    ensures Untouched(st, c, ahead, Step(cfg, s, l), if TakesOne(cfg, s, l) then k + 1 else k)
    ensures PcOf(Step(cfg, s, l), c).Awaiting? || l != Read(c)
  {
    hide ServeStep, Drop;
    if Enabled(cfg, s, l) {
      match l
      case Serve => UntouchedServe(cfg, st, c, ahead, s, k);
      case Read(d) => if d == c { ResponsesTail(QueueOf(s.server, c).msgs); }
      case Post(d, m) => assert (s.inbox + [m])[..ahead - k] == s.inbox[..ahead - k];
      case Inject(m) => assert (s.inbox + [m])[..ahead - k] == s.inbox[..ahead - k];
      case _ =>
    }
  }

  lemma {:induction false} NoEarlyReturn(cfg: Config, st: System, c: string, ahead: nat, ls: seq<Label>)
    requires ahead < |st.inbox| && Untouched(st, c, ahead, st, 0) && NothingAhead(st, c, ahead) && Inv(cfg, st)
    requires StillWaiting(cfg, st, ls, c) && Takes(cfg, st, ls) <= ahead
    ensures Inv(cfg, Run(cfg, st, ls)) && Untouched(st, c, ahead, Run(cfg, st, ls), Takes(cfg, st, ls))
  {
    if ls != [] {
      var past, l := ls[..|ls| - 1], ls[|ls| - 1];
      NoEarlyReturn(cfg, st, c, ahead, past);
      StepKeepsInv(cfg, Run(cfg, st, past), l);
      UntouchedStep(cfg, st, c, ahead, Run(cfg, st, past), Takes(cfg, st, past), l);
    }
  }

  // ---------- a call that can be misled ----------

  /** The client only reads and the server only works. */
  ghost predicate ReadsAndServes(ls: seq<Label>, c: string) {
    forall i :: 0 <= i < |ls| ==> ls[i] == Read(c) || ls[i] == Serve
  }

  lemma {:induction false} ReadsDoNotDisturb(cfg: Config, st: System, ls: seq<Label>, c: string)
    requires ReadsAndServes(ls, c)
    ensures UndisturbedFrom(cfg, st, ls, c)
  {
    if ls != [] { ReadsDoNotDisturb(cfg, st, ls[..|ls| - 1], c); }
  }

  /** Runs put together from the front. */
  lemma {:induction false} FrontStep(cfg: Config, st: System, l: Label, ls: seq<Label>, c: string)
    ensures var next := Step(cfg, st, l);
      && Run(cfg, st, [l] + ls) == Run(cfg, next, ls)
      && Takes(cfg, st, [l] + ls) == Takes(cfg, next, ls) + (if TakesOne(cfg, st, l) then 1 else 0)
      && (StillWaiting(cfg, st, [l] + ls, c) <==> PcOf(st, c).Awaiting? && StillWaiting(cfg, next, ls, c))
  {
    var all := [l] + ls;
    if ls == [] {
      assert all == [l] && all[..0] == [];
    } else {
      FrontStep(cfg, st, l, ls[..|ls| - 1], c);
      assert all[..|all| - 1] == [l] + ls[..|ls| - 1];
    }
  }

  lemma EarlyFromNext(cfg: Config, st: System, l: Label, ls: seq<Label>, c: string, ahead: nat)
    requires PcOf(st, c).Awaiting?
    requires ReturnsEarly(cfg, Step(cfg, st, l), ls, c, ahead)
    ensures ReturnsEarly(cfg, st, [l] + ls, c, ahead + if TakesOne(cfg, st, l) then 1 else 0)
  {
    hide Run, Step, Takes, StillWaiting, TakesOne;
    FrontStep(cfg, st, l, ls, c);
    FrontStep(cfg, st, l, ls[..|ls| - 1], c);
    assert ([l] + ls)[..|ls|] == [l] + ls[..|ls| - 1];
  }

  /** A waiting client that reads on comes to a response in its queue. */
  lemma {:induction false} ReadsItsResponse(cfg: Config, st: System, c: string) returns (ls: seq<Label>)
    requires PcOf(st, c).Awaiting? && Responses(QueueOf(st.server, c).msgs) != []
    ensures ReturnsEarly(cfg, st, ls, c, 0) && ReadsAndServes(ls, c)
    decreases |QueueOf(st.server, c).msgs|
  {
    var q := QueueOf(st.server, c).msgs;
    ResponsesTail(q);
    var next := Step(cfg, st, Read(c));
    if q[0].tag == Response {
      ls := [Read(c)];
      assert ls[..0] == [];
    } else {
      var rest := ReadsItsResponse(cfg, next, c);
      EarlyFromNext(cfg, st, Read(c), rest, c, 0);
      ls := [Read(c)] + rest;
    }
  }

  function LoopLeft(st: System): nat {
    if st.phase.Casting? then |st.phase.todo| + 1 else 0
  }

  /** A server step on a client with an empty, linked queue. */
  lemma {:induction false} ServeWithEmptyQueue(cfg: Config, st: System, c: string, i: nat)
    requires Inv(cfg, st) && PcOf(st, c).Awaiting? && QueueOf(st.server, c) == Queue([], true)
    requires i < |st.inbox| && st.inbox[i].source == c && Answerable(st.inbox[i])
    ensures var next := Step(cfg, st, Serve);
      && Inv(cfg, next) && PcOf(next, c) == PcOf(st, c) && QueueOf(next.server, c).linked
      && (TakesOne(cfg, st, Serve) <==> st.phase.Idle?)
      && (if st.phase.Casting? then next.inbox == st.inbox && LoopLeft(next) < LoopLeft(st)
          else next.inbox == st.inbox[1..] && (i == 0 ==> Responses(QueueOf(next.server, c).msgs) != []))
  {
    hide HandleDirect, Visit, Drop;
    StepKeepsInv(cfg, st, Serve);
    ServeProjects(cfg, st, c);
    if st.phase.Idle? && i == 0 {
      if Asking(st.inbox[0]) { AnswerIsTruthful(cfg, st.server.subs, st.inbox[0]); }
      var r := Reply(st.inbox[0], Answer(cfg, st.server.subs, st.inbox[0]).1.value);
      assert ActOf(cfg, st, Serve, c) == Some(Sent(r));
      ResponsesAfterSend(cfg, c, ViewOf(st.server, c), r);
    }
  }

  /** Reading whatever arrives and letting the server work until the older message is answered
      makes the call return with that answer. */
  lemma {:induction false} OlderAnswerArrives(cfg: Config, st: System, c: string, i: nat) returns (ls: seq<Label>)
    requires Inv(cfg, st) && PcOf(st, c).Awaiting? && QueueOf(st.server, c).linked
    requires i < |st.inbox| && st.inbox[i].source == c && Answerable(st.inbox[i])
    ensures ReturnsEarly(cfg, st, ls, c, i + 1) && ReadsAndServes(ls, c)
    decreases i, LoopLeft(st), |QueueOf(st.server, c).msgs|
  {
    hide ServeStep, Run, Drop, Takes;
    var q := QueueOf(st.server, c).msgs;
    if Responses(q) != [] {
      ls := ReadsItsResponse(cfg, st, c);
    } else if q != [] {
      ResponsesTail(q);
      StepKeepsInv(cfg, st, Read(c));
      var rest := OlderAnswerArrives(cfg, Step(cfg, st, Read(c)), c, i);
      EarlyFromNext(cfg, st, Read(c), rest, c, i + 1);
      ls := [Read(c)] + rest;
    } else {
      ServeWithEmptyQueue(cfg, st, c, i);
      var next := Step(cfg, st, Serve);
      var rest;
      if st.phase.Casting? {
        rest := OlderAnswerArrives(cfg, next, c, i);
        EarlyFromNext(cfg, st, Serve, rest, c, i + 1);
      } else if i == 0 {
        rest := ReadsItsResponse(cfg, next, c);
        EarlyFromNext(cfg, st, Serve, rest, c, 0);
      } else {
        rest := OlderAnswerArrives(cfg, next, c, i - 1);
        EarlyFromNext(cfg, st, Serve, rest, c, i);
      }
      ls := [Serve] + rest;
    }
  }

  // ---------- both directions ----------

  /** Exactly when a call can return too early. After any run at all, with any past kills and
      injections, a call can return in some continuation, undisturbed or not, before the server has
      taken its request, if and only if at the moment of asking a response waits in the client's
      queue, or an older message of its name is still to be answered and its queue can be opened. */
  lemma {:induction false} EarlyReturnIff(cfg: Config, past: seq<Label>, c: string, req: Msg)
    requires Asking(req) && Enabled(cfg, Run(cfg, INIT, past), Post(c, req))
    ensures var st := Run(cfg, INIT, past);
      (exists ls :: ReturnsEarly(cfg, Step(cfg, st, Post(c, req)), ls, c, |st.inbox|)) <==> Misleadable(st, c)
  {
    var st0 := Run(cfg, INIT, past);
    var st, ahead := Step(cfg, st0, Post(c, req)), |st0.inbox|;
    RunsKeepInv(cfg, past);
    StepKeepsInv(cfg, st0, Post(c, req));
    if Misleadable(st0, c) {
      var ls := ReturnsTooEarly(cfg, st0, c, req);
    } else {
      forall ls ensures !ReturnsEarly(cfg, st, ls, c, ahead) {
        ClearCallIsNotEarly(cfg, st, c, ahead, ls);
      }
    }
  }

  lemma {:induction false} ReturnsTooEarly(cfg: Config, st0: System, c: string, req: Msg) returns (ls: seq<Label>)
    requires Inv(cfg, st0) && Asking(req) && Enabled(cfg, st0, Post(c, req)) && Misleadable(st0, c)
    ensures ReturnsEarly(cfg, Step(cfg, st0, Post(c, req)), ls, c, |st0.inbox|) && ReadsAndServes(ls, c)
  {
    var st := Step(cfg, st0, Post(c, req));
    StepKeepsInv(cfg, st0, Post(c, req));
    hide Run, StillWaiting, Takes, Inv;
    if Responses(QueueOf(st.server, c).msgs) != [] {
      ls := ReadsItsResponse(cfg, st, c);
    } else {
      var i :| 0 <= i < |st0.inbox| && st0.inbox[i].source == c && Answerable(st0.inbox[i]);
      assert st.inbox[i] == st0.inbox[i];
      ls := OlderAnswerArrives(cfg, st, c, i);
    }
  }

  lemma ClearCallIsNotEarly(cfg: Config, st: System, c: string, ahead: nat, ls: seq<Label>)
    requires Inv(cfg, st) && ahead < |st.inbox|
    requires Responses(QueueOf(st.server, c).msgs) == [] && NothingAhead(st, c, ahead)
    ensures !ReturnsEarly(cfg, st, ls, c, ahead)
  {
    if ReturnsEarly(cfg, st, ls, c, ahead) {
      var rest := ls[..|ls| - 1];
      assert st.inbox[..ahead - 0] == st.inbox[0..ahead];
      NoEarlyReturn(cfg, st, c, ahead, rest);
      UntouchedStep(cfg, st, c, ahead, Run(cfg, st, rest), Takes(cfg, st, rest), ls[|ls| - 1]);
      assert false;
    }
  }

  /** A call that cannot be misled is told the truth: in every continuation undisturbed for `c` each
      return, of this call and of later ones, follows the truthful answer to that very request; and
      if the queue has no name, the call does not return at all. */
  lemma {:induction false} ClearCallIsTold(cfg: Config, past: seq<Label>, c: string, req: Msg, ls: seq<Label>)
    requires var st := Run(cfg, INIT, past);
      && Asking(req) && Enabled(cfg, st, Post(c, req)) && !Misleadable(st, c)
      && UndisturbedFrom(cfg, Step(cfg, st, Post(c, req)), ls, c)
    ensures var st := Run(cfg, INIT, past);
      var events := EventsFrom(cfg, Step(cfg, st, Post(c, req)), ls, c);
      if QueueOf(st.server, c).linked then WellFormed([Asked(req)] + events)
      else Kill(c) !in ls ==> forall e :: e in events ==> !e.Returned?
  {
    var st0 := Run(cfg, INIT, past);
    var st := Step(cfg, st0, Post(c, req));
    RunsKeepInv(cfg, past);
    StepKeepsInv(cfg, st0, Post(c, req));
    if QueueOf(st0.server, c).linked {
      NoRequests(st0.inbox, c);
      RequestsSnoc(st0.inbox, req, c);
      var none: seq<Event> := [];
      WellFormedSnoc(none, Asked(req));
      assert none + [Asked(req)] == [Asked(req)];
      HandshakeGoesOn(cfg, st, ls, c, [Asked(req)]);
    } else if Kill(c) !in ls {
      CutOffCallHangs(cfg, st, ls, c);
    }
  }

  lemma {:induction false} NoRequests(inbox: seq<Msg>, c: string)
    requires forall m :: m in inbox ==> !(m.source == c && Answerable(m))
    ensures Requests(inbox, c) == []
  {
    if inbox != [] {
      assert inbox[|inbox| - 1] in inbox;
      NoRequests(inbox[..|inbox| - 1], c);
    }
  }

  // ---------- exactly which calls can be misled ----------

  /** The events of a call that is given the answer to its request, and this answer is the truth. */
  ghost predicate ToldItsAnswer(req: Msg, events: seq<Event>) {
    && |events| == 2 && events[0].Answered? && events[0].req == req
    && Truthful(req, events[0].ok, events[0].before, events[0].after)
    && events[1] == Returned(req, events[0].ok)
  }

  /** In a continuation undisturbed for `c` its call returns at the last step, before the server has
      taken its request, number `ahead` in the queue, or not with the answer to it. */
  ghost predicate ReturnsMisled(cfg: Config, st: System, ls: seq<Label>, c: string, req: Msg, ahead: nat) {
    && UndisturbedFrom(cfg, st, ls, c) && Returns(cfg, st, ls, c)
    && (Takes(cfg, st, ls) <= ahead || !ToldItsAnswer(req, EventsFrom(cfg, st, ls, c)))
  }

  lemma ReturnEndsCall(cfg: Config, s: System, l: Label, c: string)
    requires PcOf(s, c).Awaiting?
    ensures var e, stays := EventOf(cfg, s, l, c), PcOf(Step(cfg, s, l), c).Awaiting?;
      && (stays ==> e.None? || !e.value.Returned?)
      && (!stays && l == Read(c) ==> e.Some? && e.value.Returned?)
  {
    hide ServeStep, Answer;
  }

  lemma {:induction false} NoReturnWhileWaiting(cfg: Config, st: System, ls: seq<Label>, c: string)
    requires StillWaiting(cfg, st, ls, c)
    ensures forall e :: e in EventsFrom(cfg, st, ls, c) ==> !e.Returned?
  {
    if ls != [] {
      var past := ls[..|ls| - 1];
      NoReturnWhileWaiting(cfg, st, past, c);
      hide Step, EventOf;
      assert PcOf(Run(cfg, st, past), c).Awaiting?;
      ReturnEndsCall(cfg, Run(cfg, st, past), ls[|ls| - 1], c);
    }
  }

  /** Its return is the last event of the call, and the only return. */
  lemma {:induction false} ReturnIsLast(cfg: Config, st: System, ls: seq<Label>, c: string)
    requires Returns(cfg, st, ls, c)
    ensures var events := EventsFrom(cfg, st, ls, c);
      && events != [] && events[|events| - 1].Returned?
      && forall i :: 0 <= i < |events| - 1 ==> !events[i].Returned?
  {
    var past := ls[..|ls| - 1];
    NoReturnWhileWaiting(cfg, st, past, c);
    hide Step, EventOf;
    assert PcOf(Run(cfg, st, past), c).Awaiting?;
    ReturnEndsCall(cfg, Run(cfg, st, past), ls[|ls| - 1], c);
  }

  lemma OneExchange(req: Msg, events: seq<Event>)
    requires WellFormed([Asked(req)] + events) && events != [] && events[|events| - 1].Returned?
    requires forall i :: 0 <= i < |events| - 1 ==> !events[i].Returned?
    ensures ToldItsAnswer(req, events)
  {
    var h := [Asked(req)] + events;
    assert FollowsFrom(h[1], Last(h[..1]));
    assert events[0].Answered?;
    assert FollowsFrom(h[2], Last(h[..2]));
  }

  /** Exactly which calls can be given the answer to something else. After any run at all, a call can
      return in some undisturbed continuation otherwise than with the truthful answer to its own
      request, if and only if at the moment of asking a response waits in the client's queue, or an
      older message of its name is still to be answered and its queue can be opened. */
  lemma {:induction false} MisledIff(cfg: Config, past: seq<Label>, c: string, req: Msg)
    requires Asking(req) && Enabled(cfg, Run(cfg, INIT, past), Post(c, req))
    ensures var st := Run(cfg, INIT, past);
      (exists ls :: ReturnsMisled(cfg, Step(cfg, st, Post(c, req)), ls, c, req, |st.inbox|)) <==> Misleadable(st, c)
  {
    var st0 := Run(cfg, INIT, past);
    var st, ahead := Step(cfg, st0, Post(c, req)), |st0.inbox|;
    RunsKeepInv(cfg, past);
    hide Run, Step, StillWaiting, Takes, Inv, Misleadable, UndisturbedFrom, EventsFrom;
    if Misleadable(st0, c) {
      var ls := ReturnsTooEarly(cfg, st0, c, req);
      ReadsDoNotDisturb(cfg, st, ls, c);
      assert ReturnsMisled(cfg, st, ls, c, req, ahead);
    } else {
      forall ls ensures !ReturnsMisled(cfg, st, ls, c, req, ahead) {
        if UndisturbedFrom(cfg, st, ls, c) && Returns(cfg, st, ls, c) {
          ClearCallIsAnswered(cfg, past, c, req, ls);
        }
      }
    }
  }

  lemma {:induction false} ClearCallIsAnswered(cfg: Config, past: seq<Label>, c: string, req: Msg, ls: seq<Label>)
    requires var st := Run(cfg, INIT, past);
      && Asking(req) && Enabled(cfg, st, Post(c, req)) && !Misleadable(st, c)
      && UndisturbedFrom(cfg, Step(cfg, st, Post(c, req)), ls, c) && Returns(cfg, Step(cfg, st, Post(c, req)), ls, c)
    ensures var st := Run(cfg, INIT, past);
      && Takes(cfg, Step(cfg, st, Post(c, req)), ls) > |st.inbox|
      && ToldItsAnswer(req, EventsFrom(cfg, Step(cfg, st, Post(c, req)), ls, c))
  {
    var st0 := Run(cfg, INIT, past);
    var st := Step(cfg, st0, Post(c, req));
    RunsKeepInv(cfg, past);
    StepKeepsInv(cfg, st0, Post(c, req));
    hide Run, StillWaiting, Takes, Inv, UndisturbedFrom, EventsFrom;
    ClearCallIsNotEarly(cfg, st, c, |st0.inbox|, ls);
    if QueueOf(st0.server, c).linked {
      ClearCallIsTold(cfg, past, c, req, ls);
      ReturnIsLast(cfg, st, ls, c);
      OneExchange(req, EventsFrom(cfg, st, ls, c));
    } else {
      CutOffGoesOn(cfg, st, ls, c);
    }
  }

  /** Starting a client drops the responses left in its queue, but not the answers still to come: it can
      be misled afterwards exactly if a message of its name is still to be answered. */
  lemma RestartedIsMisleadable(cfg: Config, st: System, c: string)
    requires Enabled(cfg, st, Start(c))
    ensures var st' := Step(cfg, st, Start(c));
      && PcOf(st', c) == Free
      && (Misleadable(st', c) <==> exists m :: m in st.inbox && m.source == c && Answerable(m))
  {
    hide ServeStep;
  }

  // ---------- whether a call can still return ----------

  lemma {:induction false} StrandedGoesOn(cfg: Config, st: System, ls: seq<Label>, c: string, h: seq<Event>)
    requires Inv(cfg, st) && HandshakeInv(st, c, h) && Stranded(st, c) && UndisturbedFrom(cfg, st, ls, c)
    ensures Stranded(Run(cfg, st, ls), c)
  {
    if ls != [] {
      var past := ls[..|ls| - 1];
      StrandedGoesOn(cfg, st, past, c, h);
      HandshakeGoesOn(cfg, st, past, c, h);
      StrandedStays(cfg, Run(cfg, st, past), ls[|ls| - 1], c);
    }
  }

  lemma {:induction false} CutOffGoesOn(cfg: Config, st: System, ls: seq<Label>, c: string)
    requires Inv(cfg, st) && CutOff(st, c) && UndisturbedFrom(cfg, st, ls, c)
    ensures Inv(cfg, Run(cfg, st, ls)) && CutOff(Run(cfg, st, ls), c)
  {
    if ls != [] {
      var past := ls[..|ls| - 1];
      CutOffGoesOn(cfg, st, past, c);
      StepKeepsInv(cfg, Run(cfg, st, past), ls[|ls| - 1]);
      CutOffStays(cfg, Run(cfg, st, past), ls[|ls| - 1], c);
    }
  }

  /** At any point of a run undisturbed for `c` at which it waits, its call returns in some undisturbed
      continuation if and only if a response is in its queue, or its request is still to be answered
      and the queue can be opened. */
  lemma CanStillReturn(cfg: Config, past: seq<Label>, c: string)
    requires LibraryRun(cfg, past, c) && PcOf(Run(cfg, INIT, past), c).Awaiting?
    ensures var st := Run(cfg, INIT, past);
      (exists ls :: UndisturbedFrom(cfg, st, ls, c) && Returns(cfg, st, ls, c)) <==>
        || Responses(QueueOf(st.server, c).msgs) != []
        || (QueueOf(st.server, c).linked && Requests(st.inbox, c) != [])
  {
    var st := Run(cfg, INIT, past);
    RunsKeepInv(cfg, past);
    HandshakeIsSafe(cfg, past, c);
    if Responses(QueueOf(st.server, c).msgs) != [] {
      var ls := ReadsItsResponse(cfg, st, c);
      ReadsDoNotDisturb(cfg, st, ls, c);
      assert Returns(cfg, st, ls, c);
    } else if QueueOf(st.server, c).linked && Requests(st.inbox, c) != [] {
      var i := RequestIsSomewhere(st.inbox, c);
      var ls := OlderAnswerArrives(cfg, st, c, i);
      ReadsDoNotDisturb(cfg, st, ls, c);
      assert Returns(cfg, st, ls, c);
    } else {
      forall ls | UndisturbedFrom(cfg, st, ls, c) ensures !Returns(cfg, st, ls, c) {
        if Requests(st.inbox, c) == [] {
          StrandedGoesOn(cfg, st, ls, c, History(cfg, past, c));
        } else {
          CutOffGoesOn(cfg, st, ls, c);
        }
      }
    }
  }

  lemma {:induction false} RequestIsSomewhere(inbox: seq<Msg>, c: string) returns (i: nat)
    requires Requests(inbox, c) != []
    ensures i < |inbox| && inbox[i].source == c && Asking(inbox[i])
  {
    var n := |inbox| - 1;
    if Asking(inbox[n]) && inbox[n].source == c {
      i := n;
    } else {
      i := RequestIsSomewhere(inbox[..n], c);
    }
  }
}
