/** Crash detection, purging and message conservation over whole runs of the system. */
module Runs {
  import opened Messages
  import opened Lists
  import opened Subscriptions
  import opened Monitor
  import opened Broker
  import opened ClientView
  import opened CrashDetection
  import opened Network

  /** The next server step is a send of `m` to `c` that declares `c` crashed. */
  ghost predicate DeclaresCrash(cfg: Config, st: System, c: string, m: Msg) {
    Target(cfg, st) == Some((c, m)) && DeliverTo(cfg, st.server, m, c).crashed
  }

  lemma CrashIsAHit(cfg: Config, st: System, c: string, m: Msg)
    ensures DeliverTo(cfg, st.server, m, c).crashed == Hit(cfg, ViewOf(st.server, c), m, c).crashed
  {
  }

  /** The declaring step is that send, made on the list as it is: responses declare nobody crashed. */
  lemma DeclaringStepIsTheSend(cfg: Config, st: System, c: string, m: Msg)
    requires DeclaresCrash(cfg, st, c, m)
    ensures Step(cfg, st, Serve).server == Send(cfg, st.server, m, c)
  {
    hide Send;
    assert m.tag != Response;
  }

  /** After the declaring step the client has no subscription, no entry and no queue name, and
      everybody else's subscriptions are as they were. */
  lemma DeclaredCrashPurges(cfg: Config, st: System, c: string, m: Msg)
    requires Inv(cfg, st) && DeclaresCrash(cfg, st, c, m)
    ensures var s, s' := st.server, Step(cfg, st, Serve).server;
      && (forall e :: e in s'.subs <==> e in s.subs && e.client != c)
      && s'.subs == Drop(s.subs, OfClient(c))
      && Find(s'.mon, c) == None && !QueueOf(s', c).linked
  {
    hide Step, Send, DeliverTo, Target, Drop, Find;
    DeclaringStepIsTheSend(cfg, st, c, m);
    CrashPurges(cfg, st.server, m, c);
    PurgeRemoves(st.server.subs, c);
  }

  /** Soundness over every interleaving: a client that a send declares crashed has read nothing since its
      monitor entry was made, and at least `maxMsg` further sends found its queue full. */
  lemma {:induction false} DeclaredCrashIsSound(cfg: Config, ls: seq<Label>, c: string, m: Msg) returns (p: nat)
    requires DeliverTo(cfg, Run(cfg, INIT, ls).server, m, c).crashed
    ensures var log := Log(cfg, ls, c);
      && p < |log| && After(cfg, c, log[..p]).entry == None
      && Overflowing(cfg, c, log, p, |log|) && Full(cfg, After(cfg, c, log))
      && |log| - p >= cfg.maxMsg && m.tag != Response
      && SeemsRecorded(log[p].m, QueueOf(Run(cfg, INIT, ls).server, c).msgs[0], m)
  {
    var st := Run(cfg, INIT, ls);
    RunProjects(cfg, ls, c);
    CrashIsAHit(cfg, st, c, m);
    p := CrashIsSound(cfg, c, Log(cfg, ls, c), m);
  }

  /** In every run a monitor entry records a send that found the queue full, `sendCount` more in
      immediate succession, and sits `sendCount` places from the end of the queue, or is out of it. */
  lemma {:induction false} EntriesHaveOrigins(cfg: Config, ls: seq<Label>, c: string) returns (p: nat)
    requires Find(Run(cfg, INIT, ls).server.mon, c).Some?
    ensures Origin(cfg, c, Log(cfg, ls, c), Find(Run(cfg, INIT, ls).server.mon, c).value, p)
  {
    RunProjects(cfg, ls, c);
    p := EntryHasOrigin(cfg, c, Log(cfg, ls, c));
  }

  ghost predicate UnsubscribedBy(st: System, e: Sub) {
    && st.phase.Idle? && st.inbox != []
    && st.inbox[0].tag == Unsubscribe && st.inbox[0].source == e.client
    && (st.inbox[0].topic == e.topic || st.inbox[0].topic == ALL)
  }

  lemma AnswerRemovesOnlyRequested(cfg: Config, subs: seq<Sub>, m: Msg, e: Sub)
    requires NoDuplicates(subs) && e in subs && e !in Answer(cfg, subs, m).0
    ensures m.tag == Unsubscribe && m.source == e.client && (m.topic == e.topic || m.topic == ALL)
  {
    if m.tag == Subscribe {
      SubscribeTruth(cfg, subs, m);
    } else if m.tag == Unsubscribe && m.topic == ALL {
      UnsubscribeAllTruth(cfg, subs, m);
    } else if m.tag == Unsubscribe {
      UnsubscribeTopicTruth(cfg, subs, m);
    }
  }

  /** A subscription leaves the list only by a request of its own client or by a crash purge. */
  lemma WhySubscriptionsEnd(cfg: Config, st: System, l: Label, e: Sub)
    requires Inv(cfg, st)
    requires e in st.server.subs && e !in Step(cfg, st, l).server.subs
    ensures l == Serve
    ensures UnsubscribedBy(st, e) || exists m :: DeclaresCrash(cfg, st, e.client, m)
  {
    hide Drop, Find;
    ServeIsOneSend(cfg, st);
    var t := Target(cfg, st);
    var subs := if st.phase.Idle? then Answer(cfg, st.server.subs, st.inbox[0]).0 else st.server.subs;
    if e !in subs {
      AnswerRemovesOnlyRequested(cfg, st.server.subs, st.inbox[0], e);
    } else {
      assert t.Some?;
      var (c, m) := t.value;
      assert DeliverTo(cfg, st.server.(subs := subs), m, c) == DeliverTo(cfg, st.server, m, c);
      DropMembers(subs, OfClient(c));
      assert DeclaresCrash(cfg, st, e.client, m);
    }
  }

  /** Over whole runs: a client that keeps its subscription loses it only when its queue was found
      full at least `maxMsg` + 1 times in a row without a single read in between. */
  lemma {:induction false} SubscriptionsAreKept(cfg: Config, ls: seq<Label>, l: Label, e: Sub) returns (p: nat)
    requires var st := Run(cfg, INIT, ls);
      e in st.server.subs && e !in Step(cfg, st, l).server.subs && !UnsubscribedBy(st, e)
    ensures var log := Log(cfg, ls, e.client);
      p < |log| && Overflowing(cfg, e.client, log, p, |log|)
      && Full(cfg, After(cfg, e.client, log)) && |log| - p >= cfg.maxMsg
  {
    var st := Run(cfg, INIT, ls);
    RunsKeepInv(cfg, ls);
    WhySubscriptionsEnd(cfg, st, l, e);
    var m :| DeclaresCrash(cfg, st, e.client, m);
    p := DeclaredCrashIsSound(cfg, ls, e.client, m);
  }

  function Sends(ms: seq<Msg>): (r: seq<Act>)
    ensures |r| == |ms|
  {
    if ms == [] then [] else Sends(ms[..|ms| - 1]) + [Sent(ms[|ms| - 1])]
  }

  lemma {:induction false} BurstIsLog(cfg: Config, c: string, log: seq<Act>, ms: seq<Msg>)
    ensures After(cfg, c, log + Sends(ms)) == Burst(cfg, c, After(cfg, c, log), ms)
  {
    if ms == [] {
      assert log + [] == log;
    } else {
      var n := |ms| - 1;
      BurstIsLog(cfg, c, log, ms[..n]);
      assert log + Sends(ms) == (log + Sends(ms[..n])) + [Sent(ms[n])];
      AfterSnoc(cfg, c, log + Sends(ms[..n]), Sent(ms[n]));
    }
  }

  lemma {:induction false} ViewAfterBurst(cfg: Config, past: seq<Label>, ls: seq<Label>, c: string, ms: seq<Msg>)
    requires Log(cfg, ls, c) == Log(cfg, past, c) + Sends(ms)
    ensures ViewOf(Run(cfg, INIT, ls).server, c) == Burst(cfg, c, ViewOf(Run(cfg, INIT, past).server, c), ms)
  {
    RunProjects(cfg, past, c);
    RunProjects(cfg, ls, c);
    BurstIsLog(cfg, c, Log(cfg, past, c), ms);
  }

  lemma NextRequest(cfg: Config, c: string, v: View, ms: seq<Msg>, m: Msg)
    requires cfg.cap == cfg.maxMsg
    requires FullAndUnmonitored(cfg, v) && AllRequests(ms) && IsRequest(m) && |ms| <= cfg.cap
    ensures Hit(cfg, Burst(cfg, c, v, ms), m, c).crashed <==> |ms| == cfg.cap
  {
    var all := ms + [m];
    assert all[..|ms|] == ms;
    CrashIsExact(cfg, c, v, all, |ms|);
  }

  /** Completeness over every interleaving: once the client's queue is full and unmonitored, if all
      that happens to it from then on are the requests `ms`, the next request declares it crashed
      exactly when `ms` has `cap` elements, whatever other clients do meanwhile; see
      `DeclaredCrashPurges` for what that send then removes. */
  lemma {:induction false} SilentClientIsDeclared(cfg: Config, past: seq<Label>, ls: seq<Label>, c: string,
                                                  ms: seq<Msg>, m: Msg)
    requires cfg.cap == cfg.maxMsg
    requires FullAndUnmonitored(cfg, ViewOf(Run(cfg, INIT, past).server, c))
    requires Log(cfg, ls, c) == Log(cfg, past, c) + Sends(ms)
    requires AllRequests(ms) && IsRequest(m) && |ms| <= cfg.cap
    ensures DeliverTo(cfg, Run(cfg, INIT, ls).server, m, c).crashed <==> |ms| == cfg.cap
  {
    ViewAfterBurst(cfg, past, ls, c, ms);
    NextRequest(cfg, c, ViewOf(Run(cfg, INIT, past).server, c), ms, m);
    CrashIsAHit(cfg, Run(cfg, INIT, ls), c, m);
  }

  /** A response goes to the client that sent the message just taken, from its name and on its topic. */
  lemma TargetOfResponse(cfg: Config, st: System)
    requires Inv(cfg, st) && Target(cfg, st).Some? && Target(cfg, st).value.1.tag == Response
    ensures var (d, r) := Target(cfg, st).value;
      && st.phase.Idle? && st.inbox != []
      && r.source == d == st.inbox[0].source && r.topic == st.inbox[0].topic
  {
    hide Topics;
  }

  /** In every run all the responses sent to a client bear its name. */
  lemma {:induction false} ResponsesNameTheirClient(cfg: Config, ls: seq<Label>, c: string, i: nat)
    requires var log := Log(cfg, ls, c); i < |log| && log[i].Sent? && log[i].m.tag == Response
    ensures Log(cfg, ls, c)[i].m.source == c
  {
    var past, l := ls[..|ls| - 1], ls[|ls| - 1];
    var st := Run(cfg, INIT, past);
    RunsKeepInv(cfg, past);
    hide Run, Inv, Target;
    if i < |Log(cfg, past, c)| {
      ResponsesNameTheirClient(cfg, past, c, i);
    } else {
      TargetOfResponse(cfg, st);
    }
  }

  lemma {:induction false} SendsAt(ms: seq<Msg>, i: nat)
    requires i < |ms|
    ensures Sends(ms)[i] == Sent(ms[i])
  {
    if i < |ms| - 1 { SendsAt(ms[..|ms| - 1], i); }
  }

  lemma {:induction false} BurstNamesItsClient(cfg: Config, past: seq<Label>, ls: seq<Label>, c: string,
                                               ms: seq<Msg>, i: nat)
    requires Log(cfg, ls, c) == Log(cfg, past, c) + Sends(ms) && i < |ms| && ms[i].tag == Response
    ensures ms[i].source == c
  {
    hide Log, Sends;
    SendsAt(ms, i);
    assert Log(cfg, ls, c)[|Log(cfg, past, c)| + i] == Sent(ms[i]);
    ResponsesNameTheirClient(cfg, ls, c, |Log(cfg, past, c)| + i);
  }

  /** In every run a full, unmonitored client to which nothing happens but responses, on topics that are
      not its name, is not given up by the next response either, if `max_msg` is at least the queue
      capacity. */
  lemma {:induction false} SilentOnResponses(cfg: Config, past: seq<Label>, ls: seq<Label>, c: string,
                                             ms: seq<Msg>, m: Msg)
    requires cfg.cap <= cfg.maxMsg
    requires FullAndUnmonitored(cfg, ViewOf(Run(cfg, INIT, past).server, c))
    requires Log(cfg, ls, c) == Log(cfg, past, c) + Sends(ms)
    requires Target(cfg, Run(cfg, INIT, ls)) == Some((c, m))
    requires m.tag == Response && m.topic != c
    requires forall i :: 0 <= i < |ms| ==> ms[i].tag == Response && ms[i].topic != c
    ensures DeliverTo(cfg, Run(cfg, INIT, ls).server, m, c).ok
  {
    var st, v := Run(cfg, INIT, ls), ViewOf(Run(cfg, INIT, past).server, c);
    RunsKeepInv(cfg, ls);
    TargetOfResponse(cfg, st);
    ViewAfterBurst(cfg, past, ls, c, ms);
    forall i | 0 <= i < |ms| ensures ms[i].source == c {
      BurstNamesItsClient(cfg, past, ls, c, ms, i);
    }
    hide Run, Log, Burst, Inv, Target, Deliver, FullAndUnmonitored, Sends;
    ResponsesNeverDetect(cfg, c, v, ms + [m], |ms|);
    assert (ms + [m])[..|ms|] == ms;
    DeliverIgnoresOldest(cfg, st.server.oldest, m, QueueOf(st.server, c), Find(st.server.mon, c), m, c);
  }

  // ---------- clients that close or die ----------

  ghost predicate Closed(st: System, c: string) {
    !Alive(st, c) && !QueueOf(st.server, c).linked
  }

  lemma ClosedStep(cfg: Config, st: System, l: Label, c: string)
    requires Inv(cfg, st) && Closed(st, c) && l != Start(c)
    ensures Closed(Step(cfg, st, l), c) && QueueOf(Step(cfg, st, l).server, c) == QueueOf(st.server, c)
  {
    hide Target, HandleDirect, Visit;
    StepProjects(cfg, st, l, c);
  }

  /** Nothing reaches a client that has closed, until it is started again. */
  lemma {:induction false} NothingReachesTheClosed(cfg: Config, st: System, ls: seq<Label>, c: string)
    requires Inv(cfg, st) && Enabled(cfg, st, Quit(c)) && Start(c) !in ls
    ensures var closed := Step(cfg, st, Quit(c));
      && Inv(cfg, Run(cfg, closed, ls)) && Closed(Run(cfg, closed, ls), c)
      && QueueOf(Run(cfg, closed, ls).server, c).msgs == QueueOf(st.server, c).msgs
  {
    if ls == [] {
      StepKeepsInv(cfg, st, Quit(c));
    } else {
      var past, s := ls[..|ls| - 1], Run(cfg, Step(cfg, st, Quit(c)), ls[..|ls| - 1]);
      NothingReachesTheClosed(cfg, st, past, c);
      hide Step, Closed, Inv;
      StepKeepsInv(cfg, s, ls[|ls| - 1]);
      ClosedStep(cfg, s, ls[|ls| - 1], c);
    }
  }

  /** The same system, except that the client's process may be dead. */
  ghost predicate SameButFor(st: System, dead: System, c: string) {
    dead == st.(pcs := st.pcs - {c})
  }

  /** A label that is not an act of this client. */
  predicate ByOthers(l: Label, c: string) {
    match l
    case Start(d) => d != c
    case Quit(d) => d != c
    case Kill(d) => d != c
    case Read(d) => d != c
    case Post(d, _) => d != c
    case Inject(_) => true
    case Serve => true
  }

  lemma OthersSeeNoDifference(cfg: Config, st: System, dead: System, l: Label, c: string)
    requires SameButFor(st, dead, c) && ByOthers(l, c)
    ensures SameButFor(Step(cfg, st, l), Step(cfg, dead, l), c)
  {
    hide Target, HandleDirect, Visit;
    assert Enabled(cfg, st, l) <==> Enabled(cfg, dead, l);
  }

  /** A killed client looks to everybody else like one that does nothing: its queue keeps its name and
      fills up, so that it is declared crashed when a silent one would be. */
  lemma {:induction false} KillIsUnnoticed(cfg: Config, st: System, ls: seq<Label>, c: string)
    requires Alive(st, c) && forall i :: 0 <= i < |ls| ==> ByOthers(ls[i], c)
    ensures SameButFor(Run(cfg, st, ls), Run(cfg, Step(cfg, st, Kill(c)), ls), c)
  {
    if ls != [] {
      var past := ls[..|ls| - 1];
      KillIsUnnoticed(cfg, st, past, c);
      hide Step, SameButFor;
      OthersSeeNoDifference(cfg, Run(cfg, st, past), Run(cfg, Step(cfg, st, Kill(c)), past), ls[|ls| - 1], c);
    }
  }

  /** Conservation over every run: what the server put into a client's present queue is, in order,
      what was read or overwritten followed by what is in the queue; the queue is never too long. */
  lemma {:induction false} RunConservesMessages(cfg: Config, ls: seq<Label>, c: string)
    ensures var log, q := Log(cfg, ls, c), QueueOf(Run(cfg, INIT, ls).server, c).msgs;
      Accepted(cfg, c, log) == Texts(Removed(cfg, c, log)) + q && |q| <= cfg.cap
  {
    RunProjects(cfg, ls, c);
    MessagesAreConserved(cfg, c, Log(cfg, ls, c));
    QueueIsBounded(cfg, c, Log(cfg, ls, c));
  }
}
