/** Exactly when a broadcast reaches each addressee once, judged from the state it starts in. */
module Reach {
  import opened Messages
  import opened Lists
  import opened Subscriptions
  import opened Monitor
  import opened Broker
  import opened ClientView
  import opened Network
  import opened Broadcast
  import opened CalmBroadcast

  /** The broadcast played on the list alone: whom it would send to, in order, if exactly the clients
      in `gone` were purged when they are sent to. */
  function Walk(subs: seq<Sub>, todo: seq<nat>, source: string, gone: set<string>): seq<string>
    decreases |todo|
  {
    if todo == [] then []
    else
      var v, rest := EntryAt(subs, todo[|todo| - 1]), todo[..|todo| - 1];
      if v.None? || v.value.client == source then Walk(subs, rest, source, gone)
      else
        var d := v.value.client;
        [d] + Walk(if d in gone then Drop(subs, OfClient(d)) else subs, rest, source, gone)
  }

  /** A subscriber of the topic, or for "ALL" a client with any subscription, but not the source. */
  ghost predicate Addressee(subs: seq<Sub>, m: Msg, c: string) {
    c != m.source && if m.topic == ALL then exists e :: e in subs && e.client == c else Sub(c, m.topic) in subs
  }

  /** Every addressee once, and nobody else. */
  ghost predicate EachOnce(subs: seq<Sub>, m: Msg, got: seq<string>) {
    NoDuplicates(got) && forall c :: c in got <==> Addressee(subs, m, c)
  }

  /** The coming step sends to a client that then is purged. */
  ghost predicate Purges(cfg: Config, s: System) {
    var t := Target(cfg, s);
    t.Some? && DeliverTo(cfg, s.server, t.value.1, t.value.0).crashed
  }

  /** At the first send of the run to a client, it is purged exactly if it is in `gone`. */
  ghost predicate Follows(cfg: Config, st: System, ls: seq<Label>, gone: set<string>) {
    ls == [] ||
    var past := ls[..|ls| - 1];
    var s := Run(cfg, st, past);
    var t := Target(cfg, s);
    && Follows(cfg, st, past, gone)
    && (ls[|ls| - 1] == Serve && t.Some? && t.value.0 !in Recipients(cfg, st, past) ==>
          (Purges(cfg, s) <==> t.value.0 in gone))
  }

  lemma LastStep(cfg: Config, st: System, ls: seq<Label>, gone: set<string>)
    requires ls != []
    ensures var past, l := ls[..|ls| - 1], ls[|ls| - 1];
      var s := Run(cfg, st, past);
      var t := Target(cfg, s);
      && Run(cfg, st, ls) == Step(cfg, s, l)
      && Serves(ls) == Serves(past) + (if l == Serve then 1 else 0)
      && Recipients(cfg, st, ls) == Recipients(cfg, st, past) + (if l == Serve && t.Some? then [t.value.0] else [])
      && (Follows(cfg, st, ls, gone) <==>
            && Follows(cfg, st, past, gone)
            && (l == Serve && t.Some? && t.value.0 !in Recipients(cfg, st, past) ==>
                  (Purges(cfg, s) <==> t.value.0 in gone)))
  {
  }

  lemma NoStep(cfg: Config, st: System, ls: seq<Label>, gone: set<string>)
    requires ls == []
    ensures Run(cfg, st, ls) == st && Serves(ls) == 0 && Recipients(cfg, st, ls) == [] && Follows(cfg, st, ls, gone)
  {
  }

  // ---------- a run and the walk it follows ----------

  /** The walk is what the run has sent so far and the walk from here on; or both repeat a client. */
  ghost predicate InStep(walk: seq<string>, got: seq<string>, rest: seq<string>) {
    if NoDuplicates(got) then walk == got + rest else !NoDuplicates(walk)
  }

  /** One iteration of the loop is one step of the walk, if its client is purged as `gone` says. */
  lemma WalkStep(cfg: Config, s: System, gone: set<string>)
    requires s.phase.Casting? && s.phase.todo != []
    ensures var subs, todo, source := s.server.subs, s.phase.todo, s.phase.m.source;
      var s', t := Step(cfg, s, Serve), Target(cfg, s);
      var rest := Walk(s'.server.subs, todo[..|todo| - 1], source, gone);
      && (t.None? ==> Walk(subs, todo, source, gone) == rest)
      && (t.Some? ==> Walk(subs, todo, source, gone) != [] && Walk(subs, todo, source, gone)[0] == t.value.0)
      && (t.Some? && (Purges(cfg, s) <==> t.value.0 in gone) ==>
            Walk(subs, todo, source, gone) == [t.value.0] + rest)
  {
    hide Step, DeliverTo, Drop, Target;
    TargetIsVisited(cfg, s);
    IterationShrinks(cfg, s);
  }

  lemma OneMoreSent(walk: seq<string>, got: seq<string>, rest: seq<string>, d: string, rest': seq<string>)
    requires InStep(walk, got, rest) && rest != [] && rest[0] == d
    requires d !in got ==> rest == [d] + rest'
    ensures InStep(walk, got + [d], rest')
  {
    if NoDuplicates(got) {
      if d in got {
        var i :| 0 <= i < |got| && got[i] == d;
        assert (got + [d])[i] == (got + [d])[|got|] && walk[i] == walk[|got|];
      } else {
        assert walk == (got + [d]) + rest';
      }
    } else {
      var i, j :| 0 <= i < j < |got| && got[i] == got[j];
      assert (got + [d])[i] == (got + [d])[j];
    }
  }

  lemma {:induction false} RunFollowsWalk(cfg: Config, st: System, m: Msg, todo: seq<nat>, ls: seq<Label>,
                                          gone: set<string>)
    requires st.phase == Casting(m, todo) && Serves(ls) <= |todo| && Follows(cfg, st, ls, gone)
    ensures InStep(Walk(st.server.subs, todo, m.source, gone), Recipients(cfg, st, ls),
                   Walk(Run(cfg, st, ls).server.subs, todo[..|todo| - Serves(ls)], m.source, gone))
  {
    hide *;
    if ls == [] {
      NoStep(cfg, st, ls, gone);
      NothingSent(Walk(st.server.subs, todo, m.source, gone));
      assert todo[..|todo|] == todo;
    } else {
      var past, l := ls[..|ls| - 1], ls[|ls| - 1];
      LastStep(cfg, st, ls, gone);
      RunFollowsWalk(cfg, st, m, todo, past, gone);
      LoopPhase(cfg, st, m, todo, past);
      var s, got := Run(cfg, st, past), Recipients(cfg, st, past);
      if l == Serve {
        var left := todo[..|todo| - Serves(past)];
        assert left[..|left| - 1] == todo[..|todo| - Serves(ls)];
        WalkStep(cfg, s, gone);
        var t := Target(cfg, s);
        if t.Some? {
          OneMoreSent(Walk(st.server.subs, todo, m.source, gone), got, Walk(s.server.subs, left, m.source, gone),
                      t.value.0, Walk(Run(cfg, st, ls).server.subs, left[..|left| - 1], m.source, gone));
        }
      } else {
        OthersKeepTheLoop(cfg, s, l);
      }
      assert got + [] == got;
    }
  }

  lemma NothingSent(walk: seq<string>)
    ensures InStep(walk, [], walk)
  {
  }

  /** A finished run reaches each addressee once exactly if the walk it follows does. */
  lemma {:induction false} EachOnceAsWalked(cfg: Config, st: System, m: Msg, todo: seq<nat>, ls: seq<Label>,
                                            gone: set<string>)
    requires st.phase == Casting(m, todo) && Serves(ls) == |todo| && Follows(cfg, st, ls, gone)
    ensures EachOnce(st.server.subs, m, Recipients(cfg, st, ls)) <==>
            EachOnce(st.server.subs, m, Walk(st.server.subs, todo, m.source, gone))
  {
    RunFollowsWalk(cfg, st, m, todo, ls, gone);
    assert todo[..0] == [];
  }

  // ---------- every run follows a walk ----------

  /** Until the run sends to it, a client is as at the start or has made room. */
  lemma {:induction false} UntilSentTo(cfg: Config, st: System, ls: seq<Label>, d: string)
    requires Inv(cfg, st) && |QueueOf(st.server, d).msgs| <= cfg.cap && d !in Recipients(cfg, st, ls)
    ensures Inv(cfg, Run(cfg, st, ls))
    ensures Unsent(cfg, st, Run(cfg, st, ls), d) && |QueueOf(Run(cfg, st, ls).server, d).msgs| <= cfg.cap
    ensures OnlyServes(ls) ==> ViewOf(Run(cfg, st, ls).server, d) == ViewOf(st.server, d)
  {
    if ls != [] {
      var past, l := ls[..|ls| - 1], ls[|ls| - 1];
      var s := Run(cfg, st, past);
      hide Run, Recipients, Follows, Step, Inv, QueueOf, Full;
      LastStep(cfg, st, ls, {});
      UntilSentTo(cfg, st, past, d);
      StepKeepsInv(cfg, s, l);
      if l != Serve {
        OthersLeaveUnsent(cfg, st, s, l, d);
      } else {
        ServeToOthers(cfg, s, d);
      }
    }
  }

  lemma ServeToOthers(cfg: Config, s: System, d: string)
    requires Inv(cfg, s) && (Target(cfg, s).Some? ==> Target(cfg, s).value.0 != d)
    ensures ViewOf(Step(cfg, s, Serve).server, d) == ViewOf(s.server, d)
    ensures QueueOf(Step(cfg, s, Serve).server, d) == QueueOf(s.server, d)
  {
    hide ServeStep, Target;
    if Enabled(cfg, s, Serve) { ServeProjects(cfg, s, d); }
  }

  lemma {:induction false} FollowsMore(cfg: Config, st: System, ls: seq<Label>, gone: set<string>, d: string)
    requires Follows(cfg, st, ls, gone) && d !in Recipients(cfg, st, ls)
    ensures Follows(cfg, st, ls, gone + {d})
  {
    hide *;
    if ls == [] {
      NoStep(cfg, st, ls, gone + {d});
    } else {
      LastStep(cfg, st, ls, gone);
      LastStep(cfg, st, ls, gone + {d});
      FollowsMore(cfg, st, ls[..|ls| - 1], gone, d);
    }
  }

  /** Who is purged at the first send to it was on the brink when the loop started. */
  lemma PurgedFromTheBrink(cfg: Config, st: System, m: Msg, todo: seq<nat>, past: seq<Label>)
    requires Inv(cfg, st) && QueuesBounded(cfg, st) && st.phase == Casting(m, todo) && Serves(past) < |todo|
    requires var s := Run(cfg, st, past);
      var t := Target(cfg, s);
      t.Some? && t.value.0 !in Recipients(cfg, st, past) && Purges(cfg, s)
    ensures OnTheBrink(cfg, st, m, Target(cfg, Run(cfg, st, past)).value.0)
  {
    var s := Run(cfg, st, past);
    var d := Target(cfg, s).value.0;
    assert |QueueOf(st.server, d).msgs| <= cfg.cap;
    hide Run, Serves, Target, DeliverTo, Inv, Unsent;
    UntilSentTo(cfg, st, past, d);
    LoopPhase(cfg, st, m, todo, past);
    TargetIsVisited(cfg, s);
    BrinkFromStart(cfg, st, s, m, d);
  }

  ghost predicate AllOnTheBrink(cfg: Config, st: System, m: Msg, gone: set<string>) {
    forall d :: d in gone ==> OnTheBrink(cfg, st, m, d)
  }

  /** The clients a run purges at the first send to them. */
  lemma {:induction false} RunHasWalk(cfg: Config, st: System, m: Msg, todo: seq<nat>, ls: seq<Label>)
    returns (gone: set<string>)
    requires Inv(cfg, st) && QueuesBounded(cfg, st) && st.phase == Casting(m, todo) && Serves(ls) <= |todo|
    ensures Follows(cfg, st, ls, gone) && AllOnTheBrink(cfg, st, m, gone)
    ensures forall d :: d in gone ==> d in Recipients(cfg, st, ls)
  {
    gone := {};
    if ls == [] {
      NoStep(cfg, st, ls, gone);
    } else {
      var past := ls[..|ls| - 1];
      var s := Run(cfg, st, past);
      var t := Target(cfg, s);
      hide Run, Serves, Target, Purges, Follows, Recipients, Inv, QueuesBounded, OnTheBrink;
      LastStep(cfg, st, ls, {});
      gone := RunHasWalk(cfg, st, m, todo, past);
      if ls[|ls| - 1] == Serve && t.Some? && t.value.0 !in Recipients(cfg, st, past) && Purges(cfg, s) {
        FollowsMore(cfg, st, past, gone, t.value.0);
        PurgedFromTheBrink(cfg, st, m, todo, past);
        gone := gone + {t.value.0};
      }
      LastStep(cfg, st, ls, gone);
    }
  }

  // ---------- every walk is followed by a run ----------

  ghost predicate NoServes(ls: seq<Label>) {
    forall i :: 0 <= i < |ls| ==> ls[i] != Serve
  }

  lemma {:induction false} NobodyIsSent(cfg: Config, st: System, ls: seq<Label>)
    requires NoServes(ls)
    ensures Serves(ls) == 0 && Recipients(cfg, st, ls) == []
  {
    if ls != [] { NobodyIsSent(cfg, st, ls[..|ls| - 1]); }
  }

  lemma {:induction false} RunInTwo(cfg: Config, st: System, first: seq<Label>, ls: seq<Label>)
    requires NoServes(first)
    ensures Serves(first + ls) == Serves(ls)
    ensures Run(cfg, st, first + ls) == Run(cfg, Run(cfg, st, first), ls)
    ensures Recipients(cfg, st, first + ls) == Recipients(cfg, Run(cfg, st, first), ls)
    decreases |ls|
  {
    var all := first + ls;
    hide *;
    if ls != [] {
      assert all[..|all| - 1] == first + ls[..|ls| - 1];
      RunInTwo(cfg, st, first, ls[..|ls| - 1]);
      LastStep(cfg, st, all, {});
      LastStep(cfg, Run(cfg, st, first), ls, {});
    } else {
      assert all == first;
      NobodyIsSent(cfg, st, first);
      NoStep(cfg, Run(cfg, st, first), ls, {});
    }
  }

  /** A client on the brink can get off it: it reads, or, when it is not running, it is started. */
  lemma Escape(cfg: Config, s: System, m: Msg, d: string) returns (l: Label)
    requires Inv(cfg, s) && DeliverTo(cfg, s.server, m, d).crashed && |QueueOf(s.server, d).msgs| <= cfg.cap
    ensures l != Serve && !DeliverTo(cfg, Step(cfg, s, l).server, m, d).crashed
    ensures forall c :: c != d ==> ViewOf(Step(cfg, s, l).server, c) == ViewOf(s.server, c)
  {
    l := if Alive(s, d) then Read(d) else Start(d);
    assert Enabled(cfg, s, l);
    StepProjects(cfg, s, l, d);
    forall c | c != d ensures ViewOf(Step(cfg, s, l).server, c) == ViewOf(s.server, c) {
      StepProjects(cfg, s, l, c);
    }
  }

  lemma CrashIsInTheView(cfg: Config, s: Server, s': Server, m: Msg, c: string)
    requires ViewOf(s, c) == ViewOf(s', c)
    ensures DeliverTo(cfg, s, m, c).crashed == DeliverTo(cfg, s', m, c).crashed
  {
    hide Deliver, Find;
    DeliverIgnoresOldest(cfg, s.oldest, s'.oldest, QueueOf(s, c), Find(s.mon, c), m, c);
  }

  /** A client outside `gone` that is not on the brink any more, or never was. */
  ghost predicate Off(cfg: Config, s: System, m: Msg, c: string, gone: set<string>) {
    c !in gone && !DeliverTo(cfg, s.server, m, c).crashed
  }

  /** Nobody has changed, except clients that are off the brink; and the clients of the first `k`
      entries are, unless they are in `gone`. */
  ghost predicate Escaped(cfg: Config, st: System, s: System, m: Msg, k: nat, gone: set<string>)
    requires k <= |st.server.subs|
  {
    && (forall c :: ViewOf(s.server, c) == ViewOf(st.server, c) || Off(cfg, s, m, c, gone))
    && (forall i :: 0 <= i < k ==> st.server.subs[i].client in gone || Off(cfg, s, m, st.server.subs[i].client, gone))
  }

  lemma OneMoreEscaped(cfg: Config, st: System, s: System, s': System, m: Msg, k: nat, gone: set<string>)
    requires k < |st.server.subs| && Escaped(cfg, st, s, m, k, gone)
    requires var d := st.server.subs[k].client;
      && (if d in gone then s' == s else Off(cfg, s', m, d, gone))
      && forall c :: c != d ==> ViewOf(s'.server, c) == ViewOf(s.server, c)
    ensures Escaped(cfg, st, s', m, k + 1, gone)
  {
    var subs, d := st.server.subs, st.server.subs[k].client;
    hide Off, ViewOf;
    forall c ensures ViewOf(s'.server, c) == ViewOf(st.server, c) || Off(cfg, s', m, c, gone) {
      if c != d { OffAsSeen(cfg, s, s', m, c, gone); }
    }
    forall i | 0 <= i <= k ensures subs[i].client in gone || Off(cfg, s', m, subs[i].client, gone) {
      if subs[i].client != d { OffAsSeen(cfg, s, s', m, subs[i].client, gone); }
    }
  }

  lemma OffAsSeen(cfg: Config, s: System, s': System, m: Msg, c: string, gone: set<string>)
    requires ViewOf(s.server, c) == ViewOf(s'.server, c)
    ensures Off(cfg, s, m, c, gone) == Off(cfg, s', m, c, gone)
  {
    hide ViewOf, DeliverTo;
    CrashIsInTheView(cfg, s.server, s'.server, m, c);
  }

  /** Before the first server step of a loop. */
  ghost predicate Fresh(cfg: Config, st: System, ls: seq<Label>) {
    var s := Run(cfg, st, ls);
    && NoServes(ls) && Inv(cfg, s) && QueuesBounded(cfg, s)
    && s.server.subs == st.server.subs && s.phase == st.phase
  }

  lemma StaysFresh(cfg: Config, st: System, ls: seq<Label>, l: Label)
    requires Fresh(cfg, st, ls) && l != Serve
    ensures Fresh(cfg, st, ls + [l]) && Run(cfg, st, ls + [l]) == Step(cfg, Run(cfg, st, ls), l)
  {
    hide Run, Step, Inv, QueuesBounded;
    RunSnoc(cfg, st, ls, l);
    StepKeepsInv(cfg, Run(cfg, st, ls), l);
    OthersKeepTheLoop(cfg, Run(cfg, st, ls), l);
    StepKeepsBounds(cfg, Run(cfg, st, ls), l);
  }

  lemma NobodyEscaped(cfg: Config, st: System, m: Msg, gone: set<string>, ls: seq<Label>)
    requires ls == [] && Inv(cfg, st) && QueuesBounded(cfg, st)
    ensures Fresh(cfg, st, ls) && Escaped(cfg, st, Run(cfg, st, ls), m, 0, gone)
  {
  }

  lemma {:induction false} Escapes(cfg: Config, st: System, m: Msg, k: nat, gone: set<string>)
    returns (ls: seq<Label>)
    requires Inv(cfg, st) && QueuesBounded(cfg, st) && k <= |st.server.subs|
    ensures Fresh(cfg, st, ls) && Escaped(cfg, st, Run(cfg, st, ls), m, k, gone)
  {
    hide Run, Step, DeliverTo, Escaped, Inv, ViewOf;
    if k == 0 {
      ls := [];
      NobodyEscaped(cfg, st, m, gone, ls);
    } else {
      ls := Escapes(cfg, st, m, k - 1, gone);
      var s, d := Run(cfg, st, ls), st.server.subs[k - 1].client;
      if d !in gone && DeliverTo(cfg, s.server, m, d).crashed {
        assert |QueueOf(s.server, d).msgs| <= cfg.cap;
        var l := Escape(cfg, s, m, d);
        StaysFresh(cfg, st, ls, l);
        OneMoreEscaped(cfg, st, s, Step(cfg, s, l), m, k - 1, gone);
        ls := ls + [l];
      } else {
        OneMoreEscaped(cfg, st, s, s, m, k - 1, gone);
      }
    }
  }

  lemma StepKeepsBounds(cfg: Config, s: System, l: Label)
    requires Inv(cfg, s) && QueuesBounded(cfg, s)
    ensures QueuesBounded(cfg, Step(cfg, s, l))
  {
    forall c ensures |QueueOf(Step(cfg, s, l).server, c).msgs| <= cfg.cap {
      assert |ViewOf(s.server, c).queue.msgs| <= cfg.cap;
      hide Step, Find;
      StepProjects(cfg, s, l, c);
    }
  }

  /** The list of a loop in progress has only entries of the list it started with. */
  lemma {:induction false} ListOnlyShrinks(cfg: Config, st: System, m: Msg, todo: seq<nat>, ls: seq<Label>, e: Sub)
    requires st.phase == Casting(m, todo) && Serves(ls) <= |todo| && e in Run(cfg, st, ls).server.subs
    ensures e in st.server.subs
  {
    if ls != [] {
      var past, l := ls[..|ls| - 1], ls[|ls| - 1];
      var s := Run(cfg, st, past);
      hide Run, Serves, Step, Target, DeliverTo, Recipients, Follows;
      LastStep(cfg, st, ls, {});
      LoopPhase(cfg, st, m, todo, past);
      if l == Serve {
        IterationShrinks(cfg, s);
        if Target(cfg, s).Some? { DropMembers(s.server.subs, OfClient(Target(cfg, s).value.0)); }
      } else {
        OthersKeepTheLoop(cfg, s, l);
      }
      ListOnlyShrinks(cfg, st, m, todo, past, e);
    }
  }

  /** In `st` a subscriber is about to be purged exactly if it is in `gone`. */
  ghost predicate BrinkIs(cfg: Config, st: System, m: Msg, gone: set<string>) {
    forall e :: e in st.server.subs && e.client != m.source ==>
      (DeliverTo(cfg, st.server, m, e.client).crashed <==> e.client in gone)
  }

  lemma {:induction false} ServesFollow(cfg: Config, st: System, m: Msg, todo: seq<nat>, n: nat, gone: set<string>)
    requires Inv(cfg, st) && QueuesBounded(cfg, st) && st.phase == Casting(m, todo) && n <= |todo|
    requires BrinkIs(cfg, st, m, gone)
    ensures Follows(cfg, st, Times(n), gone)
  {
    if n == 0 {
      NoStep(cfg, st, Times(n), gone);
    } else {
      var past := Times(n - 1);
      assert Times(n)[..n - 1] == past;
      ServesFollow(cfg, st, m, todo, n - 1, gone);
      LastStep(cfg, st, Times(n), gone);
      var s := Run(cfg, st, past);
      var t := Target(cfg, s);
      if t.Some? && t.value.0 !in Recipients(cfg, st, past) {
        FirstSendFollows(cfg, st, m, todo, n - 1, gone);
      }
    }
  }

  lemma FirstSendFollows(cfg: Config, st: System, m: Msg, todo: seq<nat>, n: nat, gone: set<string>)
    requires Inv(cfg, st) && QueuesBounded(cfg, st) && st.phase == Casting(m, todo) && n < |todo|
    requires BrinkIs(cfg, st, m, gone)
    requires var t := Target(cfg, Run(cfg, st, Times(n)));
      t.Some? && t.value.0 !in Recipients(cfg, st, Times(n))
    ensures Purges(cfg, Run(cfg, st, Times(n))) <==> Target(cfg, Run(cfg, st, Times(n))).value.0 in gone
  {
    var s := Run(cfg, st, Times(n));
    var d := Target(cfg, s).value.0;
    assert |QueueOf(st.server, d).msgs| <= cfg.cap;
    hide Run, Serves, Target, DeliverTo, Inv, Unsent, Times;
    TimesServes(n);
    UntilSentTo(cfg, st, Times(n), d);
    LoopPhase(cfg, st, m, todo, Times(n));
    TargetIsVisited(cfg, s);
    var e := EntryAt(s.server.subs, s.phase.todo[|s.phase.todo| - 1]).value;
    ListOnlyShrinks(cfg, st, m, todo, Times(n), e);
    CrashIsInTheView(cfg, s.server, st.server, m, d);
  }

  /** Those not in `gone` escape before the first send; then the server works alone. */
  lemma {:induction false} WalkHasRun(cfg: Config, st: System, m: Msg, todo: seq<nat>, gone: set<string>)
    returns (ls: seq<Label>)
    requires Inv(cfg, st) && QueuesBounded(cfg, st) && st.phase == Casting(m, todo)
    requires AllOnTheBrink(cfg, st, m, gone)
    ensures Serves(ls) == |todo|
    ensures EachOnce(st.server.subs, m, Recipients(cfg, st, ls)) <==>
            EachOnce(st.server.subs, m, Walk(st.server.subs, todo, m.source, gone))
  {
    var first := Escapes(cfg, st, m, |st.server.subs|, gone);
    var s := Run(cfg, st, first);
    AfterEscapes(cfg, st, s, m, gone);
    TimesServes(|todo|);
    hide *;
    ServesFollow(cfg, s, m, todo, |todo|, gone);
    EachOnceAsWalked(cfg, s, m, todo, Times(|todo|), gone);
    RunInTwo(cfg, st, first, Times(|todo|));
    ls := first + Times(|todo|);
  }

  lemma AfterEscapes(cfg: Config, st: System, s: System, m: Msg, gone: set<string>)
    requires AllOnTheBrink(cfg, st, m, gone) && s.server.subs == st.server.subs
    requires Escaped(cfg, st, s, m, |st.server.subs|, gone)
    ensures BrinkIs(cfg, s, m, gone)
  {
    hide DeliverTo, ViewOf;
    forall e | e in s.server.subs && e.client != m.source
      ensures DeliverTo(cfg, s.server, m, e.client).crashed <==> e.client in gone
    {
      if e.client in gone {
        assert OnTheBrink(cfg, st, m, e.client);
        CrashIsInTheView(cfg, s.server, st.server, m, e.client);
      } else {
        var i :| 0 <= i < |st.server.subs| && st.server.subs[i] == e;
      }
    }
  }

  // ---------- the exact condition ----------

  /** Every interleaving of the broadcast sends exactly once to every addressee and to nobody else. */
  ghost predicate AlwaysEachOnce(cfg: Config, st: System, m: Msg, todo: seq<nat>) {
    forall ls :: Serves(ls) == |todo| ==> EachOnce(st.server.subs, m, Recipients(cfg, st, ls))
  }

  /** So does every walk over the list that purges some of the clients on the brink: a condition on
      the list, the queues and the monitor entries before the first send. */
  ghost predicate WalksEachOnce(cfg: Config, st: System, m: Msg, todo: seq<nat>) {
    forall gone :: AllOnTheBrink(cfg, st, m, gone) ==>
      EachOnce(st.server.subs, m, Walk(st.server.subs, todo, m.source, gone))
  }

  /** The two are the same, for a broadcast to a topic or to all. */
  lemma {:induction false} EachOnceIff(cfg: Config, st: System, m: Msg)
    requires Inv(cfg, st) && QueuesBounded(cfg, st)
    requires st.phase == Casting(m, Targets(st.server.subs, m))
    ensures var todo := Targets(st.server.subs, m);
      AlwaysEachOnce(cfg, st, m, todo) <==> WalksEachOnce(cfg, st, m, todo)
  {
    var subs, todo := st.server.subs, Targets(st.server.subs, m);
    hide EachOnce, AllOnTheBrink, Inv, QueuesBounded, Targets;
    if AlwaysEachOnce(cfg, st, m, todo) {
      forall gone | AllOnTheBrink(cfg, st, m, gone) ensures EachOnce(subs, m, Walk(subs, todo, m.source, gone)) {
        var ls := WalkHasRun(cfg, st, m, todo, gone);
      }
    }
    if WalksEachOnce(cfg, st, m, todo) {
      forall ls | Serves(ls) == |todo| ensures EachOnce(subs, m, Recipients(cfg, st, ls)) {
        var gone := RunHasWalk(cfg, st, m, todo, ls);
        EachOnceAsWalked(cfg, st, m, todo, ls, gone);
      }
    }
  }

  /** And so for every broadcast of every run of the system. */
  lemma {:induction false} ReachesEachOnceIff(cfg: Config, past: seq<Label>, m: Msg)
    requires var st := Run(cfg, INIT, past); st.phase == Casting(m, Targets(st.server.subs, m))
    ensures var st := Run(cfg, INIT, past);
      var todo := Targets(st.server.subs, m);
      AlwaysEachOnce(cfg, st, m, todo) <==> WalksEachOnce(cfg, st, m, todo)
  {
    hide AlwaysEachOnce, WalksEachOnce, Inv, QueuesBounded, Run;
    RunsKeepInv(cfg, past);
    ReachableQueuesAreBounded(cfg, past);
    EachOnceIff(cfg, Run(cfg, INIT, past), m);
  }

  /** A topic broadcast that is calm at its start meets the condition, whatever clients do meanwhile. */
  lemma {:induction false} TopicReachesEachOnce(cfg: Config, st: System, m: Msg)
    requires Inv(cfg, st) && QueuesBounded(cfg, st) && m.topic != ALL
    requires st.phase == Casting(m, Targets(st.server.subs, m)) && Calm(cfg, st, m, Targets(st.server.subs, m))
    ensures AlwaysEachOnce(cfg, st, m, Targets(st.server.subs, m))
    ensures WalksEachOnce(cfg, st, m, Targets(st.server.subs, m))
  {
    var todo := Targets(st.server.subs, m);
    hide Inv, QueuesBounded, Calm, Targets, Steady, WalksEachOnce;
    CalmIffAlwaysSteady(cfg, st, m);
    forall ls | Serves(ls) == |todo| ensures EachOnce(st.server.subs, m, Recipients(cfg, st, ls)) {
      SteadyReachesEachOnce(cfg, st, m, ls);
    }
    EachOnceIff(cfg, st, m);
  }

  // ---------- broadcast to all ----------

  /** Among the first `n` entries every client but the source has one. */
  ghost predicate OneEntryEach(subs: seq<Sub>, n: nat, source: string)
    requires n <= |subs|
  {
    forall i, j :: 0 <= i < j < n && subs[i].client == subs[j].client ==> subs[i].client == source
  }

  lemma NothingBelowIsDropped(subs: seq<Sub>, n: nat, d: string)
    requires n <= |subs| && forall j :: 0 <= j < n ==> subs[j].client != d
    ensures n <= |Drop(subs, OfClient(d))| && forall j :: 0 <= j < n ==> Drop(subs, OfClient(d))[j] == subs[j]
  {
    DropKeepsPrefix(subs, OfClient(d), n);
    forall j | 0 <= j < n ensures Drop(subs, OfClient(d))[j] == subs[j] {
      assert Drop(subs, OfClient(d))[..n][j] == subs[..n][j];
    }
  }

  /** One step of such a walk; the list may change, but not below the next index. */
  lemma WalkGoesDown(subs: seq<Sub>, n: nat, source: string, gone: set<string>) returns (next: seq<Sub>)
    requires 0 < n <= |subs| && OneEntryEach(subs, n, source)
    ensures n - 1 <= |next| && forall j :: 0 <= j < n - 1 ==> next[j] == subs[j]
    ensures var d, rest := subs[n - 1].client, Walk(next, Range(n - 1), source, gone);
      Walk(subs, Range(n), source, gone) == if d == source then rest else [d] + rest
  {
    var d := subs[n - 1].client;
    assert Range(n)[..n - 1] == Range(n - 1);
    next := if d != source && d in gone then Drop(subs, OfClient(d)) else subs;
    if d != source && d in gone { NothingBelowIsDropped(subs, n - 1, d); }
  }

  lemma {:induction false} WalkMisses(subs: seq<Sub>, n: nat, source: string, gone: set<string>, d: string)
    requires n <= |subs| && OneEntryEach(subs, n, source) && forall j :: 0 <= j < n ==> subs[j].client != d
    ensures d !in Walk(subs, Range(n), source, gone)
    decreases n
  {
    if n > 0 {
      var next := WalkGoesDown(subs, n, source, gone);
      hide Walk;
      WalkMisses(next, n - 1, source, gone, d);
    }
  }

  lemma {:induction false} WalkWithoutRepeats(subs: seq<Sub>, n: nat, source: string, gone: set<string>)
    requires n <= |subs| && OneEntryEach(subs, n, source)
    ensures NoDuplicates(Walk(subs, Range(n), source, gone))
    decreases n
  {
    if n > 0 {
      var d := subs[n - 1].client;
      var next := WalkGoesDown(subs, n, source, gone);
      hide Walk, NoDuplicates;
      WalkWithoutRepeats(next, n - 1, source, gone);
      if d != source {
        WalkMisses(next, n - 1, source, gone, d);
        NoRepeatInFront(d, Walk(next, Range(n - 1), source, gone));
      }
    }
  }

  lemma NoRepeatInFront(d: string, rest: seq<string>)
    requires NoDuplicates(rest) && d !in rest
    ensures NoDuplicates([d] + rest)
  {
    forall i, j | 0 <= i < j < |[d] + rest| ensures ([d] + rest)[i] != ([d] + rest)[j] {
      assert ([d] + rest)[j] == rest[j - 1];
    }
  }

  lemma {:induction false} WalkMeets(subs: seq<Sub>, n: nat, source: string, k: nat)
    requires k < n <= |subs| && subs[k].client != source
    ensures subs[k].client in Walk(subs, Range(n), source, {})
    decreases n
  {
    assert Range(n)[..n - 1] == Range(n - 1);
    if k < n - 1 { WalkMeets(subs, n - 1, source, k); }
  }

  lemma {:induction false} WalkRepeats(subs: seq<Sub>, n: nat, source: string, i: nat, j: nat)
    requires i < j < n <= |subs| && subs[i].client == subs[j].client != source
    ensures !NoDuplicates(Walk(subs, Range(n), source, {}))
    decreases n
  {
    assert Range(n)[..n - 1] == Range(n - 1);
    var walk, rest := Walk(subs, Range(n), source, {}), Walk(subs, Range(n - 1), source, {});
    if j < n - 1 {
      WalkRepeats(subs, n - 1, source, i, j);
      var a, b :| 0 <= a < b < |rest| && rest[a] == rest[b];
      var skip := |walk| - |rest|;
      assert walk[skip + a] == walk[skip + b];
    } else {
      WalkMeets(subs, n - 1, source, i);
      var a :| 0 <= a < |rest| && rest[a] == subs[i].client;
      assert walk[0] == walk[1 + a];
    }
  }

  /** In closed form for a broadcast to all: it always sends exactly once to everybody in the list but
      the source if and only if each of them has one entry. */
  lemma {:induction false} AllEachOnceIff(cfg: Config, st: System, m: Msg)
    requires Inv(cfg, st) && QueuesBounded(cfg, st)
    requires m.topic == ALL && st.phase == Casting(m, Targets(st.server.subs, m))
    ensures AlwaysEachOnce(cfg, st, m, Targets(st.server.subs, m)) <==>
            OneEntryEach(st.server.subs, |st.server.subs|, m.source)
  {
    var subs := st.server.subs;
    var todo := Range(|subs|);
    assert Targets(subs, m) == todo && |todo| == |subs|;
    hide Inv, QueuesBounded, OnTheBrink, Follows, Recipients, Serves;
    EachOnceIff(cfg, st, m);
    if OneEntryEach(subs, |subs|, m.source) {
      forall ls | Serves(ls) == |todo| ensures EachOnce(subs, m, Recipients(cfg, st, ls)) {
        var gone := RunHasWalk(cfg, st, m, todo, ls);
        WalkWithoutRepeats(subs, |subs|, m.source, gone);
        RunFollowsWalk(cfg, st, m, todo, ls, gone);
        AllReachesEverybody(cfg, st, m, ls);
      }
    } else {
      var i, j :| 0 <= i < j < |subs| && subs[i].client == subs[j].client != m.source;
      WalkRepeats(subs, |subs|, m.source, i, j);
      var nobody: set<string> := {};
      assert AllOnTheBrink(cfg, st, m, nobody);
    }
  }
}
