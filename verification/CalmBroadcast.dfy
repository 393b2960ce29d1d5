/** The topic broadcast judged from the state in which it starts. */
module CalmBroadcast {
  import opened Messages
  import opened Lists
  import opened Subscriptions
  import opened Broker
  import opened ClientView
  import opened Network
  import opened Broadcast

  ghost predicate QueuesBounded(cfg: Config, st: System) {
    forall c :: |QueueOf(st.server, c).msgs| <= cfg.cap
  }

  /** As things stand, the next request to `d` would declare it crashed. */
  ghost predicate OnTheBrink(cfg: Config, st: System, m: Msg, d: string) {
    d != m.source && DeliverTo(cfg, st.server, m, d).crashed
  }

  /** The client `d` of entry `i` of the plan has no entry at or below the index visited next. */
  ghost predicate Spared(subs: seq<Sub>, todo: seq<nat>, i: nat, d: string)
    requires i < |todo|
  {
    i == 0 || forall j :: 0 <= j <= todo[i - 1] && j < |subs| ==> subs[j].client != d
  }

  /** No subscriber on the brink has an entry at or below the index visited after its own. */
  ghost predicate Calm(cfg: Config, st: System, m: Msg, todo: seq<nat>)
  {
    var subs := st.server.subs;
    forall i :: 0 <= i < |todo| && todo[i] < |subs| && OnTheBrink(cfg, st, m, subs[todo[i]].client) ==>
      Spared(subs, todo, i, subs[todo[i]].client)
  }

  /** A client's view that no send has changed: it is as at the start, or the client made room. */
  ghost predicate Unsent(cfg: Config, st: System, s: System, d: string) {
    ViewOf(s.server, d) == ViewOf(st.server, d) || !Full(cfg, ViewOf(s.server, d))
  }

  ghost predicate OnlyServes(ls: seq<Label>) {
    forall i :: 0 <= i < |ls| ==> ls[i] == Serve
  }

  /** The clients of the entries to be visited are different ones. */
  ghost predicate DistinctTargets(subs: seq<Sub>, todo: seq<nat>) {
    && Increasing(todo, |subs|)
    && forall i, j :: 0 <= i < j < |todo| ==> subs[todo[i]].client != subs[todo[j]].client
  }

  lemma TargetsAreDistinct(subs: seq<Sub>, m: Msg)
    requires NoDuplicates(subs) && m.topic != ALL
    ensures DistinctTargets(subs, Targets(subs, m))
  {
    WhereIsIndices(subs, m.topic);
    var todo := Targets(subs, m);
    forall i, j | 0 <= i < j < |todo| ensures subs[todo[i]].client != subs[todo[j]].client {
      assert todo[i] < todo[j];
    }
  }

  /** While the loop is steady, an iteration sends to the client of its own entry. */
  lemma SteadyTarget(cfg: Config, st: System, m: Msg, todo: seq<nat>, ls: seq<Label>)
    requires Inv(cfg, st) && st.phase == Casting(m, todo) && Increasing(todo, |st.server.subs|)
    requires Serves(ls) < |todo| && Steady(cfg, st, ls)
    ensures var s, i := Run(cfg, st, ls), |todo| - 1 - Serves(ls);
      var d := st.server.subs[todo[i]].client;
      && Inv(cfg, s) && s.phase == Casting(m, todo[..i + 1])
      && todo[i] < |s.server.subs| && s.server.subs[..todo[i] + 1] == st.server.subs[..todo[i] + 1]
      && Target(cfg, s) == if d != m.source then Some((d, m)) else None
  {
    hide Run, Serves, Steady, Visits, Inv;
    var s, i := Run(cfg, st, ls), |todo| - 1 - Serves(ls);
    LoopPhase(cfg, st, m, todo, ls);
    LoopIsTracked(cfg, st, m, todo, ls);
    TargetIsVisited(cfg, s);
    NextIntactAt(s.server.subs, st.server.subs, todo[..i + 1], todo[i]);
  }

  lemma OthersLeaveUnsent(cfg: Config, st: System, s: System, l: Label, d: string)
    requires Inv(cfg, s) && l != Serve && Unsent(cfg, st, s, d)
    requires |QueueOf(s.server, d).msgs| <= cfg.cap
    ensures Unsent(cfg, st, Step(cfg, s, l), d) && |QueueOf(Step(cfg, s, l).server, d).msgs| <= cfg.cap
  {
    hide Step, Inv;
    StepProjects(cfg, s, l, d);
  }

  lemma OtherIteration(cfg: Config, st: System, m: Msg, todo: seq<nat>, ls: seq<Label>, i: nat)
    requires Inv(cfg, st) && st.phase == Casting(m, todo) && DistinctTargets(st.server.subs, todo)
    requires i < |todo| && Serves(ls) < |todo| - 1 - i && Steady(cfg, st, ls)
    ensures var s, d := Run(cfg, st, ls), st.server.subs[todo[i]].client;
      ViewOf(Step(cfg, s, Serve).server, d) == ViewOf(s.server, d)
  {
    SteadyTarget(cfg, st, m, todo, ls);
    ServeProjects(cfg, Run(cfg, st, ls), st.server.subs[todo[i]].client);
  }

  /** Until its own iteration, a client of the plan is sent nothing. */
  lemma {:induction false} NotYetSent(cfg: Config, st: System, m: Msg, todo: seq<nat>, ls: seq<Label>,
                                      i: nat, d: string)
    requires Inv(cfg, st) && st.phase == Casting(m, todo) && DistinctTargets(st.server.subs, todo)
    requires i < |todo| && d == st.server.subs[todo[i]].client && |QueueOf(st.server, d).msgs| <= cfg.cap
    requires Serves(ls) <= |todo| - 1 - i && Steady(cfg, st, ls)
    ensures Inv(cfg, Run(cfg, st, ls))
    ensures Unsent(cfg, st, Run(cfg, st, ls), d) && |QueueOf(Run(cfg, st, ls).server, d).msgs| <= cfg.cap
    ensures OnlyServes(ls) ==> ViewOf(Run(cfg, st, ls).server, d) == ViewOf(st.server, d)
  {
    if ls != [] {
      var past, l := ls[..|ls| - 1], ls[|ls| - 1];
      NotYetSent(cfg, st, m, todo, past, i, d);
      StepKeepsInv(cfg, Run(cfg, st, past), l);
      if l == Serve {
        OtherIteration(cfg, st, m, todo, past, i);
      } else {
        OthersLeaveUnsent(cfg, st, Run(cfg, st, past), l, d);
      }
    }
  }

  /** Whether the coming iteration spares the next entry, told from the start of the loop. */
  lemma SparingIteration(cfg: Config, st: System, m: Msg, todo: seq<nat>, ls: seq<Label>, i: nat, d: string)
    requires Inv(cfg, st) && st.phase == Casting(m, todo) && DistinctTargets(st.server.subs, todo)
    requires i < |todo| && Serves(ls) == |todo| - 1 - i && Steady(cfg, st, ls)
    requires d == st.server.subs[todo[i]].client && |QueueOf(st.server, d).msgs| <= cfg.cap
    ensures var s := Run(cfg, st, ls);
      && s.phase.Casting? && s.phase.todo != []
      && (!OnTheBrink(cfg, st, m, d) || Spared(st.server.subs, todo, i, d) ==> SparesNext(cfg, s))
      && (OnlyServes(ls) && OnTheBrink(cfg, st, m, d) && SparesNext(cfg, s) ==> Spared(st.server.subs, todo, i, d))
  {
    hide Step, Run, Serves, DeliverTo, Target, SparesNext, Spared, Unsent, Steady, Inv;
    var s := Run(cfg, st, ls);
    SteadyTarget(cfg, st, m, todo, ls);
    NotYetSent(cfg, st, m, todo, ls, i, d);
    BrinkFromStart(cfg, st, s, m, d);
    SparesIffSpared(cfg, s, st.server.subs, m, todo, i, d);
  }

  /** On a list that is the original one up to the present index. */
  lemma SparesIffSpared(cfg: Config, s: System, subs: seq<Sub>, m: Msg, todo: seq<nat>, i: nat, d: string)
    requires Increasing(todo, |subs|) && i < |todo| && s.phase == Casting(m, todo[..i + 1])
    requires todo[i] < |s.server.subs| && s.server.subs[..todo[i] + 1] == subs[..todo[i] + 1]
    requires Target(cfg, s) == if d != m.source then Some((d, m)) else None
    ensures SparesNext(cfg, s) <==>
              (d != m.source && DeliverTo(cfg, s.server, m, d).crashed ==> Spared(subs, todo, i, d))
  {
    if i > 0 {
      assert s.phase.todo[|s.phase.todo| - 2] == todo[i - 1] < todo[i];
      forall j | 0 <= j <= todo[i - 1] ensures s.server.subs[j] == subs[j] {
        assert s.server.subs[j] == s.server.subs[..todo[i] + 1][j];
        assert subs[j] == subs[..todo[i] + 1][j];
      }
    }
  }

  lemma BrinkFromStart(cfg: Config, st: System, s: System, m: Msg, d: string)
    requires Unsent(cfg, st, s, d)
    ensures DeliverTo(cfg, s.server, m, d).crashed ==> DeliverTo(cfg, st.server, m, d).crashed
    ensures ViewOf(s.server, d) == ViewOf(st.server, d) ==>
              DeliverTo(cfg, s.server, m, d).crashed == DeliverTo(cfg, st.server, m, d).crashed
  {
  }

  lemma {:induction false} CalmIsSteady(cfg: Config, st: System, m: Msg, todo: seq<nat>, ls: seq<Label>)
    requires Inv(cfg, st) && st.phase == Casting(m, todo) && DistinctTargets(st.server.subs, todo)
    requires QueuesBounded(cfg, st) && Serves(ls) <= |todo| && Calm(cfg, st, m, todo)
    ensures Steady(cfg, st, ls)
  {
    if ls != [] {
      var past := ls[..|ls| - 1];
      CalmIsSteady(cfg, st, m, todo, past);
      if ls[|ls| - 1] == Serve {
        var i := |todo| - 1 - Serves(past);
        SparingIteration(cfg, st, m, todo, past, i, st.server.subs[todo[i]].client);
      }
    }
  }

  function Times(n: nat): (ls: seq<Label>)
    ensures |ls| == n && forall i :: 0 <= i < n ==> ls[i] == Serve
  {
    seq(n, _ => Serve)
  }

  lemma {:induction false} TimesServes(n: nat)
    ensures Serves(Times(n)) == n && OnlyServes(Times(n))
  {
    if n > 0 {
      assert Times(n)[..n - 1] == Times(n - 1);
      TimesServes(n - 1);
    }
  }

  lemma {:induction false} SteadyAt(cfg: Config, st: System, n: nat, k: nat)
    requires k < n && Steady(cfg, st, Times(n))
    ensures Steady(cfg, st, Times(k))
    ensures var s := Run(cfg, st, Times(k)); s.phase.Casting? && s.phase.todo != [] ==> SparesNext(cfg, s)
  {
    assert Times(n)[..n - 1] == Times(n - 1);
    if k < n - 1 { SteadyAt(cfg, st, n - 1, k); }
  }

  lemma {:induction false} SteadyIsCalm(cfg: Config, st: System, m: Msg, todo: seq<nat>)
    requires Inv(cfg, st) && st.phase == Casting(m, todo) && DistinctTargets(st.server.subs, todo)
    requires QueuesBounded(cfg, st) && Steady(cfg, st, Times(|todo|))
    ensures Calm(cfg, st, m, todo)
  {
    forall i | 0 <= i < |todo| && OnTheBrink(cfg, st, m, st.server.subs[todo[i]].client)
      ensures Spared(st.server.subs, todo, i, st.server.subs[todo[i]].client)
    {
      var k := |todo| - 1 - i;
      TimesServes(k);
      SteadyAt(cfg, st, |todo|, k);
      SparingIteration(cfg, st, m, todo, Times(k), i, st.server.subs[todo[i]].client);
    }
  }

  /** A topic broadcast keeps to its plan in every interleaving exactly when it is calm at its start:
      a condition on the list, the queues and the monitor entries before the first send. */
  lemma CalmIffAlwaysSteady(cfg: Config, st: System, m: Msg)
    requires Inv(cfg, st) && QueuesBounded(cfg, st) && m.topic != ALL
    requires st.phase == Casting(m, Targets(st.server.subs, m))
    ensures var todo := Targets(st.server.subs, m);
      Calm(cfg, st, m, todo) <==> forall ls :: Serves(ls) == |todo| ==> Steady(cfg, st, ls)
  {
    var todo := Targets(st.server.subs, m);
    TargetsAreDistinct(st.server.subs, m);
    if Calm(cfg, st, m, todo) {
      forall ls | Serves(ls) == |todo| ensures Steady(cfg, st, ls) {
        CalmIsSteady(cfg, st, m, todo, ls);
      }
    } else {
      TimesServes(|todo|);
      if Steady(cfg, st, Times(|todo|)) { SteadyIsCalm(cfg, st, m, todo); }
    }
  }

  lemma ReachableQueuesAreBounded(cfg: Config, ls: seq<Label>)
    ensures QueuesBounded(cfg, Run(cfg, INIT, ls))
  {
    forall c ensures |QueueOf(Run(cfg, INIT, ls).server, c).msgs| <= cfg.cap {
      RunProjects(cfg, ls, c);
      QueueIsBounded(cfg, c, Log(cfg, ls, c));
    }
  }
}
