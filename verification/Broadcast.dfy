/** Whom a broadcast reaches, although crash purges delete list entries during the loop and
    clients act between the sends. */
module Broadcast {
  import opened Messages
  import opened Lists
  import opened Subscriptions
  import opened Broker
  import opened Network

  /** The number of server steps in a run. */
  function Serves(ls: seq<Label>): nat {
    if ls == [] then 0
    else Serves(ls[..|ls| - 1]) + if ls[|ls| - 1] == Serve then 1 else 0
  }

  function EntryAt(subs: seq<Sub>, i: nat): Option<Sub> {
    if i < |subs| then Some(subs[i]) else None
  }

  /** The entries found by the loop iterations of a run, in order. */
  function Visits(cfg: Config, st: System, ls: seq<Label>): seq<Option<Sub>> {
    if ls == [] then []
    else
      var past := ls[..|ls| - 1];
      var s := Run(cfg, st, past);
      Visits(cfg, st, past) +
      if ls[|ls| - 1] == Serve && s.phase.Casting? && s.phase.todo != []
      then [EntryAt(s.server.subs, s.phase.todo[|s.phase.todo| - 1])] else []
  }

  /** The clients a send was made to during a run, in order. */
  function Recipients(cfg: Config, st: System, ls: seq<Label>): seq<string> {
    if ls == [] then []
    else
      var past := ls[..|ls| - 1];
      var t := Target(cfg, Run(cfg, st, past));
      Recipients(cfg, st, past) + if ls[|ls| - 1] == Serve && t.Some? then [t.value.0] else []
  }

  lemma OthersKeepTheLoop(cfg: Config, s: System, l: Label)
    requires l != Serve
    ensures Step(cfg, s, l).server.subs == s.server.subs && Step(cfg, s, l).phase == s.phase
  {
  }

  /** One iteration either keeps the list or purges the client just sent to. */
  lemma IterationShrinks(cfg: Config, s: System)
    requires s.phase.Casting? && s.phase.todo != []
    ensures var s', t, todo := Step(cfg, s, Serve), Target(cfg, s), s.phase.todo;
      && s'.phase == Casting(s.phase.m, todo[..|todo| - 1])
      && s'.server.subs == (if t.Some? && DeliverTo(cfg, s.server, s.phase.m, t.value.0).crashed
                            then Drop(s.server.subs, OfClient(t.value.0)) else s.server.subs)
  {
  }

  lemma TargetIsVisited(cfg: Config, s: System)
    requires s.phase.Casting? && s.phase.todo != []
    ensures var v := EntryAt(s.server.subs, s.phase.todo[|s.phase.todo| - 1]);
      Target(cfg, s) ==
        if v.Some? && v.value.client != s.phase.m.source then Some((v.value.client, s.phase.m)) else None
  {
  }

  lemma {:induction false} LoopPhase(cfg: Config, st: System, m: Msg, todo: seq<nat>, ls: seq<Label>)
    requires st.phase == Casting(m, todo) && Serves(ls) <= |todo|
    ensures Run(cfg, st, ls).phase == Casting(m, todo[..|todo| - Serves(ls)])
  {
    if ls == [] {
      assert todo[..|todo|] == todo;
    } else {
      var past := ls[..|ls| - 1];
      LoopPhase(cfg, st, m, todo, past);
      var s := Run(cfg, st, past);
      if ls[|ls| - 1] == Serve {
        IterationShrinks(cfg, s);
        assert todo[..|todo| - Serves(past)][..|todo| - Serves(ls)] == todo[..|todo| - Serves(ls)];
      } else {
        OthersKeepTheLoop(cfg, s, ls[|ls| - 1]);
      }
    }
  }

  // ---------- broadcast to all ----------

  /** Entry `k` needs no more visit: its client got the message or is its source. */
  ghost predicate Served(subs: seq<Sub>, k: nat, source: string, sent: seq<string>)
    requires k < |subs|
  {
    subs[k].client == source || subs[k].client in sent
  }

  lemma PurgeKeepsServed(subs: seq<Sub>, d: string, bound: nat, source: string, sent: seq<string>)
    requires forall k :: bound <= k < |subs| ==> Served(subs, k, source, sent)
    ensures var rest := Drop(subs, OfClient(d));
      forall k :: bound <= k < |rest| ==> Served(rest, k, source, sent)
  {
    var rest := Drop(subs, OfClient(d));
    forall k | bound <= k < |rest| ensures Served(rest, k, source, sent) {
      var k' := DropShifts(subs, OfClient(d), k);
      assert Served(subs, k', source, sent);
    }
  }

  /** With `bound` iterations left: entries from `bound` on are served, the source got nothing, only
      entries of the original list remain or were sent to, and those gone were sent to. */
  ghost predicate Covered(original: seq<Sub>, subs: seq<Sub>, bound: nat, source: string, sent: seq<string>) {
    && (forall k :: bound <= k < |subs| ==> Served(subs, k, source, sent))
    && source !in sent
    && (forall e :: e in subs ==> e in original)
    && (forall c :: c in sent ==> exists e :: e in original && e.client == c)
    && (forall e :: e in original ==> e in subs || e.client in sent)
  }

  lemma VisitCovers(original: seq<Sub>, subs: seq<Sub>, n: nat, source: string, sent: seq<string>)
    requires Covered(original, subs, n + 1, source, sent)
    ensures if n < |subs| && subs[n].client != source then
              Covered(original, subs, n, source, sent + [subs[n].client])
            else Covered(original, subs, n, source, sent)
  {
    if n < |subs| && subs[n].client != source {
      var more := sent + [subs[n].client];
      forall k | n <= k < |subs| ensures Served(subs, k, source, more) {
        if k > n { assert Served(subs, k, source, sent); }
      }
      assert subs[n] in original;
    }
  }

  lemma PurgeCovers(original: seq<Sub>, subs: seq<Sub>, n: nat, source: string, sent: seq<string>, d: string)
    requires Covered(original, subs, n, source, sent) && d in sent
    ensures Covered(original, Drop(subs, OfClient(d)), n, source, sent)
  {
    PurgeKeepsServed(subs, d, n, source, sent);
    DropMembers(subs, OfClient(d));
  }

  /** The unvisited survivors of an "ALL" broadcast are always a prefix of the list, as long as
      the iterations left; so a finished loop has missed nobody who is still subscribed. Nothing
      goes to the source, and nothing to a client that was not subscribed. */
  lemma {:induction false} AllMissesNobody(cfg: Config, st: System, m: Msg, ls: seq<Label>)
    requires st.phase == Casting(m, Range(|st.server.subs|)) && Serves(ls) <= |st.server.subs|
    ensures Covered(st.server.subs, Run(cfg, st, ls).server.subs, |st.server.subs| - Serves(ls),
                    m.source, Recipients(cfg, st, ls))
  {
    var original := st.server.subs;
    if ls != [] {
      var past := ls[..|ls| - 1];
      var s, sent := Run(cfg, st, past), Recipients(cfg, st, past);
      AllMissesNobody(cfg, st, m, past);
      LoopPhase(cfg, st, m, Range(|original|), past);
      if ls[|ls| - 1] == Serve {
        var n := |original| - Serves(ls);
        assert s.phase.todo[|s.phase.todo| - 1] == n;
        IterationShrinks(cfg, s);
        TargetIsVisited(cfg, s);
        VisitCovers(original, s.server.subs, n, m.source, sent);
        var t := Target(cfg, s);
        if t.Some? {
          assert Recipients(cfg, st, ls) == sent + [t.value.0];
          PurgeCovers(original, s.server.subs, n, m.source, sent + [t.value.0], t.value.0);
        } else {
          assert Recipients(cfg, st, ls) == sent;
        }
      } else {
        OthersKeepTheLoop(cfg, s, ls[|ls| - 1]);
        assert Recipients(cfg, st, ls) == sent;
      }
    }
  }

  /** A finished "ALL" broadcast has sent to every client in the list but the source, and to nobody
      else, whatever was purged and whatever clients did meanwhile. */
  lemma {:induction false} AllReachesEverybody(cfg: Config, st: System, m: Msg, ls: seq<Label>)
    requires st.phase == Casting(m, Range(|st.server.subs|)) && Serves(ls) == |st.server.subs|
    ensures forall c :: c in Recipients(cfg, st, ls) <==>
              c != m.source && exists e :: e in st.server.subs && e.client == c
  {
    AllMissesNobody(cfg, st, m, ls);
    hide Recipients, Serves, Run;
    var original, subs, sent := st.server.subs, Run(cfg, st, ls).server.subs, Recipients(cfg, st, ls);
    forall e | e in original && e.client != m.source ensures e.client in sent {
      if e in subs {
        var k :| 0 <= k < |subs| && subs[k] == e;
        assert Served(subs, k, m.source, sent);
      }
    }
  }

  // ---------- broadcast to a topic ----------

  /** The entries whose indices were collected, in the order of the visits. */
  function Intended(subs: seq<Sub>, todo: seq<nat>): (r: seq<Option<Sub>>)
    requires Increasing(todo, |subs|)
    ensures |r| == |todo|
  {
    seq(|todo|, i requires 0 <= i < |todo| => Some(subs[todo[|todo| - 1 - i]]))
  }

  /** If the coming iteration purges the client it sends to, that client has no entry at or below
      the index to be visited next. */
  ghost predicate SparesNext(cfg: Config, s: System)
    requires s.phase.Casting? && s.phase.todo != []
  {
    var todo, t, subs := s.phase.todo, Target(cfg, s), s.server.subs;
    t.Some? && DeliverTo(cfg, s.server, s.phase.m, t.value.0).crashed && |todo| > 1 ==>
      forall j :: 0 <= j < |subs| && j <= todo[|todo| - 2] ==> subs[j].client != t.value.0
  }

  /** No purge of a run shifts an entry that is still to be visited. */
  ghost predicate Steady(cfg: Config, st: System, ls: seq<Label>) {
    ls == [] ||
    var past := ls[..|ls| - 1];
    var s := Run(cfg, st, past);
    Steady(cfg, st, past) &&
    (ls[|ls| - 1] == Serve && s.phase.Casting? && s.phase.todo != [] ==> SparesNext(cfg, s))
  }

  /** The list below and at the next index is still the original one. */
  ghost predicate NextIntact(subs: seq<Sub>, original: seq<Sub>, todo: seq<nat>) {
    todo != [] ==>
      var b := todo[|todo| - 1] + 1;
      b <= |subs| && b <= |original| && subs[..b] == original[..b]
  }

  /** The entry at the next index is not the original one. */
  ghost predicate NextShifted(subs: seq<Sub>, original: seq<Sub>, todo: seq<nat>) {
    todo != [] && EntryAt(subs, todo[|todo| - 1]) != EntryAt(original, todo[|todo| - 1])
  }

  lemma PurgeShifts(subs: seq<Sub>, d: string, t: nat)
    requires NoDuplicates(subs) && t < |subs|
    ensures var rest := Drop(subs, OfClient(d));
      if forall j :: 0 <= j <= t ==> subs[j].client != d
      then t < |rest| && rest[..t + 1] == subs[..t + 1]
      else EntryAt(rest, t) != Some(subs[t])
  {
    var rest := Drop(subs, OfClient(d));
    if forall j :: 0 <= j <= t ==> subs[j].client != d {
      DropKeepsPrefix(subs, OfClient(d), t + 1);
    } else if t < |rest| {
      var k := DropShifts(subs, OfClient(d), t);
    }
  }

  lemma NextIntactAt(subs: seq<Sub>, original: seq<Sub>, todo: seq<nat>, i: nat)
    requires NextIntact(subs, original, todo)
    requires todo != [] && i <= todo[|todo| - 1]
    ensures i < |subs| && i < |original| && subs[i] == original[i]
    ensures subs[..i + 1] == original[..i + 1]
  {
    var b := todo[|todo| - 1] + 1;
    assert subs[i] == subs[..b][i] == original[..b][i];
    assert subs[..i + 1] == subs[..b][..i + 1];
  }

  /** A purge of `d` leaves the entry at `next` and those below in place exactly when `d` has no
      entry among them. */
  lemma {:induction false} PurgeAndNext(subs: seq<Sub>, original: seq<Sub>, rest: seq<nat>, d: string, next: nat)
    requires NoDuplicates(subs) && rest != [] && rest[|rest| - 1] == next
    requires next < |subs| && next < |original| && subs[next] == original[next]
    requires subs[..next + 1] == original[..next + 1]
    ensures (forall j :: 0 <= j <= next ==> subs[j].client != d) ==>
              NextIntact(Drop(subs, OfClient(d)), original, rest)
    ensures !(forall j :: 0 <= j <= next ==> subs[j].client != d) ==>
              NextShifted(Drop(subs, OfClient(d)), original, rest)
  {
    PurgeShifts(subs, d, next);
    var kept := Drop(subs, OfClient(d));
    if forall j :: 0 <= j <= next ==> subs[j].client != d {
      assert kept[..next + 1] == original[..next + 1];
    } else {
      assert EntryAt(kept, next) != EntryAt(original, next);
    }
  }

  lemma IntactIteration(cfg: Config, s: System, original: seq<Sub>)
    requires s.phase.Casting? && s.phase.todo != []
    requires NoDuplicates(s.server.subs) && Increasing(s.phase.todo, |original|)
    requires NextIntact(s.server.subs, original, s.phase.todo)
    ensures var todo, subs' := s.phase.todo, Step(cfg, s, Serve).server.subs;
      && EntryAt(s.server.subs, todo[|todo| - 1]) == Some(original[todo[|todo| - 1]])
      && (if SparesNext(cfg, s) then NextIntact(subs', original, todo[..|todo| - 1])
          else NextShifted(subs', original, todo[..|todo| - 1]))
  {
    hide Step, Target, DeliverTo, Drop;
    var todo, subs, t := s.phase.todo, s.server.subs, Target(cfg, s);
    var rest := todo[..|todo| - 1];
    IterationShrinks(cfg, s);
    NextIntactAt(subs, original, todo, todo[|todo| - 1]);
    if rest != [] {
      var next := rest[|rest| - 1];
      assert next == todo[|todo| - 2];
      NextIntactAt(subs, original, todo, next);
      if t.Some? { PurgeAndNext(subs, original, rest, t.value.0, next); }
    }
  }

  /** After `k` visits: while steady, they were the intended ones and the next entry is in place;
      otherwise some visit was not the intended one, or the next one is not going to be. */
  ghost predicate Track(original: seq<Sub>, todo: seq<nat>, k: nat, steady: bool,
                        visits: seq<Option<Sub>>, subs: seq<Sub>)
    requires Increasing(todo, |original|) && k <= |todo|
  {
    var plan, rest := Intended(original, todo), todo[..|todo| - k];
    && |visits| == k
    && (if steady then visits == plan[..k] && NextIntact(subs, original, rest)
        else visits != plan[..k] || NextShifted(subs, original, rest))
  }

  lemma TrackGrows(original: seq<Sub>, todo: seq<nat>, k: nat, steady: bool, spared: bool,
                   visits: seq<Option<Sub>>, subs: seq<Sub>, subs': seq<Sub>)
    requires Increasing(todo, |original|) && k < |todo|
    requires Track(original, todo, k, steady, visits, subs)
    requires var rest := todo[..|todo| - k - 1];
      steady ==> if spared then NextIntact(subs', original, rest) else NextShifted(subs', original, rest)
    ensures Track(original, todo, k + 1, steady && spared,
                  visits + [EntryAt(subs, todo[|todo| - 1 - k])], subs')
  {
    var plan, last := Intended(original, todo), todo[|todo| - 1 - k];
    var seen := visits + [EntryAt(subs, last)];
    assert plan[..k + 1][..k] == plan[..k] && plan[..k + 1][k] == plan[k] == Some(original[last]);
    assert seen[..k] == visits && seen[k] == EntryAt(subs, last);
    if steady {
      assert subs[last] == subs[..last + 1][last] == original[last];
      assert seen == plan[..k + 1];
    }
  }

  lemma IterationIsTracked(cfg: Config, s: System, original: seq<Sub>, todo: seq<nat>, k: nat,
                           steady: bool, visits: seq<Option<Sub>>)
    requires Increasing(todo, |original|) && k < |todo| && Inv(cfg, s)
    requires s.phase.Casting? && s.phase.todo == todo[..|todo| - k]
    requires Track(original, todo, k, steady, visits, s.server.subs)
    ensures Track(original, todo, k + 1, steady && SparesNext(cfg, s),
                  visits + [EntryAt(s.server.subs, todo[|todo| - 1 - k])], Step(cfg, s, Serve).server.subs)
  {
    assert s.phase.todo[..|todo| - k - 1] == todo[..|todo| - k - 1];
    if steady { IntactIteration(cfg, s, original); }
    TrackGrows(original, todo, k, steady, SparesNext(cfg, s), visits, s.server.subs, Step(cfg, s, Serve).server.subs);
  }

  lemma LastLabel(cfg: Config, st: System, ls: seq<Label>)
    requires ls != []
    ensures var past := ls[..|ls| - 1];
      var s := Run(cfg, st, past);
      var iterates := ls[|ls| - 1] == Serve && s.phase.Casting? && s.phase.todo != [];
      && Run(cfg, st, ls) == Step(cfg, s, ls[|ls| - 1])
      && Serves(ls) == Serves(past) + (if ls[|ls| - 1] == Serve then 1 else 0)
      && (if iterates then
            && Visits(cfg, st, ls) == Visits(cfg, st, past) + [EntryAt(s.server.subs, s.phase.todo[|s.phase.todo| - 1])]
            && (Steady(cfg, st, ls) <==> Steady(cfg, st, past) && SparesNext(cfg, s))
          else
            && Visits(cfg, st, ls) == Visits(cfg, st, past)
            && (Steady(cfg, st, ls) <==> Steady(cfg, st, past)))
  {
  }

  lemma {:induction false} LoopIsTracked(cfg: Config, st: System, m: Msg, todo: seq<nat>, ls: seq<Label>)
    requires Inv(cfg, st) && st.phase == Casting(m, todo)
    requires Increasing(todo, |st.server.subs|) && Serves(ls) <= |todo|
    ensures Inv(cfg, Run(cfg, st, ls))
    ensures Track(st.server.subs, todo, Serves(ls), Steady(cfg, st, ls),
                  Visits(cfg, st, ls), Run(cfg, st, ls).server.subs)
  {
    hide *;
    var original := st.server.subs;
    if ls == [] {
      NothingVisited(cfg, st, todo, ls);
    } else {
      var past, l := ls[..|ls| - 1], ls[|ls| - 1];
      var s, k := Run(cfg, st, past), Serves(past);
      LastLabel(cfg, st, ls);
      LoopIsTracked(cfg, st, m, todo, past);
      StepKeepsInv(cfg, s, l);
      if l != Serve {
        OthersKeepTheLoop(cfg, s, l);
      } else {
        LoopPhase(cfg, st, m, todo, past);
        IterationIsTracked(cfg, s, original, todo, k, Steady(cfg, st, past), Visits(cfg, st, past));
      }
    }
  }

  lemma NothingVisited(cfg: Config, st: System, todo: seq<nat>, ls: seq<Label>)
    requires ls == [] && Increasing(todo, |st.server.subs|)
    ensures Run(cfg, st, ls) == st
    ensures Track(st.server.subs, todo, Serves(ls), Steady(cfg, st, ls), Visits(cfg, st, ls), st.server.subs)
  {
    var original := st.server.subs;
    assert todo[..|todo|] == todo;
    if todo != [] {
      assert original[..todo[|todo| - 1] + 1] == original[..todo[|todo| - 1] + 1];
    }
  }

  /** Every iteration of a broadcast loop looks at the very entry whose index was collected for it
      if and only if no purge during the loop removes an entry at or below the next index. */
  lemma VisitsAreIntended(cfg: Config, st: System, m: Msg, todo: seq<nat>, ls: seq<Label>)
    requires Inv(cfg, st) && st.phase == Casting(m, todo)
    requires Increasing(todo, |st.server.subs|) && Serves(ls) == |todo|
    ensures Visits(cfg, st, ls) == Intended(st.server.subs, todo) <==> Steady(cfg, st, ls)
  {
    LoopIsTracked(cfg, st, m, todo, ls);
    var plan := Intended(st.server.subs, todo);
    assert plan[..|todo|] == plan;
  }

  // ---------- who receives a topic broadcast ----------

  /** The clients sent to when the loop sees `visits`: all but the source, in order. */
  function Addressed(visits: seq<Option<Sub>>, source: string): seq<string> {
    if visits == [] then []
    else
      var v := visits[|visits| - 1];
      Addressed(visits[..|visits| - 1], source) +
      if v.Some? && v.value.client != source then [v.value.client] else []
  }

  lemma AddressedSnoc(visits: seq<Option<Sub>>, v: Option<Sub>, source: string)
    ensures Addressed(visits + [v], source) ==
            Addressed(visits, source) + if v.Some? && v.value.client != source then [v.value.client] else []
  {
    assert (visits + [v])[..|visits|] == visits;
  }

  lemma {:induction false} RecipientsAreAddressed(cfg: Config, st: System, m: Msg, todo: seq<nat>, ls: seq<Label>)
    requires st.phase == Casting(m, todo) && Serves(ls) <= |todo|
    ensures Recipients(cfg, st, ls) == Addressed(Visits(cfg, st, ls), m.source)
  {
    assert Addressed([], m.source) == [];
    hide Run, Step, Target, Addressed;
    if ls != [] {
      var past := ls[..|ls| - 1];
      RecipientsAreAddressed(cfg, st, m, todo, past);
      LoopPhase(cfg, st, m, todo, past);
      var s, seen, got := Run(cfg, st, past), Visits(cfg, st, past), Recipients(cfg, st, past);
      if ls[|ls| - 1] == Serve {
        var v := EntryAt(s.server.subs, s.phase.todo[|s.phase.todo| - 1]);
        assert Visits(cfg, st, ls) == seen + [v];
        AddressedSnoc(seen, v, m.source);
        TargetIsVisited(cfg, s);
      } else {
        assert Visits(cfg, st, ls) == seen && Recipients(cfg, st, ls) == got;
      }
    }
  }

  ghost predicate DistinctClients(visits: seq<Option<Sub>>) {
    && (forall i :: 0 <= i < |visits| ==> visits[i].Some?)
    && (forall i, j :: 0 <= i < j < |visits| ==> visits[i].value.client != visits[j].value.client)
  }

  ghost predicate Visited(visits: seq<Option<Sub>>, c: string) {
    exists i :: 0 <= i < |visits| && visits[i].Some? && visits[i].value.client == c
  }

  lemma {:induction false} AddressedOnce(visits: seq<Option<Sub>>, source: string)
    requires DistinctClients(visits)
    ensures NoDuplicates(Addressed(visits, source))
    ensures forall c :: c in Addressed(visits, source) <==> c != source && Visited(visits, c)
  {
    if visits != [] {
      var n := |visits| - 1;
      var front, last := visits[..n], visits[n].value.client;
      AddressedOnce(front, source);
      assert !Visited(front, last);
      forall c ensures Visited(visits, c) <==> Visited(front, c) || c == last {
        if Visited(front, c) {
          var i :| 0 <= i < n && front[i].value.client == c;
          assert visits[i].value.client == c;
        }
        if Visited(visits, c) && c != last {
          var i :| 0 <= i < n + 1 && visits[i].value.client == c;
          assert front[i].value.client == c;
        }
      }
    }
  }

  /** `todo` holds the indices of the subscribers of a topic, in increasing order. */
  ghost predicate IndicesOf(subs: seq<Sub>, topic: string, todo: seq<nat>) {
    && Increasing(todo, |subs|)
    && (forall i :: 0 <= i < |todo| ==> subs[todo[i]].topic == topic)
    && (forall c :: Sub(c, topic) in subs ==> exists i :: 0 <= i < |todo| && subs[todo[i]] == Sub(c, topic))
  }

  lemma WhereIsIndices(subs: seq<Sub>, topic: string)
    ensures IndicesOf(subs, topic, Where(subs, OnTopic(topic)))
  {
    var todo := Where(subs, OnTopic(topic));
    WhereIsExact(subs, OnTopic(topic));
    forall i | 0 <= i < |todo| ensures subs[todo[i]].topic == topic {
      WhereHolds(subs, OnTopic(topic), i);
    }
    forall c | Sub(c, topic) in subs ensures exists i :: 0 <= i < |todo| && subs[todo[i]] == Sub(c, topic) {
      var k :| 0 <= k < |subs| && subs[k] == Sub(c, topic);
      var i := WhereFinds(subs, OnTopic(topic), k);
      assert subs[todo[i]] == Sub(c, topic);
    }
  }

  lemma PlanIsDistinct(subs: seq<Sub>, topic: string, todo: seq<nat>)
    requires NoDuplicates(subs) && IndicesOf(subs, topic, todo)
    ensures DistinctClients(Intended(subs, todo))
  {
    var plan, n := Intended(subs, todo), |todo|;
    forall i, j | 0 <= i < j < |plan| ensures plan[i].value.client != plan[j].value.client {
      assert todo[n - 1 - j] < todo[n - 1 - i];
    }
  }

  lemma PlanIsSubscribers(subs: seq<Sub>, topic: string, todo: seq<nat>, c: string)
    requires IndicesOf(subs, topic, todo)
    ensures Visited(Intended(subs, todo), c) <==> Sub(c, topic) in subs
  {
    var plan, n := Intended(subs, todo), |todo|;
    if Sub(c, topic) in subs {
      var i :| 0 <= i < n && subs[todo[i]] == Sub(c, topic);
      assert plan[n - 1 - i] == Some(subs[todo[i]]);
    }
    if Visited(plan, c) {
      var i :| 0 <= i < n && plan[i].value.client == c;
      assert subs[todo[n - 1 - i]] == Sub(c, topic);
    }
  }

  /** A finished topic broadcast whose purges never shift an entry still to be visited sends
      exactly once to every subscriber of the topic but the source, and to nobody else. */
  lemma SteadyReachesEachOnce(cfg: Config, st: System, m: Msg, ls: seq<Label>)
    requires Inv(cfg, st) && m.topic != ALL
    requires st.phase == Casting(m, Targets(st.server.subs, m))
    requires Serves(ls) == |Targets(st.server.subs, m)| && Steady(cfg, st, ls)
    ensures NoDuplicates(Recipients(cfg, st, ls))
    ensures forall c :: c in Recipients(cfg, st, ls) <==>
              c != m.source && Sub(c, m.topic) in st.server.subs
  {
    var subs, todo := st.server.subs, Targets(st.server.subs, m);
    assert todo == Where(subs, OnTopic(m.topic));
    WhereIsIndices(subs, m.topic);
    PlanIsDistinct(subs, m.topic, todo);
    VisitsAreIntended(cfg, st, m, todo, ls);
    RecipientsAreAddressed(cfg, st, m, todo, ls);
    AddressedOnce(Intended(subs, todo), m.source);
    forall c ensures Visited(Intended(subs, todo), c) <==> Sub(c, m.topic) in subs {
      PlanIsSubscribers(subs, m.topic, todo, c);
    }
  }
}
