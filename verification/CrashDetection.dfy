/** When a client is declared crashed: soundness for every interleaving, and exactness. */
module CrashDetection {
  import opened Messages
  import opened Monitor
  import opened Broker
  import opened ClientView

  /** From `from` up to `to` the log holds only sends that found the client's queue full. */
  ghost predicate Overflowing(cfg: Config, c: string, log: seq<Act>, from: nat, to: nat)
    requires from <= to <= |log|
  {
    forall j :: from <= j < to ==> log[j].Sent? && Full(cfg, After(cfg, c, log[..j]))
  }

  /** The message is `n` places from the end of the client's queue, or no longer in it. */
  ghost predicate Position(v: View, first: Msg, n: nat) {
    var q := v.queue.msgs;
    n < |q| ==> q[|q| - 1 - n] == first
  }

  /** From `from` on, no send reached a queue with a name. */
  ghost predicate NoSends(cfg: Config, c: string, log: seq<Act>, from: nat) {
    forall j :: from <= j < |log| && log[j].Sent? ==> !After(cfg, c, log[..j]).queue.linked
  }

  /** The entry `e` holds the text of the message `first`; of a response, with its source and its topic
      exchanged. */
  ghost predicate Records(e: Payload, first: Msg) {
    && e.data == first.data
    && (if first.tag == Response then e.source == first.topic && e.topic == first.source
        else e.source == first.source && e.topic == first.topic)
  }

  /** The monitor entry `e` present after `log` was created by the send at `p`:
      the sends after `p` that were counted follow `p` directly and all found the queue full,
      whatever came later left the queue with room or without a name,
      and the recorded message is `sendCount` places from the end of the queue, or gone. */
  ghost predicate Origin(cfg: Config, c: string, log: seq<Act>, e: Payload, p: nat) {
    var v, n := After(cfg, c, log), e.sendCount;
    && p + n < |log|
    && After(cfg, c, log[..p]).entry == None
    && Overflowing(cfg, c, log, p, p + n + 1)
    && e.client == c && Records(e, log[p].m)
    && (p + n + 1 < |log| ==> !Full(cfg, v))
    && NoSends(cfg, c, log, p + n + 1)
    && Position(v, log[p].m, n)
  }

  /** A further send that finds the queue full is counted, and moves the record by one place. */
  lemma CountedSend(cfg: Config, c: string, v: View, m: Msg, first: Msg, e: Payload)
    requires v.entry == Some(e) && Full(cfg, v) && Deliverable(m)
    requires Position(v, first, e.sendCount)
    requires Apply(cfg, c, v, Sent(m)).entry.Some?
    ensures var v' := Apply(cfg, c, v, Sent(m));
      && v'.entry == Some(e.(sendCount := e.sendCount + 1))
      && Position(v', first, e.sendCount + 1)
  {
    var q, n := v.queue.msgs, e.sendCount;
    var q' := Apply(cfg, c, v, Sent(m)).queue.msgs;
    assert q' == q[1..] + [m];
    if n + 1 < |q'| {
      assert q'[|q'| - 1 - (n + 1)] == q[|q| - 1 - n];
    }
  }

  /** Everything else keeps the count, and the distance of the record from the end. */
  lemma UncountedAct(cfg: Config, c: string, v: View, a: Act, first: Msg, n: nat)
    requires a.Sent? ==> !v.queue.linked
    requires |v.queue.msgs| <= cfg.cap && Position(v, first, n)
    ensures var v' := Apply(cfg, c, v, a);
      && v'.entry == v.entry && Position(v', first, n) && !Full(cfg, v')
  {
  }

  lemma {:induction false} OverflowingGrows(cfg: Config, c: string, log: seq<Act>, a: Act, from: nat, to: nat)
    requires from <= to <= |log| && Overflowing(cfg, c, log, from, to)
    ensures Overflowing(cfg, c, log + [a], from, to)
    ensures (log + [a])[..from] == log[..from] && (log + [a])[..|log|] == log
  {
    forall j | from <= j < to
      ensures (log + [a])[j].Sent? && Full(cfg, After(cfg, c, (log + [a])[..j]))
    {
      assert (log + [a])[..j] == log[..j] && (log + [a])[j] == log[j];
    }
  }

  lemma {:induction false} NoSendsGrows(cfg: Config, c: string, log: seq<Act>, a: Act, from: nat)
    requires from <= |log| && NoSends(cfg, c, log, from)
    requires a.Sent? ==> !After(cfg, c, log).queue.linked
    ensures NoSends(cfg, c, log + [a], from)
  {
    forall j | from <= j < |log| + 1 && (log + [a])[j].Sent?
      ensures !After(cfg, c, (log + [a])[..j]).queue.linked
    {
      assert (log + [a])[..j] == log[..j];
      assert j < |log| ==> (log + [a])[j] == log[j];
    }
  }

  lemma {:induction false} CountedLog(cfg: Config, c: string, log: seq<Act>, m: Msg, p: nat)
    requires p < |log| && Overflowing(cfg, c, log, p, |log|) && Full(cfg, After(cfg, c, log))
    ensures var grown := log + [Sent(m)];
      && grown[..p] == log[..p] && grown[p] == log[p]
      && Overflowing(cfg, c, grown, p, |grown|) && NoSends(cfg, c, grown, |grown|)
  {
    var grown := log + [Sent(m)];
    forall j | p <= j < |grown| ensures grown[j].Sent? && Full(cfg, After(cfg, c, grown[..j])) {
      assert grown[..j] == log[..j];
      if j == |log| { assert log[..j] == log; }
    }
  }

  lemma {:induction false} OriginCounts(cfg: Config, c: string, log: seq<Act>, m: Msg, e: Payload, p: nat)
    requires Origin(cfg, c, log, e, p) && After(cfg, c, log).entry == Some(e)
    requires Deliverable(m) && Full(cfg, After(cfg, c, log))
    requires Apply(cfg, c, After(cfg, c, log), Sent(m)).entry.Some?
    ensures Origin(cfg, c, log + [Sent(m)], Apply(cfg, c, After(cfg, c, log), Sent(m)).entry.value, p)
  {
    hide Apply, Deliver, Overflowing, NoSends, Position, After, Recorded;
    var v, grown := After(cfg, c, log), log + [Sent(m)];
    var v' := Apply(cfg, c, v, Sent(m));
    AfterSnoc(cfg, c, log, Sent(m));
    CountedLog(cfg, c, log, m, p);
    CountedSend(cfg, c, v, m, log[p].m, e);
    assert After(cfg, c, grown) == v' && |grown| == p + e.sendCount + 2;
  }

  lemma {:induction false} OriginStays(cfg: Config, c: string, log: seq<Act>, a: Act, e: Payload, p: nat)
    requires Origin(cfg, c, log, e, p) && After(cfg, c, log).entry == Some(e)
    requires a.Sent? ==> !After(cfg, c, log).queue.linked
    requires |After(cfg, c, log).queue.msgs| <= cfg.cap
    ensures Origin(cfg, c, log + [a], e, p)
  {
    AfterSnoc(cfg, c, log, a);
    OverflowingGrows(cfg, c, log, a, p, p + e.sendCount + 1);
    assert (log + [a])[p] == log[p];
    UncountedAct(cfg, c, After(cfg, c, log), a, log[p].m, e.sendCount);
    NoSendsGrows(cfg, c, log, a, p + e.sendCount + 1);
  }

  lemma {:induction false} OriginGrows(cfg: Config, c: string, log: seq<Act>, a: Act, e: Payload, p: nat, v': View)
    requires Origin(cfg, c, log, e, p) && After(cfg, c, log).entry == Some(e)
    requires a.Sent? ==> Deliverable(a.m)
    requires v' == Apply(cfg, c, After(cfg, c, log), a) && v'.entry.Some?
    requires |After(cfg, c, log).queue.msgs| <= cfg.cap
    ensures Origin(cfg, c, log + [a], v'.entry.value, p)
  {
    if a.Sent? && After(cfg, c, log).queue.linked {
      OriginCounts(cfg, c, log, a.m, e, p);
    } else {
      OriginStays(cfg, c, log, a, e, p);
    }
  }

  /** Every monitor entry has an origin, whatever sends and reads came before. */
  lemma {:induction false} EntryHasOrigin(cfg: Config, c: string, log: seq<Act>) returns (p: nat)
    requires AllDeliverable(log) && After(cfg, c, log).entry.Some?
    ensures Origin(cfg, c, log, After(cfg, c, log).entry.value, p)
  {
    var n := |log| - 1;
    var past, a := log[..n], log[n];
    assert log == past + [a];
    var v := After(cfg, c, past);
    AfterSnoc(cfg, c, past, a);
    QueueIsBounded(cfg, c, past);
    if v.entry.Some? {
      p := EntryHasOrigin(cfg, c, past);
      OriginGrows(cfg, c, past, a, v.entry.value, p, After(cfg, c, log));
    } else {
      p := n;
    }
  }

  /** On a send of `m`, the message taken out of the full queue, `popped`, is held to be the one at the
      first overflow, `first`: they have the same text if neither `first` nor `m` is a response; else
      what is compared with what depends on which of them is. */
  ghost predicate SeemsRecorded(first: Msg, popped: Msg, m: Msg) {
    && popped.data == first.data
    && match (first.tag == Response, m.tag == Response)
       case (false, false) => popped.source == first.source && popped.topic == first.topic
       case (false, true) => popped.source == first.source == first.topic
       case (true, false) => popped.source == first.topic && popped.topic == first.source
       case (true, true) => popped.source == first.topic == first.source
  }

  /** A client declared crashed has read nothing since its entry was created, and the send that
      declares it is at least the `maxMsg`-th further one that found its queue full. */
  lemma {:induction false} CrashIsSound(cfg: Config, c: string, log: seq<Act>, m: Msg) returns (p: nat)
    requires AllDeliverable(log) && Hit(cfg, After(cfg, c, log), m, c).crashed
    ensures p < |log| && After(cfg, c, log[..p]).entry == None
    ensures Overflowing(cfg, c, log, p, |log|) && Full(cfg, After(cfg, c, log))
    ensures |log| - p >= cfg.maxMsg && m.tag != Response
    ensures SeemsRecorded(log[p].m, After(cfg, c, log).queue.msgs[0], m)
  {
    p := EntryHasOrigin(cfg, c, log);
  }

  // ---------- a client that reads nothing ----------

  predicate IsRequest(m: Msg) {
    m.tag == RequestSend || m.tag == RequestSendTo
  }

  ghost predicate AllRequests(ms: seq<Msg>) {
    forall i :: 0 <= i < |ms| ==> IsRequest(ms[i])
  }

  ghost predicate AllCanBeSent(ms: seq<Msg>) {
    forall i :: 0 <= i < |ms| ==> Deliverable(ms[i])
  }

  predicate SameText(a: Msg, b: Msg) {
    a.source == b.source && a.topic == b.topic && a.data == b.data
  }

  function Burst(cfg: Config, c: string, v: View, ms: seq<Msg>): View {
    if ms == [] then v
    else Apply(cfg, c, Burst(cfg, c, v, ms[..|ms| - 1]), Sent(ms[|ms| - 1]))
  }

  /** The send number `j` (from 0) reports failure: the client is taken to be gone. */
  predicate GivesUpAt(cfg: Config, c: string, v: View, ms: seq<Msg>, j: nat)
    requires j < |ms|
  {
    !Hit(cfg, Burst(cfg, c, v, ms[..j]), ms[j], c).ok
  }

  /** The send number `j` declares the client crashed and purges it. */
  predicate CrashesAt(cfg: Config, c: string, v: View, ms: seq<Msg>, j: nat)
    requires j < |ms|
  {
    Hit(cfg, Burst(cfg, c, v, ms[..j]), ms[j], c).crashed
  }

  ghost predicate FullAndUnmonitored(cfg: Config, v: View) {
    v.queue.linked && |v.queue.msgs| == cfg.cap && v.entry == None
  }

  ghost predicate NoneBefore(cfg: Config, c: string, v: View, ms: seq<Msg>, j: nat)
    requires j <= |ms|
  {
    forall i :: 0 <= i < j ==> !GivesUpAt(cfg, c, v, ms, i)
  }

  lemma NoneBeforePrefix(cfg: Config, c: string, v: View, ms: seq<Msg>, j: nat)
    requires j <= |ms| && NoneBefore(cfg, c, v, ms, j)
    ensures NoneBefore(cfg, c, v, ms[..j], j)
  {
    forall i | 0 <= i < j ensures !GivesUpAt(cfg, c, v, ms[..j], i) {
      assert ms[..j][..i] == ms[..i];
      assert !GivesUpAt(cfg, c, v, ms, i);
    }
  }

  /** A send to a full queue that does not fail rotates it and is counted. */
  lemma CountedInBurst(cfg: Config, c: string, b: View, m: Msg)
    requires b.queue.linked && |b.queue.msgs| == cfg.cap && Deliverable(m) && Hit(cfg, b, m, c).ok
    ensures Apply(cfg, c, b, Sent(m)) == View(Queue(b.queue.msgs[1..] + [m], true), Some(Count(m, b.entry, c)))
  {
    hide Matches, Count;
  }

  lemma WindowSlides(q: seq<Msg>, ms: seq<Msg>)
    requires q != [] && ms != []
    ensures var n := |ms| - 1;
      (q + ms)[|ms|..] == (q + ms[..n])[n..][1..] + [ms[n]]
  {
  }

  /** While no send has failed, the queue is the last `cap` of all messages, and the entry still
      records the first of the burst. */
  lemma {:induction false} BurstState(cfg: Config, c: string, v: View, ms: seq<Msg>)
    requires FullAndUnmonitored(cfg, v) && AllCanBeSent(ms)
    requires NoneBefore(cfg, c, v, ms, |ms|)
    ensures var b := Burst(cfg, c, v, ms);
      && b.queue == Queue((v.queue.msgs + ms)[|ms|..], true)
      && b.entry == if ms == [] then None else Some(Recorded(ms[0], c).(sendCount := |ms| - 1))
  {
    hide Hit, Apply, Deliver;
    if ms != [] {
      var n := |ms| - 1;
      NoneBeforePrefix(cfg, c, v, ms, n);
      BurstState(cfg, c, v, ms[..n]);
      assert !GivesUpAt(cfg, c, v, ms, n);
      CountedInBurst(cfg, c, Burst(cfg, c, v, ms[..n]), ms[n]);
      WindowSlides(v.queue.msgs, ms);
    }
  }

  /** Exactly when a silent client is first given up, for any configuration, tags and contents: at
      a send numbered at least `maxMsg` that pushes out a message held to be the first one. It is purged
      as well, and its queue loses its name, exactly if that send is a request; the queue is rotated
      and the entry removed in either case. */
  lemma FirstGivenUp(cfg: Config, c: string, v: View, ms: seq<Msg>, j: nat)
    requires FullAndUnmonitored(cfg, v) && AllCanBeSent(ms) && j < |ms|
    requires NoneBefore(cfg, c, v, ms, j)
    ensures GivesUpAt(cfg, c, v, ms, j) <==> j >= cfg.maxMsg && SeemsRecorded(ms[0], (v.queue.msgs + ms)[j], ms[j])
    ensures CrashesAt(cfg, c, v, ms, j) <==> GivesUpAt(cfg, c, v, ms, j) && IsRequest(ms[j])
    ensures GivesUpAt(cfg, c, v, ms, j) ==>
              var window := (v.queue.msgs + ms)[j + 1..j + 1 + cfg.cap];
              Apply(cfg, c, Burst(cfg, c, v, ms[..j]), Sent(ms[j])) ==
                View(Queue(window, ms[j].tag == Response), None)
  {
    NoneBeforePrefix(cfg, c, v, ms, j);
    BurstState(cfg, c, v, ms[..j]);
    assert (v.queue.msgs + ms[..j])[j] == (v.queue.msgs + ms)[j];
    assert (v.queue.msgs + ms[..j])[j..][1..] + [ms[j]] == (v.queue.msgs + ms)[j + 1..j + 1 + cfg.cap];
  }

  /** After a first overflow by a request, a response gives the silent client up only if the request's
      source was named like its topic. */
  lemma {:induction false} ResponseAfterRequests(cfg: Config, c: string, v: View, ms: seq<Msg>, j: nat)
    requires FullAndUnmonitored(cfg, v) && AllCanBeSent(ms) && j < |ms|
    requires NoneBefore(cfg, c, v, ms, j) && IsRequest(ms[0]) && ms[j].tag == Response
    ensures var popped := (v.queue.msgs + ms)[j];
      GivesUpAt(cfg, c, v, ms, j) <==>
        j >= cfg.maxMsg && popped.source == ms[0].source == ms[0].topic && popped.data == ms[0].data
    ensures !CrashesAt(cfg, c, v, ms, j)
  {
    FirstGivenUp(cfg, c, v, ms, j);
  }

  /** With client queues as long as the configured `max_msg`, a silent client that is sent requests
      is declared crashed at exactly the (cap + 1)-th overflow, never earlier, and the message
      pushed out then is the one recorded at the first overflow. */
  lemma {:induction false} CrashIsExact(cfg: Config, c: string, v: View, ms: seq<Msg>, j: nat)
    requires cfg.cap == cfg.maxMsg
    requires FullAndUnmonitored(cfg, v) && AllRequests(ms) && j < |ms| && j <= cfg.cap
    ensures CrashesAt(cfg, c, v, ms, j) <==> j == cfg.cap
    ensures GivesUpAt(cfg, c, v, ms, j) <==> j == cfg.cap
    ensures j == cfg.cap ==>
              var d := Hit(cfg, Burst(cfg, c, v, ms[..j]), ms[j], c);
              && d.oldest == ms[0] && d.entry == None && d.queue == Queue(ms[1..j + 1], false)
  {
    hide Burst, After;
    forall i | 0 <= i < j ensures !GivesUpAt(cfg, c, v, ms, i) {
      CrashIsExact(cfg, c, v, ms, i);
    }
    FirstGivenUp(cfg, c, v, ms, j);
    if j == cfg.cap {
      NoneBeforePrefix(cfg, c, v, ms, j);
      BurstState(cfg, c, v, ms[..j]);
      assert (v.queue.msgs + ms[..j])[j..] == ms[..j];
      assert ms[..j][1..] + [ms[j]] == ms[1..j + 1];
    }
  }

  ghost predicate DistinctTexts(ms: seq<Msg>) {
    forall a, b :: 0 <= a < b < |ms| ==> !SameText(ms[b], ms[a])
  }

  lemma {:induction false} DistinctTextsGiveUp(cfg: Config, c: string, v: View, ms: seq<Msg>, j: nat)
    requires FullAndUnmonitored(cfg, v) && AllRequests(ms) && DistinctTexts(v.queue.msgs + ms)
    requires j < |ms| && (j <= cfg.cap || cfg.maxMsg > cfg.cap)
    ensures GivesUpAt(cfg, c, v, ms, j) <==> j == cfg.cap && cfg.maxMsg <= cfg.cap
    ensures CrashesAt(cfg, c, v, ms, j) <==> j == cfg.cap && cfg.maxMsg <= cfg.cap
  {
    forall i | 0 <= i < j ensures !GivesUpAt(cfg, c, v, ms, i) {
      DistinctTextsGiveUp(cfg, c, v, ms, i);
    }
    var all := v.queue.msgs + ms;
    FirstGivenUp(cfg, c, v, ms, j);
    assert all[cfg.cap] == ms[0];
    assert j > cfg.cap ==> !SameText(all[j], all[cfg.cap]);
    assert j < cfg.cap ==> !SameText(all[cfg.cap], all[j]);
  }

  /** A purged client's queue has no name, so later sends are neither stored nor counted. */
  lemma {:induction false} StaysUnlinked(cfg: Config, c: string, v: View, ms: seq<Msg>, i: nat, j: nat)
    requires i < j <= |ms| && CrashesAt(cfg, c, v, ms, i)
    ensures !Burst(cfg, c, v, ms[..j]).queue.linked
    decreases |ms[..j]|
  {
    assert ms[..j][..j - 1] == ms[..j - 1] && ms[..j][j - 1] == ms[j - 1];
    if i < j - 1 { StaysUnlinked(cfg, c, v, ms, i, j - 1); }
  }

  /** For requests of pairwise different text, a silent client is ever declared crashed only if
      `max_msg` is at most the queue capacity, and then at exactly the (cap + 1)-th overflow. */
  lemma {:induction false} DistinctTextsCrash(cfg: Config, c: string, v: View, ms: seq<Msg>, j: nat)
    requires FullAndUnmonitored(cfg, v) && AllRequests(ms) && j < |ms|
    requires DistinctTexts(v.queue.msgs + ms)
    ensures CrashesAt(cfg, c, v, ms, j) <==> j == cfg.cap && cfg.maxMsg <= cfg.cap
  {
    if j <= cfg.cap || cfg.maxMsg > cfg.cap {
      DistinctTextsGiveUp(cfg, c, v, ms, j);
    } else {
      DistinctTextsGiveUp(cfg, c, v, ms, cfg.cap);
      StaysUnlinked(cfg, c, v, ms, cfg.cap, j);
    }
  }

  /** If the first overflow of a silent client was a response, the client is never given up, whatever
      is sent to it afterwards, when `max_msg` is at least the queue capacity and no message comes
      from a client named like that response's topic: the record keeps the topic where the comparison
      looks for the source. */
  lemma {:induction false} ResponseFirstNeverDetects(cfg: Config, c: string, v: View, ms: seq<Msg>, j: nat)
    requires cfg.cap <= cfg.maxMsg
    requires FullAndUnmonitored(cfg, v) && AllCanBeSent(ms) && j < |ms|
    requires ms[0].tag == Response && forall i :: 0 <= i < |ms| ==> ms[i].source != ms[0].topic
    ensures !GivesUpAt(cfg, c, v, ms, j)
  {
    forall i | 0 <= i < j ensures !GivesUpAt(cfg, c, v, ms, i) {
      ResponseFirstNeverDetects(cfg, c, v, ms, i);
    }
    FirstGivenUp(cfg, c, v, ms, j);
    assert j >= cfg.cap ==> (v.queue.msgs + ms)[j] == ms[j - cfg.cap];
  }

  /** In particular a silent client that is sent nothing but its own responses, for topics that are
      not its name. */
  lemma {:induction false} ResponsesNeverDetect(cfg: Config, c: string, v: View, ms: seq<Msg>, j: nat)
    requires cfg.cap <= cfg.maxMsg
    requires FullAndUnmonitored(cfg, v) && j < |ms|
    requires forall i :: 0 <= i < |ms| ==> ms[i].tag == Response && ms[i].source == c && ms[i].topic != c
    ensures !GivesUpAt(cfg, c, v, ms, j)
  {
    ResponseFirstNeverDetects(cfg, c, v, ms, j);
  }
}
