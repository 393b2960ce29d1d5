/** The server's receive loop handles, through the system's own steps, exactly the messages it receives
    before it stops. */
module ServerLoop {
  import opened Messages
  import opened Broker
  import opened Network
  import opened HmxServer

  /** The messages among some arrivals, in order. */
  function ReceivedIn(arrivals: seq<Arrival>): seq<Msg> {
    if arrivals == [] then []
    else (if arrivals[0].Received? then [arrivals[0].m] else []) + ReceivedIn(arrivals[1..])
  }

  /** The loop stops at arrival `k`, or the arrivals end there: four receives have not failed before
      without a message in between, and the next one is such a failure. */
  ghost predicate StopsBefore(errors: nat, arrivals: seq<Arrival>, k: nat) {
    && k <= |arrivals|
    && (forall j :: 0 <= j <= k ==> Failures(errors, arrivals[..j]) < 4)
    && (k < |arrivals| ==> Failures(errors, arrivals[..k + 1]) >= 4)
  }

  lemma StopsBeforeTail(errors: nat, arrivals: seq<Arrival>, k: nat)
    requires StopsBefore(errors, arrivals, k) && k > 0
    ensures k <= |arrivals| && Failures(errors, arrivals[..1]) < 4
    ensures StopsBefore(Failures(errors, arrivals[..1]), arrivals[1..], k - 1)
  {
    var next, rest := Failures(errors, arrivals[..1]), arrivals[1..];
    hide Failures;
    forall j | 0 <= j < |arrivals| ensures Failures(next, rest[..j]) == Failures(errors, arrivals[..j + 1]) {
      FailuresFromFront(errors, arrivals[..j + 1]);
      assert arrivals[..j + 1][..1] == arrivals[..1] && arrivals[..j + 1][1..] == rest[..j];
    }
  }

  lemma FirstFailure(errors: nat, arrivals: seq<Arrival>)
    requires arrivals != []
    ensures Failures(errors, arrivals[..1]) ==
              match arrivals[0]
              case Nothing => errors
              case Failed => errors + 1
              case Received(_) => 0
    ensures Failures(errors, arrivals[..0]) == errors
  {
    assert arrivals[..1][..0] == [];
  }

  lemma {:induction false} ServingFromFront(cfg: Config, s: Server, arrivals: seq<Arrival>, errors: nat)
    requires arrivals != [] && errors <= 3
    ensures var next, rest := Failures(errors, arrivals[..1]), arrivals[1..];
      Serving(cfg, s, arrivals, errors) ==
        if next >= 4 then (s, true)
        else Serving(cfg, if arrivals[0].Received? then Handle(cfg, s, arrivals[0].m) else s, rest, next)
  {
    FirstFailure(errors, arrivals);
    hide Handle, Failures;
  }

  lemma {:induction false} ServeInTwo(cfg: Config, st: System, a: nat, b: nat)
    ensures ServeTimes(cfg, st, a + b) == ServeTimes(cfg, ServeTimes(cfg, st, a), b)
    decreases a
  {
    hide Step;
    if a > 0 { ServeInTwo(cfg, Step(cfg, st, Serve), a - 1, b); }
  }

  /** The idle system with these lists and queues, and these messages still to be taken. */
  function IdleWith(st: System, s: Server, inbox: seq<Msg>): (st': System)
    ensures st'.phase == Idle && st'.server == s && st'.inbox == inbox
  {
    System(s, inbox, Idle, st.pcs)
  }

  /** Two portions of work. */
  lemma ServedInTwo(cfg: Config, st: System, a: nat, b: nat, s1: Server, i1: seq<Msg>, s2: Server)
    requires ServeTimes(cfg, st, a) == IdleWith(st, s1, i1)
    requires ServeTimes(cfg, IdleWith(st, s1, i1), b) == IdleWith(IdleWith(st, s1, i1), s2, [])
    ensures ServeTimes(cfg, st, a + b) == IdleWith(st, s2, [])
  {
    hide ServeTimes;
    ServeInTwo(cfg, st, a, b);
  }

  /** An idle server with one more message at the head of its queue. */
  lemma {:induction false} HandleFirst(cfg: Config, st: System) returns (n: nat)
    requires st.phase == Idle && st.inbox != []
    ensures ServeTimes(cfg, st, n) == IdleWith(st, Handle(cfg, st.server, st.inbox[0]), st.inbox[1..])
  {
    var m := st.inbox[0];
    n := if m.tag == RequestSend then |Targets(st.server.subs, m)| + 2 else 1;
    HandleIsServing(cfg, st);
  }

  lemma ReceivedFromFront(arrivals: seq<Arrival>, k: nat)
    requires 0 < k <= |arrivals|
    ensures var all, rest := ReceivedIn(arrivals[..k]), ReceivedIn(arrivals[1..][..k - 1]);
      if arrivals[0].Received? then all != [] && all[0] == arrivals[0].m && all[1..] == rest else all == rest
  {
    assert arrivals[..k][1..] == arrivals[1..][..k - 1];
  }

  lemma NothingToServe(cfg: Config, st: System, arrivals: seq<Arrival>, errors: nat)
    requires st.phase == Idle && errors <= 3 && StopsBefore(errors, arrivals, 0)
    requires st.inbox == ReceivedIn(arrivals[..0])
    ensures ServeTimes(cfg, st, 0) == IdleWith(st, Serving(cfg, st.server, arrivals, errors).0, [])
  {
    if arrivals != [] { ServingFromFront(cfg, st.server, arrivals, errors); }
  }

  /** What the loop does to lists and queues is what the steps of the system do with the messages it
      receives before it stops, one after the other; none is dropped and none is handled twice. */
  lemma {:induction false} LoopIsServing(cfg: Config, st: System, arrivals: seq<Arrival>, errors: nat, k: nat)
    returns (n: nat)
    requires st.phase == Idle && errors <= 3 && StopsBefore(errors, arrivals, k)
    requires st.inbox == ReceivedIn(arrivals[..k])
    ensures ServeTimes(cfg, st, n) == IdleWith(st, Serving(cfg, st.server, arrivals, errors).0, [])
    decreases |arrivals|
  {
    hide *;
    if k == 0 {
      n := 0;
      NothingToServe(cfg, st, arrivals, errors);
    } else {
      StopsBeforeTail(errors, arrivals, k);
      var next, rest := Failures(errors, arrivals[..1]), arrivals[1..];
      ReceivedFromFront(arrivals, k);
      ServingFromFront(cfg, st.server, arrivals, errors);
      if arrivals[0].Received? {
        var a := HandleFirst(cfg, st);
        var s1 := Handle(cfg, st.server, st.inbox[0]);
        var b := LoopIsServing(cfg, IdleWith(st, s1, st.inbox[1..]), rest, next, k - 1);
        ServedInTwo(cfg, st, a, b, s1, st.inbox[1..], Serving(cfg, s1, rest, next).0);
        n := a + b;
      } else {
        n := LoopIsServing(cfg, st, rest, next, k - 1);
      }
    }
  }

  /** There is such a point for all arrivals. */
  lemma {:induction false} SomewhereItStops(arrivals: seq<Arrival>) returns (k: nat)
    ensures StopsBefore(0, arrivals, k)
  {
    k := 0;
    FailuresOfNothing(0, arrivals);
    while k < |arrivals| && Failures(0, arrivals[..k + 1]) < 4
      invariant k <= |arrivals| && forall j :: 0 <= j <= k ==> Failures(0, arrivals[..j]) < 4
    {
      k := k + 1;
    }
  }

  lemma FailuresOfNothing(errors: nat, arrivals: seq<Arrival>)
    ensures Failures(errors, arrivals[..0]) == errors
  {
  }
}
