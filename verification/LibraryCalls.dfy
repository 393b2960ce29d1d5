/** The receive loops of the client library are the waiting clients of the system. */
module LibraryCalls {
  import opened Messages
  import opened Broker
  import opened Network
  import opened Handshake
  import opened MisledCalls
  import ClientLib

  /** What the receives of client `c` yield during a run. */
  function Yields(cfg: Config, st: System, ls: seq<Label>, c: string): seq<ClientLib.Yield> {
    if ls == [] then []
    else
      var past, l := ls[..|ls| - 1], ls[|ls| - 1];
      var s := Run(cfg, st, past);
      Yields(cfg, st, past, c) +
      if l == Read(c) && Enabled(cfg, s, l) then [ClientLib.Arrived(QueueOf(s.server, c).msgs[0])] else []
  }

  ghost predicate Ordinary(ys: seq<ClientLib.Yield>) {
    forall i :: 0 <= i < |ys| ==> ys[i].Arrived? && ys[i].m.tag != Response
  }

  /** While a client is inside its call it keeps its request and has received no response. */
  lemma {:induction false} WaitingYields(cfg: Config, st: System, ls: seq<Label>, c: string)
    requires StillWaiting(cfg, st, ls, c)
    ensures PcOf(Run(cfg, st, ls), c) == PcOf(st, c) && Ordinary(Yields(cfg, st, ls, c))
  {
    if ls != [] {
      WaitingYields(cfg, st, ls[..|ls| - 1], c);
    }
  }

  lemma {:induction false} OrdinaryYieldsWait(subscribe: bool, garbage: Msg, ys: seq<ClientLib.Yield>)
    requires Ordinary(ys)
    ensures ClientLib.OutcomeOf(subscribe, garbage, ys) == ClientLib.Waiting
  {
    ClientLib.ReturnsAtFirstStop(subscribe, garbage, ys);
    ClientLib.OutcomeOfFirstStop(subscribe, garbage, ys);
  }

  lemma {:induction false} ResponseEndsYields(subscribe: bool, garbage: Msg, ys: seq<ClientLib.Yield>, r: Msg)
    requires Ordinary(ys) && r.tag == Response
    ensures ClientLib.OutcomeOf(subscribe, garbage, ys + [ClientLib.Arrived(r)]) ==
            ClientLib.Code(ClientLib.Verdict(r, ClientLib.Success(subscribe)))
  {
    var all := ys + [ClientLib.Arrived(r)];
    ClientLib.ReturnsAtFirstStop(subscribe, garbage, all);
    ClientLib.OutcomeOfFirstStop(subscribe, garbage, all);
    assert ClientLib.StopsAt(subscribe, garbage, all, |ys|);
    forall j | 0 <= j < |ys| ensures !ClientLib.StopsAt(subscribe, garbage, all, j) {
      assert all[j] == ys[j];
    }
  }

  /** Whatever the uninitialised buffer holds, the library call on what a waiting client reads in a
      run returns CMS_SUCCESS exactly when the system records `Returned(req, true)`, CMS_FAIL exactly
      when it records `Returned(req, false)`, and waits exactly when it records no return. */
  lemma {:induction false} CallMatchesSystem(cfg: Config, st: System, ls: seq<Label>, c: string, req: Msg, garbage: Msg)
    requires PcOf(st, c) == Awaiting(req) && Asking(req)
    requires ls != [] && StillWaiting(cfg, st, ls[..|ls| - 1], c)
    ensures var out := ClientLib.OutcomeOf(req.tag == Subscribe, garbage, Yields(cfg, st, ls, c));
      var e := EventOf(cfg, Run(cfg, st, ls[..|ls| - 1]), ls[|ls| - 1], c);
      && (out == ClientLib.Code(CMS_SUCCESS) <==> e == Some(Returned(req, true)))
      && (out == ClientLib.Code(CMS_FAIL) <==> e == Some(Returned(req, false)))
      && (out == ClientLib.Waiting <==> !(e.Some? && e.value.Returned?))
  {
    var past, l := ls[..|ls| - 1], ls[|ls| - 1];
    var s, ys := Run(cfg, st, past), Yields(cfg, st, past, c);
    WaitingYields(cfg, st, past, c);
    if l == Read(c) && Enabled(cfg, s, l) {
      var r := QueueOf(s.server, c).msgs[0];
      if r.tag == Response {
        ResponseEndsYields(req.tag == Subscribe, garbage, ys, r);
      } else {
        OrdinaryYieldsWait(req.tag == Subscribe, garbage, ys + [ClientLib.Arrived(r)]);
      }
    } else {
      assert Yields(cfg, st, ls, c) == ys;
      OrdinaryYieldsWait(req.tag == Subscribe, garbage, ys);
    }
  }
}
