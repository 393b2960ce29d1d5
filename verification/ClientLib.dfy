/** The client library: requests posted to the server, and the receive loops of subscribe and
    unsubscribe. What the operating system answers is a parameter of each call. */
module ClientLib {
  import opened Messages

  /** What one receive on the client's queue yields: nothing yet, a message, or another error; after
      an error a report is sent to the server, whose queue may not open or not take the message. */
  datatype Yield = Empty | Arrived(m: Msg) | Broken(serverUp: bool, sendOk: bool)

  /** A call that still waits, or its return code. */
  datatype Outcome = Waiting | Code(code: int)

  /** What `cms_client_receive` returns after an error: CMS_FAIL exactly if the report could not be sent
      to a server that is up. */
  function ErrorCode(y: Yield): (code: int)
    requires y.Broken?
    ensures code == CMS_FAIL <==> y.serverUp && !y.sendOk
    ensures code == CMS_ERROR <==> !y.serverUp || y.sendOk
  {
    if y.serverUp && !y.sendOk then CMS_FAIL else CMS_ERROR
  }

  function Report(name: string): Msg {
    Msg(Response, name, "RESPONE MESSAGE", "CMS_RECEIVE_FAIL")
  }

  /** The reports sent to the server while `ys` was received. */
  function Reports(name: string, ys: seq<Yield>): seq<Msg> {
    if ys == [] then []
    else
      var y := ys[|ys| - 1];
      Reports(name, ys[..|ys| - 1]) + if y.Broken? && y.serverUp && y.sendOk then [Report(name)] else []
  }

  function Success(subscribe: bool): string {
    if subscribe then SUBSCRIBE_SUCCESS else UNSUBSCRIBE_SUCCESS
  }

  function Verdict(r: Msg, success: string): int {
    if r.data == success then CMS_SUCCESS else CMS_FAIL
  }

  /** The position in `ys` at which the call returns, `|ys|` while it waits. `buffer` is what the
      message buffer holds before; an error leaves it as it is and its tag is tested again.
      Only subscribe gives up on the receive error code CMS_ERROR. */
  function ReturnsAt(subscribe: bool, buffer: Msg, ys: seq<Yield>): (k: nat)
    ensures k <= |ys|
    decreases |ys|
  {
    if ys == [] then 0
    else match ys[0]
      case Empty => 1 + ReturnsAt(subscribe, buffer, ys[1..])
      case Arrived(m) => if m.tag == Response then 0 else 1 + ReturnsAt(subscribe, m, ys[1..])
      case Broken(_, _) =>
        if (subscribe && ErrorCode(ys[0]) == CMS_ERROR) || buffer.tag == Response then 0
        else 1 + ReturnsAt(subscribe, buffer, ys[1..])
  }

  /** The buffer after receiving `ys`. */
  function Buffer(buffer: Msg, ys: seq<Yield>): Msg {
    if ys == [] then buffer
    else if ys[|ys| - 1].Arrived? then ys[|ys| - 1].m
    else Buffer(buffer, ys[..|ys| - 1])
  }

  /** The yields received by the time the call returns, or so far. */
  function Consumed(subscribe: bool, buffer: Msg, ys: seq<Yield>): seq<Yield> {
    var k := ReturnsAt(subscribe, buffer, ys);
    if k < |ys| then ys[..k + 1] else ys
  }

  function OutcomeOf(subscribe: bool, buffer: Msg, ys: seq<Yield>): Outcome {
    var k := ReturnsAt(subscribe, buffer, ys);
    if k == |ys| then Waiting
    else if subscribe && ys[k].Broken? && ErrorCode(ys[k]) == CMS_ERROR then Code(CMS_ERROR)
    else Code(Verdict(Buffer(buffer, ys[..k + 1]), Success(subscribe)))
  }

  ghost predicate NothingArrived(ys: seq<Yield>, k: nat)
    requires k <= |ys|
  {
    forall j :: 0 <= j < k ==> !ys[j].Arrived?
  }

  /** What ends a call: a response; for subscribe a failed receive, unless the server is up and did not
      take the report; and any failed receive while the buffer is still the uninitialised one and looks
      like a response. */
  ghost predicate StopsAt(subscribe: bool, buffer: Msg, ys: seq<Yield>, k: nat)
    requires k < |ys|
  {
    match ys[k]
    case Empty => false
    case Arrived(m) => m.tag == Response
    case Broken(serverUp, sendOk) =>
      (subscribe && (!serverUp || sendOk)) || (buffer.tag == Response && NothingArrived(ys, k))
  }

  lemma StopsAtNext(subscribe: bool, buffer: Msg, ys: seq<Yield>, k: nat)
    requires 0 < k < |ys| && !StopsAt(subscribe, buffer, ys, 0)
    ensures var next := if ys[0].Arrived? then ys[0].m else buffer;
      StopsAt(subscribe, buffer, ys, k) <==> StopsAt(subscribe, next, ys[1..], k - 1)
  {
    var rest := ys[1..];
    assert forall j :: 0 <= j < k - 1 ==> rest[j] == ys[j + 1];
    if !ys[0].Arrived? && NothingArrived(rest, k - 1) {
      assert forall j :: 0 < j < k ==> ys[j] == rest[j - 1];
    }
  }

  /** The call returns exactly at the first yield that ends it, whatever fails before; everything
      else received before is dropped. */
  lemma {:induction false} ReturnsAtFirstStop(subscribe: bool, buffer: Msg, ys: seq<Yield>)
    ensures var k := ReturnsAt(subscribe, buffer, ys);
      && (k < |ys| ==> StopsAt(subscribe, buffer, ys, k))
      && forall j :: 0 <= j < k ==> !StopsAt(subscribe, buffer, ys, j)
    decreases |ys|
  {
    var k := ReturnsAt(subscribe, buffer, ys);
    if ys != [] && k > 0 {
      var next := if ys[0].Arrived? then ys[0].m else buffer;
      ReturnsAtFirstStop(subscribe, next, ys[1..]);
      assert !StopsAt(subscribe, buffer, ys, 0);
      forall j | 0 < j < |ys| ensures StopsAt(subscribe, buffer, ys, j) <==> StopsAt(subscribe, next, ys[1..], j - 1) {
        StopsAtNext(subscribe, buffer, ys, j);
      }
    }
  }

  /** And its code is the verdict of that response, CMS_ERROR, or the verdict of the buffer as it was
      before anything arrived. A verdict is CMS_SUCCESS for the success text of this kind of request. */
  lemma {:induction false} OutcomeOfFirstStop(subscribe: bool, buffer: Msg, ys: seq<Yield>)
    ensures var k := ReturnsAt(subscribe, buffer, ys);
      Consumed(subscribe, buffer, ys) == ys[..if k < |ys| then k + 1 else k]
    ensures var k := ReturnsAt(subscribe, buffer, ys);
      var success := if subscribe then SUBSCRIBE_SUCCESS else UNSUBSCRIBE_SUCCESS;
      OutcomeOf(subscribe, buffer, ys) ==
        if k == |ys| then Waiting
        else if ys[k].Arrived? then Code(if ys[k].m.data == success then CMS_SUCCESS else CMS_FAIL)
        else if subscribe && ys[k].Broken? && (!ys[k].serverUp || ys[k].sendOk) then Code(CMS_ERROR)
        else Code(if buffer.data == success then CMS_SUCCESS else CMS_FAIL)
  {
    var k := ReturnsAt(subscribe, buffer, ys);
    ReturnsAtFirstStop(subscribe, buffer, ys);
    if k < |ys| {
      assert ys[..k + 1][k] == ys[k];
      if ys[k].Broken? && !(subscribe && ErrorCode(ys[k]) == CMS_ERROR) {
        BufferUntouched(buffer, ys, k + 1);
      }
    }
  }

  lemma {:induction false} BufferUntouched(buffer: Msg, ys: seq<Yield>, k: nat)
    requires k <= |ys| && NothingArrived(ys, k)
    ensures Buffer(buffer, ys[..k]) == buffer
    decreases k
  {
    if k > 0 {
      assert ys[..k][..k - 1] == ys[..k - 1];
      BufferUntouched(buffer, ys, k - 1);
    }
  }

  /** The call goes on after `next` yields, with this message in the buffer. */
  ghost predicate Reached(subscribe: bool, garbage: Msg, ys: seq<Yield>, next: nat, buffer: Msg)
    requires next <= |ys|
  {
    && buffer == Buffer(garbage, ys[..next])
    && ReturnsAt(subscribe, garbage, ys) == next + ReturnsAt(subscribe, buffer, ys[next..])
  }

  class CmsClient {
    /** The client's name once initialised. */
    var globalClientInfor: Option<string>
    /** Everything the server's queue has accepted from this client. */
    var posted: seq<Msg>

    constructor ()
      ensures globalClientInfor == None && posted == []
    {
      globalClientInfor, posted := None, [];
    }

    /** Opens the server's queue and sends; a full queue makes the call block, not fail. */
    method Post(m: Msg, serverUp: bool, sendOk: bool, onSendError: int) returns (r: int)
      requires onSendError != CMS_SUCCESS
      modifies this`posted
      ensures r == if !serverUp then CMS_ERROR else if !sendOk then onSendError else CMS_SUCCESS
      ensures posted == if r == CMS_SUCCESS then old(posted) + [m] else old(posted)
    {
      if !serverUp {
        return CMS_ERROR;
      }
      if !sendOk {
        return onSendError;
      }
      posted := posted + [m];
      return CMS_SUCCESS;
    }

    method Send(topic: string, data: string, serverUp: bool, sendOk: bool) returns (r: int)
      modifies this`posted
      ensures r == CMS_SUCCESS <==> globalClientInfor.Some? && serverUp && sendOk
      ensures r == CMS_FAIL <==> globalClientInfor.Some? && serverUp && !sendOk
      ensures posted == if r != CMS_SUCCESS then old(posted)
                        else old(posted) + [Msg(RequestSend, globalClientInfor.value, topic, data)]
    {
      if globalClientInfor.None? {
        return CMS_ERROR;
      }
      r := Post(Msg(RequestSend, globalClientInfor.value, topic, data), serverUp, sendOk, CMS_FAIL);
    }

    method SendTo(destination: string, data: string, serverUp: bool, sendOk: bool) returns (r: int)
      modifies this`posted
      ensures r == CMS_SUCCESS <==> globalClientInfor.Some? && serverUp && sendOk
      ensures r == CMS_FAIL <==> globalClientInfor.Some? && serverUp && !sendOk
      ensures posted == if r != CMS_SUCCESS then old(posted)
                        else old(posted) + [Msg(RequestSendTo, globalClientInfor.value, destination, data)]
    {
      if globalClientInfor.None? {
        return CMS_ERROR;
      }
      r := Post(Msg(RequestSendTo, globalClientInfor.value, destination, data), serverUp, sendOk, CMS_FAIL);
    }

    /** Receives until something other than an empty queue is found. `next` is the first yield not
        consumed; `ret` is None while waiting and otherwise the message length (any number but
        CMS_ERROR, here CMS_SUCCESS) or the error code. Before initialisation nothing is received. */
    method Receive(buffer: Msg, ys: seq<Yield>, from: nat) returns (ret: Option<int>, message: Msg, next: nat)
      requires from <= |ys|
      modifies this`posted
      ensures globalClientInfor.None? ==>
                ret == Some(CMS_ERROR) && message == buffer && next == from && posted == old(posted)
      ensures globalClientInfor.Some? ==>
                from <= next <= |ys| && (ret == None ==> next == |ys|) && (ret != None ==> from < next)
      ensures globalClientInfor.Some? ==>
                forall j :: from <= j < (if ret == None then next else next - 1) ==> ys[j] == Empty
      ensures ret == None ==> message == buffer && posted == old(posted)
      ensures globalClientInfor.Some? && ret != None ==>
                var y := ys[next - 1];
                && !y.Empty?
                && (ret == Some(CMS_SUCCESS) <==> y.Arrived?)
                && (ret == Some(CMS_ERROR) <==> y.Broken? && (!y.serverUp || y.sendOk))
                && (ret == Some(CMS_FAIL) <==> y.Broken? && y.serverUp && !y.sendOk)
                && message == (if y.Arrived? then y.m else buffer)
                && posted == old(posted) +
                     if y.Broken? && y.serverUp && y.sendOk
                     then [Msg(Response, globalClientInfor.value, "RESPONE MESSAGE", "CMS_RECEIVE_FAIL")] else []
    {
      next := from;
      message := buffer;
      if globalClientInfor.None? {
        return Some(CMS_ERROR), message, next;
      }
      while next < |ys|
        invariant from <= next <= |ys| && posted == old(posted)
        invariant forall j :: from <= j < next ==> ys[j] == Empty
      {
        var y := ys[next];
        next := next + 1;
        match y
        case Empty =>
        case Arrived(m) =>
          return Some(CMS_SUCCESS), m, next;
        case Broken(serverUp, sendOk) =>
          var r := Post(Report(globalClientInfor.value), serverUp, sendOk, CMS_FAIL);
          return Some(if r == CMS_SUCCESS then CMS_ERROR else r), message, next;
      }
      return None, message, next;
    }

    /** The receive loop shared by subscribe and unsubscribe; `garbage` is the uninitialised buffer. */
    method AwaitResponse(subscribe: bool, garbage: Msg, ys: seq<Yield>) returns (out: Outcome)
      requires globalClientInfor.Some?
      modifies this`posted
      ensures out == OutcomeOf(subscribe, garbage, ys)
      ensures posted == old(posted) + Reports(globalClientInfor.value, Consumed(subscribe, garbage, ys))
    {
      var next := 0;
      var response := garbage;
      assert Reports(globalClientInfor.value, ys[..0]) == [];
      assert ys[0..] == ys && Reached(subscribe, garbage, ys, next, response);
      hide Reached, Reports, Consumed, OutcomeOf, Verdict, ErrorCode, Success;
      while next < |ys|
        invariant next <= |ys|
        invariant posted == old(posted) + Reports(globalClientInfor.value, ys[..next])
        invariant Reached(subscribe, garbage, ys, next, response)
      {
        var ret, message, after := Receive(response, ys, next);
        if ret == None {
          AllEmpty(subscribe, globalClientInfor.value, garbage, response, ys, next);
          return Waiting;
        }
        OneMoreYield(subscribe, globalClientInfor.value, garbage, response, ys, next, after - 1, message);
        response := message;
        next := after;
        if subscribe && ret == Some(CMS_ERROR) {
          return Code(CMS_ERROR);
        }
        if response.tag == Response {
          return Code(Verdict(response, Success(subscribe)));
        }
      }
      AllEmpty(subscribe, globalClientInfor.value, garbage, response, ys, next);
      return Waiting;
    }

    method SubscribeTopic(topic: string, serverUp: bool, sendOk: bool, garbage: Msg, ys: seq<Yield>)
      returns (out: Outcome)
      modifies this`posted
      ensures if globalClientInfor.Some? && serverUp && sendOk then
                && posted == old(posted) + [Msg(Subscribe, globalClientInfor.value, topic, "SUBCRIBE TOPIC")]
                             + Reports(globalClientInfor.value, Consumed(true, garbage, ys))
                && out == OutcomeOf(true, garbage, ys)
              else posted == old(posted) && out == Code(CMS_ERROR)
    {
      if globalClientInfor.None? {
        return Code(CMS_ERROR);
      }
      var r := Post(Msg(Subscribe, globalClientInfor.value, topic, "SUBCRIBE TOPIC"), serverUp, sendOk, CMS_ERROR);
      if r == CMS_ERROR {
        return Code(CMS_ERROR);
      }
      out := AwaitResponse(true, garbage, ys);
    }

    method UnsubscribeTopic(topic: string, serverUp: bool, sendOk: bool, garbage: Msg, ys: seq<Yield>)
      returns (out: Outcome)
      modifies this`posted
      ensures if globalClientInfor.Some? && serverUp && sendOk then
                && posted == old(posted) + [Msg(Unsubscribe, globalClientInfor.value, topic, "UNSUBCRIBE TOPIC")]
                             + Reports(globalClientInfor.value, Consumed(false, garbage, ys))
                && out == OutcomeOf(false, garbage, ys)
              else posted == old(posted) && out == Code(CMS_ERROR)
    {
      if globalClientInfor.None? {
        return Code(CMS_ERROR);
      }
      var r := Post(Msg(Unsubscribe, globalClientInfor.value, topic, "UNSUBCRIBE TOPIC"), serverUp, sendOk, CMS_ERROR);
      if r == CMS_ERROR {
        return Code(CMS_ERROR);
      }
      out := AwaitResponse(false, garbage, ys);
    }
  }

  lemma AllEmpty(subscribe: bool, name: string, garbage: Msg, buffer: Msg, ys: seq<Yield>, from: nat)
    requires from <= |ys| && forall j :: from <= j < |ys| ==> ys[j] == Empty
    requires Reached(subscribe, garbage, ys, from, buffer)
    ensures OutcomeOf(subscribe, garbage, ys) == Waiting
    ensures Reports(name, Consumed(subscribe, garbage, ys)) == Reports(name, ys[..from])
  {
    SkipEmpty(subscribe, buffer, ys, from, |ys|);
    NothingFromEmpty(name, garbage, ys, from, |ys|);
    assert ys[..|ys|] == ys;
  }

  /** One report for each failed receive whose report could be sent, and nothing else: the first of the
      yields decides the first report, and so on. */
  lemma {:induction false} ReportsInOrder(name: string, first: seq<Yield>, rest: seq<Yield>)
    ensures Reports(name, first + rest) == Reports(name, first) + Reports(name, rest)
    ensures |first| == 1 ==>
              Reports(name, first) ==
                if first[0].Broken? && first[0].serverUp && first[0].sendOk
                then [Msg(Response, name, "RESPONE MESSAGE", "CMS_RECEIVE_FAIL")] else []
  {
    if |first| == 1 { assert first[..0] == []; }
    if rest == [] {
      assert first + rest == first;
    } else {
      ReportsInOrder(name, first, rest[..|rest| - 1]);
      assert (first + rest)[..|first + rest| - 1] == first + rest[..|rest| - 1];
    }
  }

  /** The next yield that is not empty is the one at `k`; it ends the call or the loop goes on. */
  lemma OneMoreYield(subscribe: bool, name: string, garbage: Msg, buffer: Msg, ys: seq<Yield>,
                     from: nat, k: nat, message: Msg)
    requires from <= k < |ys| && !ys[k].Empty? && forall j :: from <= j < k ==> ys[j] == Empty
    requires Reached(subscribe, garbage, ys, from, buffer)
    requires message == if ys[k].Arrived? then ys[k].m else buffer
    ensures Reports(name, ys[..k + 1]) == Reports(name, ys[..from]) +
              if ys[k].Broken? && ys[k].serverUp && ys[k].sendOk then [Report(name)] else []
    ensures var gaveUp := subscribe && ys[k].Broken? && ErrorCode(ys[k]) == CMS_ERROR;
      if gaveUp || message.tag == Response then
        && Consumed(subscribe, garbage, ys) == ys[..k + 1]
        && OutcomeOf(subscribe, garbage, ys) ==
             if gaveUp then Code(CMS_ERROR)
             else Code(Verdict(message, Success(subscribe)))
      else Reached(subscribe, garbage, ys, k + 1, message)
  {
    hide ReturnsAt, Buffer, Reports;
    SkipEmpty(subscribe, buffer, ys, from, k);
    BufferAndReports(name, garbage, ys, from, k);
    ReturnsHere(subscribe, buffer, ys, k);
  }

  lemma BufferAndReports(name: string, garbage: Msg, ys: seq<Yield>, from: nat, k: nat)
    requires from <= k < |ys| && !ys[k].Empty? && forall j :: from <= j < k ==> ys[j] == Empty
    ensures Buffer(garbage, ys[..k + 1]) == if ys[k].Arrived? then ys[k].m else Buffer(garbage, ys[..from])
    ensures Reports(name, ys[..k + 1]) == Reports(name, ys[..from]) +
              if ys[k].Broken? && ys[k].serverUp && ys[k].sendOk then [Report(name)] else []
  {
    NothingFromEmpty(name, garbage, ys, from, k);
    assert ys[..k + 1][..k] == ys[..k];
  }

  lemma ReturnsHere(subscribe: bool, buffer: Msg, ys: seq<Yield>, k: nat)
    requires k < |ys| && !ys[k].Empty?
    ensures var message := if ys[k].Arrived? then ys[k].m else buffer;
      var gaveUp := subscribe && ys[k].Broken? && ErrorCode(ys[k]) == CMS_ERROR;
      ReturnsAt(subscribe, buffer, ys[k..]) ==
        if gaveUp || message.tag == Response then 0 else 1 + ReturnsAt(subscribe, message, ys[k + 1..])
  {
    assert ys[k..][0] == ys[k] && ys[k..][1..] == ys[k + 1..];
  }

  lemma {:induction false} SkipEmpty(subscribe: bool, buffer: Msg, ys: seq<Yield>, from: nat, to: nat)
    requires from <= to <= |ys| && forall j :: from <= j < to ==> ys[j] == Empty
    ensures ReturnsAt(subscribe, buffer, ys[from..]) == to - from + ReturnsAt(subscribe, buffer, ys[to..])
    decreases |ys| - from
  {
    if from < to {
      SkipEmpty(subscribe, buffer, ys, from + 1, to);
      assert ys[from..][1..] == ys[from + 1..];
    }
  }

  lemma {:induction false} NothingFromEmpty(name: string, buffer: Msg, ys: seq<Yield>, from: nat, to: nat)
    requires from <= to <= |ys| && forall j :: from <= j < to ==> ys[j] == Empty
    ensures Buffer(buffer, ys[..from]) == Buffer(buffer, ys[..to])
    ensures Reports(name, ys[..from]) == Reports(name, ys[..to])
    decreases |ys[..to]|
  {
    if from < to {
      NothingFromEmpty(name, buffer, ys, from, to - 1);
      assert ys[..to][..to - 1] == ys[..to - 1];
    }
  }
}
