/** The message format and constants shared by server and clients. */
module Messages {

  datatype Option<+T> = None | Some(value: T)

  datatype Tag =
    | Subscribe
    | Unsubscribe
    | RequestSend
    | RequestSendTo
    | Response
    | ConfigServer
    | Other(code: int)

  datatype Msg = Msg(tag: Tag, source: string, topic: string, data: string)

  const CMS_SUCCESS := 0
  const CMS_FAIL := 1
  const CMS_ERROR := -1

  const SUBSCRIBE_SUCCESS := "CMS_SUBCRIBE_SUCCESS"
  const SUBSCRIBE_FAIL := "CMS_SUBCRIBE_FAIL"
  const UNSUBSCRIBE_SUCCESS := "CMS_UNSUBCRIBE_SUCCESS"
  const UNSUBSCRIBE_FAIL := "CMS_UNSUBCRIBE_FAIL"
  const CONFIG_SUCCESS := "CMS_CONFIG_SUCCESS"
  const CONFIG_FAIL := "CMS_CONFIG_FAIL"
  const CTRL_SET_LOG := "--set-log-level"
  const ALL := "ALL"

  /** Tags of the messages the server puts into client queues. */
  predicate Deliverable(m: Msg) {
    m.tag == Response || m.tag == RequestSend || m.tag == RequestSendTo
  }

  /** The successful data string answering a subscribe or unsubscribe request. */
  function SuccessFor(req: Msg): string {
    if req.tag == Subscribe then SUBSCRIBE_SUCCESS else UNSUBSCRIBE_SUCCESS
  }

  function FailFor(req: Msg): string {
    if req.tag == Subscribe then SUBSCRIBE_FAIL else UNSUBSCRIBE_FAIL
  }

  lemma VerdictsDiffer(req: Msg)
    ensures SuccessFor(req) != FailFor(req)
  {
    assert |SUBSCRIBE_SUCCESS| != |SUBSCRIBE_FAIL|;
    assert |UNSUBSCRIBE_SUCCESS| != |UNSUBSCRIBE_FAIL|;
  }

  /** The server's answer to a request, addressed to the client that asked. */
  function Reply(req: Msg, data: string): Msg {
    Msg(Response, req.source, req.topic, data)
  }
}
