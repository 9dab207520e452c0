/**
 * The health-check endpoint (`src/pages/api/test.js`): a stateless dispatch on
 * the request method that answers exactly once.
 */
module TestEndpoint {
  import opened Wrappers

  /** The JSON reply: status, `message`, and `receivedData` when the body is echoed. */
  datatype Reply<B> = Reply(status: int, message: string, receivedData: Option<B>)

  function Handle<B>(verb: string, body: B): (r: Reply<B>)
    ensures r.status == 200 <==> verb == "GET" || verb == "POST"
    ensures r.status != 200 ==> r.status == 405 && r.message == "Method not allowed"
    ensures verb == "GET" ==> r.message == "API is working" && r.receivedData == None
    ensures verb == "POST" ==> r.message == "POST is working" && r.receivedData == Some(body)
    ensures r.receivedData.Some? <==> verb == "POST"
  {
    if verb == "GET" then Reply(200, "API is working", None)
    else if verb == "POST" then Reply(200, "POST is working", Some(body))
    else Reply(405, "Method not allowed", None)
  }

  /** Only a POST looks at the body, and it hands it back unchanged. */
  lemma BodyOnlyEchoed<B>(verb: string, b1: B, b2: B)
    requires verb != "POST"
    ensures Handle(verb, b1) == Handle(verb, b2)
  {
  }
}
