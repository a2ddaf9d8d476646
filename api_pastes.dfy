/**
 * The serverless create handler (api/pastes/index.js). It repeats the
 * server's POST route after its own method check, with "http" as the
 * protocol when `x-forwarded-proto` is missing.
 */
module ApiPastes {
  import opened Wrappers
  import opened CreateRules
  import opened PasteStore
  import opened Http
  import Server

  const MethodNotAllowedMessage := "Method not allowed"
  const DefaultProtocol := "http"

  method Handler(store: Store, httpMethod: string, body: CreateBody, forwardedProto: Option<string>,
                 host: Option<string>, id: string, createdAt: int, reachable: bool)
    returns (resp: Response)
    requires store.Valid()
    modifies store
    ensures store.Valid()
    // any method but POST: 405 before the body is looked at
    ensures httpMethod != "POST" ==>
              resp == Response(405, ErrorBody(MethodNotAllowedMessage)) && store.pastes == old(store.pastes)
    ensures httpMethod == "POST" && Validate(body).Failure? ==>
              resp == Response(400, ErrorBody(Message(Validate(body).error))) && store.pastes == old(store.pastes)
    ensures httpMethod == "POST" && Validate(body).Success? && (!reachable || id in old(store.pastes)) ==>
              resp == InternalError() && store.pastes == old(store.pastes)
    ensures httpMethod == "POST" && Validate(body).Success? && reachable && id !in old(store.pastes) ==>
              && store.pastes == old(store.pastes)[id := NewPaste(Validate(body).value, createdAt)]
              && resp == Response(201, CreatedBody(id, PasteUrl(SelectProtocol(forwardedProto, DefaultProtocol), HostText(host), id)))
  {
    if httpMethod != "POST" {
      return Response(405, ErrorBody(MethodNotAllowedMessage));
    }
    resp := Server.CreatePaste(store, body, forwardedProto, DefaultProtocol, host, id, createdAt, reachable);
  }
}
