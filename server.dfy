/**
 * The two paste routes of the Express server (server/index.js). The
 * database's reachability, the generated id, the request's clock inputs
 * and its headers are parameters.
 */
module Server {
  import opened Wrappers
  import opened Clock
  import opened CreateRules
  import opened PasteStore
  import opened Http

  const NotFoundMessage := "Paste not found or unavailable"

  function NotFound(): Response {
    Response(404, ErrorBody(NotFoundMessage))
  }

  /** The reply to the rows the consume statement returned. */
  function ConsumeResponse(rows: seq<Row>): (r: Response)
    ensures r.status == 200 || r.status == 404
    ensures r.status == 404 <==> |rows| == 0
    ensures |rows| == 0 ==> r == NotFound()
    ensures |rows| > 0 ==> r.body == PasteBody(rows[0].content, rows[0].viewsLeft, rows[0].expiresAt)
  {
    if |rows| == 0 then NotFound()
    else Response(200, PasteBody(rows[0].content, rows[0].viewsLeft, rows[0].expiresAt))
  }

  /**
   * The reply does not say why a paste is unavailable: a missing id, an
   * expired paste and an exhausted one get the same 404. A live one gets its
   * content, the views left after this read and its expiry.
   */
  lemma UniformNotFound(t: Table, id: string, now: int)
    ensures !(id in t && Live(t[id], now)) ==> ConsumeResponse(UpdateReturning(t, id, now).1) == NotFound()
    ensures id in t && Live(t[id], now) ==>
              ConsumeResponse(UpdateReturning(t, id, now).1) ==
              Response(200, PasteBody(t[id].content, Decremented(t[id]).viewsLeft, t[id].expiresAt))
  {
  }

  /**
   * POST /api/pastes. `fallbackProtocol` is what the URL uses when
   * `x-forwarded-proto` is missing or empty; `id` and `createdAt` are what
   * `nanoid(10)` and `new Date()` produce; `reachable` is false when the
   * database cannot be queried.
   */
  method CreatePaste(store: Store, body: CreateBody, forwardedProto: Option<string>, fallbackProtocol: string,
                     host: Option<string>, id: string, createdAt: int, reachable: bool)
    returns (resp: Response)
    requires store.Valid()
    modifies store
    ensures store.Valid()
    // invalid input: 400 with the first failing guard's message, nothing stored
    ensures Validate(body).Failure? ==>
              resp == Response(400, ErrorBody(Message(Validate(body).error))) && store.pastes == old(store.pastes)
    // the INSERT fails (database down, or the id is taken): 500, nothing stored
    ensures Validate(body).Success? && (!reachable || id in old(store.pastes)) ==>
              resp == InternalError() && store.pastes == old(store.pastes)
    // otherwise exactly one new record and 201 with the id and its URL
    ensures Validate(body).Success? && reachable && id !in old(store.pastes) ==>
              && store.pastes == old(store.pastes)[id := NewPaste(Validate(body).value, createdAt)]
              && resp == Response(201, CreatedBody(id, PasteUrl(SelectProtocol(forwardedProto, fallbackProtocol), HostText(host), id)))
  {
    var checked := Validate(body);
    if checked.Failure? {
      return Response(400, ErrorBody(Message(checked.error)));
    }
    if !reachable {
      return InternalError();
    }
    var inserted := store.Create(id, checked.value, createdAt);
    if !inserted {
      return InternalError();
    }
    var protocol := SelectProtocol(forwardedProto, fallbackProtocol);
    resp := Response(201, CreatedBody(id, PasteUrl(protocol, HostText(host), id)));
  }

  /**
   * GET /api/pastes/:id. The instant is chosen by `getCurrentTime` from
   * TEST_MODE, the `x-test-now-ms` header and the real clock.
   */
  method GetPaste(store: Store, id: string, testMode: Option<string>, testHeader: Option<string>,
                  realNow: int, reachable: bool)
    returns (resp: Response)
    requires store.Valid()
    modifies store
    ensures store.Valid()
    ensures !reachable ==> resp == InternalError() && store.pastes == old(store.pastes)
    // a live record: its counter drops by one (if it has one) and the reply carries the content,
    // the views left after this read and the expiry
    ensures reachable ==>
              var now := GetCurrentTime(testMode, testHeader, realNow);
              var t := old(store.pastes);
              id in t && Live(t[id], now) ==>
                && store.pastes == t[id := Decremented(t[id])]
                && resp == Response(200, PasteBody(t[id].content, Decremented(t[id]).viewsLeft, t[id].expiresAt))
    // missing, expired or out of views: the same 404 and no change
    ensures reachable ==>
              var now := GetCurrentTime(testMode, testHeader, realNow);
              var t := old(store.pastes);
              !(id in t && Live(t[id], now)) ==> store.pastes == t && resp == NotFound()
  {
    var now := GetCurrentTime(testMode, testHeader, realNow);
    if !reachable {
      return InternalError();
    }
    var rows := store.Consume(id, now);
    resp := ConsumeResponse(rows);
    UniformNotFound(old(store.pastes), id, now);
  }
}
