/** The two requests the form sends, registration (`handleSubmit`,
    src/layout/CharacterForm.tsx:238-278) and AI assist (`aiThinkSubmit`,
    :281-334), reduced to what each does to the record and which kind of
    message it reports. The request itself (`fetch` with a `FormData`
    body) is not modelled: its outcome is a parameter. */
module Sync {
  import opened CharacterRecord

  /** The assist endpoint answers with JSON whose value is itself JSON text;
      this is the result of parsing that inner text. */
  datatype Inner =
    | InnerNotJson                        // the second `JSON.parse` throws
    | InnerObject(fields: Record)         // an object: its fields are spread
    | InnerScalar                         // null, a boolean or a number: spreads no field

  /** The response body, as `response.json()` sees it. */
  datatype Body =
    | BodyNotJson                         // `response.json()` rejects
    | JsonBody(inner: Inner)

  /** How a `fetch` ends: with a response, or by throwing. */
  datatype Exchange =
    | Responded(status: int, body: Body)
    | TransportFailure

  /** The kind of message shown after a request: success, failure with the
      HTTP status, or the network-error message. */
  datatype Report = Succeeded | Rejected(status: int) | NetworkError

  /** `response.ok`: a status in the 2xx range. */
  predicate StatusOk(status: int) {
    200 <= status <= 299
  }

  /** `{user_id, character_id, image_name, ...resModel}`: the three identity
      fields of the current record, then every response field on top, so a
      response field wins over an identity field of the same name; no other
      field of the current record survives. */
  function Merge(current: Record, response: Record): (r: Record)
    ensures r.Keys == (current.Keys * IdentityKeys) + response.Keys
    ensures forall k :: k in response ==> r[k] == response[k]
    ensures forall k :: k in current && k in IdentityKeys && k !in response ==> r[k] == current[k]
  {
    (map k | k in current && k in IdentityKeys :: current[k]) + response
  }

  /** `...resModel`: the fields an inner value contributes to the merge. An
      object contributes its own fields; a scalar contributes none. */
  function Spread(inner: Inner): (r: Record)
    ensures inner.InnerObject? ==> r == inner.fields
    ensures !inner.InnerObject? ==> r.Keys == {}
  {
    match inner
    case InnerObject(fields) => fields
    case _ => map[]
  }

  /** Registration: the record is never changed. A 2xx response whose body
      is not JSON makes `response.json()` throw inside the `try`, so it is
      reported as a network error, like a failed `fetch`. */
  function Register(current: Record, ex: Exchange): (r: (Record, Report))
    ensures r.0 == current
    ensures r.1 == Succeeded <==> ex.Responded? && StatusOk(ex.status) && ex.body.JsonBody?
    ensures r.1.Rejected? <==> ex.Responded? && !StatusOk(ex.status)
    ensures r.1.Rejected? ==> r.1.status == ex.status
  {
    match ex
    case TransportFailure => (current, NetworkError)
    case Responded(status, body) =>
      if !StatusOk(status) then (current, Rejected(status))
      else if body.BodyNotJson? then (current, NetworkError)
      else (current, Succeeded)
  }

  /** AI assist: on a 2xx response whose body parses twice the record is
      replaced by the merge; any failure, including a parse failure inside
      the `try`, leaves it unchanged. */
  function Assist(current: Record, ex: Exchange): (r: (Record, Report))
    ensures r.1 != Succeeded ==> r.0 == current
    ensures r.1 == Succeeded <==>
      ex.Responded? && StatusOk(ex.status) && ex.body.JsonBody? && !ex.body.inner.InnerNotJson?
    ensures r.1 == Succeeded ==> r.0 == Merge(current, Spread(ex.body.inner))
    ensures r.1.Rejected? <==> ex.Responded? && !StatusOk(ex.status)
    ensures r.1.Rejected? ==> r.1.status == ex.status
  {
    match ex
    case TransportFailure => (current, NetworkError)
    case Responded(status, body) =>
      if !StatusOk(status) then (current, Rejected(status))
      else match body
        case BodyNotJson => (current, NetworkError)
        case JsonBody(InnerNotJson) => (current, NetworkError)
        case JsonBody(inner) => (Merge(current, Spread(inner)), Succeeded)
  }

  /** Both requests report the same way whenever the assist response cannot
      be merged: a rejection carries the status, and a transport failure or
      an unreadable body is the network-error message, never a success. */
  lemma ReportsAgreeOnFailure(current: Record, ex: Exchange)
    requires Assist(current, ex).1 != Succeeded
    requires !(ex.Responded? && ex.body.JsonBody? && ex.body.inner.InnerNotJson?)
    ensures Register(current, ex).1 == Assist(current, ex).1
  {
  }

  /** Merging the same response twice gives what merging it once gives. */
  lemma {:induction false} MergeIdempotent(current: Record, response: Record)
    ensures Merge(Merge(current, response), response) == Merge(current, response)
  {
    var once := Merge(current, response);
    var twice := Merge(once, response);
    assert twice.Keys == once.Keys;
    forall k | k in once
      ensures twice[k] == once[k]
    {
    }
  }

  /** The identity fields keep their current values when the response does
      not mention them; the rest of the merged record is the response. */
  lemma MergeKeepsIdentityUnlessOverridden(current: Record, response: Record)
    requires IdentityKeys <= current.Keys
    requires response.Keys !! IdentityKeys
    ensures forall k :: k in IdentityKeys ==> Merge(current, response)[k] == current[k]
    ensures Merge(current, response).Keys == IdentityKeys + response.Keys
  {
  }

  /** An example: the identity fields are kept, `name` and `hp` come
      from the response, and nothing else survives. */
  lemma MergeExample()
    ensures
      var current := map[
        "user_id" := Str("u1"),
        "character_id" := Str("enemy_20250101000000_01"),
        "image_name" := Str("enemy_20250101000000_01.png"),
        "name" := Str("Old"), "age" := Num(17)];
      var response := map["name" := Str("New"), "hp" := Num(999)];
      Merge(current, response) == map[
        "user_id" := Str("u1"),
        "character_id" := Str("enemy_20250101000000_01"),
        "image_name" := Str("enemy_20250101000000_01.png"),
        "name" := Str("New"), "hp" := Num(999)]
  {
  }

  /** A response that names `user_id` overrides it: the identity fields are
      not protected from the response. */
  lemma ResponseOverridesIdentity(current: Record, response: Record)
    requires UserIdKey in response
    ensures Merge(current, response)[UserIdKey] == response[UserIdKey]
  {
  }
}
