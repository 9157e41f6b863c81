/**
 * The domain side of the mapping: a webhook is a request template
 * (method, url, headers, body) tied to a consumer and a provider.
 */
module Models {
  import opened Basics
  import opened Json

  /** A pacticipant; only its storage id matters to the repository. */
  datatype Participant = Participant(id: nat, name: string)

  /**
   * The JSON values that Ruby holds as neither nil nor a String: a Hash, an
   * Array, a number or a boolean. Only these are serialised.
   */
  type Structure = v: Json | !v.JNull? && !v.JString? witness JBool(false)

  /** A request body as Ruby sees it: nil, a String, or a structured value sent as JSON. */
  datatype Body = Absent | Raw(text: string) | Structured(value: Structure)

  /** The Ruby object `JSON.parse` yields for a JSON value: null is nil and a JSON string is a String. */
  function FromJson(v: Json): (b: Body)
    ensures b.Absent? <==> v.JNull?
    ensures b.Raw? <==> v.JString?
    ensures b.Raw? ==> b.text == v.s
    ensures b.Structured? ==> b.value == v
  {
    match v
    case JNull => Absent
    case JString(s) => Raw(s)
    case _ => Structured(v)
  }

  datatype WebhookRequest = WebhookRequest(
    httpMethod: string,
    url: string,
    headers: map<string, string>,
    body: Body)

  datatype Webhook = Webhook(
    uuid: Option<string>,
    consumer: Option<Participant>,
    provider: Option<Participant>,
    request: WebhookRequest)

  /** The codec gives this body back after a serialise/parse round trip (vacuous unless it is structured). */
  ghost predicate BodyRoundTrips(codec: Codec, body: Body)
  {
    body.Structured? ==> codec.parse(codec.serialise(body.value)) == Some(body.value)
  }

  /** A lawful codec round-trips every body. */
  lemma LawfulRoundTrips(codec: Codec, body: Body)
    requires Lawful(codec)
    ensures BodyRoundTrips(codec, body)
  {
  }
}
