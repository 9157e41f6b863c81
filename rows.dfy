/**
 * The storage side of the mapping: a row of the `webhooks` table, the rows
 * of the `webhook_headers` table, and the translations between them and the
 * domain webhook (`Webhook.from_model`, `WebhookHeader.from_model`,
 * `Webhook#parsed_body`, `#headers`, `#request_attributes`, `#to_model`).
 */
module Rows {
  import opened Basics
  import opened Json
  import opened Models

  /**
   * A row of the `webhooks` table. Its storage id is the key under which the
   * table holds it, so it is not a field here. `uuid`, `consumerId` and
   * `providerId` are nil until the repository fills them in.
   */
  datatype WebhookRow = WebhookRow(
    uuid: Option<string>,
    consumerId: Option<nat>,
    providerId: Option<nat>,
    httpMethod: string,
    url: string,
    body: Option<string>,
    isJsonRequestBody: bool)

  /** A row of the `webhook_headers` table. */
  datatype HeaderRow = HeaderRow(webhookId: nat, name: string, value: string)

  /** The stored body is flagged as JSON but the parser rejects it. */
  datatype Error = CorruptBody(stored: string)

  /**
   * `Webhook.from_model`: the flag records whether the body had to be
   * serialised, which is decided by the body's shape alone (neither a String
   * nor nil), never by a declared content type.
   */
  function FromModel(webhook: Webhook, codec: Codec): (row: WebhookRow)
    ensures row.isJsonRequestBody <==> !(webhook.request.body.Raw? || webhook.request.body.Absent?)
    ensures !row.isJsonRequestBody ==> row.body == (if webhook.request.body.Raw? then Some(webhook.request.body.text) else None)
    ensures row.isJsonRequestBody ==> row.body == Some(codec.serialise(webhook.request.body.value))
    ensures row.uuid == webhook.uuid && row.httpMethod == webhook.request.httpMethod && row.url == webhook.request.url
    ensures row.consumerId == None && row.providerId == None
  {
    var body := webhook.request.body;
    var isJson := !(body.Raw? || body.Absent?);
    WebhookRow(
      webhook.uuid, None, None, webhook.request.httpMethod, webhook.request.url,
      if isJson then Some(codec.serialise(body.value))
      else if body.Raw? then Some(body.text)
      else None,
      isJson)
  }

  /**
   * `Webhook#parsed_body`: the stored text is parsed only when it is present
   * and flagged; otherwise it is handed back as it is (nil stays absent).
   * What the parser yields is read as Ruby would: null as nil, a JSON string
   * as a String.
   */
  function ParsedBody(row: WebhookRow, codec: Codec): (r: Result<Body, Error>)
    ensures row.body == None ==> r == Ok(Absent)
    ensures row.body.Some? && !row.isJsonRequestBody ==> r == Ok(Raw(row.body.value))
    ensures row.body.Some? && row.isJsonRequestBody && codec.parse(row.body.value).Some? ==>
      r == Ok(FromJson(codec.parse(row.body.value).value))
    ensures r.Ok? && r.value.Structured? ==>
      row.isJsonRequestBody && row.body.Some? && codec.parse(row.body.value) == Some(r.value.value)
    ensures r.Err? <==> row.isJsonRequestBody && row.body.Some? && codec.parse(row.body.value) == None
  {
    if row.body.Some? && row.isJsonRequestBody then
      match codec.parse(row.body.value)
      case Some(v) => Ok(FromJson(v))
      case None => Err(CorruptBody(row.body.value))
    else if row.body.Some? then
      Ok(Raw(row.body.value))
    else
      Ok(Absent)
  }

  /** Reading back what `FromModel` stored gives the original body. */
  lemma BodyRoundTrip(webhook: Webhook, codec: Codec)
    requires BodyRoundTrips(codec, webhook.request.body)
    ensures ParsedBody(FromModel(webhook, codec), codec) == Ok(webhook.request.body)
  {
  }

  /**
   * The other direction for an unflagged row: the body read back from it is
   * stored again as the same text with the same flag.
   */
  lemma UnflaggedRowRoundTrip(row: WebhookRow, codec: Codec, webhook: Webhook)
    requires !row.isJsonRequestBody
    requires webhook.request.body == ParsedBody(row, codec).value
    ensures FromModel(webhook, codec).body == row.body
    ensures !FromModel(webhook, codec).isJsonRequestBody
  {
  }

  /** `WebhookHeader.from_model`: one header entry as a row owned by the given webhook. */
  function HeaderFromModel(name: string, value: string, webhookId: nat): (h: HeaderRow)
    ensures h.webhookId == webhookId && h.name == name && h.value == value
  {
    HeaderRow(webhookId, name, value)
  }

  /**
   * The header map of one webhook: a left fold over the table's rows that
   * skips other webhooks' rows, so a later row with the same name wins.
   */
  function HeaderMap(rows: seq<HeaderRow>, webhookId: nat): map<string, string>
    decreases |rows|
  {
    if rows == [] then map[]
    else
      var acc := HeaderMap(rows[..|rows| - 1], webhookId);
      var last := rows[|rows| - 1];
      if last.webhookId == webhookId then acc[last.name := last.value] else acc
  }

  /** `Webhook#headers`: accumulates the rows of this webhook into a hash. */
  method Headers(rows: seq<HeaderRow>, webhookId: nat) returns (h: map<string, string>)
    ensures h == HeaderMap(rows, webhookId)
  {
    h := map[];
    var i := 0;
    while i < |rows|
      invariant 0 <= i <= |rows|
      invariant h == HeaderMap(rows[..i], webhookId)
    {
      var row := rows[i];
      if row.webhookId == webhookId {
        h := h[row.name := row.value];
      }
      assert rows[..i + 1][..i] == rows[..i];
      i := i + 1;
    }
    assert rows[..i] == rows;
  }

  /** The names in a webhook's header map are exactly the names of its rows. */
  lemma {:induction false} HeaderMapKeys(rows: seq<HeaderRow>, webhookId: nat, name: string)
    ensures name in HeaderMap(rows, webhookId) <==>
      exists i :: 0 <= i < |rows| && rows[i].webhookId == webhookId && rows[i].name == name
    decreases |rows|
  {
    if rows != [] {
      var init := rows[..|rows| - 1];
      HeaderMapKeys(init, webhookId, name);
      if name in HeaderMap(rows, webhookId) && rows[|rows| - 1].name != name {
        var i :| 0 <= i < |init| && init[i].webhookId == webhookId && init[i].name == name;
        assert rows[i] == init[i];
      }
      if exists i :: 0 <= i < |rows| && rows[i].webhookId == webhookId && rows[i].name == name {
        var i :| 0 <= i < |rows| && rows[i].webhookId == webhookId && rows[i].name == name;
        if i < |init| {
          assert init[i] == rows[i];
        }
      }
    }
  }

  /** A row of the webhook whose name no later row of the webhook repeats supplies that name's value. */
  lemma {:induction false} HeaderMapLastWins(rows: seq<HeaderRow>, webhookId: nat, i: nat)
    requires i < |rows| && rows[i].webhookId == webhookId
    requires forall j :: i < j < |rows| && rows[j].webhookId == webhookId ==> rows[j].name != rows[i].name
    ensures rows[i].name in HeaderMap(rows, webhookId)
    ensures HeaderMap(rows, webhookId)[rows[i].name] == rows[i].value
    decreases |rows|
  {
    if i < |rows| - 1 {
      var init := rows[..|rows| - 1];
      assert init[i] == rows[i];
      forall j | i < j < |init| && init[j].webhookId == webhookId
        ensures init[j].name != init[i].name
      {
        assert init[j] == rows[j];
      }
      HeaderMapLastWins(init, webhookId, i);
    }
  }

  /** Rows of other webhooks placed after the rows of this one change nothing. */
  lemma {:induction false} HeaderMapAppendOthers(rows: seq<HeaderRow>, others: seq<HeaderRow>, webhookId: nat)
    requires forall j :: 0 <= j < |others| ==> others[j].webhookId != webhookId
    ensures HeaderMap(rows + others, webhookId) == HeaderMap(rows, webhookId)
    decreases |others|
  {
    if others != [] {
      var init := others[..|others| - 1];
      assert (rows + others)[..|rows + others| - 1] == rows + init;
      HeaderMapAppendOthers(rows, init, webhookId);
    } else {
      assert rows + others == rows;
    }
  }

  /** Rows of other webhooks placed before the rows of this one change nothing either. */
  lemma {:induction false} HeaderMapPrependOthers(others: seq<HeaderRow>, rows: seq<HeaderRow>, webhookId: nat)
    requires forall j :: 0 <= j < |others| ==> others[j].webhookId != webhookId
    ensures HeaderMap(others + rows, webhookId) == HeaderMap(rows, webhookId)
    decreases |rows|
  {
    if rows == [] {
      assert others + rows == [] + others;
      HeaderMapAppendOthers([], others, webhookId);
    } else {
      var init := rows[..|rows| - 1];
      assert (others + rows)[..|others + rows| - 1] == others + init;
      HeaderMapPrependOthers(others, init, webhookId);
    }
  }

  /** Saving one more header row sets that name in its own webhook's map and leaves every other map alone. */
  lemma HeaderRowReadsBack(rows: seq<HeaderRow>, name: string, value: string, owner: nat, webhookId: nat)
    ensures HeaderMap(rows + [HeaderFromModel(name, value, owner)], webhookId) ==
      if owner == webhookId then HeaderMap(rows, webhookId)[name := value] else HeaderMap(rows, webhookId)
  {
    assert (rows + [HeaderFromModel(name, value, owner)])[..|rows|] == rows;
  }

  /**
   * `Webhook#request_attributes`: the request is the row's method and url
   * with the webhook's header map and its parsed body.
   */
  function RequestAttributes(row: WebhookRow, id: nat, headerRows: seq<HeaderRow>, codec: Codec): (r: Result<WebhookRequest, Error>)
    ensures r.Err? <==> ParsedBody(row, codec).Err?
    ensures r.Ok? ==> r.value.httpMethod == row.httpMethod && r.value.url == row.url
    ensures r.Ok? ==> r.value.headers == HeaderMap(headerRows, id)
    ensures r.Ok? ==> r.value.body == ParsedBody(row, codec).value
  {
    match ParsedBody(row, codec)
    case Ok(body) => Ok(WebhookRequest(row.httpMethod, row.url, HeaderMap(headerRows, id), body))
    case Err(e) => Err(e)
  }

  /** The many-to-one association: the participant stored under the key, or nil. */
  function Associated(participants: map<nat, Participant>, key: Option<nat>): (p: Option<Participant>)
    ensures p.Some? <==> key.Some? && key.value in participants
    ensures p.Some? ==> p.value == participants[key.value]
  {
    if key.Some? && key.value in participants then Some(participants[key.value]) else None
  }

  /**
   * `Webhook#to_model`: the domain webhook with the row's uuid, the
   * participants its foreign keys name, and the request read back.
   */
  function ToModel(row: WebhookRow, id: nat, participants: map<nat, Participant>, headerRows: seq<HeaderRow>, codec: Codec): (r: Result<Webhook, Error>)
    ensures r.Err? <==> ParsedBody(row, codec).Err?
    ensures r.Ok? ==> r.value.uuid == row.uuid
    ensures r.Ok? ==> r.value.consumer == Associated(participants, row.consumerId)
    ensures r.Ok? ==> r.value.provider == Associated(participants, row.providerId)
    ensures r.Ok? ==> r.value.request.httpMethod == row.httpMethod && r.value.request.url == row.url
    ensures r.Ok? ==> r.value.request.headers == HeaderMap(headerRows, id)
    ensures r.Ok? ==> r.value.request.body == ParsedBody(row, codec).value
  {
    match RequestAttributes(row, id, headerRows, codec)
    case Ok(request) =>
      Ok(Webhook(row.uuid, Associated(participants, row.consumerId), Associated(participants, row.providerId), request))
    case Err(e) => Err(e)
  }
}
