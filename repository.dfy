/**
 * `WebhookRepository`: the two tables a webhook is stored in (plus the
 * participant table its foreign keys point into), the lookup by uuid, and
 * `create`, which inserts a webhook row and its header rows and then reads
 * the webhook back.
 */
module Repository {
  import opened Basics
  import opened Json
  import opened Models
  import opened Rows

  /** The storage the repository reads: participants and webhooks by id, header rows in table order. */
  datatype Tables = Tables(
    participants: map<nat, Participant>,
    webhooks: map<nat, WebhookRow>,
    headers: seq<HeaderRow>)

  /** The unique index on `webhooks.uuid`. */
  ghost predicate UuidsUnique(webhooks: map<nat, WebhookRow>)
  {
    forall a, b :: a in webhooks && b in webhooks && webhooks[a].uuid.Some? && webhooks[a].uuid == webhooks[b].uuid ==> a == b
  }

  /** No webhook row carries this uuid yet. */
  ghost predicate UuidUnused(t: Tables, uuid: string)
  {
    forall id :: id in t.webhooks ==> t.webhooks[id].uuid != Some(uuid)
  }

  /** The integrity the database keeps: keys match ids, uuids are unique, every header row has its webhook. */
  ghost predicate Consistent(t: Tables)
  {
    && (forall id :: id in t.participants ==> t.participants[id].id == id)
    && UuidsUnique(t.webhooks)
    && (forall i :: 0 <= i < |t.headers| ==> t.headers[i].webhookId in t.webhooks)
  }

  /** `Webhook.where(uuid: uuid).single_record`, as the id of the matching row. */
  function FindRowId(t: Tables, uuid: string): (r: Option<nat>)
    requires UuidsUnique(t.webhooks)
    ensures r == None <==> UuidUnused(t, uuid)
    ensures r.Some? ==> r.value in t.webhooks && t.webhooks[r.value].uuid == Some(uuid)
  {
    if exists id :: id in t.webhooks && t.webhooks[id].uuid == Some(uuid) then
      var id :| id in t.webhooks && t.webhooks[id].uuid == Some(uuid);
      Some(id)
    else
      None
  }

  /**
   * `find_by_uuid`: nil when no row has the uuid; otherwise the model built
   * from that row, carrying the row's uuid, the participants it names, and
   * its method, url, header map and parsed body.
   */
  function FindByUuid(t: Tables, uuid: string, codec: Codec): (r: Result<Option<Webhook>, Error>)
    requires UuidsUnique(t.webhooks)
    ensures r == Ok(None) <==> UuidUnused(t, uuid)
    ensures forall id :: id in t.webhooks && t.webhooks[id].uuid == Some(uuid) ==>
      (r.Err? <==> ParsedBody(t.webhooks[id], codec).Err?) &&
      (r.Ok? ==>
         && r.value.Some?
         && r.value.value.uuid == Some(uuid)
         && r.value.value.consumer == Associated(t.participants, t.webhooks[id].consumerId)
         && r.value.value.provider == Associated(t.participants, t.webhooks[id].providerId)
         && r.value.value.request.httpMethod == t.webhooks[id].httpMethod
         && r.value.value.request.url == t.webhooks[id].url
         && r.value.value.request.headers == HeaderMap(t.headers, id)
         && r.value.value.request.body == ParsedBody(t.webhooks[id], codec).value)
  {
    match FindRowId(t, uuid)
    case None => Ok(None)
    case Some(id) =>
      match ToModel(t.webhooks[id], id, t.participants, t.headers, codec)
      case Ok(model) => Ok(Some(model))
      case Err(e) => Err(e)
  }

  /**
   * Header rows for the names in `done`: each belongs to the webhook and
   * carries the value the map gives its name, and each name has exactly one.
   */
  ghost predicate RowsFor(rows: seq<HeaderRow>, headers: map<string, string>, done: set<string>, webhookId: nat)
  {
    && (forall i :: 0 <= i < |rows| ==>
          rows[i].webhookId == webhookId && rows[i].name in done &&
          rows[i].name in headers && rows[i].value == headers[rows[i].name])
    && (forall i, j :: 0 <= i < j < |rows| ==> rows[i].name != rows[j].name)
    && (forall name :: name in done ==> exists i :: 0 <= i < |rows| && rows[i].name == name)
  }

  /**
   * What `create` leaves behind, given the tables before it: the new webhook
   * row under a fresh id, with the foreign keys and the new uuid filled in,
   * and after the existing header rows one row per header entry.
   */
  ghost predicate Inserted(t0: Tables, t1: Tables, webhook: Webhook, consumerId: nat, providerId: nat,
                           uuid: string, id: nat, codec: Codec)
  {
    && id !in t0.webhooks
    && t1.participants == t0.participants
    && t1.webhooks == t0.webhooks[id := FromModel(webhook, codec).(uuid := Some(uuid), consumerId := Some(consumerId), providerId := Some(providerId))]
    && |t0.headers| <= |t1.headers|
    && t1.headers[..|t0.headers|] == t0.headers
    && RowsFor(t1.headers[|t0.headers|..], webhook.request.headers, webhook.request.headers.Keys, id)
  }

  /** One header row per entry: the rows added number exactly the entries of the map. */
  lemma {:induction false} RowsForCount(rows: seq<HeaderRow>, headers: map<string, string>, done: set<string>, webhookId: nat)
    requires RowsFor(rows, headers, done, webhookId)
    ensures |rows| == |done|
    decreases |rows|
  {
    if rows == [] {
      assert forall name :: name !in done;
      assert done == {};
    } else {
      var last := rows[|rows| - 1];
      var init := rows[..|rows| - 1];
      var rest := done - {last.name};
      forall name | name in rest
        ensures exists i :: 0 <= i < |init| && init[i].name == name
      {
        var i :| 0 <= i < |rows| && rows[i].name == name;
        assert i < |init| && init[i] == rows[i];
      }
      forall i | 0 <= i < |init|
        ensures init[i].name in rest
      {
        assert init[i] == rows[i];
      }
      assert RowsFor(init, headers, rest, webhookId);
      RowsForCount(init, headers, rest, webhookId);
    }
  }

  /** Inserting a row under a fresh id and uuid, with header rows pointing at it, keeps the tables consistent. */
  lemma InsertedConsistent(t0: Tables, t1: Tables, webhook: Webhook, consumerId: nat, providerId: nat,
                           uuid: string, id: nat, codec: Codec)
    requires Consistent(t0)
    requires UuidUnused(t0, uuid)
    requires Inserted(t0, t1, webhook, consumerId, providerId, uuid, id, codec)
    ensures Consistent(t1)
  {
    assert t1.headers == t0.headers + t1.headers[|t0.headers|..];
  }

  /** Header round trip: the header map read back for the new webhook is the map it was created with. */
  lemma InsertedHeaders(t0: Tables, t1: Tables, webhook: Webhook, consumerId: nat, providerId: nat,
                        uuid: string, id: nat, codec: Codec)
    requires Consistent(t0)
    requires Inserted(t0, t1, webhook, consumerId, providerId, uuid, id, codec)
    ensures HeaderMap(t1.headers, id) == webhook.request.headers
  {
    var headers := webhook.request.headers;
    var added := t1.headers[|t0.headers|..];
    assert t1.headers == t0.headers + added;
    HeaderMapPrependOthers(t0.headers, added, id);
    forall name | name in headers
      ensures name in HeaderMap(added, id) && HeaderMap(added, id)[name] == headers[name]
    {
      var i :| 0 <= i < |added| && added[i].name == name;
      HeaderMapLastWins(added, id, i);
    }
    forall name | name in HeaderMap(added, id)
      ensures name in headers
    {
      HeaderMapKeys(added, id, name);
    }
  }

  /**
   * `create` reads back what it was given: under the new uuid the table now
   * holds a webhook with the participants whose ids were passed and the same
   * request (method, url, headers and, if the codec round-trips it, body).
   */
  lemma CreateReadsBack(t0: Tables, t1: Tables, webhook: Webhook, consumer: Participant, provider: Participant,
                        uuid: string, id: nat, codec: Codec)
    requires Consistent(t0)
    requires consumer.id in t0.participants && provider.id in t0.participants
    requires UuidUnused(t0, uuid)
    requires Inserted(t0, t1, webhook, consumer.id, provider.id, uuid, id, codec)
    ensures Consistent(t1)
    ensures BodyRoundTrips(codec, webhook.request.body) ==>
      FindByUuid(t1, uuid, codec) ==
        Ok(Some(Webhook(Some(uuid), Some(t0.participants[consumer.id]), Some(t0.participants[provider.id]), webhook.request)))
    ensures t0.participants[consumer.id].id == consumer.id && t0.participants[provider.id].id == provider.id
  {
    InsertedConsistent(t0, t1, webhook, consumer.id, provider.id, uuid, id, codec);
    InsertedHeaders(t0, t1, webhook, consumer.id, provider.id, uuid, id, codec);
    if BodyRoundTrips(codec, webhook.request.body) {
      BodyRoundTrip(webhook, codec);
    }
    var found := FindRowId(t1, uuid);
    assert t1.webhooks[id].uuid == Some(uuid);
    assert found == Some(id);
  }

  /** `create` adds exactly as many header rows as the webhook has header entries. */
  lemma InsertedCount(t0: Tables, t1: Tables, webhook: Webhook, consumerId: nat, providerId: nat,
                      uuid: string, id: nat, codec: Codec)
    requires Inserted(t0, t1, webhook, consumerId, providerId, uuid, id, codec)
    ensures |t1.headers| == |t0.headers| + |webhook.request.headers|
  {
    var headers := webhook.request.headers;
    RowsForCount(t1.headers[|t0.headers|..], headers, headers.Keys, id);
    assert |headers.Keys| == |headers|;
  }

  /** `create` only inserts: every other uuid is looked up exactly as before. */
  lemma CreateKeepsOthers(t0: Tables, t1: Tables, webhook: Webhook, consumerId: nat, providerId: nat,
                          uuid: string, id: nat, codec: Codec, other: string)
    requires Consistent(t0)
    requires UuidUnused(t0, uuid)
    requires Inserted(t0, t1, webhook, consumerId, providerId, uuid, id, codec)
    requires other != uuid
    ensures Consistent(t1)
    ensures forall k :: k in t0.webhooks ==> k in t1.webhooks && t1.webhooks[k] == t0.webhooks[k]
    ensures FindByUuid(t1, other, codec) == FindByUuid(t0, other, codec)
  {
    InsertedConsistent(t0, t1, webhook, consumerId, providerId, uuid, id, codec);
    var added := t1.headers[|t0.headers|..];
    assert t1.headers == t0.headers + added;
    match FindRowId(t0, other)
    case None =>
      assert FindRowId(t1, other) == None;
    case Some(k) =>
      assert k != id && t1.webhooks[k] == t0.webhooks[k];
      var found := FindRowId(t1, other);
      assert found.Some?;
      assert found == Some(k);
      HeaderMapAppendOthers(t0.headers, added, k);
  }

  /** The repository over its tables; the storage engine assigns webhook ids from a counter. */
  class WebhookRepository {
    var participants: map<nat, Participant>
    var webhooks: map<nat, WebhookRow>
    var headerRows: seq<HeaderRow>
    var nextId: nat

    function State(): Tables
      reads this
    {
      Tables(participants, webhooks, headerRows)
    }

    ghost predicate Valid()
      reads this
    {
      Consistent(State()) && forall id :: id in webhooks ==> id < nextId
    }

    constructor (participants: map<nat, Participant>)
      requires forall id :: id in participants ==> participants[id].id == id
      ensures Valid()
      ensures State() == Tables(participants, map[], [])
    {
      this.participants := participants;
      webhooks := map[];
      headerRows := [];
      nextId := 0;
    }

    /**
     * `create`: stores the webhook row with the given participants' ids and
     * the fresh uuid (replacing any uuid the webhook had), saves one header
     * row per header entry, and returns `find_by_uuid` of the new uuid.
     */
    method Create(webhook: Webhook, consumer: Participant, provider: Participant, newUuid: string, codec: Codec)
      returns (r: Result<Option<Webhook>, Error>)
      requires Valid()
      requires consumer.id in participants && provider.id in participants
      requires UuidUnused(State(), newUuid)
      modifies this
      ensures Valid()
      ensures Inserted(old(State()), State(), webhook, consumer.id, provider.id, newUuid, old(nextId), codec)
      ensures |headerRows| == |old(headerRows)| + |webhook.request.headers|
      ensures UuidsUnique(webhooks) && r == FindByUuid(State(), newUuid, codec)
      ensures BodyRoundTrips(codec, webhook.request.body) ==>
        r == Ok(Some(Webhook(Some(newUuid), Some(participants[consumer.id]), Some(participants[provider.id]), webhook.request)))
      ensures Lawful(codec) ==>
        r == Ok(Some(Webhook(Some(newUuid), Some(participants[consumer.id]), Some(participants[provider.id]), webhook.request)))
    {
      ghost var t0 := State();
      var row := FromModel(webhook, codec);
      row := row.(consumerId := Some(consumer.id));
      row := row.(providerId := Some(provider.id));
      row := row.(uuid := Some(newUuid));
      var id := nextId;
      webhooks := webhooks[id := row];
      nextId := nextId + 1;
      SaveHeaders(webhook.request.headers, id);
      CreateReadsBack(t0, State(), webhook, consumer, provider, newUuid, id, codec);
      InsertedCount(t0, State(), webhook, consumer.id, provider.id, newUuid, id, codec);
      r := FindByUuid(State(), newUuid, codec);
      if Lawful(codec) {
        LawfulRoundTrips(codec, webhook.request.body);
      }
    }

    /** The `each_pair` loop of `create`: saves one header row per entry, owned by the given webhook. */
    method SaveHeaders(headers: map<string, string>, id: nat)
      modifies this
      ensures participants == old(participants) && webhooks == old(webhooks) && nextId == old(nextId)
      ensures |old(headerRows)| <= |headerRows| && headerRows[..|old(headerRows)|] == old(headerRows)
      ensures RowsFor(headerRows[|old(headerRows)|..], headers, headers.Keys, id)
    {
      var pending := headers.Keys;
      ghost var added: seq<HeaderRow> := [];
      while pending != {}
        invariant pending <= headers.Keys
        invariant participants == old(participants) && webhooks == old(webhooks) && nextId == old(nextId)
        invariant headerRows == old(headerRows) + added
        invariant RowsFor(added, headers, headers.Keys - pending, id)
        decreases pending
      {
        var name :| name in pending;
        var header := HeaderFromModel(name, headers[name], id);
        headerRows := headerRows + [header];
        ghost var before, wasPending := added, pending;
        added := added + [header];
        pending := pending - {name};
        forall n | n in headers.Keys - pending
          ensures exists i :: 0 <= i < |added| && added[i].name == n
        {
          if n == name {
            assert added[|before|].name == n;
          } else {
            assert n in headers.Keys - wasPending;
            var i :| 0 <= i < |before| && before[i].name == n;
            assert added[i].name == n;
          }
        }
      }
      assert headers.Keys - pending == headers.Keys;
      assert headerRows[|old(headerRows)|..] == added;
    }
  }
}
