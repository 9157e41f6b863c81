# Webhook repository model

A Dafny model of the Pact Broker's webhook persistence layer
(`lib/pact_broker/repositories/webhook_repository.rb`). A domain webhook is an
HTTP request template: method, url, header map and body. It is tied to a
consumer and a provider participant. The repository stores it as one row of
the `webhooks` table plus one row of the `webhook_headers` table per header
entry. It rebuilds the domain webhook from those rows when it is looked up by
uuid.

Modules:

- `Basics`: `Option` (Ruby's nil) and `Result` (a value or a raised error).
- `Json`: structured body values and a `Codec`, the pair of functions that
  stand for `to_json` and `JSON.parse`. `Lawful(codec)` is the round-trip law
  the JSON library is trusted to obey. It is not an axiom: `LawfulRoundTrips`
  derives the per-body hypothesis `BodyRoundTrips` from it, and `Create`
  promises its read-back under it.
- `Models`: the domain shapes `Participant`, `Body`, `WebhookRequest` and
  `Webhook`. A body is `Absent` (nil), `Raw` (a Ruby String) or `Structured`
  (a Hash, an Array, a number or a boolean, sent as JSON). `Structured` holds
  a `Structure`, the JSON values other than null and strings, because Ruby
  holds those two as nil and a String.
- `Rows`: the two Sequel row classes `Webhook` and `WebhookHeader` and their
  translations: `from_model`, `parsed_body`, `headers`, `request_attributes`
  and `to_model`. `HeaderMap` is the fold that `#headers` performs. The
  `Headers` method is that loop, proved equal to the fold.
- `Repository`: the tables as a value (`Tables`), the lookup `find_by_uuid`,
  and the class `WebhookRepository`, whose `Create` method inserts rows step by
  step. `Inserted` states what `create` leaves in the tables. The lemmas beside
  it prove the read-back guarantees: the header map and body come back
  unchanged, the participants come back by id, and every other webhook is
  untouched.

On these edge cases the model follows the code:

- When a webhook row's foreign key names no participant, the association gives
  nil. `ToModel` returns `None` for that participant and raises no error.
- A body flagged as JSON that the parser rejects makes `JSON.parse` raise. The
  model returns `Err(CorruptBody(text))`.
- A row whose flag is set but whose body is nil reads back as an absent body.
  Nothing is parsed in that case.
- A flagged body whose text parses to JSON null reads back as an absent body,
  and one that parses to a JSON string reads back as that String, as the
  objects `JSON.parse` returns would.

## Model

| member | source | states |
|---|---|---|
| `Rows.FromModel` | lib/pact_broker/repositories/webhook_repository.rb:44-53 | the JSON flag is set exactly when the body is neither a String nor nil; an unflagged row stores the String or nil unchanged, a flagged row stores the serialised body; uuid, method and url are copied and the foreign keys are left unset |
| `Rows.ParsedBody` | lib/pact_broker/repositories/webhook_repository.rb:73-79 | a nil body reads back as absent and an unflagged body as the stored text, never parsed; a present, flagged body that the parser accepts reads back as the Ruby object of the parsed value, and any structured result is what the parser returned; the call fails exactly when the body is present, flagged, and rejected by the parser |
| `Models.FromJson` | lib/pact_broker/repositories/webhook_repository.rb:75 | a parsed JSON null is nil, a parsed JSON string is a String with that text, and every other parsed value is a structured body holding it |
| `Models.LawfulRoundTrips` | lib/pact_broker/repositories/webhook_repository.rb:50-75 | when parsing undoes serialising for every value, every body survives the round trip through the stored text |
| `Rows.BodyRoundTrip` | lib/pact_broker/repositories/webhook_repository.rb:45-79 | parsing the row built from a webhook gives back the webhook's body, for String and nil bodies always and for structured bodies whenever the codec round-trips the value |
| `Rows.UnflaggedRowRoundTrip` | lib/pact_broker/repositories/webhook_repository.rb:45-79 | the body read from an unflagged row is stored again as the same text (or nil) with the flag still unset |
| `Rows.HeaderFromModel` | lib/pact_broker/repositories/webhook_repository.rb:87-93 | the header row carries the given name and value and points at the given webhook id |
| `Rows.HeaderRowReadsBack` | lib/pact_broker/repositories/webhook_repository.rb:87-93 | saving one header row sets that name to that value in its own webhook's header map and leaves every other webhook's map as it was |
| `Rows.Headers` | lib/pact_broker/repositories/webhook_repository.rb:67-71 | the hash built by the loop over the header rows is the header map of that webhook |
| `Rows.HeaderMapKeys` | lib/pact_broker/repositories/webhook_repository.rb:67-71 | a name is in a webhook's header map exactly when some header row of that webhook carries the name |
| `Rows.HeaderMapLastWins` | lib/pact_broker/repositories/webhook_repository.rb:67-71 | for a repeated name, the value in the map is the value of the last row of that webhook with the name |
| `Rows.HeaderMapAppendOthers` | lib/pact_broker/repositories/webhook_repository.rb:68 | header rows of other webhooks after this webhook's rows do not change its header map |
| `Rows.HeaderMapPrependOthers` | lib/pact_broker/repositories/webhook_repository.rb:68 | header rows of other webhooks before this webhook's rows do not change its header map |
| `Rows.RequestAttributes` | lib/pact_broker/repositories/webhook_repository.rb:63-65 | the request has the row's method and url, the webhook's header map and the parsed body; it fails exactly when parsing the body fails |
| `Rows.Associated` | lib/pact_broker/repositories/webhook_repository.rb:40-41 | the association gives the participant stored under the foreign key, and nil when the key is unset or names no participant |
| `Rows.ToModel` | lib/pact_broker/repositories/webhook_repository.rb:55-61 | the model carries the row's uuid, the participants its foreign keys name, and the row's request with its header map and parsed body; it fails exactly when the body fails to parse |
| `Repository.FindRowId` | lib/pact_broker/repositories/webhook_repository.rb:30 | the lookup finds nothing exactly when no row has the uuid, and otherwise finds a row that carries it |
| `Repository.FindByUuid` | lib/pact_broker/repositories/webhook_repository.rb:29-33 | the result is nil exactly when no row has the uuid; otherwise it is the model built from that row, with the row's uuid, consumer, provider, method, url, header map and parsed body, and it fails exactly when that row's body fails to parse |
| `Repository.InsertedConsistent` | lib/pact_broker/repositories/webhook_repository.rb:17-23 | inserting the webhook row under a fresh id and an unused uuid, with header rows pointing at it, keeps the ids of participants, the uniqueness of uuids and the header rows' references intact |
| `Repository.RowsForCount` | lib/pact_broker/repositories/webhook_repository.rb:22-24 | header rows with one distinct row per name number exactly the names |
| `Repository.InsertedCount` | lib/pact_broker/repositories/webhook_repository.rb:22-24 | `create` adds exactly as many header rows as the webhook has header entries |
| `Repository.InsertedHeaders` | lib/pact_broker/repositories/webhook_repository.rb:22-26 | after `create`, the new webhook's header map equals the header map it was created with |
| `Repository.CreateReadsBack` | lib/pact_broker/repositories/webhook_repository.rb:15-26 | after `create` the tables keep their integrity, and looking up the new uuid returns a webhook with that uuid, the participants stored under the given ids, and the same request (method, url, headers and body) whenever the codec round-trips the body |
| `Repository.CreateKeepsOthers` | lib/pact_broker/repositories/webhook_repository.rb:20-23 | `create` with an unused uuid only inserts: the tables stay consistent, existing webhook rows are unchanged and every other uuid is looked up exactly as before |
| `Repository.WebhookRepository.Create` | lib/pact_broker/repositories/webhook_repository.rb:15-27 | stores the row with the given participants' ids and the new uuid under a fresh id, keeps the existing header rows and appends one row per header entry, keeps the tables consistent, and returns `find_by_uuid` of the new uuid, which is the input webhook read back whenever the codec round-trips the body, in particular whenever the codec is lawful |
| `Repository.WebhookRepository.SaveHeaders` | lib/pact_broker/repositories/webhook_repository.rb:22-24 | appends after the existing header rows exactly one row per header entry, with the entry's name and value and the new webhook's id, and changes nothing else |

## Left out

- JSON syntax: `to_json` and `JSON.parse` are the two function values of a `Codec`. The text format and the library's behaviour beyond the round-trip law are not modelled. Numbers in `Json` are integers only.
- Uuid generation: `SecureRandom.urlsafe_base64` is replaced by a uuid the caller supplies. `Create` requires that no webhook row uses it yet.
- Storage-engine failures: a rejected write (the uuid uniqueness violation, a foreign key constraint) is not modelled. `Create` requires the consumer and provider ids to be in the participant table, which is what the source's callers guarantee by passing persisted participants.
- Storage ids: the engine's id assignment is a counter. Header rows carry no id of their own, because nothing reads it.
- Sequel machinery: `single_record` when several rows match cannot arise, because the tables keep uuids unique. The association loading of consumer and provider is a lookup in the participant table.
- Transactions and partial failure: `create` is modelled as running to completion. A fault between the webhook-row insert and the header-row inserts is not modelled.
- Extra columns merged in by `values.merge` are not modelled. Only method, url, headers and body make up the request.
- Header iteration order: the input header map is a Dafny `map`, so the order in which `each_pair` saves the rows is left open. The model proves its properties for every order.
- Repository.WebhookRepository.Create: the returned model equals the input request only when the codec round-trips the body. That is the round-trip promised for structured bodies, stated as the hypothesis `BodyRoundTrips` (or `Lawful` for the whole codec).
