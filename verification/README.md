# fosite-storage-pgx, modelled in Dafny

A model of the PostgreSQL token-session store for the fosite OAuth2
library. The store keeps one request record per token signature, in one
table (`{prefix}request`), for three categories of token: authorization
codes, access tokens and refresh tokens. Each category has a
Create / Get / Invalidate-or-Delete triple.

The table is an immutable `map<string, Row>` keyed by the `signature`
column, and every store operation is a pure function of the table. A write
returns the new table together with an optional error. A read returns Go's
`(request, error)` pair.

| file | module | models |
|---|---|---|
| wrappers.dfy | `Wrappers` | `Option` and `Result` |
| errors.dfy | `Errors` | `fosite.ErrNotFound`, `fosite.ErrInactiveToken`, `fosite.ErrInvalidatedAuthorizeCode`, `pgx.ErrNoRows`, the uniqueness violation, and other collaborator errors |
| hex.dfy | `Hex` | bytes and `hex.EncodeToString`: lowercase base16, section 8 of RFC 4648 |
| request.dfy | `Requests` | `request.go`: the `Request` wrapper around `fosite.Request`, `AuthType`, `CastFromFosite` |
| library.dfy | `Library` | library code the store calls, passed in as function values: SHA-384, `url.Values` Encode/ParseQuery, JSON for sessions |
| storage.dfy | `Storage` | `PgStorage`, `New`, `WithTablesPrefix`, `WithMigrationTableName` |
| codec.dfy | `Codec` | `requestToSchema`, `schemaToRequest`, `dbCreateRequest`, `dbFindRequestBySignature` |
| store.dfy | `TokenStore` | `storage_oauth2.go`: the nine session methods and `hashAccessTokenSignature` |
| lifecycle.dfy | `Lifecycle` | the writes as steps of a state machine, and what any run of them preserves |

Collaborators appear in the model as follows:
- The database is the `Table` passed to each operation. Whether a connection can be acquired is `PgStorage.db` (`Available` or `Unavailable(err)`).
- The client registry (`Client.GetClientByID`) is the function `PgStorage.client`.
- SHA-384 and the form and session codecs are the fields of a `Library` value.
- Where a property needs a library round trip, it is an explicit hypothesis: `FormSurvives` and `SessionSurvives`.

Behaviour of the code that the model keeps:
- A NULL form column decodes to a nil form (`None`), and only text that does not parse is an error (storage.go:81-86).
- Errors of the library code and of the client registry are returned unchanged (storage.go:76-89, storage_oauth2.go:34-37).
- A second insert of the same signature is modelled as a uniqueness-constraint error (`UniqueViolation`) that leaves the table unchanged. That constraint is assumed to be enforced by the migration SQL, which is not part of this model.

## Model

| member | source | states |
|---|---|---|
| Hex.HexEncode | storage_oauth2.go:119 | each byte becomes two characters from the lowercase alphabet, so the output is exactly twice as long as the input |
| Hex.HexRoundTrip | storage_oauth2.go:119 | the hex encoding loses nothing: decoding it gives back the bytes |
| Hex.HexDecodeRoundTrip | storage_oauth2.go:119 | every even-length lowercase hex string is the encoding of the bytes it decodes to, so the encoding is onto that set |
| Hex.HexEncodeInjective | storage_oauth2.go:119 | distinct digests give distinct hex keys, and equal keys come from equal digests |
| TokenStore.HashAccessTokenSignature | storage_oauth2.go:117-120 | the stored access-token key is always 96 lowercase hex characters, whatever the input length, and it decodes back to the SHA-384 digest of the signature |
| TokenStore.HashCollisionIsDigestCollision | storage_oauth2.go:117-120 | two access-token signatures share a key exactly when their SHA-384 digests collide |
| Requests.CastFromFosite | request.go:23-37 | never touches Type, Signature or Active; a concrete fosite.Request is copied exactly; any other requester is copied getter by getter, keeping the wrapper's lang; in both cases the wrapper's getters afterwards agree with the source's |
| Requests.CastIdempotent | request.go:23-37 | casting twice from the same source gives the same wrapper as casting once |
| Requests.CastForgetsBase | request.go:23-37 | the result depends on the old embedded request only through lang, and only on the getter path |
| Storage.Apply | storage_options.go:4-17 | WithTablesPrefix sets only the prefix, and WithMigrationTableName sets only the migration table name; db and client are never touched |
| Storage.ApplyOptionsLastWins | storage.go:49-51 | applying options left to right leaves each table name as set by the last option of its kind, or as it was if there is none |
| Storage.New | storage.go:42-53 | the store keeps the given db and client; its prefix and migration table name are the last ones given, falling back to "auth_fosite_" and "public.auth_fosite_migrations" |
| Storage.SameOptionTwiceLastWins | storage_options.go:4-17 | when the same option kind is passed twice, the later value wins |
| Storage.OptionsCommute | storage_options.go:4-17 | the two option kinds commute, and applying both sets both values |
| Codec.EncodeForm | storage.go:93-97 | the form column is NULL exactly when the form is nil, and otherwise holds the form's encoding |
| Codec.DecodeForm | storage.go:81-86 | a NULL column gives a nil form and no error; text that does not parse fails with the parser's error |
| Codec.FormColumnRoundTrip | storage.go:81-97 | a form that survives url encoding comes back from its column unchanged, nil included |
| Codec.RequestToSchema | storage.go:92-119 | fails exactly when the session does not serialize; otherwise id, type, signature, client id, requested_at, the four scope and audience lists and active are copied as they are |
| Codec.SchemaToRequest | storage.go:55-90 | fails with the first of the session-decode, form-parse and client-lookup errors; on success the columns are carried over, the client is the registry's answer for the stored id, and the session is always a DefaultSession |
| Codec.SchemaRoundTrip | storage.go:55-119 | decoding an encoded request gives it back, except that the client is freshly resolved, the session becomes a DefaultSession with the same fields, and lang is dropped |
| Codec.DefaultSessionRoundTrip | storage_test.go:187 | a DefaultSession comes back equal to the one stored |
| Codec.DbCreateRequest | storage.go:121-162 | succeeds exactly when the session serializes, a connection is available and the signature is new; it then adds exactly one row, under the signature; every failure leaves the table unchanged |
| Codec.DbFindRequestBySignature | storage.go:164-188 | an absent signature is ErrNoRows and an unreachable database its error; a found row is decoded with its signature, type and active flag, and a DefaultSession |
| Codec.CreateThenFind | storage_test.go:172-188 | creating a request and finding it by the same signature returns the same id, signature, scopes, audiences, form and active flag, with the client resolved and the session as a DefaultSession |
| TokenStore.NewRecord | storage_oauth2.go:16-20 | every record a Create path builds is active, keyed by the given key, with type left empty, and reads like the caller's request through its getters |
| TokenStore.CreateSession | storage_oauth2.go:15-22 | a Create succeeds exactly when the database is reachable, the key is new and the session serializes; it then adds one active row under the key with empty type, holding the flattened columns of the caller's request, and leaves every other row alone |
| TokenStore.GetSession | storage_oauth2.go:30-42 | any ErrNoRows, whether from a missing row or passed on from decoding or the client registry, gives nil and ErrNotFound; an inactive row gives the record together with ErrInactiveToken; an active row gives the record alone; any other error gives nil and that error; the result is never (nil, nil) |
| TokenStore.CreateAuthorizeCodeSession | storage_oauth2.go:15-22 | stores under the raw signature |
| TokenStore.GetAuthorizeCodeSession | storage_oauth2.go:29-43 | looks up the raw signature and ignores the session argument |
| TokenStore.InvalidateAuthorizeCodeSession | storage_oauth2.go:48-51 | sets active to false on the matching row only and changes no other field or row; a missing row is not an error; only connection failure is |
| TokenStore.CreateAccessTokenSession | storage_oauth2.go:54-61 | stores under the hash of the signature |
| TokenStore.GetAccessTokenSession | storage_oauth2.go:64-78 | looks up the hash of the signature |
| TokenStore.DeleteSession | storage_oauth2.go:81-84 | removes exactly the row at the key, if any, and leaves all other rows alone; an absent key is not an error |
| TokenStore.DeleteAccessTokenSession | storage_oauth2.go:81-84 | deletes the row at the hash of the signature |
| TokenStore.CreateRefreshTokenSession | storage_oauth2.go:86-93 | stores under the raw signature |
| TokenStore.GetRefreshTokenSession | storage_oauth2.go:95-109 | looks up the raw signature |
| TokenStore.DeleteRefreshTokenSession | storage_oauth2.go:111-114 | deletes the row at the raw signature |
| TokenStore.CreateThenGet | storage_oauth2_test.go:51-73 | a record created under a new key reads back active and with no error, holding the caller's request with the client resolved and the session as a DefaultSession |
| TokenStore.AccessTokenCreateThenGet | storage_oauth2.go:54-78 | creating an access token and getting it with the same raw signature finds it, active |
| TokenStore.AccessTokenRawKeyMisses | storage_oauth2.go:54-61 | an access token is not stored under its raw signature: a raw-key lookup after the create misses with ErrNotFound |
| TokenStore.AuthorizeCodeCreateThenGet | storage_oauth2_test.go:51-73 | an authorization code reads back active and with no error after its create |
| TokenStore.RefreshTokenCreateThenGet | storage_oauth2.go:86-109 | a refresh token reads back active and with no error after its create |
| TokenStore.InvalidateThenGet | storage_oauth2_test.go:75-83 | after invalidation, Get returns the previously stored record, now inactive, together with ErrInactiveToken |
| TokenStore.InvalidatedCodeLacksDocumentedError | storage_oauth2.go:25-43 | as written, getting an invalidated authorization code never yields the documented ErrInvalidatedAuthorizeCode |
| TokenStore.GetAuthorizeCodeSessionAsDocumented | storage_oauth2.go:24-43 | the documented behaviour: an inactive code yields the record with ErrInvalidatedAuthorizeCode, an active one the record alone, and every failure is as in the code |
| TokenStore.InvalidateThenGetAsDocumented | storage_oauth2.go:45-51 | with the documented behaviour, invalidate-then-get yields the stored record, now inactive, together with ErrInvalidatedAuthorizeCode |
| TokenStore.InvalidateIdempotent | storage_oauth2.go:48-51 | invalidating twice is the same as invalidating once |
| TokenStore.DeleteThenGet | storage_oauth2.go:81-114 | after deleting an access or refresh token, getting it returns nil and ErrNotFound |
| TokenStore.DeleteIdempotent | storage_oauth2.go:81-114 | deleting twice is the same as deleting once |
| TokenStore.CategoriesShareTable | storage_oauth2.go:29-114 | the categories differ only by key: an authorization code and a refresh token with the same signature are the same row, and an access token is the row at its hash |
| Lifecycle.StepEvolves | storage_oauth2.go:15-114 | in one write, only an Invalidate of its own key changes a row that stays, and then only by deactivating it; a row that goes was deleted by its own key; a new row was added by a Create of its own key (hashed for access tokens) and is active with empty type |
| Lifecycle.StepPreservesWellKeyed | storage_oauth2.go:15-114 | every write keeps each row under its own signature |
| Lifecycle.RunPreservesWellKeyed | storage_oauth2.go:15-114 | any sequence of writes keeps each row under its own signature |
| Lifecycle.ActiveIsOneWay | storage_oauth2.go:48-51 | in any run that never deletes a key, the row there keeps all fields but active; active only goes from true to false, an inactive row stays exactly as it was, and a changed row implies an Invalidate of that key in the run |
| Lifecycle.RunAppend | storage_oauth2.go:15-114 | running two sequences of writes one after the other is running their concatenation, so run properties apply from any point of a run |

## Left out

- `MigrateUp` (storage_migrations.go): it drives an external migrator over SQL files that are not part of this model.
- The uniqueness constraint on `signature`: it is assumed to be enforced by the migration SQL, and it is what makes the one-row-per-signature map model sound.
- pgx plumbing: SQL text, `Exec`, `QueryRow`, `Scan`, and the column types.
- Connection acquisition is one abstract outcome per store, used the same way by every operation. The Invalidate and Delete methods call `p.db.Conn()` without a context, which does not match the `DB` interface; the model does not reproduce that mismatch.
- Contexts, cancellation and deadlines, `slog` logging, and concurrent workers: these are runtime concerns. Every operation is modelled as one atomic read or write.
- Timestamps are abstract integers. Database precision and rounding are not modelled.
- SHA-384 internals: `Library.sum384` is any function returning 48 bytes. Hashing is deterministic because it is a function; collision resistance is not modelled.
- `url.Values.Encode`, `url.ParseQuery`, `json.Marshal` and JSON decoding are opaque function values. Their round trips are hypotheses, not proofs.
- Library errors are not wrapped in the model, so `errors.Is(err, pgx.ErrNoRows)` is plain equality with `NoRows`.
- Nil interfaces: a nil client would panic in `requestToSchema` (`GetClient().GetID()`), and a nil session would serialize as JSON null. The model always has a client and a session.
- Codec.SchemaToRequest: on a client-registry error, the Go function also returns the partly filled request next to the error. The model returns only the error. No caller reads that request, since every Get returns nil alongside the error.
- Custom session types are reduced to a type name plus the DefaultSession fields their JSON carries.
- Test scaffolding (`TestMain`, `connAsDB`, the BEGIN/ROLLBACK wrapping) is not store behaviour.

## Findings

| source | as written | input that shows it | evidently intended | confidence | as-written member | corrected member |
|---|---|---|---|---|---|---|
| storage_oauth2.go:25-28, 40 | the doc comment promises `fosite.ErrInvalidatedAuthorizeCode` for an invalidated code, but line 40 returns `fosite.ErrInactiveToken` | create an authorization code with signature "s", invalidate "s", then get "s": the error is ErrInactiveToken | return the record together with ErrInvalidatedAuthorizeCode | medium; not executed | TokenStore.InvalidatedCodeLacksDocumentedError | TokenStore.GetAuthorizeCodeSessionAsDocumented |

The store operations keep the code's behaviour, `TokenStore.GetAuthorizeCodeSession`, because callers of this package see that one. The corrected variant and its lemma `TokenStore.InvalidateThenGetAsDocumented` state what the doc comment promises.
