/** The token-session store of storage_oauth2.go: a Create/Get/Invalidate
    or Create/Get/Delete triple for authorization codes, access tokens and
    refresh tokens, all over one request table. Only access-token
    signatures are hashed before use as a key; no path sets the `type`
    column, so rows of the three categories differ only by their key. */
module TokenStore {
  import opened Wrappers
  import opened Errors
  import opened Hex
  import opened Requests
  import opened Library
  import opened Storage
  import opened Codec

  /** hashAccessTokenSignature: SHA-384, then lowercase hex. */
  function HashAccessTokenSignature(lib: Library, signature: string): (h: string)
    ensures |h| == 2 * Sha384Size == 96
    ensures IsLowerHex(h)
    ensures HexDecode(h) == Some(lib.sum384(signature))
  {
    HexRoundTrip(lib.sum384(signature));
    HexEncode(lib.sum384(signature))
  }

  /** Two signatures hash to the same key exactly when their digests
      collide: the hex step loses nothing. */
  lemma HashCollisionIsDigestCollision(lib: Library, a: string, b: string)
    ensures HashAccessTokenSignature(lib, a) == HashAccessTokenSignature(lib, b)
        <==> lib.sum384(a) == lib.sum384(b)
  {
    HexEncodeInjective(lib.sum384(a), lib.sum384(b));
  }

  /** Go's `(fosite.Requester, error)` result pair. */
  datatype Reply = Reply(request: Option<Request>, err: Option<Error>)

  /** The wrapper a Create path stores under `key`: active, type left at its
      zero value, filled from the caller's request. */
  function NewRecord(key: string, request: Requester): (w: Request)
    ensures w.signature == key && w.active && w.authType == NoAuthType
    ensures w.View() == request.View()
  {
    CastFromFosite(Request(ZeroFositeRequest, NoAuthType, key, true), request)
  }

  /** The body shared by the three Create methods, once the key is chosen. */
  function CreateSession(lib: Library, p: PgStorage, t: Table, key: string, request: Requester)
    : (w: Write)
    ensures w.err.None? <==>
      && p.db.Available?
      && key !in t
      && lib.marshalSession(request.View().session).Success?
    ensures w.err.Some? ==> w.table == t
    ensures w.err.None? ==>
      && w.table.Keys == t.Keys + {key}
      && w.table[key].signature == key
      && w.table[key].active
      && w.table[key].authType == NoAuthType
      && w.table[key].id == request.View().id
      && w.table[key].clientId == request.View().client.id
      && w.table[key] == RequestToSchema(lib, NewRecord(key, request)).value
      && (forall k | k in t :: w.table[k] == t[k])
    ensures (p.db.Available? && key in t && lib.marshalSession(request.View().session).Success?) ==>
      w.err == Some(UniqueViolation)
  {
    DbCreateRequest(lib, p, t, NewRecord(key, request))
  }

  /** The body shared by the three Get methods, once the key is chosen.
      Missing row: nil and ErrNotFound. Inactive row: the record AND
      ErrInactiveToken. Active row: the record alone. Any other failure:
      nil and that error. */
  function GetSession(lib: Library, p: PgStorage, t: Table, key: string): (r: Reply)
    ensures r.request.Some? || r.err.Some?
    ensures (DbFindRequestBySignature(lib, p, t, key).Failure?
             && DbFindRequestBySignature(lib, p, t, key).error == NoRows) ==>
      r == Reply(None, Some(NotFound))
    ensures (p.db.Available? && key !in t) ==> r == Reply(None, Some(NotFound))
    ensures r.request.Some? <==> DbFindRequestBySignature(lib, p, t, key).Success?
    ensures r.request.Some? ==>
      && r.request.value == DbFindRequestBySignature(lib, p, t, key).value
      && key in t
      && r.request.value.active == t[key].active
      && r.request.value.base.session.DefaultSession?
    ensures r.request.Some? ==> (r.err.None? <==> r.request.value.active)
    ensures r.request.Some? && r.err.Some? ==> r.err == Some(InactiveToken)
    ensures (DbFindRequestBySignature(lib, p, t, key).Failure?
             && DbFindRequestBySignature(lib, p, t, key).error != NoRows) ==>
      r == Reply(None, Some(DbFindRequestBySignature(lib, p, t, key).error))
  {
    match DbFindRequestBySignature(lib, p, t, key)
    case Failure(e) => if e == NoRows then Reply(None, Some(NotFound)) else Reply(None, Some(e))
    case Success(request) =>
      if !request.active then Reply(Some(request), Some(InactiveToken)) else Reply(Some(request), None)
  }

  function CreateAuthorizeCodeSession(lib: Library, p: PgStorage, t: Table, signature: string, request: Requester)
    : (w: Write)
    ensures w == CreateSession(lib, p, t, signature, request)
  {
    CreateSession(lib, p, t, signature, request)
  }

  /** The session argument is not consulted: rows always decode into a
      DefaultSession. */
  function GetAuthorizeCodeSession(lib: Library, p: PgStorage, t: Table, signature: string, session: Session)
    : (r: Reply)
    ensures r == GetSession(lib, p, t, signature)
  {
    GetSession(lib, p, t, signature)
  }

  /** Marks the row inactive. No existence check: a missing row is not an
      error, and calling it again changes nothing. */
  function InvalidateAuthorizeCodeSession(p: PgStorage, t: Table, signature: string): (w: Write)
    ensures p.db.Unavailable? ==> w == Write(t, Some(p.db.err))
    ensures p.db.Available? ==> w.err.None?
    ensures w.table.Keys == t.Keys
    ensures forall k | k in t && k != signature :: w.table[k] == t[k]
    ensures p.db.Available? && signature in t ==> w.table[signature] == t[signature].(active := false)
  {
    match p.db
    case Unavailable(e) => Write(t, Some(e))
    case Available =>
      if signature in t then Write(t[signature := t[signature].(active := false)], None)
      else Write(t, None)
  }

  function CreateAccessTokenSession(lib: Library, p: PgStorage, t: Table, signature: string, request: Requester)
    : (w: Write)
    ensures w == CreateSession(lib, p, t, HashAccessTokenSignature(lib, signature), request)
  {
    CreateSession(lib, p, t, HashAccessTokenSignature(lib, signature), request)
  }

  function GetAccessTokenSession(lib: Library, p: PgStorage, t: Table, signature: string, session: Session)
    : (r: Reply)
    ensures r == GetSession(lib, p, t, HashAccessTokenSignature(lib, signature))
  {
    GetSession(lib, p, t, HashAccessTokenSignature(lib, signature))
  }

  /** The body shared by the two Delete methods: removes the row at `key`
      if there is one. */
  function DeleteSession(p: PgStorage, t: Table, key: string): (w: Write)
    ensures p.db.Unavailable? ==> w == Write(t, Some(p.db.err))
    ensures p.db.Available? ==> w.err.None?
    ensures p.db.Available? ==> w.table.Keys == t.Keys - {key}
    ensures forall k | k in w.table :: k in t && w.table[k] == t[k]
  {
    match p.db
    case Unavailable(e) => Write(t, Some(e))
    case Available => Write(t - {key}, None)
  }

  function DeleteAccessTokenSession(lib: Library, p: PgStorage, t: Table, signature: string): (w: Write)
    ensures w == DeleteSession(p, t, HashAccessTokenSignature(lib, signature))
  {
    DeleteSession(p, t, HashAccessTokenSignature(lib, signature))
  }

  function CreateRefreshTokenSession(lib: Library, p: PgStorage, t: Table, signature: string, request: Requester)
    : (w: Write)
    ensures w == CreateSession(lib, p, t, signature, request)
  {
    CreateSession(lib, p, t, signature, request)
  }

  function GetRefreshTokenSession(lib: Library, p: PgStorage, t: Table, signature: string, session: Session)
    : (r: Reply)
    ensures r == GetSession(lib, p, t, signature)
  {
    GetSession(lib, p, t, signature)
  }

  function DeleteRefreshTokenSession(p: PgStorage, t: Table, signature: string): (w: Write)
    ensures w == DeleteSession(p, t, signature)
  {
    DeleteSession(p, t, signature)
  }

  // ---- Properties relating several calls ----

  /** What Get returns for a record just created from `request` under `key`. */
  function Stored(key: string, request: Requester, client: Client): Request {
    Restored(NewRecord(key, request), client)
  }

  /** The hypotheses under which a created record reads back. */
  ghost predicate ReadsBack(lib: Library, p: PgStorage, request: Requester) {
    && SessionSurvives(lib, request.View().session)
    && FormSurvives(lib, request.View().form)
    && p.client(request.View().client.id).Success?
  }

  lemma CreateThenGet(lib: Library, p: PgStorage, t: Table, key: string, request: Requester, session: Session)
    requires p.db.Available?
    requires key !in t
    requires ReadsBack(lib, p, request)
    ensures CreateSession(lib, p, t, key, request).err.None?
    ensures GetSession(lib, p, CreateSession(lib, p, t, key, request).table, key)
         == Reply(Some(Stored(key, request, p.client(request.View().client.id).value)), None)
  {
    CreateThenFind(lib, p, t, NewRecord(key, request));
  }

  /** Create-then-get with the same raw signature finds the access token:
      both sides hash it the same way. */
  lemma AccessTokenCreateThenGet(lib: Library, p: PgStorage, t: Table, signature: string,
                                 request: Requester, session: Session)
    requires p.db.Available?
    requires HashAccessTokenSignature(lib, signature) !in t
    requires ReadsBack(lib, p, request)
    ensures CreateAccessTokenSession(lib, p, t, signature, request).err.None?
    ensures var t' := CreateAccessTokenSession(lib, p, t, signature, request).table;
      && GetAccessTokenSession(lib, p, t', signature, session)
         == Reply(Some(Stored(HashAccessTokenSignature(lib, signature), request,
                              p.client(request.View().client.id).value)), None)
      && GetAccessTokenSession(lib, p, t', signature, session).request.value.active
  {
    CreateThenGet(lib, p, t, HashAccessTokenSignature(lib, signature), request, session);
  }

  /** An access token is not stored under its raw signature: looking the raw
      signature up (through the unhashed category that shares the table)
      misses. */
  lemma AccessTokenRawKeyMisses(lib: Library, p: PgStorage, t: Table, signature: string,
                                request: Requester, session: Session)
    requires p.db.Available?
    requires signature !in t
    requires signature != HashAccessTokenSignature(lib, signature)
    ensures GetRefreshTokenSession(lib, p, CreateAccessTokenSession(lib, p, t, signature, request).table,
                                   signature, session)
         == Reply(None, Some(NotFound))
  {
  }

  lemma AuthorizeCodeCreateThenGet(lib: Library, p: PgStorage, t: Table, signature: string,
                                   request: Requester, session: Session)
    requires p.db.Available?
    requires signature !in t
    requires ReadsBack(lib, p, request)
    ensures CreateAuthorizeCodeSession(lib, p, t, signature, request).err.None?
    ensures GetAuthorizeCodeSession(lib, p, CreateAuthorizeCodeSession(lib, p, t, signature, request).table,
                                    signature, session)
         == Reply(Some(Stored(signature, request, p.client(request.View().client.id).value)), None)
  {
    CreateThenGet(lib, p, t, signature, request, session);
  }

  lemma RefreshTokenCreateThenGet(lib: Library, p: PgStorage, t: Table, signature: string,
                                  request: Requester, session: Session)
    requires p.db.Available?
    requires signature !in t
    requires ReadsBack(lib, p, request)
    ensures CreateRefreshTokenSession(lib, p, t, signature, request).err.None?
    ensures GetRefreshTokenSession(lib, p, CreateRefreshTokenSession(lib, p, t, signature, request).table,
                                   signature, session)
         == Reply(Some(Stored(signature, request, p.client(request.View().client.id).value)), None)
  {
    CreateThenGet(lib, p, t, signature, request, session);
  }

  /** After invalidation, Get returns the previously stored record, now
      inactive, together with ErrInactiveToken. */
  lemma InvalidateThenGet(lib: Library, p: PgStorage, t: Table, signature: string, session: Session)
    requires p.db.Available?
    requires DbFindRequestBySignature(lib, p, t, signature).Success?
    ensures GetAuthorizeCodeSession(lib, p, InvalidateAuthorizeCodeSession(p, t, signature).table,
                                    signature, session)
         == Reply(Some(DbFindRequestBySignature(lib, p, t, signature).value.(active := false)),
                  Some(InactiveToken))
  {
  }

  /** The doc comment of GetAuthorizeCodeSession promises
      fosite.ErrInvalidatedAuthorizeCode for an invalidated code; the code
      returns fosite.ErrInactiveToken instead, so a caller testing for the
      documented error never sees it. */
  lemma InvalidatedCodeLacksDocumentedError(lib: Library, p: PgStorage, t: Table, signature: string,
                                            session: Session)
    requires p.db.Available?
    requires DbFindRequestBySignature(lib, p, t, signature).Success?
    ensures GetAuthorizeCodeSession(lib, p, InvalidateAuthorizeCodeSession(p, t, signature).table,
                                    signature, session).err
         != Some(InvalidatedAuthorizeCode)
  {
    InvalidateThenGet(lib, p, t, signature, session);
  }

  /** GetAuthorizeCodeSession as its doc comment describes it: an
      invalidated code yields the record together with
      ErrInvalidatedAuthorizeCode; every other outcome is unchanged. */
  function GetAuthorizeCodeSessionAsDocumented(lib: Library, p: PgStorage, t: Table, signature: string,
                                               session: Session)
    : (r: Reply)
    ensures r.request == GetSession(lib, p, t, signature).request
    ensures r.request.Some? ==>
      (r.err.None? <==> r.request.value.active)
    ensures r.request.Some? && !r.request.value.active ==> r.err == Some(InvalidatedAuthorizeCode)
    ensures r.request.None? ==> r.err == GetSession(lib, p, t, signature).err
  {
    var found := GetSession(lib, p, t, signature);
    if found.request.Some? && !found.request.value.active then
      Reply(found.request, Some(InvalidatedAuthorizeCode))
    else found
  }

  /** With the documented behaviour, invalidate-then-get yields the stored
      record, now inactive, together with ErrInvalidatedAuthorizeCode. */
  lemma InvalidateThenGetAsDocumented(lib: Library, p: PgStorage, t: Table, signature: string,
                                      session: Session)
    requires p.db.Available?
    requires DbFindRequestBySignature(lib, p, t, signature).Success?
    ensures GetAuthorizeCodeSessionAsDocumented(lib, p, InvalidateAuthorizeCodeSession(p, t, signature).table,
                                                signature, session)
         == Reply(Some(DbFindRequestBySignature(lib, p, t, signature).value.(active := false)),
                  Some(InvalidatedAuthorizeCode))
  {
    InvalidateThenGet(lib, p, t, signature, session);
  }

  lemma InvalidateIdempotent(p: PgStorage, t: Table, signature: string)
    ensures InvalidateAuthorizeCodeSession(p, InvalidateAuthorizeCodeSession(p, t, signature).table, signature)
         == InvalidateAuthorizeCodeSession(p, t, signature)
  {
  }

  /** After deletion, Get finds nothing. */
  lemma DeleteThenGet(lib: Library, p: PgStorage, t: Table, signature: string, session: Session)
    requires p.db.Available?
    ensures GetAccessTokenSession(lib, p, DeleteAccessTokenSession(lib, p, t, signature).table,
                                  signature, session)
         == Reply(None, Some(NotFound))
    ensures GetRefreshTokenSession(lib, p, DeleteRefreshTokenSession(p, t, signature).table,
                                   signature, session)
         == Reply(None, Some(NotFound))
  {
  }

  lemma DeleteIdempotent(lib: Library, p: PgStorage, t: Table, signature: string)
    ensures DeleteAccessTokenSession(lib, p, DeleteAccessTokenSession(lib, p, t, signature).table, signature)
         == DeleteAccessTokenSession(lib, p, t, signature)
    ensures DeleteRefreshTokenSession(p, DeleteRefreshTokenSession(p, t, signature).table, signature)
         == DeleteRefreshTokenSession(p, t, signature)
  {
  }

  /** The categories share one key space: an authorization code and a
      refresh token with the same signature are the same row, and an access
      token is the row keyed by its hash. */
  lemma CategoriesShareTable(lib: Library, p: PgStorage, t: Table, signature: string, session: Session)
    ensures GetAuthorizeCodeSession(lib, p, t, signature, session)
         == GetRefreshTokenSession(lib, p, t, signature, session)
    ensures GetAccessTokenSession(lib, p, t, signature, session)
         == GetRefreshTokenSession(lib, p, t, HashAccessTokenSignature(lib, signature), session)
    ensures DeleteAccessTokenSession(lib, p, t, signature)
         == DeleteRefreshTokenSession(p, t, HashAccessTokenSignature(lib, signature))
  {
  }
}
