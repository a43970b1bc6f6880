/** The row codec and the two table accesses of storage.go: a Request is
    flattened into the columns of the `{prefix}request` table, inserted
    keyed by its signature, and rebuilt from the columns on lookup. */
module Codec {
  import opened Wrappers
  import opened Errors
  import opened Hex
  import opened Requests
  import opened Library
  import opened Storage

  /** sql.NullString: `valid == false` is SQL NULL (and then `str` is ""). */
  datatype NullString = NullString(str: string, valid: bool)

  /** One row of the request table, column by column. */
  datatype Row = Row(
    id: string,
    authType: AuthType,
    signature: string,
    clientId: string,
    requestedAt: int,
    requestedScope: seq<string>,
    grantedScope: seq<string>,
    requestedAudience: seq<string>,
    grantedAudience: seq<string>,
    form: NullString,
    session: seq<byte>,
    active: bool)

  /** The request table, one row per signature. */
  type Table = map<string, Row>

  /** The table after a write, and the error the write returned. A failed
      write leaves the table as it was. */
  datatype Write = Write(table: Table, err: Option<Error>)

  /** The form column: NULL for a nil form, its encoding otherwise. */
  function EncodeForm(lib: Library, form: Option<Form>): (col: NullString)
    ensures col.valid <==> form.Some?
    ensures col.valid ==> col.str == lib.encodeForm(form.value)
    ensures !col.valid ==> col.str == ""
  {
    match form
    case None => NullString("", false)
    case Some(f) => NullString(lib.encodeForm(f), true)
  }

  /** Reading the form column back: NULL gives a nil form, never an error;
      text that does not parse fails. */
  function DecodeForm(lib: Library, col: NullString): (r: Result<Option<Form>, Error>)
    ensures !col.valid ==> r == Success(None)
    ensures col.valid ==>
      (r.Success? <==> lib.parseQuery(col.str).Success?)
    ensures col.valid && r.Success? ==> r.value == Some(lib.parseQuery(col.str).value)
    ensures col.valid && r.Failure? ==> r.error == lib.parseQuery(col.str).error
  {
    if !col.valid then Success(None)
    else match lib.parseQuery(col.str)
      case Success(f) => Success(Some(f))
      case Failure(e) => Failure(e)
  }

  /** A present form survives its column exactly when the hypothesis holds. */
  lemma FormColumnRoundTrip(lib: Library, form: Option<Form>)
    requires FormSurvives(lib, form)
    ensures DecodeForm(lib, EncodeForm(lib, form)) == Success(form)
  {
  }

  /** requestToSchema. */
  function RequestToSchema(lib: Library, request: Request): (r: Result<Row, Error>)
    ensures r.Failure? <==> lib.marshalSession(request.base.session).Failure?
    ensures r.Failure? ==> r.error == lib.marshalSession(request.base.session).error
    ensures r.Success? ==>
      && r.value.id == request.base.id
      && r.value.authType == request.authType
      && r.value.signature == request.signature
      && r.value.clientId == request.base.client.id
      && r.value.requestedAt == request.base.requestedAt
      && r.value.requestedScope == request.base.requestedScope
      && r.value.grantedScope == request.base.grantedScope
      && r.value.requestedAudience == request.base.requestedAudience
      && r.value.grantedAudience == request.base.grantedAudience
      && r.value.session == lib.marshalSession(request.base.session).value
      && r.value.active == request.active
    ensures r.Success? ==> (r.value.form.valid <==> request.base.form.Some?)
    ensures r.Success? && request.base.form.Some? ==>
      r.value.form.str == lib.encodeForm(request.base.form.value)
  {
    var form := EncodeForm(lib, request.View().form);
    match lib.marshalSession(request.View().session)
    case Failure(e) => Failure(e)
    case Success(session) =>
      var b := request.base;
      Success(Row(b.id, request.authType, request.signature, b.client.id, b.requestedAt,
                  b.requestedScope, b.grantedScope, b.requestedAudience, b.grantedAudience,
                  form, session, request.active))
  }

  /** schemaToRequest. The session payload is decoded first (as part of
      scanning the row), then the form, then the client is fetched from the
      registry; the first failure is returned. */
  function SchemaToRequest(lib: Library, p: PgStorage, row: Row): (r: Result<Request, Error>)
    ensures r.Success? <==>
      && lib.unmarshalSession(row.session).Success?
      && DecodeForm(lib, row.form).Success?
      && p.client(row.clientId).Success?
    ensures lib.unmarshalSession(row.session).Failure? ==>
      r == Failure(lib.unmarshalSession(row.session).error)
    ensures lib.unmarshalSession(row.session).Success? && DecodeForm(lib, row.form).Failure? ==>
      r == Failure(DecodeForm(lib, row.form).error)
    ensures (lib.unmarshalSession(row.session).Success? && DecodeForm(lib, row.form).Success?
             && p.client(row.clientId).Failure?) ==>
      r == Failure(p.client(row.clientId).error)
    ensures r.Success? ==>
      && r.value.base.id == row.id
      && r.value.authType == row.authType
      && r.value.signature == row.signature
      && r.value.base.requestedAt == row.requestedAt
      && r.value.base.requestedScope == row.requestedScope
      && r.value.base.grantedScope == row.grantedScope
      && r.value.base.requestedAudience == row.requestedAudience
      && r.value.base.grantedAudience == row.grantedAudience
      && r.value.active == row.active
      && r.value.base.client == p.client(row.clientId).value
      && (r.value.base.form.None? <==> !row.form.valid)
      && r.value.base.form == DecodeForm(lib, row.form).value
      && r.value.base.session == DefaultSession(lib.unmarshalSession(row.session).value)
      && r.value.base.lang == ""
  {
    match lib.unmarshalSession(row.session)
    case Failure(e) => Failure(e)
    case Success(data) =>
      match DecodeForm(lib, row.form)
      case Failure(e) => Failure(e)
      case Success(form) =>
        match p.client(row.clientId)
        case Failure(e) => Failure(e)
        case Success(client) =>
          Success(Request(
            FositeRequest(row.id, row.requestedAt, client, row.requestedScope, row.grantedScope,
                          form, DefaultSession(data), row.requestedAudience, row.grantedAudience, ""),
            row.authType, row.signature, row.active))
  }

  /** What a stored request looks like when read back: the client is the one
      the registry returns for its id, the session is a DefaultSession with
      the same fields, `lang` is not stored, and everything else is as
      written. */
  function Restored(request: Request, client: Client): Request {
    request.(base := request.base.(
      client := client,
      session := DefaultSession(request.base.session.data),
      lang := ""))
  }

  /** decode(encode(R)) == R up to the client, the session's concrete type
      and `lang`. */
  lemma SchemaRoundTrip(lib: Library, p: PgStorage, request: Request)
    requires SessionSurvives(lib, request.base.session)
    requires FormSurvives(lib, request.base.form)
    requires p.client(request.base.client.id).Success?
    ensures RequestToSchema(lib, request).Success?
    ensures SchemaToRequest(lib, p, RequestToSchema(lib, request).value)
         == Success(Restored(request, p.client(request.base.client.id).value))
  {
    FormColumnRoundTrip(lib, request.base.form);
  }

  /** A DefaultSession comes back as itself. */
  lemma DefaultSessionRoundTrip(lib: Library, p: PgStorage, request: Request)
    requires request.base.session.DefaultSession?
    requires SessionSurvives(lib, request.base.session)
    requires FormSurvives(lib, request.base.form)
    requires p.client(request.base.client.id).Success?
    ensures RequestToSchema(lib, request).Success?
    ensures SchemaToRequest(lib, p, RequestToSchema(lib, request).value).Success?
    ensures SchemaToRequest(lib, p, RequestToSchema(lib, request).value).value.base.session
         == request.base.session
  {
    SchemaRoundTrip(lib, p, request);
  }

  /** dbCreateRequest: flatten, acquire a connection, INSERT. A request whose
      session does not serialize writes nothing. A signature already present
      is refused by the table's uniqueness constraint. */
  function DbCreateRequest(lib: Library, p: PgStorage, t: Table, request: Request): (w: Write)
    ensures w.err.None? <==>
      && lib.marshalSession(request.base.session).Success?
      && p.db.Available?
      && request.signature !in t
    ensures w.err.Some? ==> w.table == t
    ensures w.err.None? ==>
      && w.table.Keys == t.Keys + {request.signature}
      && w.table[request.signature] == RequestToSchema(lib, request).value
      && (forall k | k in t :: w.table[k] == t[k])
    ensures lib.marshalSession(request.base.session).Failure? ==>
      w.err == Some(lib.marshalSession(request.base.session).error)
    ensures lib.marshalSession(request.base.session).Success? && p.db.Unavailable? ==>
      w.err == Some(p.db.err)
    ensures (lib.marshalSession(request.base.session).Success? && p.db.Available?
             && request.signature in t) ==>
      w.err == Some(UniqueViolation)
  {
    match RequestToSchema(lib, request)
    case Failure(e) => Write(t, Some(e))
    case Success(row) =>
      match p.db
      case Unavailable(e) => Write(t, Some(e))
      case Available =>
        if row.signature in t then Write(t, Some(UniqueViolation))
        else Write(t[row.signature := row], None)
  }

  /** dbFindRequestBySignature: acquire a connection, SELECT the row with
      that signature, rebuild it. An absent row is pgx.ErrNoRows. */
  function DbFindRequestBySignature(lib: Library, p: PgStorage, t: Table, signature: string)
    : (r: Result<Request, Error>)
    ensures p.db.Unavailable? ==> r == Failure(p.db.err)
    ensures p.db.Available? && signature !in t ==> r == Failure(NoRows)
    ensures r.Success? ==>
      && signature in t
      && r.value.signature == t[signature].signature
      && r.value.active == t[signature].active
      && r.value.authType == t[signature].authType
      && r.value.base.session.DefaultSession?
    ensures p.db.Available? && signature in t ==> r == SchemaToRequest(lib, p, t[signature])
  {
    match p.db
    case Unavailable(e) => Failure(e)
    case Available =>
      if signature !in t then Failure(NoRows) else SchemaToRequest(lib, p, t[signature])
  }

  /** dbCreateRequest followed by dbFindRequestBySignature with the same
      signature returns the request as Restored describes it. */
  lemma CreateThenFind(lib: Library, p: PgStorage, t: Table, request: Request)
    requires p.db.Available?
    requires request.signature !in t
    requires SessionSurvives(lib, request.base.session)
    requires FormSurvives(lib, request.base.form)
    requires p.client(request.base.client.id).Success?
    ensures DbCreateRequest(lib, p, t, request).err.None?
    ensures DbFindRequestBySignature(lib, p, DbCreateRequest(lib, p, t, request).table, request.signature)
         == Success(Restored(request, p.client(request.base.client.id).value))
  {
    SchemaRoundTrip(lib, p, request);
  }
}
