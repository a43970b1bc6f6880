/** The request record the store persists (request.go): fosite's OAuth2
    request, embedded in a wrapper that adds the storage fields `Type`,
    `Signature` and `Active`. */
module Requests {
  import opened Wrappers

  /** url.Values: each form key maps to its ordered values. */
  type Form = map<string, seq<string>>

  /** A registered OAuth2 client. Only `id` is persisted; the rest is
      whatever the client registry returns. */
  datatype Client = Client(id: string, attributes: map<string, string>)

  /** The fields of fosite.DefaultSession. */
  datatype SessionData = SessionData(
    expiresAt: map<string, int>,
    username: string,
    subject: string,
    extra: map<string, string>)

  /** A fosite.Session: either the library's DefaultSession or some other
      implementation, described by its type name and by the DefaultSession
      fields its JSON form carries. */
  datatype Session =
    | DefaultSession(data: SessionData)
    | CustomSession(typeName: string, data: SessionData)

  /** What the nine getters of fosite.Requester return. */
  datatype RequesterView = RequesterView(
    id: string,
    requestedAt: int,
    client: Client,
    form: Option<Form>,
    session: Session,
    grantedScope: seq<string>,
    requestedScope: seq<string>,
    requestedAudience: seq<string>,
    grantedAudience: seq<string>)

  /** fosite.Request. `form == None` is a nil url.Values. `lang` has no
      getter, so only an exact copy carries it over. Timestamps are
      abstract instants. */
  datatype FositeRequest = FositeRequest(
    id: string,
    requestedAt: int,
    client: Client,
    requestedScope: seq<string>,
    grantedScope: seq<string>,
    form: Option<Form>,
    session: Session,
    requestedAudience: seq<string>,
    grantedAudience: seq<string>,
    lang: string)
  {
    function View(): RequesterView {
      RequesterView(id, requestedAt, client, form, session, grantedScope,
              requestedScope, requestedAudience, grantedAudience)
    }
  }

  /** AuthType: the value kept in the `type` column. */
  type AuthType = string

  /** The only AuthType the package names. No store path ever writes it. */
  const AuthTypeAccessToken: AuthType := "access_token"

  /** The zero AuthType, which every stored row carries. */
  const NoAuthType: AuthType := ""

  /** The storage wrapper `Request`: the embedded fosite.Request is `base`. */
  datatype Request = Request(base: FositeRequest, authType: AuthType, signature: string, active: bool)
  {
    /** The wrapper's getters are those promoted from the embedded request. */
    function View(): RequesterView {
      base.View()
    }
  }

  /** A fosite.Requester handed to the store: either a concrete
      *fosite.Request or any other implementation, seen only through its
      getters. */
  datatype Requester =
    | FositeRequester(request: FositeRequest)
    | OtherRequester(view: RequesterView)
  {
    function View(): RequesterView {
      match this
      case FositeRequester(r) => r.View()
      case OtherRequester(g) => g
    }
  }

  /** The zero fosite.Request. Its client and session stand in for Go's nil
      interfaces; CastFromFosite overwrites both on every path. */
  const ZeroFositeRequest := FositeRequest(
    "", 0, Client("", map[]), [], [], None,
    DefaultSession(SessionData(map[], "", "", map[])), [], [], "")

  /** Request.CastFromFosite: fills the embedded request from `source` and
      keeps the wrapper's own fields. */
  function CastFromFosite(w: Request, source: Requester): (r: Request)
    ensures r.authType == w.authType && r.signature == w.signature && r.active == w.active
    ensures source.FositeRequester? ==> r.base == source.request
    ensures source.OtherRequester? ==> r.base.lang == w.base.lang
    ensures r.View() == source.View()
  {
    match source
    case FositeRequester(v) => w.(base := v)
    case OtherRequester(g) =>
      w.(base := w.base.(
        id := g.id,
        requestedAt := g.requestedAt,
        client := g.client,
        form := g.form,
        session := g.session,
        grantedScope := g.grantedScope,
        requestedScope := g.requestedScope,
        requestedAudience := g.requestedAudience,
        grantedAudience := g.grantedAudience))
  }

  /** Casting twice from the same source is casting once. */
  lemma CastIdempotent(w: Request, source: Requester)
    ensures CastFromFosite(CastFromFosite(w, source), source) == CastFromFosite(w, source)
  {
  }

  /** The result of a cast depends on the wrapper only through its storage
      fields and, on the getter path, its `lang`. */
  lemma CastForgetsBase(w1: Request, w2: Request, source: Requester)
    requires w1.authType == w2.authType && w1.signature == w2.signature && w1.active == w2.active
    requires source.OtherRequester? ==> w1.base.lang == w2.base.lang
    ensures CastFromFosite(w1, source) == CastFromFosite(w2, source)
  {
  }
}
