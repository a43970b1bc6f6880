/** Library code the store calls but whose internals are not modelled:
    SHA-384, url.Values encoding and parsing, and JSON encoding of sessions.
    Each is a function value supplied by the caller; the properties the
    store relies on are stated as explicit hypotheses below. */
module Library {
  import opened Wrappers
  import opened Errors
  import opened Hex
  import opened Requests

  /** Size in bytes of a SHA-384 digest (section 6.5 of FIPS 180-4). */
  const Sha384Size: nat := 48

  type Digest384 = d: seq<byte> | |d| == Sha384Size witness seq(48, i => 0 as byte)

  datatype Library = Library(
    /** sha512.Sum384 of the string's bytes. */
    sum384: string -> Digest384,
    /** url.Values.Encode. */
    encodeForm: Form -> string,
    /** url.ParseQuery. */
    parseQuery: string -> Result<Form, Error>,
    /** json.Marshal of a session. */
    marshalSession: Session -> Result<seq<byte>, Error>,
    /** Decoding a JSON payload into a fosite.DefaultSession. */
    unmarshalSession: seq<byte> -> Result<SessionData, Error>)

  /** Hypothesis: the form, if present, parses back from its encoding. */
  ghost predicate FormSurvives(lib: Library, form: Option<Form>) {
    form.Some? ==> lib.parseQuery(lib.encodeForm(form.value)) == Success(form.value)
  }

  /** Hypothesis: the session serializes, and its payload decodes into a
      DefaultSession with the same fields. */
  ghost predicate SessionSurvives(lib: Library, session: Session) {
    && lib.marshalSession(session).Success?
    && lib.unmarshalSession(lib.marshalSession(session).value) == Success(session.data)
  }
}
