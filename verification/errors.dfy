/** The errors the store returns or passes through. */
module Errors {

  datatype Error =
    /** fosite.ErrNotFound: no row has the looked-up signature. */
    | NotFound
    /** fosite.ErrInactiveToken: the row exists but was invalidated. */
    | InactiveToken
    /** fosite.ErrInvalidatedAuthorizeCode: the error the authorization-code
        Get is documented to return for an invalidated code. */
    | InvalidatedAuthorizeCode
    /** pgx.ErrNoRows: what scanning an empty result yields. */
    | NoRows
    /** The table's uniqueness constraint on `signature` rejected an insert. */
    | UniqueViolation
    /** Any other error of a collaborator (connection, codec, client
        registry), surfaced unchanged. */
    | Other(message: string)
}
