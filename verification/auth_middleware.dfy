/** The authentication middleware `protect` (server/src/middleware/auth.middleware.ts):
    the bearer token is cut from the `Authorization` header, verified, and the user it
    names is looked up. Token verification is a parameter. */
module AuthMiddleware {
  import opened Common
  import Text
  import UserModel
  import Db

  /** What token verification yields: a rejection (a bad signature, an expired or
      malformed token), or the claims, whose `id` may be missing. */
  datatype Verified = Invalid | Claims(id: Option<UserId>)

  /** The header test and cut: a header that starts with `Bearer` gives its second
      space-separated field, if there is one. */
  function ExtractBearer(header: Option<string>): (r: Option<string>)
    ensures r.Some? ==> header.Some? && Text.StartsWith(header.value, "Bearer") && ' ' !in r.value
    ensures header.Some? && Text.StartsWith(header.value, "Bearer") ==> (r.Some? <==> ' ' in header.value)
  {
    if header.Some? && header.value != "" && Text.StartsWith(header.value, "Bearer") then
      var parts := Text.Split(header.value, ' ');
      Text.SplitFieldCount(header.value, ' ');
      Text.CountPositiveIffPresent(header.value, ' ');
      if |parts| >= 2 then Some(parts[1]) else None
    else None
  }

  /** After a first word that starts with `Bearer`, the token is the text up to the next
      space. */
  lemma ExtractAfterScheme(scheme: string, rest: string)
    requires Text.StartsWith(scheme, "Bearer") && ' ' !in scheme
    ensures ExtractBearer(Some(scheme + [' '] + rest)) == Some(Text.Split(rest, ' ')[0])
  {
    var h := scheme + [' '] + rest;
    assert h[..6] == scheme[..6];
    Text.SplitAtFirst(scheme, rest, ' ');
  }

  /** A well-formed header `Bearer <token>` yields the token; so does any first word that
      merely starts with `Bearer`, such as `Bearerish <token>`. */
  lemma ExtractFromWellFormed(scheme: string, token: string)
    requires Text.StartsWith(scheme, "Bearer") && ' ' !in scheme && ' ' !in token
    ensures ExtractBearer(Some(scheme + " " + token)) == Some(token)
  {
    assert scheme + " " + token == scheme + [' '] + token;
    ExtractAfterScheme(scheme, token);
    Text.SplitWithoutSeparator(token, ' ');
  }

  /** Everything after the token's own end is ignored. */
  lemma ExtractIgnoresTrailer(scheme: string, token: string, trailer: string)
    requires Text.StartsWith(scheme, "Bearer") && ' ' !in scheme && ' ' !in token
    ensures ExtractBearer(Some(scheme + " " + token + " " + trailer)) == Some(token)
  {
    var rest := token + [' '] + trailer;
    assert scheme + " " + token + " " + trailer == scheme + [' '] + rest;
    ExtractAfterScheme(scheme, rest);
    Text.SplitAtFirst(token, trailer, ' ');
  }

  /** `Bearer` alone has no second field, so it yields no token. */
  lemma BearerAloneHasNoToken()
    ensures ExtractBearer(Some("Bearer")).None?
  {
    assert Text.StartsWith("Bearer", "Bearer");
    assert ' ' !in "Bearer";
  }

  /** `Bearer` followed by two spaces has an empty second field, which is not a usable
      token. */
  lemma DoubleSpaceGivesEmptyToken()
    ensures ExtractBearer(Some("Bearer  x")) == Some("")
  {
    assert "Bearer  x" == "Bearer" + [' '] + " x";
    assert Text.StartsWith("Bearer", "Bearer");
    ExtractAfterScheme("Bearer", " x");
    assert " x" == "" + [' '] + "x";
    Text.SplitAtFirst("", "x", ' ');
  }

  /** What `protect` does with a request: `Next(user)` hands the request on with that user
      attached; `Deny(message)` answers 401. */
  datatype Outcome = Next(user: UserModel.User) | Deny(message: string)

  /** `protect`: no usable token, a rejected token, and a token for a user that does not
      exist each end the request; only a stored user reaches the next handler. */
  function Protect(db: Db.Store, header: Option<string>, verify: string -> Verified): (r: Outcome)
    ensures !Truthy(ExtractBearer(header)) <==> r == Deny("Not authorized to access this route")
    ensures Truthy(ExtractBearer(header)) && verify(ExtractBearer(header).value).Invalid? ==>
              r == Deny("Invalid token")
    ensures Truthy(ExtractBearer(header)) && verify(ExtractBearer(header).value).Claims? ==>
              r == match Db.FindUser(db, verify(ExtractBearer(header).value).id)
                   case None => Deny("User not found")
                   case Some(u) => Next(u)
    ensures r.Next? ==> r.user in db.users
  {
    var token := ExtractBearer(header);
    if !Truthy(token) then Deny("Not authorized to access this route")
    else match verify(token.value)
      case Invalid => Deny("Invalid token")
      case Claims(id) =>
        match Db.FindUser(db, id)
        case None => Deny("User not found")
        case Some(u) => Next(u)
  }

  /** A request reaches the next handler exactly when the header carries a non-empty token
      that verifies to the id of a stored user, and then that user is attached. */
  lemma ProtectPassesOnlyStoredUsers(db: Db.Store, header: Option<string>, verify: string -> Verified)
    ensures Protect(db, header, verify).Next? <==>
              && Truthy(ExtractBearer(header))
              && verify(ExtractBearer(header).value).Claims?
              && Db.FindUser(db, verify(ExtractBearer(header).value).id).Some?
    ensures Protect(db, header, verify).Next? ==>
              Protect(db, header, verify).user.id == verify(ExtractBearer(header).value).id.value
  {
  }
}
