/** The request middleware: `authenticate` (bearer token to stored user),
    `authorize` (role gate) and `authorizeOwnerOrAdmin` (grievance
    ownership gate). Token verification is a parameter: it stands for
    `jwt.verify` with the server's secret and clock. */
module Auth {
  import opened Common
  import opened Text
  import opened Users
  import opened GrievanceModel
  import opened Query

  /** What verifying a token yields: its claims, or the name of the error
      `jwt.verify` throws. */
  datatype TokenCheck =
    | Verified(claims: Claims)
    | JsonWebTokenError     // malformed, tampered or wrongly signed
    | TokenExpiredError
    | NotBeforeError        // any other failure: falls through to 500

  /** What `authorize` and `authorizeOwnerOrAdmin` do: call `next()`, or
      answer with an error status. */
  datatype Gate = Next | Halt(status: nat, error: string)

  /** What `authenticate` does: put a user on the request and call
      `next()`, or answer with an error status. */
  datatype Identity = Authenticated(user: UserView) | Rejected(status: nat, error: string)

  const AuthenticationRequired := "Authentication required"
  const InvalidToken := "Invalid token"
  const TokenExpired := "Token expired"
  const AuthenticationError := "Authentication error"
  const UserNotFound := "User not found"
  const InsufficientPermissions := "Access denied. Insufficient permissions."
  const GrievanceNotFound := "Grievance not found"
  const OwnGrievancesOnly := "Access denied. You can only access your own grievances."

  /** `req.headers.authorization?.replace('Bearer ', '')`: the header with
      its first `Bearer ` removed, wherever it occurs; nothing without a
      header. */
  function BearerToken(header: Option<string>): (token: Option<string>)
    ensures header.None? <==> token.None?
    ensures header.Some? && (forall k: nat :: !OccursAt(header.value, "Bearer ", k)) ==> token == header
    ensures header.Some? && |header.value| >= 7 && header.value[..7] == "Bearer " ==> token == Some(header.value[7..])
    ensures header.Some? ==>
      forall k: nat :: OccursAt(header.value, "Bearer ", k) && (forall m :: 0 <= m < k ==> !OccursAt(header.value, "Bearer ", m)) ==>
        token == Some(header.value[..k] + header.value[k + 7..])
  {
    match header
    case None => None
    case Some(h) =>
      var r := ReplaceFirst(h, "Bearer ", "");
      assert forall k: nat :: k + 7 <= |h| ==> h[..k] + "" + h[k + 7..] == h[..k] + h[k + 7..];
      assert |h| >= 7 && h[..7] == "Bearer " ==> OccursAt(h, "Bearer ", 0) && h[..0] + h[7..] == h[7..];
      Some(r)
  }

  /** `authenticate`, as a decision: the token must be present and
      non-empty, verify, and name a user still stored. The user put on the
      request is the stored one (without its hash), so its role is the
      stored role, whatever the token claimed. */
  function Identify(header: Option<string>, verify: string -> TokenCheck, users: seq<User>): (r: Identity)
    ensures BearerToken(header).None? || BearerToken(header).value == "" ==>
      r == Rejected(401, AuthenticationRequired)
    ensures r.Authenticated? <==>
      && BearerToken(header).Some? && BearerToken(header).value != ""
      && verify(BearerToken(header).value).Verified?
      && FindById(users, verify(BearerToken(header).value).claims.id).Some?
    ensures r.Authenticated? ==>
      r.user == View(users[FindById(users, verify(BearerToken(header).value).claims.id).value])
    ensures r.Rejected? && BearerToken(header).Some? && BearerToken(header).value != "" ==>
      match verify(BearerToken(header).value)
      case Verified(_) => r == Rejected(401, UserNotFound)
      case JsonWebTokenError => r == Rejected(401, InvalidToken)
      case TokenExpiredError => r == Rejected(401, TokenExpired)
      case NotBeforeError => r == Rejected(500, AuthenticationError)
  {
    var token := BearerToken(header);
    if token.None? || token.value == "" then Rejected(401, AuthenticationRequired)
    else match verify(token.value)
      case JsonWebTokenError => Rejected(401, InvalidToken)
      case TokenExpiredError => Rejected(401, TokenExpired)
      case NotBeforeError => Rejected(500, AuthenticationError)
      case Verified(claims) =>
        match FindById(users, claims.id)
        case None => Rejected(401, UserNotFound)
        case Some(k) => Authenticated(View(users[k]))
  }

  /** Two tokens that name the same user id authenticate alike, whatever
      email and role they claim: only the id is read from the token. */
  lemma ClaimedRoleIgnored(users: seq<User>, verify: string -> TokenCheck, h1: string, h2: string)
    requires BearerToken(Some(h1)).value != "" && BearerToken(Some(h2)).value != ""
    requires verify(BearerToken(Some(h1)).value).Verified? && verify(BearerToken(Some(h2)).value).Verified?
    requires verify(BearerToken(Some(h1)).value).claims.id == verify(BearerToken(Some(h2)).value).claims.id
    ensures Identify(Some(h1), verify, users) == Identify(Some(h2), verify, users)
  {
  }

  /** A token signed at login for a stored user authenticates as that
      user, so long as it verifies. */
  lemma {:induction false} LoginTokenAuthenticates(users: seq<User>, email: string, password: string, now: Time,
                                                    verify: string -> TokenCheck, token: string)
    requires token != "" && IndexOf(token, "Bearer ").None?
    requires Login(users, email, password, now).Success?
    requires verify(token) == Verified(Login(users, email, password, now).value.token)
    requires forall i, j :: 0 <= i < j < |users| ==> users[i].id != users[j].id
    ensures Identify(Some("Bearer " + token), verify, users)
         == Authenticated(Login(users, email, password, now).value.user)
  {
    var h := "Bearer " + token;
    assert h[..7] == "Bearer " && h[7..] == token;
    var k := FindByEmail(users, email).value;
    var c := FindById(users, users[k].id);
    assert c.Some?;
    assert c.value == k;
  }

  /** The request object, as far as the middleware writes to it. */
  class RequestContext {
    var user: Option<UserView>

    constructor ()
      ensures user.None?
    {
      user := None;
    }

    /** Run `authenticate`: on success `req.user` is set and the chain
        continues; otherwise the request is answered and `req.user` is left
        as it was. */
    method Authenticate(header: Option<string>, verify: string -> TokenCheck, users: seq<User>) returns (g: Gate)
      modifies this
      ensures var v := Identify(header, verify, users);
        && (v.Authenticated? ==> g == Next && user == Some(v.user))
        && (v.Rejected? ==> g == Halt(v.status, v.error) && user == old(user))
    {
      var v := Identify(header, verify, users);
      if v.Authenticated? {
        user := Some(v.user);
        g := Next;
      } else {
        g := Halt(v.status, v.error);
      }
    }
  }

  /** `authorize(...allowedRoles)`: 401 without a user on the request, 403
      for a role not allowed, otherwise pass. */
  function Authorize(allowed: set<Role>, user: Option<UserView>): (g: Gate)
    ensures g == Next <==> user.Some? && user.value.role in allowed
    ensures user.None? ==> g == Halt(401, AuthenticationRequired)
    ensures user.Some? && user.value.role !in allowed ==> g == Halt(403, InsufficientPermissions)
  {
    if user.None? then Halt(401, AuthenticationRequired)
    else if user.value.role !in allowed then Halt(403, InsufficientPermissions)
    else Next
  }

  /** `authorizeOwnerOrAdmin` for an authenticated user: 404 for an
      absent grievance before any role check, then pass an admin or the
      owner and refuse everyone else with 403. */
  function AuthorizeOwnerOrAdmin(records: seq<Grievance>, id: GrievanceId, user: UserView): (g: Gate)
    ensures FindGrievance(records, id).None? ==> g == Halt(404, GrievanceNotFound)
    ensures g == Next <==>
      FindGrievance(records, id).Some? &&
      (user.role == AdminRole || records[FindGrievance(records, id).value].createdBy == user.id)
    ensures g != Next && FindGrievance(records, id).Some? ==> g == Halt(403, OwnGrievancesOnly)
  {
    match FindGrievance(records, id)
    case None => Halt(404, GrievanceNotFound)
    case Some(k) =>
      if user.role == AdminRole then Next
      else if records[k].createdBy == user.id then Next
      else Halt(403, OwnGrievancesOnly)
  }

  /** The ownership gate lets a user reach exactly the grievances the list
      route shows them: an existing record passes iff it is visible. */
  lemma OwnershipGateIsVisibility(records: seq<Grievance>, id: GrievanceId, user: UserView)
    requires FindGrievance(records, id).Some?
    ensures AuthorizeOwnerOrAdmin(records, id, user) == Next
        <==> Visible(user, records[FindGrievance(records, id).value])
  {
  }

  /** Absence is reported the same way to every caller: the 404 does not
      depend on who asks. */
  lemma AbsentIsNotFoundForAll(records: seq<Grievance>, id: GrievanceId, u1: UserView, u2: UserView)
    requires FindGrievance(records, id).None?
    ensures AuthorizeOwnerOrAdmin(records, id, u1) == AuthorizeOwnerOrAdmin(records, id, u2) == Halt(404, GrievanceNotFound)
  {
  }
}
