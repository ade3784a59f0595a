/** Sign-in with a Google ID token (`google_auth`): the token is split into its three
    dot-separated parts as in JWS compact serialisation (section 3.1 of RFC 7515), the payload's
    base64url padding is restored (section 5 of RFC 4648; section 2 of RFC 7515 omits it), the
    claims are read, and the user with that email is fetched or created and its names refreshed.
    The signature is not checked, as in the view. Decoding the payload (base64 and JSON) is the
    parameter `decode`. */
module GoogleAuth {
  import opened Wrappers
  import opened Strings
  import Http

  /** The two claims the view reads. A missing or null `name` reads as "", which the view
      treats the same way. */
  datatype Claims = Claims(email: Option<string>, name: string)

  /** The request body: either not JSON, or a JSON object with an optional `token` entry. */
  datatype RequestBody = MalformedJson | Body(token: Option<string>)

  datatype User = User(id: nat, username: string, email: string, firstName: string, lastName: string)

  datatype Reply = ErrorReply(error: string) | UserReply(id: nat, email: string, name: string)

  datatype Response = Response(status: int, reply: Reply)

  /** `token.split('.')`. */
  function TokenParts(token: string): seq<string> {
    Split(token, '.')
  }

  /** A token has the three parts the view demands exactly when it holds two dots. */
  lemma ThreePartsIffTwoDots(token: string)
    ensures |TokenParts(token)| == 3 <==> CountChar(token, '.') == 2
  {
    SplitCount(token, '.');
  }

  /** The payload with `4 - len % 4` '=' appended when its length is not a multiple of four:
      the shortest extension by '=' whose length is a multiple of four. */
  function AddPadding(payload: string): (padded: string)
    ensures |payload| <= |padded| < |payload| + 4
    ensures |padded| % 4 == 0
    ensures padded[..|payload|] == payload
    ensures forall i :: |payload| <= i < |padded| ==> padded[i] == '='
  {
    var missing := |payload| % 4;
    if missing != 0 then payload + Repeat('=', 4 - missing) else payload
  }

  /** A payload whose length is already a multiple of four is left unchanged. */
  lemma AddPaddingAligned(payload: string)
    requires |payload| % 4 == 0
    ensures AddPadding(payload) == payload
  {
    var padded := AddPadding(payload);
    assert |padded| == |payload|;
    assert padded == padded[..|payload|];
  }

  predicate IsBase64UrlChar(c: char) {
    'A' <= c <= 'Z' || 'a' <= c <= 'z' || '0' <= c <= '9' || c == '-' || c == '_'
  }

  /** `base64.urlsafe_b64encode(...)` yields alphabet characters followed by at most two '='
      up to a multiple of four. Dropping the '=' (`rstrip('=')`) and padding again restores it. */
  lemma {:induction false} StripThenPadRestores(body: string, pad: nat)
    requires pad <= 2 && (|body| + pad) % 4 == 0
    requires forall i :: 0 <= i < |body| ==> IsBase64UrlChar(body[i])
    ensures AddPadding(TrimRight(body + Repeat('=', pad), {'='})) == body + Repeat('=', pad)
  {
    TrimRightRepeat(body, '=', pad, {'='});
    if pad == 0 {
      AddPaddingAligned(body);
      assert body + Repeat('=', 0) == body;
    }
  }

  /** The payload part of the token, padded, or the view's "Invalid token format" error. */
  function PaddedPayload(token: string): (r: Result<string, string>)
    ensures r.Err? <==> |TokenParts(token)| != 3
    ensures r.Err? ==> r.error == "Invalid token format"
    ensures r.Ok? ==> r.value == AddPadding(TokenParts(token)[1])
    ensures r.Ok? ==> |r.value| % 4 == 0 && StartsWith(r.value, TokenParts(token)[1])
  {
    var parts := TokenParts(token);
    if |parts| != 3 then Err("Invalid token format") else Ok(AddPadding(parts[1]))
  }

  /** `name.split(' ')[0] if name else ''`. */
  function FirstName(name: string): string {
    if name != "" then Split(name, ' ')[0] else ""
  }

  /** `' '.join(name.split(' ')[1:]) if name and len(name.split(' ')) > 1 else ''`. */
  function LastName(name: string): string {
    var parts := Split(name, ' ');
    if name != "" && |parts| > 1 then Join(parts[1..], " ") else ""
  }

  /** The first name is the text before the first space and the rest is the last name: the two
      joined by a space give the name back, and a name without a space has no last name. */
  lemma {:induction false} NameParts(name: string)
    ensures ' ' !in FirstName(name)
    ensures ' ' in name ==> FirstName(name) + " " + LastName(name) == name
    ensures ' ' !in name ==> FirstName(name) == name && LastName(name) == ""
    ensures ' ' in name <==> |Split(name, ' ')| > 1
  {
    var parts := Split(name, ' ');
    SplitCount(name, ' ');
    CountCharZero(name, ' ');
    if ' ' in name {
      JoinSplit(name, ' ');
      assert Join(parts, [' ']) == parts[0] + [' '] + Join(parts[1..], [' ']);
    } else {
      SplitWithoutSep(name, ' ');
    }
  }

  /** The record `get_or_create` makes for a new email. */
  function NewUser(id: nat, email: string, name: string): (u: User)
    ensures u.id == id && u.username == email && u.email == email
    ensures ' ' in name ==> u.firstName + " " + u.lastName == name
    ensures ' ' !in name ==> u.firstName == name && u.lastName == ""
  {
    NameParts(name);
    User(id, email, email, FirstName(name), LastName(name))
  }

  /** The names of a user that already exists, refreshed from the token (lines 75-78): nothing
      changes for an empty name, and a one-word name keeps the stored last name. */
  function Refreshed(u: User, name: string): (r: User)
    ensures r.(firstName := u.firstName, lastName := u.lastName) == u
    ensures name == "" ==> r == u
    ensures name != "" && ' ' in name ==> r.firstName + " " + r.lastName == name
    ensures name != "" && ' ' !in name ==> r.firstName == name && r.lastName == u.lastName
  {
    NameParts(name);
    if name == "" then u
    else
      u.(firstName := FirstName(name),
         lastName := if |Split(name, ' ')| > 1 then LastName(name) else u.lastName)
  }

  /** `f"{first} {last}".strip() or email`. */
  function DisplayName(first: string, last: string, email: string): (r: string)
    ensures email != "" ==> r != ""
    ensures Strip(first + " " + last) != "" ==> r == Strip(first + " " + last)
    ensures Strip(first + " " + last) == "" ==> r == email
  {
    var full := Strip(first + " " + last);
    if full != "" then full else email
  }

  /** A new user's display name is the token's name, when that name has no surrounding blanks. */
  lemma {:induction false} DisplayNameOfNewUser(id: nat, email: string, name: string)
    requires |name| > 0 && name[0] !in Whitespace && name[|name| - 1] !in Whitespace
    ensures var u := NewUser(id, email, name); DisplayName(u.firstName, u.lastName, email) == name
  {
    var u := NewUser(id, email, name);
    if ' ' in name {
      StripCharsOfTrimmed(name, Whitespace);
    } else {
      assert u.firstName + " " + u.lastName == name + [' '];
      StripCharsDropsTrailing(name, ' ', Whitespace);
    }
  }

  /** The checks before any user is touched: the error response, or the email and name. */
  function ReadClaims(body: RequestBody, decode: string -> Result<Claims, string>): (r: Result<(string, string), Response>)
    ensures r.Err? ==> r.error.status == Http.BAD_REQUEST && r.error.reply.ErrorReply?
    ensures body.MalformedJson? ==> r == Err(Response(Http.BAD_REQUEST, ErrorReply("Invalid JSON")))
    ensures body.Body? && (body.token.None? || body.token.value == "") ==>
              r == Err(Response(Http.BAD_REQUEST, ErrorReply("Token is required")))
    ensures body.Body? && body.token.Some? && body.token.value != "" && |TokenParts(body.token.value)| != 3 ==>
              r == Err(Response(Http.BAD_REQUEST, ErrorReply("Invalid Google token: " + "Invalid token format")))
    ensures body.Body? && body.token.Some? && body.token.value != "" && |TokenParts(body.token.value)| == 3 ==>
              var claims := decode(AddPadding(TokenParts(body.token.value)[1]));
              && (claims.Err? ==> r == Err(Response(Http.BAD_REQUEST, ErrorReply("Invalid Google token: " + claims.error))))
              && (claims.Ok? && (claims.value.email.None? || claims.value.email.value == "") ==>
                    r == Err(Response(Http.BAD_REQUEST, ErrorReply("Email not found in token"))))
              && (claims.Ok? && claims.value.email.Some? && claims.value.email.value != "" ==>
                    r == Ok((claims.value.email.value, claims.value.name)))
    ensures r.Ok? ==> r.value.0 != ""
    ensures r.Ok? <==>
              && body.Body? && body.token.Some? && body.token.value != ""
              && |TokenParts(body.token.value)| == 3
              && decode(AddPadding(TokenParts(body.token.value)[1])).Ok?
              && decode(AddPadding(TokenParts(body.token.value)[1])).value.email.Some?
              && decode(AddPadding(TokenParts(body.token.value)[1])).value.email.value != ""
  {
    match body
    case MalformedJson => Err(Response(Http.BAD_REQUEST, ErrorReply("Invalid JSON")))
    case Body(token) =>
      if token.None? || token.value == "" then
        Err(Response(Http.BAD_REQUEST, ErrorReply("Token is required")))
      else
        match PaddedPayload(token.value)
        case Err(e) => Err(Response(Http.BAD_REQUEST, ErrorReply("Invalid Google token: " + e)))
        case Ok(payload) =>
          match decode(payload)
          case Err(e) => Err(Response(Http.BAD_REQUEST, ErrorReply("Invalid Google token: " + e)))
          case Ok(claims) =>
            if claims.email.None? || claims.email.value == "" then
              Err(Response(Http.BAD_REQUEST, ErrorReply("Email not found in token")))
            else
              Ok((claims.email.value, claims.name))
  }

  /** The users table invariant: each user is filed under its email, and ids are distinct and
      below the next id to hand out. */
  ghost predicate WellFormed(users: map<string, User>, nextId: nat) {
    && (forall e :: e in users ==> users[e].email == e && users[e].id < nextId)
    && (forall e, f :: e in users && f in users && e != f ==> users[e].id != users[f].id)
  }

  /** Filing a user under its email keeps the invariant when it either replaces the user of that
      email with the same id or takes a fresh id. */
  lemma StoreKeepsValid(users: map<string, User>, oldNext: nat, newNext: nat, email: string, u: User)
    requires WellFormed(users, oldNext) && oldNext <= newNext
    requires u.email == email && u.id < newNext
    requires email in users ==> u.id == users[email].id
    requires email !in users ==> u.id == oldNext
    ensures WellFormed(users[email := u], newNext)
  {
  }

  /** The Django users, keyed by email (the view looks users up by email), with the next
      primary key the database hands out. */
  class UserDirectory {
    var users: map<string, User>
    var nextId: nat

    ghost predicate Valid()
      reads this
    {
      WellFormed(users, nextId)
    }

    constructor ()
      ensures Valid() && users == map[] && nextId == 1
    {
      users := map[];
      nextId := 1;
    }

    /** `google_auth`: check the body and token, then get or create the user and refresh the
        names of an existing one. A request that fails a check changes nothing. */
    method SignIn(body: RequestBody, decode: string -> Result<Claims, string>) returns (response: Response)
      requires Valid()
      modifies this
      ensures Valid()
      ensures ReadClaims(body, decode).Err? ==>
                response == ReadClaims(body, decode).error && users == old(users) && nextId == old(nextId)
      ensures ReadClaims(body, decode).Ok? ==>
                var (email, name) := ReadClaims(body, decode).value;
                && email in users
                && (email in old(users) ==>
                      users == old(users)[email := Refreshed(old(users)[email], name)] && nextId == old(nextId))
                && (email !in old(users) ==>
                      users == old(users)[email := NewUser(old(nextId), email, name)] && nextId == old(nextId) + 1)
                && response == Response(Http.OK, UserReply(users[email].id, email,
                                          DisplayName(users[email].firstName, users[email].lastName, email)))
    {
      var claims := ReadClaims(body, decode);
      if claims.Err? {
        return claims.error;
      }
      var email, name := claims.value.0, claims.value.1;
      var user: User;
      if email in users {
        user := Refreshed(users[email], name);
        StoreKeepsValid(users, nextId, nextId, email, user);
      } else {
        user := NewUser(nextId, email, name);
        StoreKeepsValid(users, nextId, nextId + 1, email, user);
        nextId := nextId + 1;
      }
      users := users[email := user];
      response := Response(Http.OK, UserReply(user.id, email, DisplayName(user.firstName, user.lastName, email)));
    }
  }
}
