/**
 * The alternative auth router of `backend/routes_auth.js`: `POST /login`
 * over users that carry an `active` flag and a `lastLogin` time, and
 * `GET /me` behind the `authenticate` middleware. The `User` model and the
 * middleware live in files that are not part of this model; the user fields
 * below are the ones the router reads and writes.
 */
module AuthRoutes {
  import opened Wrappers
  import opened Collection
  import Bcrypt
  import Jwt

  datatype Account = Account(username: string, password: Bcrypt.PasswordHash, role: string,
                             displayName: Option<string>, active: bool, lastLogin: Option<int>)

  /** The payload this router signs: exactly `{ userId, role }`. */
  datatype Claims = Claims(userId: Id, role: string)

  /** The user object of the login response. */
  datatype Summary = Summary(id: Id, username: string, role: string, displayName: Option<string>)

  /** A user document with `.select('-password')` applied. */
  datatype AccountView = AccountView(id: Id, username: string, role: string, displayName: Option<string>,
                                     active: bool, lastLogin: Option<int>)

  datatype Failure =
    | BadCredentials   // the one error of every failed login
    | LoginFailed      // the 500 of the login route
    | Unauthenticated  // the middleware turned the request away

  datatype Body = Error(error: Failure) | Session(token: string, user: Summary) | Profile(profile: Option<AccountView>)

  datatype Response = Response(status: nat, body: Body)

  ghost predicate UniqueUsernames(users: seq<Doc<Account>>)
  {
    forall i, j :: 0 <= i < |users| && 0 <= j < |users| && users[i].body.username == users[j].body.username
      ==> users[i].id == users[j].id
  }

  /** The filter `{ username, active: true }`. */
  function ActiveNamed(username: string): Account -> bool
  {
    (a: Account) => a.active && a.username == username
  }

  /** The active user with that name whose password matches; an
      unknown name, an inactive user and a wrong password are not told apart,
      and the password is compared only when an active user was found. */
  function CheckCredentials(users: seq<Doc<Account>>, username: string, password: string): (r: Option<Doc<Account>>)
    ensures r.Some? ==> r.value in users && r.value.body.active && r.value.body.username == username
                        && Bcrypt.Compare(password, r.value.body.password)
    ensures (forall i :: 0 <= i < |users| ==> !(users[i].body.active && users[i].body.username == username)) ==> r.None?
    ensures UniqueIds(users) && UniqueUsernames(users) ==>
      (r.None? <==> forall i :: 0 <= i < |users| && users[i].body.active && users[i].body.username == username
                                ==> !Bcrypt.Compare(password, users[i].body.password))
  {
    var found := FindOne(users, ActiveNamed(username));
    if found.None? then
      assert forall i :: 0 <= i < |users| ==> !(users[i].body.active && users[i].body.username == username) by {
        forall i | 0 <= i < |users| ensures !(users[i].body.active && users[i].body.username == username) {
          assert !ActiveNamed(username)(users[i].body);
        }
      }
      None
    else if !Bcrypt.Compare(password, found.value.body.password) then
      assert UniqueIds(users) && UniqueUsernames(users) ==>
        forall i :: 0 <= i < |users| && users[i].body.active && users[i].body.username == username
          ==> users[i] == found.value by {
        if UniqueIds(users) && UniqueUsernames(users) {
          forall i | 0 <= i < |users| && users[i].body.active && users[i].body.username == username
            ensures users[i] == found.value
          {
            var k :| 0 <= k < |users| && users[k] == found.value && ActiveNamed(username)(users[k].body);
            assert users[i].id == users[k].id;
          }
        }
      }
      None
    else
      assert ActiveNamed(username)(found.value.body);
      found
  }

  /** `jwt.sign` throws when `JWT_SECRET` is unset or empty. */
  predicate CanSign(jwtSecret: Option<string>): (ok: bool)
    ensures ok <==> jwtSecret != None && jwtSecret != Some("")
  {
    jwtSecret.Some? && jwtSecret.value != ""
  }

  function Summarize(d: Doc<Account>): Summary
  {
    Summary(d.id, d.body.username, d.body.role, d.body.displayName)
  }

  /** `.select('-password')`: every stored field but the password. */
  function View(d: Doc<Account>): (v: AccountView)
    ensures v.id == d.id && v.username == d.body.username && v.role == d.body.role
    ensures v.displayName == d.body.displayName && v.active == d.body.active && v.lastLogin == d.body.lastLogin
  {
    AccountView(d.id, d.body.username, d.body.role, d.body.displayName, d.body.active, d.body.lastLogin)
  }

  /** What a user record shows does not depend on its password. */
  lemma ViewHidesPassword(d: Doc<Account>, other: Bcrypt.PasswordHash)
    ensures View(Doc(d.id, d.body.(password := other))) == View(d)
  {
  }

  class Router {
    var users: seq<Doc<Account>>
    /** `process.env.JWT_SECRET`, with no fallback. */
    const jwtSecret: Option<string>
    const encode: Jwt.Encoder<Claims>

    ghost predicate Valid()
      reads this
    {
      UniqueIds(users) && UniqueUsernames(users)
    }

    constructor (users: seq<Doc<Account>>, jwtSecret: Option<string>, encode: Jwt.Encoder<Claims>)
      requires UniqueIds(users) && UniqueUsernames(users)
      ensures Valid()
      ensures this.users == users && this.jwtSecret == jwtSecret && this.encode == encode
    {
      this.users, this.jwtSecret, this.encode := users, jwtSecret, encode;
    }

    /** `POST /login`: 401 with one error for every failed check and no
        change; otherwise the user's `lastLogin` becomes `now` and is saved,
        no other record changes, and the response carries a token for
        `{ userId, role }` valid seven days and the user's id, username, role
        and display name. Without a usable secret the save has happened but
        signing throws, so the answer is 500. */
    method Login(username: string, password: string, now: int) returns (res: Response)
      requires Valid()
      modifies this
      ensures Valid()
      ensures CheckCredentials(old(users), username, password).None? ==>
        res == Response(401, Error(BadCredentials)) && users == old(users)
      ensures CheckCredentials(old(users), username, password).Some? ==>
        var user := CheckCredentials(old(users), username, password).value;
        && |users| == |old(users)|
        && (forall i :: 0 <= i < |users| ==>
              users[i] == if old(users)[i].id == user.id
                          then Doc(user.id, old(users)[i].body.(lastLogin := Some(now)))
                          else old(users)[i])
        && (CanSign(jwtSecret) ==>
              res == Response(200, Session(encode(Jwt.Sign(Claims(user.id, user.body.role), now), jwtSecret.value),
                                           Summarize(user))))
        && (!CanSign(jwtSecret) ==> res == Response(500, Error(LoginFailed)))
    {
      var found := CheckCredentials(users, username, password);
      if found.None? {
        return Response(401, Error(BadCredentials));
      }
      var id := found.value.id;
      var user := found.value.body;
      user := user.(lastLogin := Some(now));
      // user.save()
      users := UpdateById(users, id, (a: Account) => user);
      assert forall i :: 0 <= i < |old(users)| && old(users)[i].id == id ==> old(users)[i] == found.value by {
        forall i | 0 <= i < |old(users)| && old(users)[i].id == id ensures old(users)[i] == found.value {
          var k :| 0 <= k < |old(users)| && old(users)[k] == found.value;
        }
      }
      assert UniqueUsernames(users) by {
        forall i, j | 0 <= i < |users| && 0 <= j < |users| && users[i].body.username == users[j].body.username
          ensures users[i].id == users[j].id
        {
          assert users[i].body.username == old(users)[i].body.username;
          assert users[j].body.username == old(users)[j].body.username;
        }
      }
      if !CanSign(jwtSecret) {
        return Response(500, Error(LoginFailed));
      }
      var token := encode(Jwt.Sign(Claims(id, user.role), now), jwtSecret.value);
      res := Response(200, Session(token, Summary(id, user.username, user.role, user.displayName)));
    }

    /** `GET /me`: turned away unless the middleware passed the request;
        otherwise the record of the token's `userId` without its password,
        or `null` when there is none. */
    function Me(identity: Option<Claims>): (r: Response)
      reads this
      ensures identity.None? ==> r == Response(401, Error(Unauthenticated))
      ensures identity.Some? ==>
        && r.status == 200 && r.body.Profile?
        && (r.body.profile.Some? <==> HasId(users, identity.value.userId))
        && (r.body.profile.Some? ==> exists i :: 0 <= i < |users| && users[i].id == identity.value.userId
                                                 && r.body.profile.value == View(users[i]))
    {
      match identity
      case None => Response(401, Error(Unauthenticated))
      case Some(claims) =>
        match FindById(users, claims.userId)
        case None => Response(200, Profile(None))
        case Some(a) => Response(200, Profile(Some(View(Doc(claims.userId, a)))))
    }
  }
}
