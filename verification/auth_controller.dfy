/** The account handlers (server/src/controllers/auth.controller.ts): registration consuming a
    verified e-mail OTP, login, the current-user read and logout. Password hashing and
    comparison, token signing, key-pair generation and the clock are parameters. */
module AuthController {
  import opened Common
  import UserModel
  import OtpModel
  import Db

  type User = UserModel.User

  /** The user object register and login put in their reply: by construction it has no
      field for the password or the private key. */
  datatype PublicUser = PublicUser(
    id: UserId, name: string, email: string, avatar: string, bio: string,
    publicKey: string, isOnline: bool, lastSeen: Time)

  datatype Session = Session(user: PublicUser, token: string)

  function Public(u: User): (p: PublicUser)
    ensures p.id == u.id && p.name == u.name && p.email == u.email && p.avatar == u.avatar
    ensures p.bio == u.bio && p.publicKey == u.publicKey && p.isOnline == u.isOnline && p.lastSeen == u.lastSeen
  {
    PublicUser(u.id, u.name, u.email, u.avatar, u.bio, u.publicKey, u.isOnline, u.lastSeen)
  }

  /** `User.findOne({ email })`, the query value passing through the e-mail setters. */
  function UserByEmail(users: seq<User>, email: string): (r: Option<nat>)
    ensures r.Some? ==> r.value < |users| && users[r.value].email == OtpModel.NormaliseEmail(email)
    ensures r.None? <==> forall j :: 0 <= j < |users| ==> users[j].email != OtpModel.NormaliseEmail(email)
  {
    FindFirst(users, (u: User) => u.email == OtpModel.NormaliseEmail(email))
  }

  /** The OTP record registration accepts: e-mail channel, verified, unexpired. */
  predicate VerifiedEmailOtp(o: OtpModel.Otp, email: string, now: Time) {
    && o.email == Some(OtpModel.NormaliseEmail(email))
    && o.channel == OtpModel.EmailChannel
    && o.verified
    && OtpModel.Live(o, now)
  }

  function VerifiedOtpIndex(otps: seq<OtpModel.Otp>, email: string, now: Time): (r: Option<nat>)
    ensures r.Some? ==> r.value < |otps| && VerifiedEmailOtp(otps[r.value], email, now)
    ensures r.None? <==> forall j :: 0 <= j < |otps| ==> !VerifiedEmailOtp(otps[j], email, now)
  {
    FindFirst(otps, (o: OtpModel.Otp) => VerifiedEmailOtp(o, email, now))
  }

  datatype Registration = Registration(
    name: Option<string>, email: Option<string>, password: Option<string>,
    avatar: Option<string>, bio: Option<string>)

  /** The document `User.create` builds from a complete registration, marked e-mail-verified. */
  function NewUser(req: Registration, id: UserId, keys: (string, string), now: Time): (u: User)
    requires Truthy(req.name) && Truthy(req.email) && Truthy(req.password)
    ensures u.id == id && u.emailVerified && u.email == OtpModel.NormaliseEmail(req.email.value)
    ensures u.password == UserModel.Plain(req.password.value)
    ensures u.publicKey == keys.0 && u.privateKey == keys.1
  {
    UserModel.New(id, UserModel.Fields(req.name.value, req.email.value, req.password.value,
                                       req.avatar, req.bio, keys.0, keys.1, true), now)
  }

  /** `POST /api/auth/register`. `keys` is the freshly generated key pair, `hash` the password
      hash and `sign` the token issued for a user id. On success the verified OTP record is
      deleted and the new user appended. */
  function Register(db: Db.Store, req: Registration, id: UserId, keys: (string, string),
                    hash: string -> string, sign: UserId -> string, now: Time): (r: (Db.Store, Response<Session>))
    ensures !Truthy(req.name) || !Truthy(req.email) || !Truthy(req.password) ==>
              r == (db, Err(400, "Please provide name, email, and password"))
    ensures Truthy(req.name) && Truthy(req.email) && Truthy(req.password) && UserByEmail(db.users, req.email.value).Some? ==>
              r == (db, Err(400, "User with this email already exists"))
    ensures Truthy(req.name) && Truthy(req.email) && Truthy(req.password) && UserByEmail(db.users, req.email.value).None? &&
            VerifiedOtpIndex(db.otps, req.email.value, now).None? ==>
              r == (db, Err(400, "Please verify your email first"))
    ensures r.1.Err? ==> r.0 == db
    ensures r.1.Ok? ==>
              && Truthy(req.name) && Truthy(req.email) && Truthy(req.password)
              && UserByEmail(db.users, req.email.value).None?
              && VerifiedOtpIndex(db.otps, req.email.value, now).Some?
              && UserModel.Save(NewUser(req, id, keys, now), hash).Saved?
    ensures r.1.Ok? ==>
              var i := VerifiedOtpIndex(db.otps, req.email.value, now).value;
              var u := UserModel.Save(NewUser(req, id, keys, now), hash).user;
              && r.1.code == 201
              && r.0 == db.(users := db.users + [u], otps := db.otps[..i] + db.otps[i + 1..])
              && r.1.data == Session(Public(u), sign(id))
  {
    if !Truthy(req.name) || !Truthy(req.email) || !Truthy(req.password) then
      (db, Err(400, "Please provide name, email, and password"))
    else if UserByEmail(db.users, req.email.value).Some? then
      (db, Err(400, "User with this email already exists"))
    else match VerifiedOtpIndex(db.otps, req.email.value, now)
      case None => (db, Err(400, "Please verify your email first"))
      case Some(i) =>
        match UserModel.Save(NewUser(req, id, keys, now), hash)
        case Rejected(e) => (db, Err(500, e))
        case Saved(u) =>
          (db.(users := db.users + [u], otps := db.otps[..i] + db.otps[i + 1..]),
           Ok(201, Session(Public(u), sign(id))))
  }

  /** The user a successful registration adds is valid, e-mail-verified, stored under the
      normalised address with its password hashed, and offline. */
  lemma RegisteredUser(db: Db.Store, req: Registration, id: UserId, keys: (string, string),
                       hash: string -> string, sign: UserId -> string, now: Time)
    ensures var (db1, resp) := Register(db, req, id, keys, hash, sign, now);
            resp.Ok? ==>
              && |db1.users| == |db.users| + 1
              && var u := db1.users[|db.users|];
              && u.id == id && u.emailVerified && !u.isOnline && UserModel.Valid(u)
              && u.email == OtpModel.NormaliseEmail(req.email.value)
              && u.password == UserModel.Hashed(hash(req.password.value))
              && u.publicKey == keys.0 && u.privateKey == keys.1
  {
  }

  /** Registering twice with the same e-mail fails the second time, whatever OTP records are
      left: the first registration's user now holds that address. */
  lemma RegisterOnce(db: Db.Store, req: Registration, id1: UserId, id2: UserId, k1: (string, string),
                     k2: (string, string), hash: string -> string, sign: UserId -> string, t1: Time, t2: Time)
    ensures var (db1, resp) := Register(db, req, id1, k1, hash, sign, t1);
            resp.Ok? ==> Register(db1, req, id2, k2, hash, sign, t2) == (db1, Err(400, "User with this email already exists"))
  {
    var (db1, resp) := Register(db, req, id1, k1, hash, sign, t1);
    if resp.Ok? {
      RegisteredUser(db, req, id1, k1, hash, sign, t1);
      assert db1.users[|db.users|].email == OtpModel.NormaliseEmail(req.email.value);
    }
  }

  /** The stored password's text, which bcrypt compares a candidate with. */
  function StoredPassword(p: UserModel.Password): string {
    match p
    case Plain(t) => t
    case Hashed(h) => h
  }

  /** `POST /api/auth/login`: an unknown e-mail and a wrong password get the same 401 reply;
      success marks the user online. `matches(candidate, stored)` is bcrypt's compare. */
  function Login(db: Db.Store, email: Option<string>, password: Option<string>,
                 matches: (string, string) -> bool, hash: string -> string, sign: UserId -> string)
    : (r: (Db.Store, Response<Session>))
    ensures !Truthy(email) || !Truthy(password) ==> r == (db, Err(400, "Please provide email and password"))
    ensures Truthy(email) && Truthy(password) && UserByEmail(db.users, email.value).None? ==>
              r == (db, Err(401, "Invalid credentials"))
    ensures Truthy(email) && Truthy(password) && UserByEmail(db.users, email.value).Some? &&
            !matches(password.value, StoredPassword(db.users[UserByEmail(db.users, email.value).value].password)) ==>
              r == (db, Err(401, "Invalid credentials"))
    ensures r.1.Err? ==> r.0 == db
    ensures r.1.Ok? ==>
              && Truthy(email) && Truthy(password) && UserByEmail(db.users, email.value).Some?
              && UserModel.Save(db.users[UserByEmail(db.users, email.value).value].(isOnline := true), hash).Saved?
    ensures r.1.Ok? ==>
              var i := UserByEmail(db.users, email.value).value;
              var saved := UserModel.Save(db.users[i].(isOnline := true), hash).user;
              && r.1.code == 200 && saved.isOnline
              && r.0 == db.(users := db.users[i := saved])
              && r.1.data == Session(Public(saved), sign(db.users[i].id))
  {
    if !Truthy(email) || !Truthy(password) then (db, Err(400, "Please provide email and password"))
    else match UserByEmail(db.users, email.value)
      case None => (db, Err(401, "Invalid credentials"))
      case Some(i) =>
        var u := db.users[i];
        if !matches(password.value, StoredPassword(u.password)) then (db, Err(401, "Invalid credentials"))
        else match UserModel.Save(u.(isOnline := true), hash)
          case Rejected(e) => (db, Err(500, e))
          case Saved(saved) =>
            (db.(users := db.users[i := saved]), Ok(200, Session(Public(saved), sign(u.id))))
  }

  /** Logging in a stored user (valid, password already hashed) with the right password
      changes only the online flag and leaves the password hash as it was. */
  lemma LoginKeepsHash(db: Db.Store, email: string, password: string,
                       matches: (string, string) -> bool, hash: string -> string, sign: UserId -> string)
    requires email != "" && password != ""
    requires UserByEmail(db.users, email).Some?
    requires var u := db.users[UserByEmail(db.users, email).value];
             UserModel.Valid(u) && u.password.Hashed? && matches(password, StoredPassword(u.password))
    ensures var i := UserByEmail(db.users, email).value;
            var r := Login(db, Some(email), Some(password), matches, hash, sign);
            r.1.Ok? && r.0.users == db.users[i := db.users[i].(isOnline := true)]
  {
  }

  /** The user `protect` attached, looked up by id. */
  function CurrentUser(db: Db.Store, me: Option<UserId>): Option<User> {
    Db.FindUser(db, me)
  }

  /** `GET /api/auth/me`: the attached user, serialised without its secrets. */
  function GetMe(db: Db.Store, me: Option<UserId>): (r: Response<map<string, UserModel.Json>>)
    ensures CurrentUser(db, me).None? ==> r == Err(401, "Not authorized")
    ensures r.Ok? ==> "password" !in r.data && "privateKey" !in r.data
    ensures r.Ok? ==> r.data == UserModel.ToJson(CurrentUser(db, me).value)
  {
    match CurrentUser(db, me)
    case None => Err(401, "Not authorized")
    case Some(u) => Ok(200, UserModel.ToJson(u))
  }

  /** `POST /api/auth/logout`: the attached user goes offline with `lastSeen` stamped now;
      without one the reply is the same and nothing changes. */
  function Logout(db: Db.Store, me: Option<UserId>, now: Time, hash: string -> string): (r: (Db.Store, Response<string>))
    ensures Db.FindUser(db, me).None? ==> r == (db, Ok(200, "Logged out successfully"))
    ensures r.1.Ok? && Db.FindUser(db, me).Some? ==>
              var i := Db.UserIndex(db.users, me.value).value;
              && UserModel.Save(db.users[i].(isOnline := false, lastSeen := now), hash).Saved?
              && r.0 == db.(users := db.users[i := UserModel.Save(db.users[i].(isOnline := false, lastSeen := now), hash).user])
              && !r.0.users[i].isOnline && r.0.users[i].lastSeen == now
    ensures r.1.Err? ==> r.0 == db && r.1.code == 500
    ensures r.1.Ok? ==> r.1 == Ok(200, "Logged out successfully")
  {
    if me.None? then (db, Ok(200, "Logged out successfully"))
    else match Db.UserIndex(db.users, me.value)
      case None => (db, Ok(200, "Logged out successfully"))
      case Some(i) =>
        match UserModel.Save(db.users[i].(isOnline := false, lastSeen := now), hash)
        case Rejected(e) => (db, Err(500, e))
        case Saved(u) => (db.(users := db.users[i := u]), Ok(200, "Logged out successfully"))
  }
}
