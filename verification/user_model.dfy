/** The user document (server/src/models/User.ts): setters, defaults, path validators, the
    hash-on-modify pre-save hook and the `toJSON` transform that strips secrets. */
module UserModel {
  import opened Common
  import Text
  import OtpModel

  /** The stored password: `Plain` right after it was assigned (the path is modified),
      `Hashed` once a save has run the pre-save hook. */
  datatype Password = Plain(text: string) | Hashed(digest: string)

  datatype User = User(
    id: UserId,
    name: string,
    email: string,
    password: Password,
    phone: Option<string>,
    avatar: string,
    bio: string,
    publicKey: string,
    privateKey: string,
    isOnline: bool,
    lastSeen: Time,
    socketId: string,
    emailVerified: bool,
    phoneVerified: bool)

  const DefaultBio: string := "Hey there! I am using WhatsApp Clone"
  const NameMin: nat := 2
  const NameMax: nat := 50
  const PasswordMin: nat := 6
  const BioMax: nat := 150

  /** The `match` validator on `email`, `/^\S+@\S+\.\S+$/`: no white space, and an `@`
      and a later `.` that split it into three non-empty parts. */
  predicate EmailPattern(s: string) {
    && Text.NoSpace(s)
    && exists i, j :: 1 <= i && i + 2 <= j && j + 1 < |s| && s[i] == '@' && s[j] == '.'
  }

  /** The fields `User.create` receives. */
  datatype Fields = Fields(
    name: string,
    email: string,
    password: string,
    avatar: Option<string>,
    bio: Option<string>,
    publicKey: string,
    privateKey: string,
    emailVerified: bool)

  /** `User.create` before validation: the name is trimmed, the email lowercased and
      trimmed, and every omitted field takes its default (avatar '', the default bio,
      offline, last seen now, not phone-verified). */
  function New(id: UserId, f: Fields, now: Time): (u: User)
    ensures u.id == id && u.name == Text.Trim(f.name)
    ensures u.email == OtpModel.NormaliseEmail(f.email)
    ensures u.password == Plain(f.password)
    ensures u.avatar == f.avatar.GetOr("") && u.bio == f.bio.GetOr(DefaultBio)
    ensures !u.isOnline && !u.phoneVerified && u.emailVerified == f.emailVerified
    ensures u.lastSeen == now && u.phone.None?
  {
    User(id, Text.Trim(f.name), OtpModel.NormaliseEmail(f.email), Plain(f.password), None,
         f.avatar.GetOr(""), f.bio.GetOr(DefaultBio), f.publicKey, f.privateKey,
         false, now, "", f.emailVerified, false)
  }

  /** The path validators' verdict, one entry per failing path in schema order; for each
      path the required check comes before the length and pattern checks. */
  function Errors(u: User): seq<(string, string)> {
    (if u.name == "" then [("name", "Name is required")]
     else if |u.name| < NameMin then [("name", "Name must be at least 2 characters")]
     else if |u.name| > NameMax then [("name", "Name cannot exceed 50 characters")]
     else [])
    + (if u.email == "" then [("email", "Email is required")]
       else if !EmailPattern(u.email) then [("email", "Please enter a valid email")]
       else [])
    + (match u.password
       case Hashed(_) => []
       case Plain(p) =>
         if p == "" then [("password", "Password is required")]
         else if |p| < PasswordMin then [("password", "Password must be at least 6 characters")]
         else [])
    + (if |u.bio| > BioMax then [("bio", "Bio cannot exceed 150 characters")] else [])
    + (if u.publicKey == "" then [("publicKey", "Path `publicKey` is required.")] else [])
    + (if u.privateKey == "" then [("privateKey", "Path `privateKey` is required.")] else [])
  }

  /** What a savable user looks like. */
  predicate Valid(u: User) {
    && NameMin <= |u.name| <= NameMax
    && EmailPattern(u.email)
    && (u.password.Plain? ==> |u.password.text| >= PasswordMin)
    && |u.bio| <= BioMax
    && u.publicKey != "" && u.privateKey != ""
  }

  lemma ErrorsIffInvalid(u: User)
    ensures Errors(u) == [] <==> Valid(u)
  {
  }

  datatype Result = Saved(user: User) | Rejected(error: string)

  /** `save()`: validation first, then the pre-save hook, which hashes the password only
      when it was assigned since the last save. */
  function Save(u: User, hash: string -> string): (r: Result)
    ensures r.Saved? <==> Valid(u)
    ensures r.Rejected? ==> r.error == ValidationFailed("User", Errors(u))
    ensures r.Saved? ==> r.user.password == match u.password
                                             case Plain(p) => Hashed(hash(p))
                                             case Hashed(h) => Hashed(h)
    ensures r.Saved? ==> r.user == u.(password := r.user.password)
  {
    ErrorsIffInvalid(u);
    if Errors(u) != [] then Rejected(ValidationFailed("User", Errors(u)))
    else match u.password
      case Plain(p) => Saved(u.(password := Hashed(hash(p))))
      case Hashed(_) => Saved(u)
  }

  /** Saving a user whose password was not reassigned leaves the stored hash alone, and
      a second save of a saved user changes nothing. */
  lemma SaveKeepsUnmodifiedHash(u: User, hash: string -> string)
    requires Save(u, hash).Saved?
    ensures Save(Save(u, hash).user, hash) == Save(u, hash)
    ensures u.password.Hashed? ==> Save(u, hash).user == u
  {
  }

  datatype Json = JStr(s: string) | JBool(b: bool) | JNum(n: int)

  /** `toObject()`: every stored path by name (the password as stored, a hash). */
  function ToObject(u: User): map<string, Json> {
    var base := map[
      "_id" := JStr(u.id), "name" := JStr(u.name), "email" := JStr(u.email),
      "password" := JStr(match u.password case Plain(p) => p case Hashed(h) => h),
      "avatar" := JStr(u.avatar), "bio" := JStr(u.bio), "publicKey" := JStr(u.publicKey),
      "privateKey" := JStr(u.privateKey), "isOnline" := JBool(u.isOnline),
      "lastSeen" := JNum(u.lastSeen), "socketId" := JStr(u.socketId),
      "emailVerified" := JBool(u.emailVerified), "phoneVerified" := JBool(u.phoneVerified)];
    if u.phone.Some? then base["phone" := JStr(u.phone.value)] else base
  }

  /** `toJSON()`: the stored object without `password` and `privateKey`; every other path
      is kept with its value. */
  function ToJson(u: User): (r: map<string, Json>)
    ensures "password" !in r && "privateKey" !in r
    ensures forall k :: k in ToObject(u) && k != "password" && k != "privateKey" ==>
              k in r && r[k] == ToObject(u)[k]
    ensures forall k :: k in r ==> k in ToObject(u)
  {
    ToObject(u) - {"password", "privateKey"}
  }

  /** A query's `.select(paths)`: the listed paths and `_id`, each with its stored value. */
  function Project(u: User, paths: set<string>): (r: map<string, Json>)
    ensures forall k :: k in r <==> k in ToObject(u) && (k in paths || k == "_id")
    ensures forall k :: k in r ==> r[k] == ToObject(u)[k]
    ensures "password" !in paths ==> "password" !in r
    ensures "privateKey" !in paths ==> "privateKey" !in r
  {
    map k | k in ToObject(u) && (k in paths || k == "_id") :: ToObject(u)[k]
  }
}
