/** The user handlers (server/src/controllers/user.controller.ts): listing other users, reading
    one, updating one's own profile and avatar. The `$regex` search is an opaque predicate and
    the uploaded avatar's URL a parameter. */
module UserController {
  import opened Common
  import UserModel
  import Text
  import Db

  type User = UserModel.User
  type Doc = map<string, UserModel.Json>

  const ListPaths: set<string> := {"name", "email", "avatar", "bio", "isOnline", "lastSeen"}
  const ByIdPaths: set<string> := {"name", "email", "avatar", "bio", "isOnline", "lastSeen", "publicKey"}
  const ListLimit: nat := 50

  /** The users `getUsers` selects before the limit: everyone but the requester, narrowed to
      those the search matches when a search is given. */
  predicate Listed(u: User, me: UserId, search: Option<string>, matches: (User, string) -> bool) {
    u.id != me && (Truthy(search) ==> matches(u, search.value))
  }

  function ListedUsers(users: seq<User>, me: UserId, search: Option<string>, matches: (User, string) -> bool): (r: seq<User>)
    ensures |r| <= |users|
    ensures forall i :: 0 <= i < |r| ==> Listed(r[i], me, search, matches) && r[i] in users
    ensures forall i :: 0 <= i < |users| && Listed(users[i], me, search, matches) ==> users[i] in r
  {
    Filter(users, (u: User) => Listed(u, me, search, matches))
  }

  /** `GET /api/users?search`: at most fifty users, never the requester, each projected to
      its public profile. */
  function GetUsers(db: Db.Store, me: Option<UserId>, search: Option<string>, matches: (User, string) -> bool)
    : (r: Response<seq<Doc>>)
    ensures me.None? ==> r == Err(401, "Not authorized")
    ensures me.Some? ==> r.Ok?
    ensures r.Ok? ==> |r.data| <= ListLimit
    ensures r.Ok? ==> forall i :: 0 <= i < |r.data| ==> "password" !in r.data[i] && "privateKey" !in r.data[i]
    ensures r.Ok? ==> forall i :: 0 <= i < |r.data| ==>
              exists u :: u in db.users && Listed(u, me.value, search, matches) && r.data[i] == UserModel.Project(u, ListPaths)
    ensures r.Ok? ==>
              var listed := ListedUsers(db.users, me.value, search, matches);
              && |r.data| == (if |listed| <= ListLimit then |listed| else ListLimit)
              && forall i :: 0 <= i < |r.data| ==> r.data[i] == UserModel.Project(listed[i], ListPaths)
  {
    if me.None? then Err(401, "Not authorized")
    else
      var listed := ListedUsers(db.users, me.value, search, matches);
      var picked := Take(listed, ListLimit);
      var docs := Profiles(picked);
      assert forall i :: 0 <= i < |picked| ==> picked[i] == listed[i];
      assert forall i :: 0 <= i < |docs| ==>
               picked[i] in db.users && Listed(picked[i], me.value, search, matches) && docs[i] == UserModel.Project(picked[i], ListPaths);
      Ok(200, docs)
  }

  /** Each listed user projected to the public profile, without the password hash or the
      private key. */
  function Profiles(users: seq<User>): (docs: seq<Doc>)
    ensures |docs| == |users|
    ensures forall i :: 0 <= i < |users| ==> docs[i] == UserModel.Project(users[i], ListPaths)
    ensures forall i :: 0 <= i < |docs| ==> "password" !in docs[i] && "privateKey" !in docs[i]
  {
    assert "password" !in ListPaths && "privateKey" !in ListPaths;
    seq(|users|, i requires 0 <= i < |users| => UserModel.Project(users[i], ListPaths))
  }

  /** With no more than fifty users listed, every one of them is in the answer. */
  lemma GetUsersListsEveryone(db: Db.Store, me: UserId, search: Option<string>, matches: (User, string) -> bool, k: nat)
    requires k < |db.users| && Listed(db.users[k], me, search, matches)
    requires |ListedUsers(db.users, me, search, matches)| <= ListLimit
    ensures UserModel.Project(db.users[k], ListPaths) in GetUsers(db, Some(me), search, matches).data
  {
    var listed := ListedUsers(db.users, me, search, matches);
    var r := GetUsers(db, Some(me), search, matches);
    var j :| 0 <= j < |listed| && listed[j] == db.users[k];
    assert r.data[j] == UserModel.Project(listed[j], ListPaths);
  }

  /** `GET /api/users/:id`: the public profile with the public key, or 404. */
  function GetUserById(db: Db.Store, id: UserId): (r: Response<Doc>)
    ensures Db.UserIndex(db.users, id).None? <==> r == Err(404, "User not found")
    ensures r.Ok? ==> r.data == UserModel.Project(db.users[Db.UserIndex(db.users, id).value], ByIdPaths)
  {
    match Db.UserIndex(db.users, id)
    case None => Err(404, "User not found")
    case Some(i) => Ok(200, UserModel.Project(db.users[i], ByIdPaths))
  }

  /** `PUT /api/users/profile`: a non-empty name replaces the name (then trimmed by the
      setter); a supplied bio replaces the bio, even when empty; nothing else changes. */
  function UpdateProfile(db: Db.Store, me: Option<UserId>, name: Option<string>, bio: Option<string>,
                         hash: string -> string): (r: (Db.Store, Response<Doc>))
    ensures Db.FindUser(db, me).None? ==> r == (db, Err(401, "Not authorized"))
    ensures r.1.Err? ==> r.0 == db
    ensures r.1.Ok? ==>
              var i := Db.UserIndex(db.users, me.value).value;
              var u := db.users[i];
              var edited := u.(name := if Truthy(name) then Text.Trim(name.value) else u.name,
                               bio := if bio.Some? then bio.value else u.bio);
              && UserModel.Save(edited, hash).Saved?
              && r.0 == db.(users := db.users[i := UserModel.Save(edited, hash).user])
              && r.1 == Ok(200, UserModel.ToJson(UserModel.Save(edited, hash).user))
    ensures r.1.Err? && Db.FindUser(db, me).Some? ==> r.1.code == 500
  {
    if me.None? then (db, Err(401, "Not authorized"))
    else match Db.UserIndex(db.users, me.value)
      case None => (db, Err(401, "Not authorized"))
      case Some(i) =>
        var u := db.users[i];
        var edited := u.(name := if Truthy(name) then Text.Trim(name.value) else u.name,
                         bio := if bio.Some? then bio.value else u.bio);
        match UserModel.Save(edited, hash)
        case Rejected(e) => (db, Err(500, e))
        case Saved(s) => (db.(users := db.users[i := s]), Ok(200, UserModel.ToJson(s)))
  }

  /** For a stored user (password already hashed), a profile update changes the name and the
      bio and nothing else. */
  lemma UpdateProfileTouchesOnlyNameAndBio(db: Db.Store, me: UserId, name: Option<string>, bio: Option<string>,
                                          hash: string -> string)
    requires UpdateProfile(db, Some(me), name, bio, hash).1.Ok?
    requires db.users[Db.UserIndex(db.users, me).value].password.Hashed?
    ensures var i := Db.UserIndex(db.users, me).value;
            var after := UpdateProfile(db, Some(me), name, bio, hash).0.users[i];
            after == db.users[i].(name := after.name, bio := after.bio)
            && (!Truthy(name) ==> after.name == db.users[i].name)
            && (bio.None? ==> after.bio == db.users[i].bio)
            && (bio.Some? ==> after.bio == bio.value)
  {
  }

  /** `POST /api/users/avatar`: `url` is the address the image host returned. */
  function UploadAvatar(db: Db.Store, me: Option<UserId>, hasFile: bool, url: string, hash: string -> string)
    : (r: (Db.Store, Response<string>))
    ensures Db.FindUser(db, me).None? ==> r == (db, Err(401, "Not authorized"))
    ensures Db.FindUser(db, me).Some? && !hasFile ==> r == (db, Err(400, "Please upload a file"))
    ensures r.1.Err? ==> r.0 == db
    ensures r.1.Ok? ==>
              var i := Db.UserIndex(db.users, me.value).value;
              && hasFile && r.1 == Ok(200, url)
              && UserModel.Save(db.users[i].(avatar := url), hash).Saved?
              && r.0 == db.(users := db.users[i := UserModel.Save(db.users[i].(avatar := url), hash).user])
              && r.0.users[i].avatar == url
  {
    if me.None? then (db, Err(401, "Not authorized"))
    else match Db.UserIndex(db.users, me.value)
      case None => (db, Err(401, "Not authorized"))
      case Some(i) =>
        if !hasFile then (db, Err(400, "Please upload a file"))
        else match UserModel.Save(db.users[i].(avatar := url), hash)
          case Rejected(e) => (db, Err(500, e))
          case Saved(s) => (db.(users := db.users[i := s]), Ok(200, url))
  }
}
