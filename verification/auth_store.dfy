/** The client's session store (client/src/store/authStore.ts): the signed-in user, their
    token and the authenticated flag. Mirroring the session into browser storage is not
    part of this model. */
module AuthStore {
  import opened Common
  import ChatStore

  /** The signed-in user as the client keeps it. */
  datatype User = User(
    id: UserId,
    name: string,
    email: string,
    avatar: Option<string>,
    bio: Option<string>,
    publicKey: string,
    isOnline: bool)

  /** The keys of a partial user, each absent or present. */
  datatype UserPatch = UserPatch(
    name: ChatStore.Field<string>,
    email: ChatStore.Field<string>,
    avatar: ChatStore.Field<Option<string>>,
    bio: ChatStore.Field<Option<string>>,
    publicKey: ChatStore.Field<string>,
    isOnline: ChatStore.Field<bool>)

  datatype State = State(user: Option<User>, token: Option<string>, isAuthenticated: bool)

  /** The state the store starts in: nobody signed in. */
  const Initial: State := State(None, None, false)

  /** The flag is set exactly when both a user and a token are held. */
  predicate Consistent(st: State) {
    st.isAuthenticated <==> st.user.Some? && st.token.Some?
  }

  /** `login`: the user and token are held and the flag is set, whatever came before. */
  function Login(st: State, u: User, token: string): (r: State)
    ensures r.isAuthenticated && r.user == Some(u) && r.token == Some(token)
    ensures Consistent(r)
  {
    State(Some(u), Some(token), true)
  }

  /** `logout`: all three fields go back to their initial values. */
  function Logout(st: State): (r: State)
    ensures r.user.None? && r.token.None? && !r.isAuthenticated
    ensures Consistent(r)
  {
    State(None, None, false)
  }

  function Merge(u: User, p: UserPatch): (r: User)
    ensures r.id == u.id
    ensures p == UserPatch(ChatStore.Keep, ChatStore.Keep, ChatStore.Keep, ChatStore.Keep, ChatStore.Keep, ChatStore.Keep) ==> r == u
  {
    u.(name := p.name.Over(u.name), email := p.email.Over(u.email), avatar := p.avatar.Over(u.avatar),
       bio := p.bio.Over(u.bio), publicKey := p.publicKey.Over(u.publicKey), isOnline := p.isOnline.Over(u.isOnline))
  }

  /** `updateUser`: a held user takes the patch's keys, an absent user stays absent, and the
      token and the flag are untouched. */
  function UpdateUser(st: State, p: UserPatch): (r: State)
    ensures r.token == st.token && r.isAuthenticated == st.isAuthenticated
    ensures st.user.None? <==> r.user.None?
    ensures st.user.Some? ==> r.user == Some(Merge(st.user.value, p)) && r.user.value.id == st.user.value.id
    ensures Consistent(st) ==> Consistent(r)
  {
    State(if st.user.Some? then Some(Merge(st.user.value, p)) else None, st.token, st.isAuthenticated)
  }

  /** The store starts consistent, and logging out from any state is the initial state. */
  lemma LogoutRestoresInitial(st: State)
    ensures Consistent(Initial)
    ensures Logout(st) == Initial
    ensures forall u, t :: Logout(Login(st, u, t)) == Initial
  {
  }

  /** A profile edit after logging in keeps the session: still authenticated, same token,
      same user id. */
  lemma UpdateAfterLoginKeepsSession(st: State, u: User, token: string, p: UserPatch)
    ensures var r := UpdateUser(Login(st, u, token), p);
            r.isAuthenticated && r.token == Some(token) && r.user.Some? && r.user.value.id == u.id
  {
  }
}
