/**
 * The mock account store and session: a list of registered users in local
 * storage plus the signed-in user, with register, login, profile and password
 * changes, account deletion (which also deletes the user's resumes) and logout.
 */
module Auth {
  import opened Wrappers
  import opened Types
  import opened Seqs
  import opened LocalStore

  /** `Partial<User>`: each present field replaces the current one. */
  datatype UserPatch = UserPatch(
    id: Option<string>,
    email: Option<string>,
    name: Option<string>,
    profileImage: Option<string>)

  /** The session record built from a stored account: its public fields, without the password. */
  function PublicView(u: StoredUser): (v: User)
    ensures v.id == u.id && v.email == u.email && v.name == u.name && v.profileImage == u.profileImage
  {
    User(u.id, u.email, u.name, u.profileImage)
  }

  /** The first stored account with exactly this email and password. */
  function FindLogin(users: seq<StoredUser>, email: string, password: string): (r: Option<nat>)
    ensures r.Some? ==> r.value < |users| && users[r.value].email == email && users[r.value].password == password
    ensures r.Some? ==> forall j :: 0 <= j < r.value ==> !(users[j].email == email && users[j].password == password)
    ensures r.None? <==> forall j :: 0 <= j < |users| ==> !(users[j].email == email && users[j].password == password)
  {
    IndexWhere(users, (u: StoredUser) => u.email == email && u.password == password)
  }

  /** Some stored account already uses this email. */
  function EmailTaken(users: seq<StoredUser>, email: string): (taken: bool)
    ensures taken <==> exists j :: 0 <= j < |users| && users[j].email == email
  {
    IndexWhere(users, (u: StoredUser) => u.email == email).Some?
  }

  /** The first stored account with this id. */
  function FindUser(users: seq<StoredUser>, id: string): (r: Option<nat>)
    ensures r.Some? ==> r.value < |users| && users[r.value].id == id
    ensures r.Some? ==> forall j :: 0 <= j < r.value ==> users[j].id != id
    ensures r.None? <==> forall j :: 0 <= j < |users| ==> users[j].id != id
  {
    IndexWhere(users, (u: StoredUser) => u.id == id)
  }

  /** `{ ...user, ...updates }` on the session record. */
  function MergeUser(u: User, p: UserPatch): (v: User)
    ensures v.id == p.id.GetOr(u.id) && v.email == p.email.GetOr(u.email) && v.name == p.name.GetOr(u.name)
    ensures v.profileImage == if p.profileImage.Some? then p.profileImage else u.profileImage
  {
    User(p.id.GetOr(u.id), p.email.GetOr(u.email), p.name.GetOr(u.name),
         if p.profileImage.Some? then p.profileImage else u.profileImage)
  }

  /** `{ ...users[i], ...updates }` on a stored account: the password is never part of an update. */
  function MergeStored(u: StoredUser, p: UserPatch): (v: StoredUser)
    ensures v.password == u.password
    ensures PublicView(v) == MergeUser(PublicView(u), p)
  {
    StoredUser(p.id.GetOr(u.id), p.email.GetOr(u.email), u.password, p.name.GetOr(u.name),
               if p.profileImage.Some? then p.profileImage else u.profileImage)
  }

  /** The stored accounts after merging `updates` into the first one with this id; the rest are untouched. */
  function WithProfileUpdate(users: seq<StoredUser>, id: string, updates: UserPatch): (r: seq<StoredUser>)
    ensures |r| == |users|
    ensures FindUser(users, id).None? ==> r == users
    ensures FindUser(users, id).Some? ==> var i := FindUser(users, id).value;
      r[i] == MergeStored(users[i], updates) && forall j :: 0 <= j < |users| && j != i ==> r[j] == users[j]
  {
    match FindUser(users, id)
    case None => users
    case Some(i) => users[i := MergeStored(users[i], updates)]
  }

  /** The stored accounts whose id is not `id`, in stored order. */
  function WithoutUser(users: seq<StoredUser>, id: string): (r: seq<StoredUser>)
    ensures forall u :: u in r <==> u in users && u.id != id
    ensures |r| <= |users|
  {
    Filter(users, (u: StoredUser) => u.id != id)
  }

  /** The stored resumes not owned by `userId`, in stored order. */
  function WithoutResumesOf(resumes: seq<Resume>, userId: string): (r: seq<Resume>)
    ensures forall x :: x in r <==> x in resumes && x.userId != userId
    ensures |r| <= |resumes|
  {
    Filter(resumes, (x: Resume) => x.userId != userId)
  }

  /** No two stored accounts share an email. */
  predicate UniqueEmails(users: seq<StoredUser>) {
    forall i, j :: 0 <= i < j < |users| ==> users[i].email != users[j].email
  }

  /** The account a successful registration appends. */
  function NewAccount(id: string, email: string, password: string, name: string): StoredUser {
    StoredUser(id, email, password, name, Some(""))
  }

  /** Registration refuses a taken email, so it keeps emails unique. */
  lemma RegisterKeepsEmailsUnique(users: seq<StoredUser>, id: string, email: string, password: string, name: string)
    requires UniqueEmails(users)
    requires !EmailTaken(users, email)
    ensures UniqueEmails(users + [NewAccount(id, email, password, name)])
  {
  }

  /** After a successful registration, logging in with the same email and password finds exactly the new account. */
  lemma {:induction false} RegisterThenLogin(users: seq<StoredUser>, id: string, email: string, password: string, name: string)
    requires !EmailTaken(users, email)
    ensures FindLogin(users + [NewAccount(id, email, password, name)], email, password) == Some(|users|)
  {
    var after := users + [NewAccount(id, email, password, name)];
    var r := FindLogin(after, email, password);
    assert after[|users|].email == email && after[|users|].password == password;
    assert forall j :: 0 <= j < |users| ==> after[j] == users[j];
    assert r.Some?;
    assert r.value >= |users|;
  }

  /** With unique emails, a login can only ever resolve to the account holding that email. */
  lemma LoginFindsOwnerOfEmail(users: seq<StoredUser>, email: string, password: string, k: nat)
    requires UniqueEmails(users)
    requires k < |users| && users[k].email == email
    ensures FindLogin(users, email, password).Some? <==> users[k].password == password
    ensures FindLogin(users, email, password).Some? ==> FindLogin(users, email, password) == Some(k)
  {
  }

  /** The signed-in user has a stored account and `currentPassword` is its password. */
  predicate PasswordAccepted(users: seq<StoredUser>, user: Option<User>, currentPassword: string) {
    user.Some? && FindUser(users, user.value.id).Some? && users[FindUser(users, user.value.id).value].password == currentPassword
  }

  /** The stored accounts with the password of the first account with this id replaced; nothing else changes. */
  function WithPassword(users: seq<StoredUser>, id: string, newPassword: string): (r: seq<StoredUser>)
    requires FindUser(users, id).Some?
    ensures |r| == |users|
    ensures var i := FindUser(users, id).value;
      r[i].password == newPassword && r[i].(password := users[i].password) == users[i]
      && forall j :: 0 <= j < |users| && j != i ==> r[j] == users[j]
  {
    var i := FindUser(users, id).value;
    users[i := users[i].(password := newPassword)]
  }

  /** After a password change the account's email logs in with the new password, and emails stay unique. */
  lemma ChangePasswordThenLogin(users: seq<StoredUser>, id: string, newPassword: string)
    requires UniqueEmails(users)
    requires FindUser(users, id).Some?
    ensures UniqueEmails(WithPassword(users, id, newPassword))
    ensures var i := FindUser(users, id).value;
      FindLogin(WithPassword(users, id, newPassword), users[i].email, newPassword) == Some(i)
  {
    var i := FindUser(users, id).value;
    var r := WithPassword(users, id, newPassword);
    assert forall j :: 0 <= j < |r| ==> r[j].email == users[j].email;
    LoginFindsOwnerOfEmail(r, users[i].email, newPassword, i);
  }

  class AuthContext {
    const storage: LocalStorage
    /** The signed-in user, or `None`. */
    var user: Option<User>
    var isLoading: bool

    /** The provider as first rendered: nobody signed in, still loading. */
    constructor (storage: LocalStorage)
      ensures this.storage == storage && user == None && isLoading
    {
      this.storage := storage;
      user := None;
      isLoading := true;
    }

    /** The start-up effect: resume the remembered session, if there is one. */
    method RestoreSession()
      modifies this
      ensures user == if storage.session.Some? then storage.session else old(user)
      ensures !isLoading
    {
      if storage.session.Some? {
        user := storage.session;
      }
      isLoading := false;
    }

    /** Sign in when some stored account has exactly this email and password. */
    method Login(email: string, password: string) returns (ok: bool)
      modifies this, storage`session
      ensures !isLoading
      ensures ok <==> exists j :: 0 <= j < |storage.users| && storage.users[j].email == email && storage.users[j].password == password
      ensures ok ==> user == Some(PublicView(storage.users[FindLogin(storage.users, email, password).value]))
      ensures ok ==> storage.session == user
      ensures !ok ==> user == old(user) && storage.session == old(storage.session)
    {
      isLoading := true;
      var found := FindLogin(storage.users, email, password);
      if found.Some? {
        var userData := PublicView(storage.users[found.value]);
        user := Some(userData);
        storage.session := Some(userData);
        isLoading := false;
        return true;
      }
      isLoading := false;
      return false;
    }

    /** Create an account with a fresh email and sign it in; `id` is the creation time's text. */
    method Register(email: string, password: string, name: string, id: string) returns (ok: bool)
      modifies this, storage`users, storage`session
      ensures !isLoading
      ensures ok <==> !EmailTaken(old(storage.users), email)
      ensures !ok ==> storage.users == old(storage.users) && user == old(user) && storage.session == old(storage.session)
      ensures ok ==> storage.users == old(storage.users) + [NewAccount(id, email, password, name)]
      ensures ok ==> user == Some(User(id, email, name, Some(""))) && storage.session == user
    {
      isLoading := true;
      if EmailTaken(storage.users, email) {
        isLoading := false;
        return false;
      }
      var newUser := NewAccount(id, email, password, name);
      storage.users := storage.users + [newUser];
      var userData := PublicView(newUser);
      user := Some(userData);
      storage.session := Some(userData);
      isLoading := false;
      return true;
    }

    /** Merge `updates` into the signed-in user and into the first stored account with the same id. */
    method UpdateProfile(updates: UserPatch) returns (ok: bool)
      modifies this, storage`users, storage`session
      ensures isLoading == old(isLoading)
      ensures ok <==> old(user).Some?
      ensures !ok ==> user == old(user) && storage.users == old(storage.users) && storage.session == old(storage.session)
      ensures ok ==> user == Some(MergeUser(old(user).value, updates)) && storage.session == user
      ensures ok ==> storage.users == WithProfileUpdate(old(storage.users), old(user).value.id, updates)
    {
      if user.None? {
        return false;
      }
      var updatedUser := MergeUser(user.value, updates);
      var userIndex := FindUser(storage.users, user.value.id);
      if userIndex.Some? {
        storage.users := storage.users[userIndex.value := MergeStored(storage.users[userIndex.value], updates)];
      }
      user := Some(updatedUser);
      storage.session := Some(updatedUser);
      return true;
    }

    /** Replace the signed-in user's stored password when `currentPassword` is the stored one. */
    method ChangePassword(currentPassword: string, newPassword: string) returns (ok: bool)
      modifies storage`users
      ensures ok <==> PasswordAccepted(old(storage.users), user, currentPassword)
      ensures !ok ==> storage.users == old(storage.users)
      ensures ok ==> storage.users == WithPassword(old(storage.users), user.value.id, newPassword)
    {
      if user.None? {
        return false;
      }
      var userIndex := FindUser(storage.users, user.value.id);
      if userIndex.None? {
        return false;
      }
      if storage.users[userIndex.value].password != currentPassword {
        return false;
      }
      storage.users := storage.users[userIndex.value := storage.users[userIndex.value].(password := newPassword)];
      return true;
    }

    /** Remove the signed-in user's accounts and resumes, then sign out. */
    method DeleteAccount() returns (ok: bool)
      modifies this, storage
      ensures isLoading == old(isLoading)
      ensures ok <==> old(user).Some?
      ensures !ok ==> user == old(user) && storage.users == old(storage.users)
                      && storage.resumes == old(storage.resumes) && storage.session == old(storage.session)
      ensures ok ==> storage.users == WithoutUser(old(storage.users), old(user).value.id)
      ensures ok ==> storage.resumes == WithoutResumesOf(old(storage.resumes), old(user).value.id)
      ensures ok ==> user == None && storage.session == None
    {
      if user.None? {
        return false;
      }
      storage.users := WithoutUser(storage.users, user.value.id);
      storage.resumes := WithoutResumesOf(storage.resumes, user.value.id);
      user := None;
      storage.session := None;
      return true;
    }

    /** Sign out; the accounts are untouched. */
    method Logout()
      modifies this, storage`session
      ensures user == None && storage.session == None && isLoading == old(isLoading)
    {
      user := None;
      storage.session := None;
    }
  }
}
