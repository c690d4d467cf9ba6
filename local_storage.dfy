/**
 * The browser's local storage as the application uses it: three keys, each
 * holding one JSON value. Serialisation is not modelled; each key holds the
 * value itself.
 */
module LocalStore {
  import opened Wrappers
  import opened Types

  /** The signed-in user as the session keeps it: never a password. */
  datatype User = User(id: string, email: string, name: string, profileImage: Option<string>)

  /** A registered account as stored under `resumeBuilder_users`. */
  datatype StoredUser = StoredUser(
    id: string,
    email: string,
    password: string,
    name: string,
    profileImage: Option<string>)

  class LocalStorage {
    /** `resumeBuilder_users`: every registered account. */
    var users: seq<StoredUser>
    /** `resumeBuilder_resumes`: every resume of every user. */
    var resumes: seq<Resume>
    /** `resumeBuilder_user`: the remembered session, if any. */
    var session: Option<User>

    constructor (users: seq<StoredUser>, resumes: seq<Resume>, session: Option<User>)
      ensures this.users == users && this.resumes == resumes && this.session == session
    {
      this.users := users;
      this.resumes := resumes;
      this.session := session;
    }
  }
}
