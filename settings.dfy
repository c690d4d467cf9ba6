/**
 * The settings page: renaming the signed-in user, changing the password after
 * three ordered checks, storing a new profile image and deleting the account.
 * The page only ever sends a name or a profile image to the profile update,
 * so the email never changes.
 */
module Settings {
  import opened Wrappers
  import opened Strings
  import opened Toasts
  import opened LocalStore
  import opened Auth

  const NameEmpty := Failure("Error", "Name cannot be empty")
  const NameUpdated := Success("Success", "Name updated successfully")
  const NameUpdateFailed := Failure("Error", "Failed to update name")
  const FillAllFields := Failure("Error", "Please fill in all password fields")
  const PasswordsDiffer := Failure("Error", "New passwords don't match")
  const PasswordTooShort := Failure("Error", "Password must be at least 6 characters")
  const PasswordChanged := Success("Success", "Password changed successfully")
  const PasswordChangeFailed := Failure("Error", "Failed to change password. Please check your current password.")
  const ImageUpdated := Success("Success", "Profile image updated successfully")
  const AccountDeleted := Success("Account Deleted", "Your account has been permanently deleted")
  const DeleteFailed := Failure("Error", "Failed to delete account")

  const MinPasswordLength := 6

  /** `updateProfile({ name })`. */
  function NamePatch(name: string): (p: UserPatch)
    ensures p.name == Some(name) && p.email.None? && p.id.None? && p.profileImage.None?
  {
    UserPatch(None, None, Some(name), None)
  }

  /** `updateProfile({ profileImage })`. */
  function ImagePatch(image: string): (p: UserPatch)
    ensures p.profileImage == Some(image) && p.email.None? && p.id.None? && p.name.None?
  {
    UserPatch(None, None, None, Some(image))
  }

  /** A patch without an email or id, such as every patch this page sends, keeps every email and id. */
  lemma PatchKeepsEmails(users: seq<StoredUser>, u: User, id: string, p: UserPatch)
    requires p.email.None? && p.id.None?
    ensures MergeUser(u, p).email == u.email && MergeUser(u, p).id == u.id
    ensures forall j :: 0 <= j < |users| ==>
      WithProfileUpdate(users, id, p)[j].email == users[j].email && WithProfileUpdate(users, id, p)[j].id == users[j].id
  {
    var r := WithProfileUpdate(users, id, p);
    match FindUser(users, id)
    case None =>
    case Some(i) =>
      assert r[i] == MergeStored(users[i], p);
      assert PublicView(r[i]) == MergeUser(PublicView(users[i]), p);
  }

  /** A profile update from this page keeps the emails unique. */
  lemma PatchKeepsEmailsUnique(users: seq<StoredUser>, id: string, p: UserPatch)
    requires p.email.None? && p.id.None?
    requires UniqueEmails(users)
    ensures UniqueEmails(WithProfileUpdate(users, id, p))
  {
    PatchKeepsEmails(users, User("", "", "", None), id, p);
  }

  /**
   * The checks before a password change, in order: both the current and the
   * new password filled in, the confirmation equal to the new password, the
   * new password at least six characters. The first failing check names the
   * error; `None` means the change may go ahead.
   */
  function PasswordProblem(current: string, next: string, confirm: string): (r: Option<Notice>)
    ensures r.None? <==> current != "" && next != "" && next == confirm && |next| >= MinPasswordLength
    ensures r == Some(FillAllFields) <==> current == "" || next == ""
    ensures r == Some(PasswordsDiffer) <==> current != "" && next != "" && next != confirm
    ensures r == Some(PasswordTooShort) <==> current != "" && next != "" && next == confirm && |next| < MinPasswordLength
    ensures next == "" ==> r == Some(FillAllFields)
  {
    if current == "" || next == "" then Some(FillAllFields)
    else if next != confirm then Some(PasswordsDiffer)
    else if |next| < MinPasswordLength then Some(PasswordTooShort)
    else None
  }

  class SettingsPage {
    const auth: AuthContext
    var name: string
    var currentPassword: string
    var newPassword: string
    var confirmPassword: string
    var profileImage: string
    var showDeleteDialog: bool

    /** The page as first shown: the signed-in user's name and image, empty password fields, dialog closed. */
    constructor (auth: AuthContext)
      ensures this.auth == auth
      ensures name == if auth.user.Some? then auth.user.value.name else ""
      ensures profileImage == if auth.user.Some? then auth.user.value.profileImage.GetOr("") else ""
      ensures currentPassword == "" && newPassword == "" && confirmPassword == "" && !showDeleteDialog
    {
      this.auth := auth;
      name := if auth.user.Some? then auth.user.value.name else "";
      profileImage := if auth.user.Some? then auth.user.value.profileImage.GetOr("") else "";
      currentPassword := "";
      newPassword := "";
      confirmPassword := "";
      showDeleteDialog := false;
    }

    /** `handleNameUpdate`: refuse a blank name, otherwise send the name as typed (not trimmed). */
    method HandleNameUpdate() returns (notice: Notice)
      modifies auth, auth.storage`users, auth.storage`session
      ensures auth.isLoading == old(auth.isLoading)
      ensures IsBlank(name) ==>
        && notice == NameEmpty && auth.user == old(auth.user)
        && auth.storage.users == old(auth.storage.users) && auth.storage.session == old(auth.storage.session)
      ensures !IsBlank(name) && old(auth.user).None? ==>
        && notice == NameUpdateFailed && auth.user == old(auth.user)
        && auth.storage.users == old(auth.storage.users) && auth.storage.session == old(auth.storage.session)
      ensures !IsBlank(name) && old(auth.user).Some? ==>
        && notice == NameUpdated
        && auth.user == Some(old(auth.user).value.(name := name)) && auth.storage.session == auth.user
        && auth.storage.users == WithProfileUpdate(old(auth.storage.users), old(auth.user).value.id, NamePatch(name))
    {
      if IsBlank(name) {
        return NameEmpty;
      }
      var success := auth.UpdateProfile(NamePatch(name));
      if success {
        notice := NameUpdated;
      } else {
        notice := NameUpdateFailed;
      }
    }

    /**
     * `handlePasswordChange`: run the checks, then ask for the change; only a
     * successful change clears the three password fields.
     */
    method HandlePasswordChange() returns (notice: Notice)
      modifies this`currentPassword, this`newPassword, this`confirmPassword, auth.storage`users
      ensures var problem := PasswordProblem(old(currentPassword), old(newPassword), old(confirmPassword));
        problem.Some? ==>
          && notice == problem.value && auth.storage.users == old(auth.storage.users)
          && currentPassword == old(currentPassword) && newPassword == old(newPassword) && confirmPassword == old(confirmPassword)
      ensures var problem := PasswordProblem(old(currentPassword), old(newPassword), old(confirmPassword));
        problem.None? && PasswordAccepted(old(auth.storage.users), auth.user, old(currentPassword)) ==>
          && notice == PasswordChanged
          && auth.storage.users == WithPassword(old(auth.storage.users), auth.user.value.id, old(newPassword))
          && currentPassword == "" && newPassword == "" && confirmPassword == ""
      ensures var problem := PasswordProblem(old(currentPassword), old(newPassword), old(confirmPassword));
        problem.None? && !PasswordAccepted(old(auth.storage.users), auth.user, old(currentPassword)) ==>
          && notice == PasswordChangeFailed && auth.storage.users == old(auth.storage.users)
          && currentPassword == old(currentPassword) && newPassword == old(newPassword) && confirmPassword == old(confirmPassword)
    {
      var problem := PasswordProblem(currentPassword, newPassword, confirmPassword);
      if problem.Some? {
        return problem.value;
      }
      var success := auth.ChangePassword(currentPassword, newPassword);
      if success {
        notice := PasswordChanged;
        currentPassword := "";
        newPassword := "";
        confirmPassword := "";
      } else {
        notice := PasswordChangeFailed;
      }
    }

    /** The end of `handleImageUpload`, once the chosen file has been read as the data URL `image`. */
    method HandleImageLoaded(image: string) returns (notice: Notice)
      modifies this`profileImage, auth, auth.storage`users, auth.storage`session
      ensures auth.isLoading == old(auth.isLoading)
      ensures profileImage == image && notice == ImageUpdated
      ensures old(auth.user).None? ==>
        auth.user == old(auth.user) && auth.storage.users == old(auth.storage.users) && auth.storage.session == old(auth.storage.session)
      ensures old(auth.user).Some? ==>
        && auth.user == Some(old(auth.user).value.(profileImage := Some(image))) && auth.storage.session == auth.user
        && auth.storage.users == WithProfileUpdate(old(auth.storage.users), old(auth.user).value.id, ImagePatch(image))
    {
      profileImage := image;
      var _ := auth.UpdateProfile(ImagePatch(image));
      notice := ImageUpdated;
    }

    /** `handleDeleteAccount`: delete the signed-in account and its resumes; the dialog closes either way. */
    method HandleDeleteAccount() returns (notice: Notice)
      modifies this`showDeleteDialog, auth, auth.storage
      ensures auth.isLoading == old(auth.isLoading)
      ensures !showDeleteDialog
      ensures notice == if old(auth.user).Some? then AccountDeleted else DeleteFailed
      ensures old(auth.user).None? ==>
        && auth.user == old(auth.user) && auth.storage.users == old(auth.storage.users)
        && auth.storage.resumes == old(auth.storage.resumes) && auth.storage.session == old(auth.storage.session)
      ensures old(auth.user).Some? ==>
        && auth.storage.users == WithoutUser(old(auth.storage.users), old(auth.user).value.id)
        && auth.storage.resumes == WithoutResumesOf(old(auth.storage.resumes), old(auth.user).value.id)
        && auth.user == None && auth.storage.session == None
    {
      var success := auth.DeleteAccount();
      if success {
        notice := AccountDeleted;
      } else {
        notice := DeleteFailed;
      }
      showDeleteDialog := false;
    }
  }
}
