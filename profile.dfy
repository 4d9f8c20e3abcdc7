/** The profile page (src/pages/Profile.tsx): a name form and a password form, each
    with its own busy flag and button guard. */
module Profile {
  import opened Common

  datatype User = User(name: String, email: String)

  /** How `handleChangePassword` ends. */
  datatype PasswordChange = Mismatch | Changed | ChangeFailed

  class ProfilePage {
    var isUpdating: bool
    var isChangingPassword: bool
    var user: User
    /** Draft fields of the two forms. */
    var name: String
    var currentPassword: String
    var newPassword: String
    var confirmPassword: String

    /** The sample user the page starts with; the name draft starts as the user's name. */
    constructor ()
      ensures user == User("John Doe", "john.doe@example.com") && name == user.name
      ensures currentPassword == [] && newPassword == [] && confirmPassword == []
      ensures !isUpdating && !isChangingPassword
      ensures !UpdateEnabled() && !ChangePasswordEnabled()
    {
      user := User("John Doe", "john.doe@example.com");
      name := "John Doe";
      currentPassword, newPassword, confirmPassword := [], [], [];
      isUpdating, isChangingPassword := false, false;
    }

    /** The update button: `disabled={isUpdating || name === user.name}`. */
    function UpdateEnabled(): (r: bool)
      reads this
      ensures r ==> name != user.name
    {
      !isUpdating && name != user.name
    }

    /** The change-password button: disabled while busy or while any of the three
        fields is empty. */
    function ChangePasswordEnabled(): (r: bool)
      reads this
      ensures r ==> currentPassword != [] && newPassword != [] && confirmPassword != []
    {
      !isChangingPassword && currentPassword != [] && newPassword != [] && confirmPassword != []
    }

    method EditName(n: String)
      modifies this
      ensures name == n
      ensures user == old(user) && isUpdating == old(isUpdating) && isChangingPassword == old(isChangingPassword)
      ensures currentPassword == old(currentPassword) && newPassword == old(newPassword)
      ensures confirmPassword == old(confirmPassword)
    {
      name := n;
    }

    /** Typing into the current-password input. */
    method EditCurrentPassword(p: String)
      modifies this
      ensures currentPassword == p
      ensures newPassword == old(newPassword) && confirmPassword == old(confirmPassword)
      ensures user == old(user) && name == old(name)
      ensures isUpdating == old(isUpdating) && isChangingPassword == old(isChangingPassword)
    {
      currentPassword := p;
    }

    /** Typing into the new-password input. */
    method EditNewPassword(p: String)
      modifies this
      ensures newPassword == p
      ensures currentPassword == old(currentPassword) && confirmPassword == old(confirmPassword)
      ensures user == old(user) && name == old(name)
      ensures isUpdating == old(isUpdating) && isChangingPassword == old(isChangingPassword)
    {
      newPassword := p;
    }

    /** Typing into the confirmation input. */
    method EditConfirmPassword(p: String)
      modifies this
      ensures confirmPassword == p
      ensures currentPassword == old(currentPassword) && newPassword == old(newPassword)
      ensures user == old(user) && name == old(name)
      ensures isUpdating == old(isUpdating) && isChangingPassword == old(isChangingPassword)
    {
      confirmPassword := p;
    }

    /** `handleUpdateProfile`. On success the user's name becomes the draft name and
        the update button is disabled again; the email never changes. On either
        outcome the page is no longer updating. */
    method HandleUpdateProfile(outcome: Outcome)
      modifies this
      ensures !isUpdating
      ensures user.email == old(user.email)
      ensures user.name == (if outcome == Success then old(name) else old(user.name))
      ensures outcome == Success ==> !UpdateEnabled()
      ensures name == old(name) && isChangingPassword == old(isChangingPassword)
      ensures currentPassword == old(currentPassword) && newPassword == old(newPassword)
      ensures confirmPassword == old(confirmPassword)
    {
      isUpdating := true;
      if outcome == Success {
        user := user.(name := name);
      }
      isUpdating := false;
    }

    /** `handleChangePassword`. When the new password and its confirmation differ,
        nothing changes (the busy flag is not even set). Otherwise, on success the
        three password fields are cleared, which disables the button again; on
        failure they are kept. Either way the page is no longer changing the
        password. */
    method HandleChangePassword(outcome: Outcome) returns (result: PasswordChange)
      modifies this
      ensures old(newPassword) != old(confirmPassword) ==>
        result == Mismatch && isChangingPassword == old(isChangingPassword) &&
        currentPassword == old(currentPassword) && newPassword == old(newPassword) &&
        confirmPassword == old(confirmPassword)
      ensures old(newPassword) == old(confirmPassword) ==>
        !isChangingPassword && result == (if outcome == Success then Changed else ChangeFailed)
      ensures result == Changed ==>
        currentPassword == [] && newPassword == [] && confirmPassword == [] && !ChangePasswordEnabled()
      ensures result == ChangeFailed ==>
        currentPassword == old(currentPassword) && newPassword == old(newPassword) &&
        confirmPassword == old(confirmPassword)
      ensures user == old(user) && name == old(name) && isUpdating == old(isUpdating)
    {
      if newPassword != confirmPassword {
        return Mismatch;
      }
      isChangingPassword := true;
      if outcome == Success {
        currentPassword, newPassword, confirmPassword := [], [], [];
        result := Changed;
      } else {
        result := ChangeFailed;
      }
      isChangingPassword := false;
    }
  }
}
