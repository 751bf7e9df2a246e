/**
 * The profile page: the signed-in user's own copy of the profile, kept in
 * step with the shared user context; a new avatar chosen from a PNG or JPEG
 * file waits as a preview until it is saved or cancelled; a successful edit
 * replaces the profile.
 */
module ProfilePage {
  import opened Wrappers
  import opened UserEditForm
  import RankingTable

  const AcceptedTypes := ["image/png", "image/jpeg", "image/jpg"]
  const InvalidFileMessage := "Por favor, selecciona una imagen en formato PNG, JPG o JPEG."

  /** A chosen file: its MIME type and the data URL the reader produces for it. */
  datatype ChosenFile = ChosenFile(mimeType: string, dataUrl: string)

  /** The category shown: a profile without a birth date counts as age 0. */
  function ProfileCategory(dateOfBirth: Option<Day>, today: Day): (c: string)
    ensures c in RankingTable.CategoryLabels
    ensures dateOfBirth.None? ==> c == "Hasta 5 años (mixto)"
    ensures dateOfBirth.Some? ==> c == CategoryFor(dateOfBirth.value, today)
  {
    RankingTable.GetCategory(GetAge(dateOfBirth, today))
  }

  /** The picture shown: the pending avatar when there is one, else the stored photo. */
  function AvatarSrc(newAvatar: Option<string>, profile: User): (src: Option<string>)
    ensures Truthy(newAvatar) ==> src == newAvatar
    ensures !Truthy(newAvatar) ==> src == profile.photoURL
  {
    if Truthy(newAvatar) then newAvatar else profile.photoURL
  }

  /** Saving a pending avatar changes what is stored, not what is shown. */
  lemma SaveKeepsPicture(profile: User, avatar: string)
    requires avatar != ""
    ensures AvatarSrc(None, profile.(photoURL := Some(avatar))) == AvatarSrc(Some(avatar), profile)
  {
  }

  /** Cancelling a pending avatar shows the stored photo again. */
  lemma CancelShowsStored(profile: User, pending: Option<string>)
    ensures AvatarSrc(None, profile) == profile.photoURL
    ensures Truthy(pending) ==> AvatarSrc(pending, profile) == pending
  {
  }

  class Page {
    var userProfile: Option<User>
    /** The shared user context (`useUser`). */
    var contextUser: Option<User>
    var newAvatar: Option<string>
    var editDialogOpen: bool
    var changePasswordDialogOpen: bool

    constructor (user: Option<User>)
      ensures userProfile == user && contextUser == user && newAvatar.None?
      ensures !editDialogOpen && !changePasswordDialogOpen
    {
      userProfile := user;
      contextUser := user;
      newAvatar := None;
      editDialogOpen := false;
      changePasswordDialogOpen := false;
    }

    /** The page shows its content only once a profile is loaded. */
    predicate Loaded()
      reads this
    {
      userProfile.Some?
    }

    /** The effect on `user`: the page's copy follows the context. */
    method SyncFromContext()
      modifies this`userProfile
      ensures userProfile == contextUser
    {
      userProfile := contextUser;
    }

    /**
     * `handleFileChange`: a file of another type is refused with a message
     * and changes nothing; an accepted one becomes the pending avatar. No
     * file, nothing happens.
     */
    method HandleFileChange(file: Option<ChosenFile>) returns (toast: Option<string>)
      modifies this`newAvatar
      ensures file.None? ==> toast.None? && newAvatar == old(newAvatar)
      ensures file.Some? && file.value.mimeType !in AcceptedTypes ==> toast == Some(InvalidFileMessage) && newAvatar == old(newAvatar)
      ensures file.Some? && file.value.mimeType in AcceptedTypes ==> toast.None? && newAvatar == Some(file.value.dataUrl)
    {
      toast := None;
      if file.Some? {
        if file.value.mimeType !in AcceptedTypes {
          toast := Some(InvalidFileMessage);
          return;
        }
        newAvatar := Some(file.value.dataUrl);
      }
    }

    /**
     * `handleSaveAvatar`: with a pending avatar, both the page's profile and
     * the context get it as their photo and the pending avatar is cleared;
     * without one, nothing changes.
     */
    method HandleSaveAvatar()
      requires Loaded()
      modifies this`userProfile, this`contextUser, this`newAvatar
      ensures !Truthy(old(newAvatar)) ==> userProfile == old(userProfile) && contextUser == old(contextUser) && newAvatar == old(newAvatar)
      ensures Truthy(old(newAvatar)) ==>
        userProfile == Some(old(userProfile).value.(photoURL := old(newAvatar))) && contextUser == userProfile && newAvatar.None?
    {
      if Truthy(newAvatar) {
        var updated := userProfile.value.(photoURL := newAvatar);
        userProfile := Some(updated);
        contextUser := Some(updated);
        newAvatar := None;
      }
    }

    /** `handleCancelAvatarChange` */
    method HandleCancelAvatarChange()
      modifies this`newAvatar
      ensures newAvatar.None?
    {
      newAvatar := None;
    }

    /** `handleEditSuccess`: the edited profile replaces the page's and the context's, and the dialog closes. */
    method HandleEditSuccess(updated: User)
      modifies this`userProfile, this`contextUser, this`editDialogOpen
      ensures userProfile == Some(updated) && contextUser == Some(updated) && !editDialogOpen
    {
      userProfile := Some(updated);
      contextUser := Some(updated);
      editDialogOpen := false;
    }
  }

  /** Choosing an accepted file and saving it stores exactly that picture, in the page and the context. */
  method ChooseAndSave(page: Page, file: ChosenFile)
    requires page.Loaded() && file.mimeType in AcceptedTypes && file.dataUrl != ""
    modifies page
    ensures page.userProfile.Some? && page.userProfile.value.photoURL == Some(file.dataUrl)
    ensures page.contextUser == page.userProfile && page.newAvatar.None?
    ensures page.userProfile.value.(photoURL := old(page.userProfile.value.photoURL)) == old(page.userProfile.value)
  {
    var toast := page.HandleFileChange(Some(file));
    page.HandleSaveAvatar();
  }
}
