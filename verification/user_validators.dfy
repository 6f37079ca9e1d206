/** The registration validator: a name, an e-mail address, a JPEG or PNG
    profile picture of at most 5 MiB, and a password. */
module UserValidators {
  import opened Types
  import NoteValidators

  const PictureContentTypes: seq<string> := ["image/jpeg", "image/png"]
  const MaxPictureBytes := 5 * 1024 * 1024

  const PictureTypeMessage := "Only JPEG and PNG images are allowed."
  const PictureSizeMessage := "Image too large (max 5MB)."
  const NotAnEmailMessage := "value is not a valid email address"

  /** `validate_profile_picture`: the content type is checked before the size,
      and an accepted file comes back unchanged. */
  function ValidateProfilePicture(f: UploadedFile): (r: NoteValidators.Checked<UploadedFile>)
    ensures r.Pass? <==> f.contentType in PictureContentTypes && f.size <= MaxPictureBytes
    ensures r.Pass? ==> r.value == f
    ensures f.contentType !in PictureContentTypes ==> r == NoteValidators.Reject(PictureTypeMessage)
    ensures f.contentType in PictureContentTypes && f.size > MaxPictureBytes ==> r == NoteValidators.Reject(PictureSizeMessage)
  {
    if f.contentType !in PictureContentTypes then NoteValidators.Reject(PictureTypeMessage)
    else if f.size > MaxPictureBytes then NoteValidators.Reject(PictureSizeMessage)
    else NoteValidators.Pass(f)
  }

  /** The fields of a registration request as the validator returns them. */
  datatype UserFields = UserFields(name: string, email: string, picture: UploadedFile, password: string)

  function StringIssues(field: string, v: Option<string>): seq<Issue> {
    if v.None? then [Issue(field, NoteValidators.NotAStringMessage)] else []
  }

  function EmailIssues(email: Option<string>, isEmail: string -> bool): seq<Issue> {
    match email
    case None => [Issue("email", NoteValidators.NotAStringMessage)]
    case Some(e) => if isEmail(e) then [] else [Issue("email", NotAnEmailMessage)]
  }

  function PictureIssues(picture: UploadedFile): seq<Issue> {
    match ValidateProfilePicture(picture)
    case Pass(_) => []
    case Reject(m) => [Issue("profile_picture", m)]
  }

  /** `CreateUserValidator(**data)`. A missing profile picture reaches
      `validate_profile_picture` as None, whose `content_type` lookup raises
      AttributeError: that is not a ValueError, so it escapes the validator
      instead of becoming a validation issue. */
  function ValidateCreateUser(name: Option<string>, email: Option<string>, picture: Option<UploadedFile>,
                              password: Option<string>, isEmail: string -> bool): (r: Validation<UserFields>)
    ensures r.Raised? <==> picture.None?
    ensures r.Valid? <==> name.Some? && email.Some? && isEmail(email.value) && picture.Some? &&
                          ValidateProfilePicture(picture.value).Pass? && password.Some?
    ensures r.Valid? ==> r.value == UserFields(name.value, email.value, picture.value, password.value)
    ensures picture.Some? && picture.value.contentType !in PictureContentTypes ==>
              r.Invalid? && Issue("profile_picture", PictureTypeMessage) in r.issues
  {
    match picture
    case None => Raised
    case Some(p) =>
      var issues := StringIssues("name", name) + EmailIssues(email, isEmail) + PictureIssues(p) + StringIssues("password", password);
      if issues == [] then Valid(UserFields(name.value, email.value, p, password.value)) else Invalid(issues)
  }

  /** The size ceiling is inclusive for both picture types: 5,242,880 bytes
      pass, one more byte does not. */
  lemma PictureSizeBoundary(name: string)
    ensures ValidateProfilePicture(UploadedFile(name, "image/png", 5242880)).Pass?
    ensures ValidateProfilePicture(UploadedFile(name, "image/png", 5242881)) == NoteValidators.Reject(PictureSizeMessage)
    ensures ValidateProfilePicture(UploadedFile(name, "image/jpeg", 5242880)).Pass?
    ensures ValidateProfilePicture(UploadedFile(name, "image/jpeg", 5242881)) == NoteValidators.Reject(PictureSizeMessage)
  {
  }

  /** Every acceptable profile picture would also be an acceptable note
      attachment: the picture rules are strictly tighter. */
  lemma PictureRulesTighterThanAttachments(f: UploadedFile)
    requires ValidateProfilePicture(f).Pass?
    ensures NoteValidators.FileError(f).None?
  {
  }
}
