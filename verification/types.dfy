/** Basic vocabulary shared by every module of the notes backend model:
    identifiers, uploaded files, the outcome of a request validator, session
    tokens, and the foreign services the views call out to. */
module Types {

  /** The conventional Some/None datatype, used where the source has `None`. */
  datatype Option<+T> = None | Some(value: T)

  /** Primary keys are UUIDs; they are only ever compared and printed, so their
      canonical text is enough. */
  type UserId = string
  type NoteId = string

  /** A secure URL returned by the object-storage service. */
  type Url = string

  /** An uploaded multipart file as the views see it: only the declared content
      type and the size in bytes are ever inspected. */
  datatype UploadedFile = UploadedFile(name: string, contentType: string, size: nat)

  /** One entry of a validation error list: the field and the reason. */
  datatype Issue = Issue(field: string, msg: string)

  /** What constructing a request validator yields: the parsed request, a
      ValidationError carrying its issues, or some other exception escaping the
      validator (which no view catches). */
  datatype Validation<+T> = Valid(value: T) | Invalid(issues: seq<Issue>) | Raised

  /** A session token. HS256 signing is abstracted: a signed token records the
      user id it carries and the key it was signed with; anything else a client
      may send is `Malformed`. */
  datatype Token = Signed(claimId: UserId, key: string) | Malformed(text: string)

  /** The services the views call but whose code is not part of this model:
      object storage (`upload` returns the secure URL of a file), password
      hashing (`hash` salts and hashes, `checkpw` checks a password against a
      stored hash), the e-mail grammar of the validator, and the JWT signing
      secret read from the environment (absent when the variable is unset). */
  datatype Services = Services(
    upload: UploadedFile -> Url,
    hash: string -> string,
    checkpw: (string, string) -> bool,
    isEmail: string -> bool,
    secret: Option<string>)

  /** Password hashing is sound when a password always checks against its own hash. */
  ghost predicate SoundHashing(sv: Services) {
    forall p :: sv.checkpw(p, sv.hash(p))
  }

  /** The secure URLs of `files`, uploaded one after the other in order. */
  function UploadAll(upload: UploadedFile -> Url, files: seq<UploadedFile>): (urls: seq<Url>)
    ensures |urls| == |files|
    ensures forall i :: 0 <= i < |files| ==> urls[i] == upload(files[i])
  {
    if |files| == 0 then [] else [upload(files[0])] + UploadAll(upload, files[1..])
  }
}
