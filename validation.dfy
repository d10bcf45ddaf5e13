/** The per-file validation decision of the intake form: a MIME allow-list
    checked first, then a strict size ceiling. */
module Validation {
  import opened Types

  const AllowedTypes: seq<string> := ["image/jpeg", "image/jpg", "image/png"]

  /** Ten mebibytes; a file of exactly this size is still accepted. */
  const MaxSize: nat := 10 * 1024 * 1024

  const FormatMessage: string := "Formato no permitido. Use JPG o PNG."
  const SizeMessage: string := "El archivo supera el límite de 10 MB."

  /** The rejection message for a file, or None when the file is accepted. */
  function Validate(f: File): (error: Option<string>)
    ensures error.None? <==> f.mimeType in AllowedTypes && f.size <= MaxSize
    ensures error.Some? ==> error.value == FormatMessage || error.value == SizeMessage
    ensures error == Some(FormatMessage) <==> f.mimeType !in AllowedTypes
  {
    if f.mimeType !in AllowedTypes then Some(FormatMessage)
    else if f.size > MaxSize then Some(SizeMessage)
    else None
  }

  /** The type check wins: a file of a type outside the allow-list gets the
      format message whatever its size. */
  lemma TypeCheckFirst(f: File)
    requires f.mimeType !in AllowedTypes
    requires f.size > MaxSize
    ensures Validate(f) == Some(FormatMessage)
  {
  }

  /** The size ceiling is strict: exactly MaxSize bytes pass, one more byte is rejected
      with the size message. */
  lemma SizeLimitIsStrict(name: string, mimeType: string)
    requires mimeType in AllowedTypes
    ensures Validate(File(name, mimeType, MaxSize)) == None
    ensures Validate(File(name, mimeType, MaxSize + 1)) == Some(SizeMessage)
  {
  }

  /** A 15 MB JPEG is rejected with the size message. */
  lemma FifteenMegabyteJpegRejected(name: string)
    ensures Validate(File(name, "image/jpeg", 15 * 1024 * 1024)) == Some(SizeMessage)
  {
  }

  /** The allow-list is matched exactly: other spellings and other image types are refused. */
  lemma AllowListIsExact(name: string, size: nat)
    ensures Validate(File(name, "image/JPEG", size)) == Some(FormatMessage)
    ensures Validate(File(name, "image/gif", size)) == Some(FormatMessage)
    ensures Validate(File(name, "", size)) == Some(FormatMessage)
  {
  }
}
