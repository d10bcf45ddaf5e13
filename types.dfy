/** The shapes of the intake form: the document slots App keeps, the record held
    per slot, the whole form and the submission status. */
module Types {

  datatype Option<T> = None | Some(value: T)

  /** The slots App initialises and checks; the declared selfie slot is never
      used by App and is not part of this model. */
  datatype DocumentKey = Front | Back | Residence

  /** A preview handle (an object URL), identified by the id the browser gave it. */
  type Handle = nat

  /** A selected file: its name, its declared MIME type and its size in bytes. */
  datatype File = File(name: string, mimeType: string, size: nat)

  /** What one slot holds: the accepted file, its preview handle, the rejection message. */
  datatype DocumentInfo = DocumentInfo(file: Option<File>, previewUrl: Option<Handle>, error: Option<string>)

  const EmptyInfo: DocumentInfo := DocumentInfo(None, None, None)

  /** A slot record is consistent when a rejection message leaves no file behind
      and a file is held exactly when a preview handle is. */
  predicate Consistent(info: DocumentInfo) {
    (info.error.Some? ==> info.file.None?) &&
    (info.file.Some? <==> info.previewUrl.Some?)
  }

  datatype VerificationState = VerificationState(front: DocumentInfo, back: DocumentInfo, residence: DocumentInfo)
  {
    function Get(key: DocumentKey): DocumentInfo {
      match key
      case Front => front
      case Back => back
      case Residence => residence
    }

    /** The form with one slot replaced, as `{ ...prev, [key]: info }` builds it. */
    function Set(key: DocumentKey, info: DocumentInfo): (s: VerificationState)
      ensures s.Get(key) == info
      ensures forall k :: k != key ==> s.Get(k) == Get(k)
    {
      match key
      case Front => this.(front := info)
      case Back => this.(back := info)
      case Residence => this.(residence := info)
    }

    predicate WellFormed() {
      forall k :: Consistent(Get(k))
    }
  }

  const EmptyState: VerificationState := VerificationState(EmptyInfo, EmptyInfo, EmptyInfo)

  datatype AppStatus = UploadingPhase | Submitting | Success

  /** The handle an optional preview holds, as a set and as a sequence of releases. */
  function HandleSet(p: Option<Handle>): set<Handle> {
    if p.Some? then {p.value} else {}
  }

  function HandleSeq(p: Option<Handle>): seq<Handle> {
    if p.Some? then [p.value] else []
  }
}
