/** Values App derives from its state on every render: whether the form may be
    submitted, and which step the progress bar shows. */
module Derived {
  import opened Types

  /** The progress-bar step each slot stands for. */
  function Ordinal(key: DocumentKey): (n: nat)
    ensures 1 <= n <= 3
  {
    match key
    case Front => 1
    case Back => 2
    case Residence => 3
  }

  /** The form is complete when front, back and residence each hold a file. */
  function IsComplete(s: VerificationState): (b: bool)
    ensures b <==> forall k :: s.Get(k).file.Some?
  {
    s.Get(Front).file.Some? && s.Get(Back).file.Some? && s.Get(Residence).file.Some?
  }

  /** In a well-formed form, completeness is the same as every slot holding a
      file and no rejection message. */
  lemma CompleteMeansNoErrors(s: VerificationState)
    requires s.WellFormed()
    ensures IsComplete(s) <==> forall k :: s.Get(k).file.Some? && s.Get(k).error.None?
  {
    if IsComplete(s) {
      forall k ensures s.Get(k).error.None? {
        assert Consistent(s.Get(k));
      }
    }
  }

  /** The step shown: 4 once submission succeeded, otherwise the ordinal of the
      highest filled slot, or 0 when none is filled. */
  function ProgressStep(status: AppStatus, s: VerificationState): (step: nat)
    ensures step <= 4
    ensures step == 4 <==> status == Success
    ensures status != Success ==> forall k :: s.Get(k).file.Some? ==> Ordinal(k) <= step
    ensures status != Success && step != 0 ==> exists k :: s.Get(k).file.Some? && Ordinal(k) == step
    ensures status != Success ==> (step == 0 <==> forall k :: s.Get(k).file.None?)
  {
    if status == Success then 4
    else if s.Get(Residence).file.Some? then 3
    else if s.Get(Back).file.Some? then 2
    else if s.Get(Front).file.Some? then 1
    else 0
  }

  /** The step is the highest filled slot, not the number of filled slots: a
      form holding only the residence file already shows step 3. */
  lemma ProgressIsHighestNotCount(f: File)
    ensures ProgressStep(UploadingPhase, EmptyState.Set(Residence, DocumentInfo(Some(f), Some(0), None))) == 3
  {
  }

  /** A complete form that is still being collected shows step 3. */
  lemma CompleteShowsStepThree(status: AppStatus, s: VerificationState)
    requires status != Success && IsComplete(s)
    ensures ProgressStep(status, s) == 3
  {
    assert s.Get(Residence).file.Some?;
  }
}
