/** The submission status machine: which status changes App makes, and what
    every sequence of status changes it can produce looks like. */
module Status {
  import opened Types

  /** The status changes App makes: submit starts (uploading to submitting), the
      upload resolves (submitting to success) or throws (submitting back to
      uploading). The fourth, success back to uploading, is the `onReset`
      callback App hands to the success screen; that screen never invokes it,
      so in the program as shipped SUCCESS is final. No change stays in place,
      and success is reached only from submitting. */
  predicate Step(from: AppStatus, to: AppStatus): (b: bool)
    ensures b ==> from != to
    ensures b && to == Success ==> from == Submitting
  {
    match (from, to)
    case (UploadingPhase, Submitting) => true
    case (Submitting, Success) => true
    case (Submitting, UploadingPhase) => true
    case (Success, UploadingPhase) => true
    case _ => false
  }

  /** Every neighbouring pair of statuses in the trace is a permitted change. */
  predicate ValidTrace(t: seq<AppStatus>) {
    |t| < 2 || (Step(t[0], t[1]) && ValidTrace(t[1..]))
  }

  /** Appending a permitted change to a valid trace keeps it valid. */
  lemma {:induction false} ExtendTrace(t: seq<AppStatus>, next: AppStatus)
    requires ValidTrace(t) && t != [] && Step(t[|t| - 1], next)
    ensures ValidTrace(t + [next])
  {
    if |t| >= 2 {
      assert (t + [next])[1..] == t[1..] + [next];
      ExtendTrace(t[1..], next);
    }
  }

  /** In a valid trace every neighbouring pair is a permitted change. */
  lemma {:induction false} StepAt(t: seq<AppStatus>, i: nat)
    requires ValidTrace(t) && i + 1 < |t|
    ensures Step(t[i], t[i + 1])
  {
    if i > 0 {
      StepAt(t[1..], i - 1);
    }
  }

  /** Success is entered only from submitting, and submitting only from the
      collecting phase: no status change skips the upload. */
  lemma SuccessFollowsSubmitting(t: seq<AppStatus>, i: nat)
    requires ValidTrace(t) && 0 < i < |t|
    ensures t[i] == Success ==> t[i - 1] == Submitting
    ensures t[i] == Submitting ==> t[i - 1] == UploadingPhase
  {
    StepAt(t, i - 1);
  }

  /** Submitting is always left: it never changes into itself. */
  lemma SubmittingIsTransient(t: seq<AppStatus>, i: nat)
    requires ValidTrace(t) && i + 1 < |t| && t[i] == Submitting
    ensures t[i + 1] == Success || t[i + 1] == UploadingPhase
  {
    StepAt(t, i);
  }
}
