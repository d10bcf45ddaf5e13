/** The intake component: the three document slots and the submission status it
    updates in place, with the browser's object-URL table reduced to a set of
    live preview handles and a generator of fresh handle ids. */
module IntakeApp {
  import opened Types
  import opened Validation
  import opened Derived
  import opened Status
  import opened Upload

  /** The handles the slots of a form hold. */
  function Held(s: VerificationState): (hs: set<Handle>)
    ensures forall k, h :: s.Get(k).previewUrl == Some(h) ==> h in hs
    ensures forall h :: h in hs ==> exists k :: s.Get(k).previewUrl == Some(h)
  {
    HandleSet(s.Get(Front).previewUrl) + HandleSet(s.Get(Back).previewUrl) + HandleSet(s.Get(Residence).previewUrl)
  }

  /** The record a non-empty selection installs: the file and its new preview
      when it passes validation, otherwise only the rejection message. */
  function Installed(f: File, preview: Handle): (info: DocumentInfo)
    ensures Consistent(info)
    ensures info.error == Validate(f)
    ensures info.file.Some? <==> Validate(f).None?
    ensures info.file.Some? ==> info == DocumentInfo(Some(f), Some(preview), None)
    ensures info.file.None? ==> info.previewUrl.None?
  {
    var error := Validate(f);
    DocumentInfo(if error.None? then Some(f) else None, if error.None? then Some(preview) else None, error)
  }

  /** No two slots hold the same preview handle. */
  predicate DistinctPreviews(s: VerificationState) {
    forall k1, k2 :: k1 != k2 && s.Get(k1).previewUrl.Some? ==> s.Get(k1).previewUrl != s.Get(k2).previewUrl
  }

  /** The bookkeeping of preview handles: every handle a slot holds is live and
      held by that slot alone, ids below `next` are the only ones ever handed
      out, and every released handle was released once and is no longer live. */
  predicate HandlesTracked(s: VerificationState, live: set<Handle>, next: Handle, released: seq<Handle>) {
    Held(s) <= live &&
    DistinctPreviews(s) &&
    (forall h :: h in live ==> h < next) &&
    (forall i :: 0 <= i < |released| ==> released[i] < next && released[i] !in live) &&
    (forall i, j :: 0 <= i < j < |released| ==> released[i] != released[j])
  }

  /** Emptying a slot and releasing its handle keeps the bookkeeping, and the
      handle joins the released ones for the first time. */
  lemma ReleaseSlot(s: VerificationState, key: DocumentKey, live: set<Handle>, next: Handle, released: seq<Handle>)
    requires HandlesTracked(s, live, next, released)
    ensures HandlesTracked(s.Set(key, EmptyInfo), live - HandleSet(s.Get(key).previewUrl), next,
                           released + HandleSeq(s.Get(key).previewUrl))
    ensures forall i :: 0 <= i < |released| ==> HandleSet(s.Get(key).previewUrl) !! {released[i]}
  {
    var s' := s.Set(key, EmptyInfo);
    var p := s.Get(key).previewUrl;
    var live' := live - HandleSet(p);
    var released' := released + HandleSeq(p);
    forall h | h in Held(s') ensures h in live' {
      var k :| s'.Get(k).previewUrl == Some(h);
      assert k != key;
    }
    forall i, j | 0 <= i < j < |released'| ensures released'[i] != released'[j] {
      if j == |released| {
        assert p.Some? && released'[j] == p.value;
        assert released'[i] == released[i] && released[i] !in live;
      }
    }
  }

  /** Emptying a slot without releasing its handle also keeps the bookkeeping;
      the handle stays live with no slot holding it. */
  lemma ForgetSlot(s: VerificationState, key: DocumentKey, live: set<Handle>, next: Handle, released: seq<Handle>)
    requires HandlesTracked(s, live, next, released)
    ensures HandlesTracked(s.Set(key, EmptyInfo), live, next, released)
    ensures s.Get(key).previewUrl.Some? ==> s.Get(key).previewUrl.value in live - Held(s.Set(key, EmptyInfo))
  {
    var s' := s.Set(key, EmptyInfo);
    forall h | h in Held(s') ensures h in live {
      var k :| s'.Get(k).previewUrl == Some(h);
      assert k != key;
    }
    if s.Get(key).previewUrl.Some? {
      var h := s.Get(key).previewUrl.value;
      forall k ensures s'.Get(k).previewUrl != Some(h) {
        if k != key {
          assert s'.Get(k) == s.Get(k);
        }
      }
    }
  }

  /** Installing a freshly created handle in an empty slot keeps the bookkeeping. */
  lemma InstallFresh(s: VerificationState, key: DocumentKey, f: File, live: set<Handle>, next: Handle, released: seq<Handle>)
    requires HandlesTracked(s, live, next, released) && s.Get(key).previewUrl.None?
    ensures next !in live
    ensures HandlesTracked(s.Set(key, DocumentInfo(Some(f), Some(next), None)), live + {next}, next + 1, released)
  {
    var s' := s.Set(key, DocumentInfo(Some(f), Some(next), None));
    forall h | h in Held(s') ensures h in live + {next} {
      var k :| s'.Get(k).previewUrl == Some(h);
      if k != key {
        assert h in Held(s);
      }
    }
    forall k1, k2 | k1 != k2 && s'.Get(k1).previewUrl.Some? ensures s'.Get(k1).previewUrl != s'.Get(k2).previewUrl {
      if k1 == key {
        assert s'.Get(k2) == s.Get(k2);
        if s.Get(k2).previewUrl.Some? {
          assert s.Get(k2).previewUrl.value in Held(s);
        }
      } else if k2 == key {
        assert s.Get(k1).previewUrl.value in Held(s);
      }
    }
  }

  /** A selection of `f` in slot `key`, on values: the previous handle is
      released, a handle `next` is created only for an accepted file, and the
      bookkeeping and the form's consistency are kept. */
  lemma SelectKeepsTracking(s: VerificationState, key: DocumentKey, f: File, live: set<Handle>, next: Handle, released: seq<Handle>)
    requires s.WellFormed() && HandlesTracked(s, live, next, released)
    ensures s.Set(key, Installed(f, next)).WellFormed()
    ensures Validate(f).Some? ==>
      HandlesTracked(s.Set(key, Installed(f, next)), live - HandleSet(s.Get(key).previewUrl), next,
                     released + HandleSeq(s.Get(key).previewUrl))
    ensures Validate(f).None? ==>
      next !in live &&
      HandlesTracked(s.Set(key, Installed(f, next)), live - HandleSet(s.Get(key).previewUrl) + {next}, next + 1,
                     released + HandleSeq(s.Get(key).previewUrl))
  {
    var p := s.Get(key).previewUrl;
    ReleaseSlot(s, key, live, next, released);
    SetTwice(s, key, EmptyInfo, Installed(f, next));
    SetConsistent(s, key, Installed(f, next));
    if Validate(f).None? {
      InstallFresh(s.Set(key, EmptyInfo), key, f, live - HandleSet(p), next, released + HandleSeq(p));
      assert live - HandleSet(p) + {next} == (live - HandleSet(p)) + {next};
    }
  }

  /** Replacing a slot's record twice is replacing it once. */
  lemma SetTwice(s: VerificationState, key: DocumentKey, a: DocumentInfo, b: DocumentInfo)
    ensures s.Set(key, a).Set(key, b) == s.Set(key, b)
  {
  }

  /** Replacing a slot with a consistent record keeps the form well formed. */
  lemma SetConsistent(s: VerificationState, key: DocumentKey, info: DocumentInfo)
    requires s.WellFormed() && Consistent(info)
    ensures s.Set(key, info).WellFormed()
  {
    forall k ensures Consistent(s.Set(key, info).Get(k)) {
      if k != key {
        assert s.Set(key, info).Get(k) == s.Get(k);
      }
    }
  }

  class App {
    var status: AppStatus
    var state: VerificationState
    /** The object URLs the browser currently holds. */
    var live: set<Handle>
    /** The id the next created object URL gets. */
    var nextHandle: Handle
    /** Every object URL released so far, in order. */
    ghost var released: seq<Handle>
    /** Every status the component has been in, in order. */
    ghost var statusTrace: seq<AppStatus>

    /** The component's invariant: consistent slots, slots holding distinct live
        handles, handle ids never reused, nothing released twice, and a status
        history made of permitted changes that ends in the current status. */
    ghost predicate Valid()
      reads this
    {
      state.WellFormed() &&
      HandlesTracked(state, live, nextHandle, released) &&
      statusTrace != [] && statusTrace[0] == UploadingPhase &&
      statusTrace[|statusTrace| - 1] == status && ValidTrace(statusTrace)
    }

    /** The component as first rendered: collecting, three empty slots, no previews. */
    constructor ()
      ensures Valid()
      ensures status == UploadingPhase && state == EmptyState
      ensures live == {} && nextHandle == 0 && released == [] && statusTrace == [UploadingPhase]
    {
      status := UploadingPhase;
      state := EmptyState;
      live := {};
      nextHandle := 0;
      released := [];
      statusTrace := [UploadingPhase];
    }

    /** `URL.createObjectURL`: a handle that was never live before. */
    method CreateObjectUrl() returns (h: Handle)
      requires forall g :: g in live ==> g < nextHandle
      modifies this`live, this`nextHandle
      ensures h == old(nextHandle) && h !in old(live)
      ensures live == old(live) + {h} && nextHandle == old(nextHandle) + 1
    {
      h := nextHandle;
      nextHandle := nextHandle + 1;
      live := live + {h};
    }

    /** `URL.revokeObjectURL`: the handle is no longer live, and the release is recorded. */
    method RevokeObjectUrl(h: Handle)
      modifies this`live, this`released
      ensures live == old(live) - {h} && released == old(released) + [h]
    {
      live := live - {h};
      released := released + [h];
    }

    /** `setStatus` with a permitted change; the change is recorded in the history. */
    method SetStatus(next: AppStatus)
      requires statusTrace != [] && statusTrace[|statusTrace| - 1] == status
      requires ValidTrace(statusTrace) && Step(status, next)
      modifies this`status, this`statusTrace
      ensures status == next && statusTrace == old(statusTrace) + [next]
      ensures ValidTrace(statusTrace)
    {
      ExtendTrace(statusTrace, next);
      status := next;
      statusTrace := statusTrace + [next];
    }

    /** A selection in slot `key`: no file empties the slot, a file is
        validated and installed. The other two slots are untouched either way. */
    method HandleFileChange(key: DocumentKey, file: Option<File>)
      requires Valid()
      modifies this
      ensures Valid()
      ensures status == old(status) && statusTrace == old(statusTrace)
      ensures forall k :: k != key ==> state.Get(k) == old(state).Get(k)
      ensures file.None? ==>
        state == old(state).Set(key, EmptyInfo) &&
        live == old(live) && released == old(released) && nextHandle == old(nextHandle)
      ensures file.None? && old(state).Get(key).previewUrl.Some? ==>
        old(state).Get(key).previewUrl.value in live - Held(state)
      ensures file.Some? ==>
        state == old(state).Set(key, Installed(file.value, old(nextHandle))) &&
        released == old(released) + HandleSeq(old(state).Get(key).previewUrl) &&
        live == old(live) - HandleSet(old(state).Get(key).previewUrl) + HandleSet(state.Get(key).previewUrl) &&
        nextHandle == old(nextHandle) + |HandleSeq(state.Get(key).previewUrl)|
    {
      if file.None? {
        ClearSlot(key);
      } else {
        SelectFile(key, file.value);
      }
    }

    /** No file selected: the slot is emptied, and its preview handle is dropped
        without being released (it stays live with no slot holding it). */
    method ClearSlot(key: DocumentKey)
      requires Valid()
      modifies this`state
      ensures Valid()
      ensures state == old(state).Set(key, EmptyInfo)
      ensures old(state).Get(key).previewUrl.Some? ==>
        old(state).Get(key).previewUrl.value in live - Held(state)
    {
      ForgetSlot(state, key, live, nextHandle, released);
      SetConsistent(state, key, EmptyInfo);
      state := state.Set(key, EmptyInfo);
    }

    /** A file selected: it is validated; an accepted one gets a fresh preview
        handle, a rejected one leaves only its message (dropping whatever file
        the slot held) and creates no handle. Either way the slot's previous
        handle is released, exactly once. */
    method SelectFile(key: DocumentKey, f: File)
      requires Valid()
      modifies this`state, this`live, this`nextHandle, this`released
      ensures Valid()
      ensures state == old(state).Set(key, Installed(f, old(nextHandle)))
      ensures released == old(released) + HandleSeq(old(state).Get(key).previewUrl)
      ensures forall i :: 0 <= i < |old(released)| ==> HandleSet(old(state).Get(key).previewUrl) !! {old(released)[i]}
      ensures Validate(f).Some? ==>
        live == old(live) - HandleSet(old(state).Get(key).previewUrl) &&
        nextHandle == old(nextHandle)
      ensures Validate(f).None? ==>
        old(nextHandle) !in old(live) &&
        live == old(live) - HandleSet(old(state).Get(key).previewUrl) + {old(nextHandle)} &&
        nextHandle == old(nextHandle) + 1
    {
      SelectKeepsTracking(state, key, f, live, nextHandle, released);
      ReleaseSlot(state, key, live, nextHandle, released);
      var error := Validate(f);
      var preview := nextHandle;
      if error.None? {
        preview := CreateObjectUrl();
      }
      var previous := state.Get(key).previewUrl;
      if previous.Some? {
        RevokeObjectUrl(previous.value);
      }
      state := state.Set(key, Installed(f, preview));
    }

    /** The submit button. An incomplete form is left as it is. Otherwise the
        status passes through submitting; a successful upload ends in success
        with all slots emptied (their previews stay live), a thrown one returns
        to collecting with every slot as it was. */
    method HandleSubmit(transportFails: bool)
      requires Valid() && status == UploadingPhase
      modifies this
      ensures Valid()
      ensures live == old(live) && released == old(released) && nextHandle == old(nextHandle)
      ensures !IsComplete(old(state)) ==>
        state == old(state) && status == old(status) && statusTrace == old(statusTrace)
      ensures IsComplete(old(state)) && !transportFails ==>
        status == Success && state == EmptyState &&
        statusTrace == old(statusTrace) + [Submitting, Success]
      ensures IsComplete(old(state)) && transportFails ==>
        status == UploadingPhase && state == old(state) &&
        statusTrace == old(statusTrace) + [Submitting, UploadingPhase]
    {
      if !IsComplete(state) {
        return;
      }
      SetStatus(Submitting);
      ConfiguredUrlPassesGuard();
      var outcome := UploadToGoogleDrive(GoogleScriptUrl, transportFails);
      if outcome == Sent {
        SetStatus(Success);
        state := EmptyState;
      } else {
        SetStatus(UploadingPhase);
      }
    }

    /** The `onReset` callback App gives the success screen: back to collecting,
        nothing else changes. The success screen never calls it. */
    method Reset()
      requires Valid() && status == Success
      modifies this
      ensures Valid()
      ensures status == UploadingPhase && statusTrace == old(statusTrace) + [UploadingPhase]
      ensures state == old(state) && live == old(live) && released == old(released)
      ensures nextHandle == old(nextHandle)
    {
      SetStatus(UploadingPhase);
    }
  }
}
