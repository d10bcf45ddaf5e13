# Document intake of the KYC form, modelled in Dafny

The application is a client-side identity-verification form. The user supplies
three document images: the front of the identity document, its back, and a
proof of residence. Each selection is validated locally against a MIME
allow-list (`image/jpeg`, `image/jpg`, `image/png`) and a size ceiling of
10·1024·1024 bytes. An accepted file gets a preview (an object URL). Once all
three slots hold a file, the form may be submitted to a Google Apps Script
endpoint. Submission moves the status through `UPLOADING_PHASE → SUBMITTING →
SUCCESS`, or back to `UPLOADING_PHASE` when the upload throws. App hands the
success screen an `onReset` callback that would return to `UPLOADING_PHASE`,
but the screen never calls it: its only button leaves the page, so SUCCESS is
final in the program as shipped.

This project models that state machine and proves what it does.

- `types.dfy` (module `Types`): the slot keys, the per-slot record
  (`file`, `previewUrl`, `error`), the three-slot form with `Get`/`Set`,
  and `AppStatus`. A preview URL is an abstract handle id.
- `validation.dfy` (module `Validation`): the validation decision. The type
  check comes first, then the strict size check. The two messages are the
  ones App shows.
- `derived.dfy` (module `Derived`): the memoised values App derives on
  render. These are `isComplete` and `currentProgressStep`.
- `status.dfy` (module `Status`): the permitted status changes, and lemmas
  about any history made of them.
- `upload.dfy` (module `Upload`): the endpoint-URL guard of
  `uploadToGoogleDrive` (JavaScript's `includes` written out), and the upload
  reduced to "threw or not".
- `app.dfy` (module `IntakeApp`): class `App`. Its fields are the form, the
  status, the set of live object URLs and the next fresh handle id. Two ghost
  fields record every release and every status set. `Valid()` holds the
  handle bookkeeping and the status history. The handlers are methods proved
  against that invariant and against the value-level lemmas beside the class.
- `scenarios.dfy` (module `Scenarios`): client sessions reasoned about from
  the contracts alone.

The code is followed where it departs from the expectation that a rejected file leaves the slot alone and that previews are released whenever a slot is emptied or the form is reset:

- A rejected file clears a file the slot had accepted before (App.tsx:46).
- Choosing no file empties the slot without releasing its preview. The handle
  stays live with no slot holding it (App.tsx:22-27, `ForgetSlot`,
  `App.ClearSlot`).
- A successful submission empties the form without releasing the three
  previews (App.tsx:115-119, `App.HandleSubmit`: `live` is unchanged).
- The progress step is the highest filled slot, not the number of filled
  slots (App.tsx:129-131, `ProgressIsHighestNotCount`).
- The endpoint URL is compiled in (App.tsx:11), not passed in as
  configuration.

## Model

| member | source | states |
|---|---|---|
| `Types.VerificationState.Set` | App.tsx:42-47 | the spread update replaces slot `key` with the new record and leaves the other two slots unchanged |
| `Types.VerificationState.Get` | App.tsx:43 | `prev[key]`: the record held in slot `key` |
| `Validation.Validate` | App.tsx:30-38 | a file is accepted iff its type is one of the three allowed types and its size is at most 10·1024·1024; the format message is given exactly when the type is not allowed; otherwise a rejection carries the size message |
| `Validation.TypeCheckFirst` | App.tsx:34-38 | a file of a refused type gets the format message even when it is also oversized |
| `Validation.SizeLimitIsStrict` | App.tsx:31-38 | an allowed-type file of exactly 10·1024·1024 bytes is accepted; one byte more is rejected with the size message |
| `Validation.FifteenMegabyteJpegRejected` | App.tsx:36-37 | a 15 MB JPEG is rejected with the size message |
| `Validation.AllowListIsExact` | App.tsx:30-35 | the allow-list is matched exactly: `image/JPEG`, `image/gif` and the empty type are refused with the format message |
| `Derived.IsComplete` | App.tsx:51-53 | the form is complete iff every one of the three slots holds a file |
| `Derived.CompleteMeansNoErrors` | App.tsx:51-53 | in a well-formed form, complete iff every slot holds a file and no rejection message |
| `Derived.ProgressStep` | App.tsx:127-133 | the step is at most 4; it is 4 iff the status is SUCCESS; otherwise it is at least the ordinal of every filled slot, equals the ordinal of some filled slot when non-zero, and is 0 iff no slot is filled |
| `Derived.ProgressIsHighestNotCount` | App.tsx:129-131 | a form holding only the residence file shows step 3 |
| `Derived.CompleteShowsStepThree` | App.tsx:129 | a complete form that has not yet succeeded shows step 3 |
| `Status.Step` | App.tsx:104-136 | the four status changes App makes (the fourth only through the never-invoked `onReset`); none stays in place, and SUCCESS is reached only from SUBMITTING |
| `Status.ExtendTrace` | App.tsx:104-123 | appending a permitted status change to a valid history keeps it valid |
| `Status.StepAt` | types.ts:19-23 | every neighbouring pair of a valid status history is one of the four permitted changes |
| `Status.SuccessFollowsSubmitting` | App.tsx:104-112 | in any valid history SUCCESS is entered only from SUBMITTING, and SUBMITTING only from UPLOADING_PHASE |
| `Status.SubmittingIsTransient` | App.tsx:106-124 | SUBMITTING is always followed by SUCCESS or UPLOADING_PHASE |
| `Upload.Includes` | App.tsx:67 | JavaScript's `includes`: the pattern occurs in the text; a text shorter than the pattern never includes it |
| `Upload.IncludedAt` | App.tsx:67 | whenever `includes` holds, the pattern occurs at some index of the text; with `IncludesAt` this makes `Includes` exactly substring occurrence |
| `Upload.UrlConfigured` | App.tsx:67-69 | the guard passes iff the URL is non-empty and does not contain `TU_URL` |
| `Upload.UploadToGoogleDrive` | App.tsx:64-100 | the upload completes iff the URL passes the guard and the transfer does not throw; it throws the missing-URL error iff the guard fails |
| `Upload.ConfiguredUrlPassesGuard` | App.tsx:11-11 | the compiled-in URL passes the guard, so the outcome depends only on the transfer |
| `Upload.PlaceholderUrlThrows` | App.tsx:67-69 | any URL containing `TU_URL` throws the missing-URL error whatever the transfer does |
| `Upload.NotIncludedWithoutHead` | App.tsx:67 | a text lacking the first character of the placeholder does not include it |
| `Upload.IncludesAt` | App.tsx:67 | every occurrence of the placeholder makes `includes` true |
| `IntakeApp.Installed` | App.tsx:33-46 | the record a selection installs is consistent, carries the validator's message, holds the file iff it was accepted (then with its preview and no error), and holds no preview when rejected |
| `IntakeApp.ReleaseSlot` | App.tsx:42-47 | emptying a slot and releasing its handle keeps every held handle live and distinct, and the handle is released for the first time |
| `IntakeApp.ForgetSlot` | App.tsx:22-27 | emptying a slot without a release keeps the bookkeeping, and its old handle stays live with no slot holding it |
| `IntakeApp.InstallFresh` | App.tsx:40-46 | a freshly created handle was not live, and installing it in an empty slot keeps every held handle live and distinct |
| `IntakeApp.SelectKeepsTracking` | App.tsx:30-48 | a selection keeps the form consistent; the previous handle is released, and a fresh handle is created and made live only for an accepted file; all held handles stay live and distinct, and no handle is released twice |
| `IntakeApp.App.constructor` | App.tsx:14-19 | the component starts in UPLOADING_PHASE with three empty slots and no live previews |
| `IntakeApp.App.CreateObjectUrl` | App.tsx:40 | a created preview handle was never live before and is live afterwards |
| `IntakeApp.App.RevokeObjectUrl` | App.tsx:43 | a released handle is no longer live and its release is recorded |
| `IntakeApp.App.SetStatus` | App.tsx:104-123 | the status takes the new value, and the history stays a sequence of permitted changes |
| `IntakeApp.App.HandleFileChange` | App.tsx:21-49 | the other two slots and the status never change. With no file, the slot is emptied and nothing is created or released. With a file, the slot gets the validator's record, the old handle is released once, and a new handle is created only when the file is accepted |
| `IntakeApp.App.ClearSlot` | App.tsx:22-27 | the slot becomes empty and its old preview is left live with no slot holding it |
| `IntakeApp.App.SelectFile` | App.tsx:30-48 | the slot holds the accepted file with a fresh handle and no error, or no file, no preview and the message; the previous handle is released exactly once and never before; no handle is created for a rejected file |
| `IntakeApp.App.HandleSubmit` | App.tsx:102-125 | an incomplete form changes nothing. A successful upload goes through SUBMITTING to SUCCESS and empties all slots without releasing previews. A thrown upload goes through SUBMITTING back to UPLOADING_PHASE with every slot as it was |
| `IntakeApp.App.Reset` | App.tsx:136 | the `onReset` callback (never invoked by the success screen) returns the status to UPLOADING_PHASE and changes nothing else |

## Left out

- The camera capture surface (components/CameraOverlay.tsx) is not part of this model. It is device I/O: `getUserMedia`, canvas drawing, `toBlob`, and a filename built from the clock.
- The QR modal (components/QRModal.tsx) is not part of this model. It wraps an external QR library, the clipboard and timers.
- The service worker (sw.js) is not part of this model. It is cache and network plumbing.
- The presentation components (KycCard, SuccessView with its redirect, ProgressBar, Header, PrivacyNotice) are not part of this model: they only render.
- Reading files into base64 (`fileToBase64`) is not modelled. Nor are the `fetch` POST, the payload with its user agent and timestamp, the 3-second delay, `alert` and console logging. A parameter says whether any of them threw.
- The `selfie` slot declared in types.ts is not modelled: App never initialises it, and `isComplete` ignores it.
- `App.HandleSubmit` runs the awaited upload as one step, so a selection made during the await is not modelled. While submitting, the cards are blocked only for the pointer (CSS `pointer-events-none`), and their picker button has no `disabled` attribute. A keyboard selection during the await is therefore possible. It would change a slot that a thrown upload is said to leave as it was, and a successful upload would then orphan the new preview.
- `App.HandleSubmit` requires UPLOADING_PHASE. The submit button is rendered only while collecting or submitting, and it is disabled while submitting (App.tsx:170-172); the success screen replaces it.
- `App.Reset` models the `onReset` callback (App.tsx:136) and requires SUCCESS, the only status in which App hands it out. SuccessView (components/SuccessView.tsx:8-12, 31) never calls it: its button redirects the browser instead. The change from SUCCESS back to UPLOADING_PHASE is therefore never taken in the program as shipped, and the redirect is not modelled.
- React's batching and deferred state updaters are not modelled. The updater passed to `setState` runs once, in order. A development-mode double invocation would release a preview twice; this model does not capture that.
- File contents are not modelled. A file is its name, its declared MIME type and its size.
