/** Sessions of the intake form, reasoned about from the component's contracts alone. */
module Scenarios {
  import opened Types
  import opened Validation
  import opened Derived
  import opened IntakeApp

  /** Three acceptable documents are chosen and submitted. A thrown upload keeps
      every file for the retry; a successful one ends on the success screen with
      an empty form whose three previews were never released. */
  method CompleteAndSubmit(front: File, back: File, residence: File, transportFails: bool)
    requires Validate(front).None? && Validate(back).None? && Validate(residence).None?
  {
    var app := new App();
    assert ProgressStep(app.status, app.state) == 0;
    app.HandleFileChange(Front, Some(front));
    app.HandleFileChange(Back, Some(back));
    assert ProgressStep(app.status, app.state) == 2;
    app.HandleFileChange(Residence, Some(residence));
    assert app.state.Get(Front).file == Some(front);
    assert app.live == {0, 1, 2} && app.released == [];
    assert IsComplete(app.state);
    ghost var before := app.state;
    app.HandleSubmit(transportFails);
    if transportFails {
      assert app.status == UploadingPhase && app.state == before;
    } else {
      assert app.status == Success && ProgressStep(app.status, app.state) == 4;
      assert !IsComplete(app.state) && Held(app.state) == {};
      assert app.live == {0, 1, 2};
      app.Reset();
      assert app.status == UploadingPhase && ProgressStep(app.status, app.state) == 0;
    }
  }

  /** A 15 MB JPEG chosen for the residence slot after a valid one: the slot
      shows the size message, the earlier file is gone, and its preview was
      released once and no new one was created. Submitting then does nothing. */
  method OversizedReplacement(front: File, back: File, good: File, name: string)
    requires Validate(front).None? && Validate(back).None? && Validate(good).None?
  {
    var app := new App();
    app.HandleFileChange(Front, Some(front));
    app.HandleFileChange(Back, Some(back));
    app.HandleFileChange(Residence, Some(good));
    assert app.state.Get(Residence).previewUrl == Some(2);
    FifteenMegabyteJpegRejected(name);
    app.HandleFileChange(Residence, Some(File(name, "image/jpeg", 15 * 1024 * 1024)));
    assert app.state.Get(Residence) == DocumentInfo(None, None, Some(SizeMessage));
    assert app.released == [2] && app.live == {0, 1} && app.nextHandle == 3;
    assert !IsComplete(app.state);
    app.HandleSubmit(false);
    assert app.status == UploadingPhase && app.statusTrace == [UploadingPhase];
  }

  /** Clearing a slot leaves its preview live with no slot holding it. */
  method ClearLeavesPreviewLive(front: File)
    requires Validate(front).None?
  {
    var app := new App();
    app.HandleFileChange(Front, Some(front));
    app.HandleFileChange(Front, None);
    assert app.state == EmptyState && app.released == [];
    assert 0 in app.live - Held(app.state);
  }
}
