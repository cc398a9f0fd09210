/** components/StepOne.tsx: choosing the person photo. The component only
    reports choices to its parent through `onSelect`; it never changes the
    step by itself. */
module StepOne {
  import opened Js
  import opened JsString
  import opened Types

  const UploadIdPrefix: string := "upload-"

  /** The file input's change handler: with a file whose reader result is
      truthy, one `onSelect` with a fresh upload asset; otherwise nothing.
      `now` is the `Date.now()` reading that names the upload. */
  function HandleFileUpload(upload: Upload, now: nat): (calls: seq<Callback>)
    ensures calls == [] <==> !(upload.Loaded? && Truthy(upload.result))
    ensures calls != [] ==>
              && |calls| == 1 && calls[0].OnSelect?
              && calls[0].asset.url == upload.result.value
              && UploadIdPrefix <= calls[0].asset.id
              && calls[0].asset.id[|UploadIdPrefix|..] == Decimal(now)
              && calls[0].asset.isGenerated.None?
  {
    match upload
    case NoFile => []
    case Loaded(result) =>
      if Truthy(result) then
        [OnSelect(ImageAsset(UploadIdPrefix + Decimal(now), result.value, None))]
      else []
  }

  /** Clicking the preset at `index`. */
  function ClickPreset(presets: seq<ImageAsset>, index: nat): (calls: seq<Callback>)
    requires index < |presets|
    ensures calls == [OnSelect(presets[index])]
  {
    [OnSelect(presets[index])]
  }

  /** The Next button is enabled when the selected person's id is truthy. */
  predicate NextEnabled(selectedPersonId: Option<string>) {
    Truthy(selectedPersonId)
  }

  /** No handler of this step advances the wizard: they only ever produce
      `onSelect` calls. */
  lemma HandlersOnlySelect(upload: Upload, now: nat, presets: seq<ImageAsset>, index: nat)
    requires index < |presets|
    ensures forall c :: c in HandleFileUpload(upload, now) ==> c.OnSelect?
    ensures forall c :: c in ClickPreset(presets, index) ==> c.OnSelect?
  {
  }

  /** An uploaded person always has a non-empty id, so it enables Next. */
  lemma UploadEnablesNext(upload: Upload, now: nat)
    requires upload.Loaded? && Truthy(upload.result)
    ensures NextEnabled(OrNull(HandleFileUpload(upload, now)[0].asset.id))
  {
  }
}
