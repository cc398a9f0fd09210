/** components/StepTwo.tsx: choosing, uploading or generating a garment.
    The component keeps a local prompt, a generating flag and an error
    message; everything else goes to the parent through `onAddCustomGarment`
    and `onSelect`. */
module StepTwo {
  import opened Js
  import opened JsString
  import opened Types
  import Catalog
  import GeminiService

  const UploadIdPrefix: string := "upload-garment-"
  const GeneratedIdPrefix: string := "gen-garment-"
  const FailureMessage: string := "生成失败，请重试"

  /** The component's local state. */
  datatype Ui = Ui(prompt: string, isGenerating: bool, error: Option<string>)

  const InitialUi: Ui := Ui("", false, None)

  /** One run of `handleGenerate`: the request sent to the model (if any),
      the local state while the call is pending and once it settled, and
      the parent callbacks fired, in order. */
  datatype GenerateRun = GenerateRun(
    request: Option<GeminiService.Request>,
    during: Ui,
    after: Ui,
    calls: seq<Callback>)

  /** `handleGenerate`. A blank prompt returns at once. Otherwise the
      generating flag is raised and the error cleared, the untrimmed prompt
      is sent, and on success the new asset is added, then selected, and the
      prompt cleared; on failure only the error message is set. `now` is the
      `Date.now()` reading that names a generated garment. */
  function HandleGenerate(ui: Ui, remote: GeminiService.Request -> Outcome<GeminiService.Response>,
                          now: nat): (r: GenerateRun)
    ensures IsBlank(ui.prompt) ==> r.request.None? && r.calls == [] && r.during == ui && r.after == ui
    ensures !IsBlank(ui.prompt) ==>
              && r.request == Some(GeminiService.GarmentRequest(ui.prompt))
              && r.during == ui.(isGenerating := true, error := None)
              && !r.after.isGenerating
    ensures r.calls != [] ==>
              && |r.calls| == 2
              && r.calls[0].OnAddCustomGarment? && r.calls[1] == OnSelect(r.calls[0].asset)
              && PngDataUrlPrefixed(r.calls[0].asset.url)
              && r.calls[0].asset.isGenerated == Some(true)
              && r.calls[0].asset.id == GeneratedIdPrefix + Decimal(now)
              && r.after == Ui("", false, None)
    ensures !IsBlank(ui.prompt) && r.calls == [] ==>
              r.after == Ui(ui.prompt, false, Some(FailureMessage))
  {
    if IsBlank(ui.prompt) then GenerateRun(None, ui, ui, [])
    else
      var during := ui.(isGenerating := true, error := None);
      var request := Some(GeminiService.GarmentRequest(ui.prompt));
      match GeminiService.GenerateGarmentImage(ui.prompt, remote)
      case Ok(image) =>
        var asset := ImageAsset(GeneratedIdPrefix + Decimal(now), image, Some(true));
        GenerateRun(request, during, during.(prompt := "", isGenerating := false),
                    [OnAddCustomGarment(asset), OnSelect(asset)])
      case Err(_) =>
        GenerateRun(request, during, during.(isGenerating := false, error := Some(FailureMessage)), [])
  }

  predicate PngDataUrlPrefixed(url: string) {
    GeminiService.PngDataUrlPrefix <= url
  }

  /** With a non-blank prompt the garment is added and selected exactly when
      the model call yields an image, and that image is the asset's URL. */
  lemma GenerateSucceedsIffImage(ui: Ui, remote: GeminiService.Request -> Outcome<GeminiService.Response>, now: nat)
    requires !IsBlank(ui.prompt)
    ensures var r := HandleGenerate(ui, remote, now);
            var outcome := GeminiService.GenerateGarmentImage(ui.prompt, remote);
            && (r.calls != [] <==> outcome.Ok?)
            && (outcome.Ok? ==> r.calls[0].asset.url == outcome.value)
  {
  }

  /** The file input's change handler: with a file whose reader result is
      truthy, the upload is added and then selected; otherwise nothing. */
  function HandleFileUpload(upload: Upload, now: nat): (calls: seq<Callback>)
    ensures calls == [] <==> !(upload.Loaded? && Truthy(upload.result))
    ensures calls != [] ==>
              && |calls| == 2
              && calls[0].OnAddCustomGarment? && calls[1] == OnSelect(calls[0].asset)
              && calls[0].asset.url == upload.result.value
              && calls[0].asset.id == UploadIdPrefix + Decimal(now)
              && calls[0].asset.isGenerated.None?
  {
    match upload
    case NoFile => []
    case Loaded(result) =>
      if Truthy(result) then
        var asset := ImageAsset(UploadIdPrefix + Decimal(now), result.value, None);
        [OnAddCustomGarment(asset), OnSelect(asset)]
      else []
  }

  /** `[...customGarments, ...PRESET_GARMENTS]`: the garments on offer,
      custom ones first. */
  function AllGarments(customGarments: seq<ImageAsset>): (all: seq<ImageAsset>)
    ensures |all| == |customGarments| + |Catalog.PresetGarments|
    ensures all[..|customGarments|] == customGarments
    ensures all[|customGarments|..] == Catalog.PresetGarments
  {
    customGarments + Catalog.PresetGarments
  }

  /** Clicking the garment at `index` of the list on offer. */
  function ClickGarment(customGarments: seq<ImageAsset>, index: nat): (calls: seq<Callback>)
    requires index < |AllGarments(customGarments)|
    ensures |calls| == 1 && calls[0].OnSelect?
    ensures index < |customGarments| ==> calls[0].asset == customGarments[index]
    ensures index >= |customGarments| ==>
              calls[0].asset == Catalog.PresetGarments[index - |customGarments|]
  {
    [OnSelect(AllGarments(customGarments)[index])]
  }

  /** The Next button is enabled when the selected garment's id is truthy. */
  predicate NextEnabled(selectedGarmentId: Option<string>) {
    Truthy(selectedGarmentId)
  }

  /** The Generate button is enabled when nothing is generating and the
      prompt is not blank. */
  predicate GenerateEnabled(ui: Ui) {
    !ui.isGenerating && !IsBlank(ui.prompt)
  }

  /** The Generate button is enabled exactly when nothing is generating
      and the prompt has a non-whitespace character. */
  lemma GenerateEnabledIff(ui: Ui)
    ensures GenerateEnabled(ui) <==>
              !ui.isGenerating && exists i :: 0 <= i < |ui.prompt| && !IsJsWhitespace(ui.prompt[i])
  {
    BlankIffAllWhitespace(ui.prompt);
  }

  /** Pressing Enter in the prompt field calls `handleGenerate` without the
      button's `isGenerating` test, so a second request goes out while the
      first is still pending. */
  lemma EnterKeyIgnoresPendingGeneration(ui: Ui, remote: GeminiService.Request -> Outcome<GeminiService.Response>, now: nat)
    requires ui.isGenerating && !IsBlank(ui.prompt)
    ensures !GenerateEnabled(ui)
    ensures HandleGenerate(ui, remote, now).request.Some?
  {
  }

  /** A failed generation, whether the call was rejected or the answer held
      no image, never adds or selects anything and keeps the prompt for a
      retry. */
  lemma FailedGenerationChangesNothingUpstream(ui: Ui, remote: GeminiService.Request -> Outcome<GeminiService.Response>, now: nat)
    requires !IsBlank(ui.prompt)
    requires GeminiService.GenerateGarmentImage(ui.prompt, remote).Err?
    ensures HandleGenerate(ui, remote, now).calls == []
    ensures HandleGenerate(ui, remote, now).after.prompt == ui.prompt
    ensures HandleGenerate(ui, remote, now).after.error == Some(FailureMessage)
  {
  }
}
