/** components/StepThree.tsx: the try-on step. `processGeneration` turns both
    image references into inline data (fetching whatever is not already a
    `data:` URL), asks the model for the composite, and hands the result to
    the parent; the component keeps only a loading flag and an error. */
module StepThree {
  import opened Js
  import opened JsString
  import opened Types
  import GeminiService

  const FailureMessage: string := "AI 换装失败，请稍后重试。"

  /** The props the parent passes down. */
  datatype Props = Props(personUrl: string, garmentUrl: string, resultUrl: Option<string>)

  /** The component's local state. */
  datatype Ui = Ui(loading: bool, error: Option<string>)

  const InitialUi: Ui := Ui(false, None)

  /** A call to the outside world, in the order it is made. */
  datatype ExternalCall =
    | Fetch(url: string)                            // urlToBase64(url)
    | Generate(request: GeminiService.Request)      // the try-on model call

  /** One run of `processGeneration`: the external calls made, the local
      state while they are pending and once everything settled, and the
      image handed to `onResultGenerated`, if any. */
  datatype Run = Run(calls: seq<ExternalCall>, during: Ui, after: Ui, delivered: Option<string>)

  /** The outcome of one image reference's conversion. */
  datatype Conversion = Conversion(calls: seq<ExternalCall>, encoded: Outcome<string>)

  predicate IsDataUrl(url: string) {
    StartsWith(url, "data:")
  }

  /** `url.startsWith('data:') ? url : await urlToBase64(url)`. */
  function ToBase64(url: string, fetch: string -> Outcome<string>): (c: Conversion)
    ensures IsDataUrl(url) ==> c.calls == [] && c.encoded == Ok(url)
    ensures !IsDataUrl(url) ==> c.calls == [Fetch(url)] && c.encoded == fetch(url)
  {
    if IsDataUrl(url) then Conversion([], Ok(url)) else Conversion([Fetch(url)], fetch(url))
  }

  /** `processGeneration`: does nothing when a result is already there;
      otherwise raises `loading`, clears the error, converts the person and
      then the garment (stopping at the first failure), calls the model,
      and either delivers the image or sets the error. `loading` is lowered
      whatever happened. */
  function ProcessGeneration(props: Props, ui: Ui, fetch: string -> Outcome<string>,
                             remote: GeminiService.Request -> Outcome<GeminiService.Response>): (r: Run)
    ensures Truthy(props.resultUrl) ==> r.calls == [] && r.delivered.None? && r.after == ui
    ensures !Truthy(props.resultUrl) ==> r.during == Ui(true, None) && !r.after.loading
    ensures !Truthy(props.resultUrl) ==>
              (r.delivered.Some? <==> r.after.error.None?)
              && (r.delivered.None? <==> r.after.error == Some(FailureMessage))
    ensures forall i :: 0 <= i < |r.calls| && r.calls[i].Fetch? ==> !IsDataUrl(r.calls[i].url)
    ensures forall i :: 0 <= i < |r.calls| - 1 ==> r.calls[i].Fetch?
    ensures r.delivered.Some? ==>
              && |r.calls| > 0 && r.calls[|r.calls| - 1].Generate?
              && GeminiService.PngDataUrlPrefix <= r.delivered.value
    ensures |Callbacks(r)| <= 1
    ensures Callbacks(r) != [] <==> !Truthy(props.resultUrl) && r.after.error.None?
  {
    if Truthy(props.resultUrl) then Run([], ui, ui, None)
    else
      var during := Ui(true, None);
      var failed := Ui(false, Some(FailureMessage));
      var person := ToBase64(props.personUrl, fetch);
      if person.encoded.Err? then Run(person.calls, during, failed, None)
      else
        var garment := ToBase64(props.garmentUrl, fetch);
        var converted := person.calls + garment.calls;
        if garment.encoded.Err? then Run(converted, during, failed, None)
        else
          var p, g := person.encoded.value, garment.encoded.value;
          var calls := converted + [Generate(GeminiService.TryOnRequest(p, g))];
          match GeminiService.GenerateTryOnResult(p, g, remote)
          case Ok(image) => Run(calls, during, Ui(false, None), Some(image))
          case Err(_) => Run(calls, during, failed, None)
  }

  /** The callbacks a run fires on the parent: `onResultGenerated` exactly
      once on success, never otherwise. */
  function Callbacks(r: Run): seq<Callback> {
    match r.delivered
    case Some(image) => [OnResultGenerated(image)]
    case None => []
  }

  /** With no result yet, the model is asked exactly when both conversions
      succeed, with the person first and the garment second; what it
      answers decides the delivery. */
  lemma GenerationOnlyAfterBothConversions(props: Props, ui: Ui, fetch: string -> Outcome<string>,
                                           remote: GeminiService.Request -> Outcome<GeminiService.Response>)
    requires !Truthy(props.resultUrl)
    ensures var r := ProcessGeneration(props, ui, fetch, remote);
            var p := ToBase64(props.personUrl, fetch);
            var g := ToBase64(props.garmentUrl, fetch);
            && ((exists i :: 0 <= i < |r.calls| && r.calls[i].Generate?) <==> p.encoded.Ok? && g.encoded.Ok?)
            && (p.encoded.Ok? && g.encoded.Ok? ==>
                  && r.calls == p.calls + g.calls + [Generate(GeminiService.TryOnRequest(p.encoded.value, g.encoded.value))]
                  && r.delivered == GeminiService.GenerateTryOnResult(p.encoded.value, g.encoded.value, remote).ToOption())
            && (p.encoded.Err? ==> r.calls == p.calls)
            && (p.encoded.Ok? && g.encoded.Err? ==> r.calls == p.calls + g.calls)
  {
    var r := ProcessGeneration(props, ui, fetch, remote);
    var p := ToBase64(props.personUrl, fetch);
    var g := ToBase64(props.garmentUrl, fetch);
    if !(p.encoded.Ok? && g.encoded.Ok?) {
      forall i | 0 <= i < |r.calls|
        ensures r.calls[i].Fetch?
      {
        if p.encoded.Ok? {
          assert r.calls == p.calls + g.calls;
        }
      }
    } else {
      var req := GeminiService.TryOnRequest(p.encoded.value, g.encoded.value);
      assert r.calls[|r.calls| - 1] == Generate(req);
    }
  }

  /** The component's mount effect: it starts a generation only when there
      is no result and nothing is loading. */
  predicate MountTriggers(props: Props, ui: Ui) {
    !Truthy(props.resultUrl) && !ui.loading
  }

  /** Mounting the component: a fresh component state, and one run of
      `processGeneration` when the effect's condition holds. */
  function OnMount(props: Props, fetch: string -> Outcome<string>,
                   remote: GeminiService.Request -> Outcome<GeminiService.Response>): (r: Run)
    ensures !Truthy(props.resultUrl) ==> r.during.loading && !r.after.loading
    ensures Truthy(props.resultUrl) ==> r.calls == [] && r.delivered.None? && r.after == InitialUi
    ensures !Truthy(props.resultUrl) ==> r == ProcessGeneration(props, InitialUi, fetch, remote)
  {
    if MountTriggers(props, InitialUi) then ProcessGeneration(props, InitialUi, fetch, remote)
    else Run([], InitialUi, InitialUi, None)
  }

  /** The retry button is shown when an error is set and nothing is loading. */
  predicate RetryVisible(ui: Ui) {
    Truthy(ui.error) && !ui.loading
  }

  /** A failed attempt leaves the retry button visible, and a retry clears
      the error before anything else happens. */
  lemma FailureOffersRetry(props: Props, ui: Ui, fetch: string -> Outcome<string>,
                           remote: GeminiService.Request -> Outcome<GeminiService.Response>)
    requires !Truthy(props.resultUrl)
    requires ProcessGeneration(props, ui, fetch, remote).delivered.None?
    ensures RetryVisible(ProcessGeneration(props, ui, fetch, remote).after)
    ensures var retry := ProcessGeneration(props, ProcessGeneration(props, ui, fetch, remote).after, fetch, remote);
            retry.during.error.None? && retry.during.loading
  {
  }

  /** Two inline images whose payloads are plain base64 reach the model
      without any fetch, as exactly those payloads. */
  lemma InlineImagesSentWithoutFetch(personPayload: string, garmentPayload: string, resultUrl: Option<string>,
                                     ui: Ui, fetch: string -> Outcome<string>,
                                     remote: GeminiService.Request -> Outcome<GeminiService.Response>)
    requires personPayload != "" && ',' !in personPayload
    requires garmentPayload != "" && ',' !in garmentPayload
    requires !Truthy(resultUrl)
    ensures var props := Props(GeminiService.PngDataUrlPrefix + personPayload,
                               GeminiService.PngDataUrlPrefix + garmentPayload, resultUrl);
            var r := ProcessGeneration(props, ui, fetch, remote);
            && |r.calls| == 1 && r.calls[0].Generate?
            && r.calls[0].request.parts[0] == GeminiService.InlineData(GeminiService.PngMimeType, personPayload)
            && r.calls[0].request.parts[1] == GeminiService.InlineData(GeminiService.PngMimeType, garmentPayload)
  {
    var personUrl := GeminiService.PngDataUrlPrefix + personPayload;
    var garmentUrl := GeminiService.PngDataUrlPrefix + garmentPayload;
    assert IsDataUrl(personUrl) && IsDataUrl(garmentUrl);
    GeminiService.TryOnRequestCarriesPayloads(personPayload, garmentPayload);
  }
}
