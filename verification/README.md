# NanoStyle virtual try-on wizard, modelled in Dafny

NanoStyle is a three-step browser wizard: choose a person photo, choose,
upload or generate a garment image, then ask a hosted image model for a
composite of the person wearing the garment. This project models its logic
as pure functions over immutable values:

- the session state of the application shell (`App`): step, selected
  person and garment, result, custom garments and history, with one
  function per handler and navigation callback, the guarded rendering of the
  step components, and the invariant that the result step is only reached
  with both selections present;
- the decision logic of the three step components (`StepOne`, `StepTwo`,
  `StepThree`): each handler maps its inputs and the outcome of the
  external call to the callbacks it fires on the shell and its new local
  flags;
- the generation client (`GeminiService`): the `data:` URL cleaning helper,
  the two request builders, and the extraction of the first inline image
  from a response.

External effects are parameters. `fetch: string -> Outcome<string>` stands
for `urlToBase64`, `remote: Request -> Outcome<Response>` for the model
call, and `Date.now()` readings are `nat` parameters printed with
`JsString.Decimal`. `Outcome` is `Ok(value) | Err(reason)`. JavaScript's
nullable values and string truthiness are modelled explicitly (`Js`), as
are the string built-ins used (`JsString`: `split`, `trim`, `startsWith`,
`toString`).

Behaviour of the code that a reader might not expect, modelled as written:

- Changing the person or garment does not clear an earlier result. The
  result step then shows the old image and does not generate again
  (`App.StaleResultSurvivesReselection`). This is arguably a defect.
- Adding a custom garment does not select it. The second step fires
  `onAddCustomGarment` and then `onSelect` (`App.DeliverAddThenSelect`).
- The blank-prompt check lives in the second step's handler, not in the
  generation client. The untrimmed prompt is what gets sent.
- The Generate button is disabled while a garment is being generated, but
  the Enter key calls the same handler without that check
  (`StepTwo.EnterKeyIgnoresPendingGeneration`).
- An inline part without a `data` field is still extracted. It becomes
  `data:image/png;base64,undefined` (`GeminiService.TemplateText`).

## Model

| member | source | states |
|---|---|---|
| `App.Initial` | App.tsx:10-19 | the first state is on the person step with no selections, no result, no custom garments and no history, and satisfies the invariant |
| `App.HandlePersonSelect` | App.tsx:22-24 | selecting a person sets only the person; step, garment, a stale result, custom garments and history are untouched |
| `App.HandleGarmentSelect` | App.tsx:26-28 | selecting a garment sets only the garment; an earlier result is not cleared |
| `App.HandleAddCustomGarment` | App.tsx:30-32 | the custom list grows by exactly one, the new asset first and the old order after it; nothing else changes |
| `App.HandleResultGenerated` | App.tsx:34-47 | the result is stored; with both selections present exactly one entry (person URL, garment URL, result, id and timestamp from the clock) is put in front of the history, otherwise the history is unchanged |
| `App.HandleRestart` | App.tsx:49-54 | restart returns to the person step with both selections and the result cleared, keeps custom garments and history, and re-establishes the invariant |
| `App.GoTo` | App.tsx:88-110 | the navigation callbacks change only the step, never selections, result, custom garments or history |
| `App.PersonIdProp` | App.tsx:86 | the id handed to the first step is truthy exactly when a person with a non-empty id is selected |
| `App.GarmentIdProp` | App.tsx:94 | the id handed to the second step is truthy exactly when a garment with a non-empty id is selected |
| `App.CurrentScreen` | App.tsx:84-112 | the person and garment steps render on their step numbers; the result step renders only on step three with both selections, and receives their URLs and the result |
| `App.InvariantKeepsAScreen` | App.tsx:103 | under the invariant the result step always has both selections, so some step component is rendered |
| `App.NextEnabledIffSelected` | App.tsx:84-99 | each Next button can fire exactly on its own step when its selection is present with a non-empty id |
| `App.ApplyPreservesInv` | App.tsx:84-111 | every event the rendered component can fire keeps the invariant, and only restart clears a selection |
| `App.UnguardedNextBreaksInvariant` | components/StepTwo.tsx:83 | without the Next button's guard, the second step's `onNext` reaches step three with no garment, where nothing is rendered |
| `App.RunPreservesInv` | App.tsx:84-111 | every sequence of enabled events from a state satisfying the invariant ends in one satisfying it |
| `App.RunKeepsData` | App.tsx:30-54 | no event sequence shortens the custom garments or the history, and the old history stays at its tail |
| `App.HistoryAfterRecordings` | App.tsx:34-47 | after N recorded results with both selections present, the history has grown by exactly N, newest first, with the old history after them |
| `App.StaleResultSurvivesReselection` | App.tsx:26-28 | going back, choosing another garment and going forward keeps the old result, so the result step does not generate again |
| `App.PersonChoiceSelectsOnly` | App.tsx:22-24 | a choice on the first step becomes the selected person and never changes the step |
| `App.PersonUploadSelects` | components/StepOne.tsx:15-29 | an uploaded person with a non-empty reader result becomes the selection and enables Next; no file or an empty result changes nothing |
| `App.DeliverAddThenSelect` | components/StepTwo.tsx:39-40 | the add-then-select callbacks put the asset in front of the custom garments and select it, and change nothing else |
| `App.GarmentUploadAddsAndSelects` | components/StepTwo.tsx:29-45 | an uploaded garment is put first among the custom garments and selected, which enables Next |
| `App.GeneratedGarmentAddsAndSelects` | components/StepTwo.tsx:47-66 | a generated garment, flagged as generated, is put first and selected; a failed generation leaves the session exactly as it was |
| `App.TryOnRecordsResult` | components/StepThree.tsx:25-53 | on mount with no result, success stores the image as the result and as the newest history entry for the shown pair, and a later mount does not generate again; failure leaves the session unchanged and shows the error |
| `StepOne.HandleFileUpload` | components/StepOne.tsx:15-29 | with a file and a truthy reader result, exactly one `onSelect` of an asset with that URL, an id `upload-` followed by the clock's digits and no generated flag; otherwise no call |
| `App.PresetPersonClickSelects` | components/StepOne.tsx:71 | clicking the i-th preset person selects exactly that preset, keeps the first step and enables Next |
| `App.PresetGarmentClickSelects` | components/StepTwo.tsx:142 | clicking a preset garment, listed after the custom ones, selects exactly that preset, keeps the second step and enables Next |
| `Catalog.PresetsWellFormed` | constants.ts:3-19 | both catalogues hold six presets, each with a non-empty id and no generated flag |
| `StepOne.HandlersOnlySelect` | components/StepOne.tsx:15-29 | the first step's upload and preset handlers only ever call `onSelect` |
| `StepOne.UploadEnablesNext` | components/StepOne.tsx:21-24 | an uploaded person's id is never empty, so it enables Next |
| `StepTwo.HandleGenerate` | components/StepTwo.tsx:47-66 | a blank prompt sends nothing and changes nothing; otherwise the untrimmed prompt is sent with the generating flag up and the error cleared; success adds then selects an asset flagged as generated, with an id `gen-garment-` followed by the clock's digits, and clears the prompt; failure fires nothing, keeps the prompt and sets the error; the flag is down afterwards |
| `StepTwo.GenerateSucceedsIffImage` | components/StepTwo.tsx:52-60 | with a non-blank prompt, the garment is added and selected exactly when the model call yields an image, and the new asset carries that image as its URL |
| `StepTwo.HandleFileUpload` | components/StepTwo.tsx:29-45 | with a file and a truthy reader result, the asset is added then selected, with the reader result as URL, an id `upload-garment-` followed by the clock's digits and no generated flag; otherwise no call |
| `StepTwo.AllGarments` | components/StepTwo.tsx:68 | the garments on offer are the custom ones, in order, followed by the preset catalogue |
| `StepTwo.ClickGarment` | components/StepTwo.tsx:142 | clicking position i selects the i-th custom garment, or the preset after the custom ones |
| `StepTwo.GenerateEnabledIff` | components/StepTwo.tsx:109 | Generate is enabled exactly when nothing is generating and the prompt has a non-whitespace character |
| `StepTwo.EnterKeyIgnoresPendingGeneration` | components/StepTwo.tsx:105 | while a generation is pending the button is disabled, yet Enter still sends a second request |
| `StepTwo.FailedGenerationChangesNothingUpstream` | components/StepTwo.tsx:51-62 | a failed generation fires no callback, whether the call was rejected or the answer held no image; it keeps the prompt and sets the error message |
| `StepThree.ToBase64` | components/StepThree.tsx:33-34 | a `data:` URL passes unchanged with no call; any other reference is fetched once and its outcome used |
| `StepThree.ProcessGeneration` | components/StepThree.tsx:25-45 | with a result present nothing happens; otherwise loading is up and the error cleared during the run and loading is down after it, an image is delivered exactly when no error is set, only non-`data:` URLs are fetched, and the model call, if any, comes last; `onResultGenerated` fires at most once, and fires exactly when there was no result and the run ended without an error |
| `StepThree.GenerationOnlyAfterBothConversions` | components/StepThree.tsx:33-38 | the model is called exactly when both conversions succeed, person before garment, and the delivery is the model's answer; a failed person conversion stops before the garment, and a failed garment conversion leaves exactly the two conversions' calls |
| `StepThree.OnMount` | components/StepThree.tsx:48-53 | mounting with no result runs exactly one generation from a fresh component state, which lowers loading when done; with a result it does nothing |
| `StepThree.FailureOffersRetry` | components/StepThree.tsx:94-98 | after a failure the retry button is shown, and a retry clears the error and raises loading |
| `StepThree.InlineImagesSentWithoutFetch` | components/StepThree.tsx:33-37 | two PNG data URLs reach the model with no fetch, as exactly their payloads, person first |
| `GeminiService.CleanBase64` | services/geminiService.ts:7-9 | input without a comma comes back unchanged; any other answer is a non-empty, comma-free, shorter string |
| `GeminiService.CommaDecomposition` | services/geminiService.ts:8 | every string with a comma splits into a comma-free head, the first comma, a comma-free segment and a rest that is empty or starts at the second comma |
| `GeminiService.CleanBase64Segment` | services/geminiService.ts:7-9 | the result is the segment between the first and second comma, or the whole input when that segment is empty |
| `GeminiService.CleanBase64OfPngDataUrl` | services/geminiService.ts:7-9 | round trip: wrapping a non-empty comma-free payload as a PNG data URL and cleaning it gives the payload back |
| `GeminiService.DataUrlPayload` | services/geminiService.ts:7-9 | any data URL with a comma-free header yields its payload, or the whole URL when the payload is empty |
| `GeminiService.CandidateParts` | services/geminiService.ts:47 | when candidates, the first candidate, its content and its parts all exist, the parts scanned are exactly those parts; when any level is missing, nothing is scanned |
| `GeminiService.FirstInline` | services/geminiService.ts:47-51 | the scan stops at the first part with inline data, or runs off the end when no part has any |
| `GeminiService.ExtractImage` | services/geminiService.ts:47-52 | an image is returned exactly when some part carries inline data, and it is the first such part's data after `data:image/png;base64,`; otherwise the rejection message |
| `GeminiService.ExtractImageRejectsWithoutInlineData` | services/geminiService.ts:47-52 | a missing candidate, content or parts level, or no inline part, always rejects and never yields a value |
| `GeminiService.ExtractIgnoresLaterParts` | services/geminiService.ts:47-51 | parts after the first inline one do not affect which part is used |
| `GeminiService.GarmentRequest` | services/geminiService.ts:34-44 | the garment request names the image model and carries exactly one part, the garment text |
| `GeminiService.GarmentPromptText` | services/geminiService.ts:38 | the garment text is the fixed lead-in, then the prompt as typed, then the fixed style instruction |
| `GeminiService.GarmentPromptInjective` | services/geminiService.ts:38 | different prompts give different request texts |
| `GeminiService.GenerateGarmentImage` | services/geminiService.ts:31-57 | a rejected call rejects with its reason; an answer yields an image exactly when it has an inline part, and the image is the first inline part's data after `data:image/png;base64,`; otherwise the error is "No image generated" |
| `GeminiService.TryOnRequest` | services/geminiService.ts:64-86 | the request holds `cleanBase64` of the person image, then `cleanBase64` of the garment image, both labelled PNG, then the fixed instruction; comma-free inputs are sent as they are |
| `GeminiService.TryOnRequestSendsDataUrlPayloads` | services/geminiService.ts:64-86 | any two data URLs with comma-free headers (JPEG, PNG or anything else) are sent as their payloads, person first; an empty payload leaves the header and its comma |
| `GeminiService.TryOnRequestCarriesPayloads` | services/geminiService.ts:64-86 | PNG data URLs are sent as exactly the payloads they wrap |
| `GeminiService.GenerateTryOnResult` | services/geminiService.ts:62-101 | a rejected call rejects with its reason; an answer yields an image exactly when it has an inline part, and the image is the first inline part's data after `data:image/png;base64,`; otherwise the error is "No try-on image generated" |
| `GeminiService.GeneratedImageCleansToPayload` | services/geminiService.ts:92 | an extracted image whose payload is non-empty and comma-free cleans back to that payload |
| `Js.OrNull` | App.tsx:86 | `x \|\| null` is `null` exactly when `x` is empty, otherwise `x`, and is then truthy |
| `JsString.Split` | services/geminiService.ts:8 | `split(',')` always yields at least one piece, and no piece contains a comma |
| `JsString.TrimStart` | components/StepTwo.tsx:48 | the leading part removed by `trim()` is all JavaScript whitespace and what is left starts with a non-whitespace character or is empty |
| `JsString.TrimEnd` | components/StepTwo.tsx:48 | the trailing part removed by `trim()` is all JavaScript whitespace and what is left ends with a non-whitespace character or is empty |
| `JsString.Decimal` | components/StepOne.tsx:22 | the text printed for a `Date.now()` reading is non-empty, all digits, and has no leading zero unless it is `0` |
| `JsString.JoinSplit` | services/geminiService.ts:8 | joining the pieces of `split(',')` with commas gives back the string |
| `JsString.SplitJoin` | services/geminiService.ts:8 | splitting a join of comma-free pieces gives back the pieces |
| `JsString.BlankIffAllWhitespace` | components/StepTwo.tsx:48 | `!prompt.trim()` holds exactly when every character of the prompt is JavaScript whitespace |
| `JsString.DecimalRoundTrip` | components/StepTwo.tsx:54 | the digits printed for a `Date.now()` reading in an id read back as that number |

## Left out

- Rendering: JSX, CSS classes, `TopVisualizer` with its `getCardStyle` helper, and the `Gallery` list. The gallery names its downloads `nano-history-<id>.png`. Both are presentation only.
- The result download link `nano-style-tryon.png`. It is presentation only.
- `urlToBase64` internals: `fetch`, `Blob` and `FileReader` are hidden behind the `fetch` parameter. Its error message is not modelled. A `FileReader` error escapes its `try` unchanged, and the model does not distinguish that case either. Both are invisible to the caller, which only tests for failure.
- The `GoogleGenAI` client, the API key and the console logging. The model call is the `remote` parameter.
- `Date.now()`: each reading is a parameter. No id is claimed unique, because the source does not guarantee it.
- The preset catalogues appear as constants (`Catalog`). Only their ids and the absent generated flag are used in proofs; the image URLs are carried along unexamined.
- Asynchronous interleaving and React re-render semantics. Each handler is one atomic transition. So the model does not cover a result that arrives after navigation, or the `onResultGenerated` closure capturing stale selections. It also does not cover a restart pressed while a generation is pending.
- The result step's back button is hidden while loading. That flag is local to `StepThree` and each handler is atomic here, so the shell-level `App.Enabled` never sees it set.
- Base64 encoding and decoding. They never happen in this code.
- JavaScript strings are UTF-16 code units. Here they are sequences of Unicode characters. `split(',')` and `trim()` agree on both views for the characters they test.
- `JsString.Decimal` covers integers below 10^21, where JavaScript prints plain digits. `Date.now()` is far below that bound.
