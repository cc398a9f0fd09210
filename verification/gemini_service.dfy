/** services/geminiService.ts: the two generation requests sent to the
    hosted image model, the data-URL helper that strips a `data:` header
    before an image is sent, and the extraction of the first inline image
    from a response. The model call itself is a parameter
    `remote: Request -> Outcome<Response>`: it either answers with a
    response or rejects. */
module GeminiService {
  import opened Js
  import opened JsString

  const ModelName: string := "gemini-2.5-flash-image"
  const PngMimeType: string := "image/png"
  /** The header every extracted image is re-wrapped with (a `data:` URL in
      the sense of RFC 2397, section 3). */
  const PngDataUrlHeader: string := "data:image/png;base64"
  const PngDataUrlPrefix: string := PngDataUrlHeader + ","

  const GarmentPromptHead: string := "Design a standalone piece of clothing: "
  const GarmentPromptTail: string :=
    ". White background, flat lay or mannequin style, high quality, photorealistic."
  const TryOnInstruction: string :=
    "Generate a full-body photorealistic image of the person in the first image wearing the clothing from the second image. Maintain the person's pose, facial features, and background. Ensure the clothing fits naturally."

  const NoGarmentImageMessage: string := "No image generated"
  const NoTryOnImageMessage: string := "No try-on image generated"

  // ---------------------------------------------------------------------
  // Requests

  /** One entry of `contents.parts` in a request. */
  datatype RequestPart = Text(text: string) | InlineData(mimeType: string, data: string)

  datatype Request = Request(model: string, parts: seq<RequestPart>)

  // ---------------------------------------------------------------------
  // Responses: every level may be missing

  datatype Blob = Blob(mimeType: Option<string>, data: Option<string>)
  datatype ResponsePart = ResponsePart(text: Option<string>, inlineData: Option<Blob>)
  datatype Content = Content(parts: Option<seq<ResponsePart>>)
  datatype Candidate = Candidate(content: Option<Content>)
  datatype Response = Response(candidates: Option<seq<Candidate>>)

  // ---------------------------------------------------------------------
  // cleanBase64

  /** `dataUrl.split(',')[1] || dataUrl`: the text between the first and the
      second comma, unless it is missing or empty, in which case the input
      itself. */
  function CleanBase64(dataUrl: string): (r: string)
    ensures ',' !in dataUrl ==> r == dataUrl
    ensures r == dataUrl || (r != "" && ',' !in r && |r| < |dataUrl|)
  {
    var pieces := Split(dataUrl, ',');
    if |pieces| > 1 && pieces[1] != "" then
      JoinSplit(dataUrl, ',');
      pieces[1]
    else
      SplitCount(dataUrl, ',');
      dataUrl
  }

  /** Every string holding a comma is a comma-free head, the first comma, a
      comma-free segment, and a rest that is empty or starts at the second
      comma. */
  lemma CommaDecomposition(s: string) returns (a: string, b: string, rest: string)
    requires ',' in s
    ensures s == a + [','] + b + rest
    ensures ',' !in a && ',' !in b
    ensures rest == [] || rest[0] == ','
  {
    var pieces := Split(s, ',');
    SplitCount(s, ',');
    JoinSplit(s, ',');
    assert |pieces| >= 2;
    var tail := Join(pieces[1..], ',');
    assert s == pieces[0] + [','] + tail;
    a, b := pieces[0], pieces[1];
    if |pieces| == 2 {
      rest := [];
      assert tail == b;
    } else {
      rest := [','] + Join(pieces[2..], ',');
      assert pieces[1..][1..] == pieces[2..];
      assert tail == b + rest;
    }
  }

  /** With the first comma after `a` and the second (if any) after `b`,
      `cleanBase64` keeps `b` when it is non-empty and otherwise returns the
      whole input: the empty string is falsy. */
  lemma {:induction false} CleanBase64Segment(a: string, b: string, rest: string)
    requires ',' !in a && ',' !in b
    requires rest == [] || rest[0] == ','
    ensures CleanBase64(a + [','] + b + rest) == (if b == "" then a + [','] + b + rest else b)
  {
    var s := a + [','] + b + rest;
    assert s == a + [','] + (b + rest);
    SplitSeparatorFreePrefix(a, ',', b + rest);
    if rest == [] {
      assert b + rest == b;
      SplitSeparatorFree(b, ',');
    } else {
      assert b + rest == b + [','] + rest[1..];
      SplitSeparatorFreePrefix(b, ',', rest[1..]);
    }
  }

  /** Round trip with the wrapping applied to every extracted image: a
      non-empty comma-free payload comes back unchanged. */
  lemma CleanBase64OfPngDataUrl(payload: string)
    requires payload != "" && ',' !in payload
    ensures CleanBase64(PngDataUrlPrefix + payload) == payload
  {
    assert ',' !in PngDataUrlHeader by {
      forall i | 0 <= i < |PngDataUrlHeader|
        ensures PngDataUrlHeader[i] != ','
      {
      }
    }
    assert PngDataUrlPrefix + payload == PngDataUrlHeader + [','] + payload + [];
    CleanBase64Segment(PngDataUrlHeader, payload, []);
  }

  /** The same round trip for any `data:` URL whose header has no comma (as
      `FileReader.readAsDataURL` produces): the payload after the comma. */
  lemma DataUrlPayload(header: string, payload: string)
    requires ',' !in header && ',' !in payload
    ensures CleanBase64(header + [','] + payload) == (if payload == "" then header + [','] else payload)
  {
    assert header + [','] + payload == header + [','] + payload + [];
    CleanBase64Segment(header, payload, []);
  }

  // ---------------------------------------------------------------------
  // Response extraction

  /** `response.candidates?.[0]?.content?.parts || []`. */
  function CandidateParts(response: Response): (parts: seq<ResponsePart>)
    ensures && response.candidates.Some? && |response.candidates.value| > 0
            && response.candidates.value[0].content.Some?
            && response.candidates.value[0].content.value.parts.Some?
            ==> parts == response.candidates.value[0].content.value.parts.value
    ensures parts != [] ==>
              && response.candidates.Some? && |response.candidates.value| > 0
              && response.candidates.value[0].content.Some?
              && response.candidates.value[0].content.value.parts == Some(parts)
  {
    match response.candidates
    case None => []
    case Some(candidates) =>
      if |candidates| == 0 then []
      else match candidates[0].content
        case None => []
        case Some(content) =>
          match content.parts
          case None => []
          case Some(parts) => parts
  }

  /** `i` is the position of the first part carrying inline data. */
  predicate IsFirstInline(parts: seq<ResponsePart>, i: nat) {
    && i < |parts|
    && parts[i].inlineData.Some?
    && forall j :: 0 <= j < i ==> parts[j].inlineData.None?
  }

  /** The loop `for (const part of parts) if (part.inlineData) return …`:
      the index it stops at, or `None` when it runs off the end. */
  function FirstInline(parts: seq<ResponsePart>): (r: Option<nat>)
    ensures r.Some? ==> IsFirstInline(parts, r.value)
    ensures r.None? ==> forall j :: 0 <= j < |parts| ==> parts[j].inlineData.None?
    ensures forall i: nat :: IsFirstInline(parts, i) ==> r == Some(i)
    decreases |parts|
  {
    if |parts| == 0 then None
    else if parts[0].inlineData.Some? then Some(0)
    else match FirstInline(parts[1..])
      case None => None
      case Some(i) => Some(i + 1)
  }

  /** The template `${part.inlineData.data}`: a missing field prints as
      `undefined`. */
  function TemplateText(data: Option<string>): string {
    match data
    case Some(d) => d
    case None => "undefined"
  }

  /** The extraction shared by both generation calls: the first inline part
      re-wrapped as a PNG data URL, or a rejection with `missing`. */
  function ExtractImage(response: Response, missing: string): (r: Outcome<string>)
    ensures r.Ok? <==> exists i: nat :: IsFirstInline(CandidateParts(response), i)
    ensures r.Err? ==> r.reason == missing
    ensures r.Ok? ==> forall i: nat :: IsFirstInline(CandidateParts(response), i) ==>
              r.value == PngDataUrlPrefix + TemplateText(CandidateParts(response)[i].inlineData.value.data)
  {
    var parts := CandidateParts(response);
    match FirstInline(parts)
    case None => Err(missing)
    case Some(i) => Ok(PngDataUrlPrefix + TemplateText(parts[i].inlineData.value.data))
  }

  /** A response missing its candidates, its first candidate, that
      candidate's content or the content's parts, or one whose parts carry
      no inline data, is always rejected with `missing`, never a value. */
  lemma ExtractImageRejectsWithoutInlineData(response: Response, missing: string)
    requires || response.candidates.None?
             || (response.candidates.Some? && |response.candidates.value| == 0)
             || (response.candidates.Some? && |response.candidates.value| > 0
                 && response.candidates.value[0].content.None?)
             || (response.candidates.Some? && |response.candidates.value| > 0
                 && response.candidates.value[0].content.Some?
                 && response.candidates.value[0].content.value.parts.None?)
             || (forall j :: 0 <= j < |CandidateParts(response)| ==> CandidateParts(response)[j].inlineData.None?)
    ensures ExtractImage(response, missing) == Err(missing)
  {
  }

  /** Parts after the first inline one never influence the extracted image. */
  lemma ExtractIgnoresLaterParts(parts: seq<ResponsePart>, later: seq<ResponsePart>, i: nat)
    requires IsFirstInline(parts, i)
    ensures FirstInline(parts + later) == Some(i)
  {
    var all := parts + later;
    assert all[i] == parts[i];
    forall j | 0 <= j < i
      ensures all[j].inlineData.None?
    {
      assert all[j] == parts[j];
    }
    assert IsFirstInline(all, i);
  }

  // ---------------------------------------------------------------------
  // generateGarmentImage

  /** The text of the garment request: the fixed lead-in, the prompt as the
      user typed it (untrimmed), and the fixed style instruction. */
  function GarmentPromptText(prompt: string): (t: string)
    ensures |t| == |GarmentPromptHead| + |prompt| + |GarmentPromptTail|
    ensures GarmentPromptHead <= t
    ensures t[|GarmentPromptHead|..|GarmentPromptHead| + |prompt|] == prompt
    ensures t[|GarmentPromptHead| + |prompt|..] == GarmentPromptTail
  {
    var t := GarmentPromptHead + prompt + GarmentPromptTail;
    assert t[|GarmentPromptHead|..|GarmentPromptHead| + |prompt|] == prompt;
    t
  }

  /** Different prompts produce different requests. */
  lemma GarmentPromptInjective(p: string, q: string)
    requires GarmentPromptText(p) == GarmentPromptText(q)
    ensures p == q
  {
    assert |GarmentPromptText(p)| == |GarmentPromptHead| + |p| + |GarmentPromptTail|;
    assert |GarmentPromptText(q)| == |GarmentPromptHead| + |q| + |GarmentPromptTail|;
  }

  function GarmentRequest(prompt: string): (req: Request)
    ensures req.model == ModelName
    ensures req.parts == [Text(GarmentPromptText(prompt))]
  {
    Request(ModelName, [Text(GarmentPromptText(prompt))])
  }

  /** `generateGarmentImage(prompt)`: one request, then the first inline
      image of the answer; a rejected call or an answer without an image
      rejects. */
  function GenerateGarmentImage(prompt: string, remote: Request -> Outcome<Response>): (r: Outcome<string>)
    ensures remote(GarmentRequest(prompt)).Err? ==> r == Err(remote(GarmentRequest(prompt)).reason)
    ensures remote(GarmentRequest(prompt)).Ok? ==>
              (r.Ok? <==> exists i: nat :: IsFirstInline(CandidateParts(remote(GarmentRequest(prompt)).value), i))
    ensures r.Ok? ==> PngDataUrlPrefix <= r.value
    ensures r.Ok? ==> forall i: nat :: IsFirstInline(CandidateParts(remote(GarmentRequest(prompt)).value), i) ==>
              r.value == PngDataUrlPrefix + TemplateText(CandidateParts(remote(GarmentRequest(prompt)).value)[i].inlineData.value.data)
    ensures r.Err? && remote(GarmentRequest(prompt)).Ok? ==> r.reason == NoGarmentImageMessage
  {
    match remote(GarmentRequest(prompt))
    case Err(reason) => Err(reason)
    case Ok(response) => ExtractImage(response, NoGarmentImageMessage)
  }

  // ---------------------------------------------------------------------
  // generateTryOnResult

  /** The try-on request: the cleaned person image, then the cleaned
      garment image, both labelled PNG, then the fixed instruction. */
  function TryOnRequest(personBase64: string, garmentBase64: string): (req: Request)
    ensures req.model == ModelName && |req.parts| == 3
    ensures req.parts[0].InlineData? && req.parts[0].mimeType == PngMimeType
    ensures req.parts[1].InlineData? && req.parts[1].mimeType == PngMimeType
    ensures req.parts[2] == Text(TryOnInstruction)
    ensures req.parts[0].data == CleanBase64(personBase64)
    ensures req.parts[1].data == CleanBase64(garmentBase64)
    ensures ',' !in personBase64 ==> req.parts[0].data == personBase64
    ensures ',' !in garmentBase64 ==> req.parts[1].data == garmentBase64
  {
    Request(ModelName, [
      InlineData(PngMimeType, CleanBase64(personBase64)),
      InlineData(PngMimeType, CleanBase64(garmentBase64)),
      Text(TryOnInstruction)
    ])
  }

  /** A PNG data URL produced by an earlier extraction is sent back as
      exactly the payload it wrapped. */
  lemma TryOnRequestCarriesPayloads(personPayload: string, garmentPayload: string)
    requires personPayload != "" && ',' !in personPayload
    requires garmentPayload != "" && ',' !in garmentPayload
    ensures TryOnRequest(PngDataUrlPrefix + personPayload, PngDataUrlPrefix + garmentPayload).parts
            == [InlineData(PngMimeType, personPayload), InlineData(PngMimeType, garmentPayload),
                Text(TryOnInstruction)]
  {
    CleanBase64OfPngDataUrl(personPayload);
    CleanBase64OfPngDataUrl(garmentPayload);
  }

  /** Any two data URLs with comma-free headers (a JPEG upload, a PNG
      result, whatever `urlToBase64` produced) are sent as their payloads,
      person first; an empty payload leaves the header and its comma. */
  lemma TryOnRequestSendsDataUrlPayloads(personHeader: string, personPayload: string,
                                         garmentHeader: string, garmentPayload: string)
    requires ',' !in personHeader && ',' !in personPayload
    requires ',' !in garmentHeader && ',' !in garmentPayload
    ensures var req := TryOnRequest(personHeader + [','] + personPayload, garmentHeader + [','] + garmentPayload);
            && req.parts[0] == InlineData(PngMimeType, if personPayload == "" then personHeader + [','] else personPayload)
            && req.parts[1] == InlineData(PngMimeType, if garmentPayload == "" then garmentHeader + [','] else garmentPayload)
            && req.parts[2] == Text(TryOnInstruction)
  {
    DataUrlPayload(personHeader, personPayload);
    DataUrlPayload(garmentHeader, garmentPayload);
  }

  /** `generateTryOnResult(personBase64, garmentBase64)`. */
  function GenerateTryOnResult(personBase64: string, garmentBase64: string,
                               remote: Request -> Outcome<Response>): (r: Outcome<string>)
    ensures remote(TryOnRequest(personBase64, garmentBase64)).Err? ==>
              r == Err(remote(TryOnRequest(personBase64, garmentBase64)).reason)
    ensures remote(TryOnRequest(personBase64, garmentBase64)).Ok? ==>
              (r.Ok? <==> exists i: nat :: IsFirstInline(CandidateParts(remote(TryOnRequest(personBase64, garmentBase64)).value), i))
    ensures r.Ok? ==> PngDataUrlPrefix <= r.value
    ensures r.Ok? ==> forall i: nat :: IsFirstInline(CandidateParts(remote(TryOnRequest(personBase64, garmentBase64)).value), i) ==>
              r.value == PngDataUrlPrefix
                         + TemplateText(CandidateParts(remote(TryOnRequest(personBase64, garmentBase64)).value)[i].inlineData.value.data)
    ensures r.Err? && remote(TryOnRequest(personBase64, garmentBase64)).Ok? ==> r.reason == NoTryOnImageMessage
  {
    match remote(TryOnRequest(personBase64, garmentBase64))
    case Err(reason) => Err(reason)
    case Ok(response) => ExtractImage(response, NoTryOnImageMessage)
  }

  /** An image returned by either call, when its payload is a non-empty
      comma-free string (as base64 always is), cleans back to that payload. */
  lemma GeneratedImageCleansToPayload(response: Response, missing: string, i: nat)
    requires IsFirstInline(CandidateParts(response), i)
    requires CandidateParts(response)[i].inlineData.value.data.Some?
    requires var d := CandidateParts(response)[i].inlineData.value.data.value; d != "" && ',' !in d
    ensures ExtractImage(response, missing).Ok?
    ensures CleanBase64(ExtractImage(response, missing).value)
            == CandidateParts(response)[i].inlineData.value.data.value
  {
    CleanBase64OfPngDataUrl(CandidateParts(response)[i].inlineData.value.data.value);
  }
}
