/**
  The place-registration screen's submission logic (`RegisterPlaceView.submitPlace`):
  the guard on the required fields, the `isSubmitting` flag that disables the
  submit button while a request is in flight, the multipart request it builds
  and the state its completion callback restores.

  What the view cannot compute itself is passed in: the boundary (a fresh
  `UUID` string), the access token, the JSON serialiser (which may fail) and
  the JPEG compressor (which may return nil).
 */
module PlaceRegistration {
  import opened Wrappers
  import opened Utf8
  import Multipart

  /** The bitmap the photo picker hands back; only passed on to the JPEG compressor. */
  type Image(==)

  /** The `placeDTO` dictionary handed to the JSON serialiser. */
  datatype PlaceDTO = PlaceDTO(name: string, address: string, category: string, telephoneNumber: string, rating: int)

  /** A `URLRequest` as the view fills it in. */
  datatype Request = Request(url: string, httpMethod: string, headers: map<string, string>, body: seq<byte>)

  /**
    What the `dataTask` completion handler receives: a transport error, the
    HTTP status when the response is an `HTTPURLResponse`, and the response bytes.
   */
  datatype Completion = Completion(error: Option<string>, statusCode: Option<int>, data: Option<seq<byte>>)

  /** The form's `@State` bindings that `submitPlace` reads. */
  datatype PlaceForm = PlaceForm(name: string, address: string, telephoneNumber: string, category: string,
                                 rating: int, selectedImage: Option<Image>)

  /** The handler as written dismisses the view whenever the request did not fail in transport. */
  predicate DismissesAsWritten(c: Completion) {
    c.error.None?
  }

  /** A response that reports success: an HTTP response whose status is in 200...299. */
  predicate Succeeded(c: Completion) {
    c.error.None? && c.statusCode.Some? && 200 <= c.statusCode.value <= 299
  }

  /** A 500 response is only logged, and the view is dismissed as if the place had been registered. */
  lemma ServerErrorDismisses()
    ensures var c := Completion(None, Some(500), None);
            DismissesAsWritten(c) && !Succeeded(c)
  {
  }

  /** Which way `submitPlace` left. */
  datatype SubmitOutcome = MissingFields | EncodingFailed | Sent(request: Request)

  const PlacesEndpoint := "https://api.locavel.site/api/places"
  const DTOKey := "placeDTO"
  const ImageKey := "placeImgUrls"
  const ImageFileName := "image.jpg"
  const JsonMediaType := "application/json"
  const JpegMediaType := "image/jpeg"

  /** The header lines the view appends, each with its CRLF; the content types end the headers with a blank line. */
  const DTODisposition := "Content-Disposition: form-data; name=\"" + DTOKey + "\"\r\n"
  const JsonContentType := "Content-Type: " + JsonMediaType + "\r\n\r\n"
  const ImageDisposition := "Content-Disposition: form-data; name=\"" + ImageKey + "\"; filename=\"" + ImageFileName + "\"\r\n"
  const JpegContentType := "Content-Type: " + JpegMediaType + "\r\n\r\n"

  // ---------------------------------------------------------------------------
  // Validation and the DTO

  /** The guard: name, address and category filled in, and at least one star. */
  predicate HasRequiredFields(f: PlaceForm) {
    f.name != [] && f.address != [] && f.category != [] && f.rating > 0
  }

  predicate IsUpperAscii(c: char) {
    'A' <= c <= 'Z'
  }

  /** `lowercased()` on the ASCII letters; every other character is kept. */
  function Lowercased(s: string): (r: string)
    ensures |r| == |s|
    ensures forall i :: 0 <= i < |s| ==> !IsUpperAscii(r[i])
  {
    if s == [] then []
    else
      var c := s[0];
      [if IsUpperAscii(c) then (c as int + 32) as char else c] + Lowercased(s[1..])
  }

  /**
    Lowercasing changes only upper-case letters, each into its lower-case
    partner, and doing it again changes nothing.
   */
  lemma {:induction false} LowercasedSpec(s: string)
    ensures forall i :: 0 <= i < |s| ==>
              Lowercased(s)[i] == (if IsUpperAscii(s[i]) then (s[i] as int + 32) as char else s[i])
    ensures Lowercased(Lowercased(s)) == Lowercased(s)
  {
    if s != [] {
      LowercasedSpec(s[1..]);
      var r := Lowercased(s);
      assert r[1..] == Lowercased(s[1..]);
      forall i | 0 <= i < |s|
        ensures r[i] == (if IsUpperAscii(s[i]) then (s[i] as int + 32) as char else s[i])
      {
        if i > 0 {
          assert r[i] == Lowercased(s[1..])[i - 1];
          assert s[i] == s[1..][i - 1];
        }
      }
      LowercasedFixesLower(r);
    }
  }

  /** A string with no upper-case letter is its own lower case. */
  lemma {:induction false} LowercasedFixesLower(s: string)
    requires forall i :: 0 <= i < |s| ==> !IsUpperAscii(s[i])
    ensures Lowercased(s) == s
  {
    if s != [] {
      assert forall i :: 0 <= i < |s[1..]| ==> !IsUpperAscii(s[1..][i]) by {
        forall i | 0 <= i < |s[1..]| ensures !IsUpperAscii(s[1..][i]) {
          assert s[1..][i] == s[i + 1];
        }
      }
      LowercasedFixesLower(s[1..]);
      assert [s[0]] + s[1..] == s;
    }
  }

  /** The dictionary `submitPlace` serialises. */
  function MakeDTO(f: PlaceForm): PlaceDTO {
    PlaceDTO(f.name, f.address, Lowercased(f.category), f.telephoneNumber, f.rating)
  }

  // ---------------------------------------------------------------------------
  // The request, as a reference layout

  /** The bytes of the image part, present when an image is selected and compresses. */
  function ImageData(selectedImage: Option<Image>, jpegData: Image -> Option<seq<byte>>): Option<seq<byte>> {
    match selectedImage
    case None => None
    case Some(image) => jpegData(image)
  }

  function DTOPart(json: seq<byte>): Multipart.Part {
    Multipart.Part(DTOKey, None, JsonMediaType, json)
  }

  function ImagePart(jpeg: seq<byte>): Multipart.Part {
    Multipart.Part(ImageKey, Some(ImageFileName), JpegMediaType, jpeg)
  }

  /** The parts of the body: the DTO, then the photo if there is one. */
  function PlaceParts(json: seq<byte>, imageData: Option<seq<byte>>): seq<Multipart.Part> {
    [DTOPart(json)] + (match imageData case None => [] case Some(jpeg) => [ImagePart(jpeg)])
  }

  function PlaceHeaders(boundary: string, accessToken: string): map<string, string> {
    map["Authorization" := "Bearer " + accessToken,
        "Content-Type" := "multipart/form-data; boundary=" + boundary]
  }

  /** The request sent for a serialised DTO and the photo's bytes, if any. */
  function SentRequest(boundary: string, accessToken: string, json: seq<byte>, imageData: Option<seq<byte>>): Request {
    Request(PlacesEndpoint, "POST", PlaceHeaders(boundary, accessToken),
            Multipart.Body(boundary, PlaceParts(json, imageData)))
  }

  /** What `submitPlace` does with a given form, independently of how it assembles the bytes. */
  function Submission(f: PlaceForm, boundary: string, accessToken: string,
                      encodeJson: PlaceDTO -> Option<seq<byte>>, jpegData: Image -> Option<seq<byte>>): SubmitOutcome
  {
    if !HasRequiredFields(f) then MissingFields
    else match encodeJson(MakeDTO(f))
      case None => EncodingFailed
      case Some(json) => Sent(SentRequest(boundary, accessToken, json, ImageData(f.selectedImage, jpegData)))
  }

  /** Without a name, an address, a category or a positive rating nothing is built or sent. */
  lemma MissingFieldsSendNothing(f: PlaceForm, boundary: string, accessToken: string,
                                 encodeJson: PlaceDTO -> Option<seq<byte>>, jpegData: Image -> Option<seq<byte>>)
    requires f.name == [] || f.address == [] || f.category == [] || f.rating <= 0
    ensures Submission(f, boundary, accessToken, encodeJson, jpegData) == MissingFields
  {
  }

  /**
    A complete form is sent unless the serialiser fails. The serialiser sees
    the category in lower case and every other field as entered; the request
    is a POST to the places endpoint carrying the bearer token and announcing
    the boundary that delimits its body.
   */
  lemma CompleteFormIsSent(f: PlaceForm, boundary: string, accessToken: string,
                           encodeJson: PlaceDTO -> Option<seq<byte>>, jpegData: Image -> Option<seq<byte>>)
    requires HasRequiredFields(f)
    ensures var dto := MakeDTO(f);
            var out := Submission(f, boundary, accessToken, encodeJson, jpegData);
            dto.name == f.name && dto.address == f.address && dto.telephoneNumber == f.telephoneNumber
            && dto.rating == f.rating && |dto.category| == |f.category|
            && (forall i :: 0 <= i < |f.category| ==>
                  dto.category[i]
                  == (if IsUpperAscii(f.category[i]) then (f.category[i] as int + 32) as char else f.category[i]))
            && (out.EncodingFailed? <==> encodeJson(dto).None?)
            && (out.Sent? ==>
                  out.request.url == PlacesEndpoint && out.request.httpMethod == "POST"
                  && out.request.headers["Authorization"] == "Bearer " + accessToken
                  && out.request.headers["Content-Type"] == "multipart/form-data; boundary=" + boundary)
  {
    LowercasedSpec(f.category);
  }

  /** A complete form leaves `submitPlace` with a request exactly when the serialiser succeeds. */
  lemma SentIffSerialised(f: PlaceForm, boundary: string, accessToken: string,
                          encodeJson: PlaceDTO -> Option<seq<byte>>, jpegData: Image -> Option<seq<byte>>)
    requires HasRequiredFields(f)
    ensures Submission(f, boundary, accessToken, encodeJson, jpegData).Sent? <==> encodeJson(MakeDTO(f)).Some?
  {
  }

  /** The `placeDTO` part as the view appends it, line by line. */
  function DTOSection(boundary: string, json: seq<byte>): seq<byte> {
    Encode(Multipart.OpeningDelimiter(boundary)) + Encode(DTODisposition) + Encode(JsonContentType)
    + json + Encode(Multipart.CRLF)
  }

  /** The `placeImgUrls` part as the view appends it, or nothing without JPEG data. */
  function ImageSection(boundary: string, imageData: Option<seq<byte>>): seq<byte> {
    match imageData
    case None => []
    case Some(jpeg) =>
      Encode(Multipart.OpeningDelimiter(boundary)) + Encode(ImageDisposition) + Encode(JpegContentType)
      + jpeg + Encode(Multipart.CRLF)
  }

  /**
    The body of a sent request: the `placeDTO` part (opening delimiter, its
    disposition, `Content-Type: application/json`, a blank line, the JSON and
    a CRLF), then a `placeImgUrls` part exactly when a photo is selected and
    compresses, then the closing delimiter; as multipart/form-data, that is
    one part without a photo and two with one.
   */
  lemma SentBodyLayout(f: PlaceForm, boundary: string, accessToken: string,
                       encodeJson: PlaceDTO -> Option<seq<byte>>, jpegData: Image -> Option<seq<byte>>)
    requires HasRequiredFields(f)
    requires encodeJson(MakeDTO(f)).Some?
    ensures var json := encodeJson(MakeDTO(f)).value;
            var imageData := ImageData(f.selectedImage, jpegData);
            var out := Submission(f, boundary, accessToken, encodeJson, jpegData);
            var parts := PlaceParts(json, imageData);
            out.Sent?
            && (imageData.Some? <==> f.selectedImage.Some? && jpegData(f.selectedImage.value).Some?)
            && |parts| == (if imageData.Some? then 2 else 1)
            && out.request.body == Multipart.Body(boundary, parts)
            && out.request.body
               == DTOSection(boundary, json) + ImageSection(boundary, imageData)
                  + Encode(Multipart.ClosingDelimiter(boundary))
  {
    var json := encodeJson(MakeDTO(f)).value;
    var imageData := ImageData(f.selectedImage, jpegData);
    assert Submission(f, boundary, accessToken, encodeJson, jpegData)
        == Sent(SentRequest(boundary, accessToken, json, imageData));
    PlaceBody(boundary, json, imageData);
  }

  /** The reference body of the place parts is the DTO section, the image section and the closing delimiter. */
  lemma PlaceBody(boundary: string, json: seq<byte>, imageData: Option<seq<byte>>)
    ensures Multipart.Body(boundary, PlaceParts(json, imageData))
         == DTOSection(boundary, json) + ImageSection(boundary, imageData) + Encode(Multipart.ClosingDelimiter(boundary))
  {
    var close := Encode(Multipart.ClosingDelimiter(boundary));
    match imageData {
      case None =>
        assert PlaceParts(json, imageData) == [DTOPart(json)];
        PlaceBodyWithoutImage(boundary, json);
        assert DTOSection(boundary, json) + [] == DTOSection(boundary, json);
      case Some(jpeg) =>
        assert PlaceParts(json, imageData) == [DTOPart(json), ImagePart(jpeg)];
        PlaceBodyWithImage(boundary, json, jpeg);
    }
  }

  lemma PlaceBodyWithoutImage(boundary: string, json: seq<byte>)
    ensures Multipart.Body(boundary, [DTOPart(json)]) == DTOSection(boundary, json) + Encode(Multipart.ClosingDelimiter(boundary))
  {
    var p := DTOPart(json);
    var close := Encode(Multipart.ClosingDelimiter(boundary));
    calc {
      Multipart.Body(boundary, [p]);
      Multipart.PartsBytes(boundary, [p]) + close;
      { assert [p][1..] == []; }
      (Multipart.PartBytes(boundary, p) + []) + close;
      { assert Multipart.PartBytes(boundary, p) + [] == Multipart.PartBytes(boundary, p); }
      Multipart.PartBytes(boundary, p) + close;
      { DTOPartBytes(boundary, json); }
      DTOSection(boundary, json) + close;
    }
  }

  lemma PlaceBodyWithImage(boundary: string, json: seq<byte>, jpeg: seq<byte>)
    ensures Multipart.Body(boundary, [DTOPart(json), ImagePart(jpeg)])
         == DTOSection(boundary, json) + ImageSection(boundary, Some(jpeg)) + Encode(Multipart.ClosingDelimiter(boundary))
  {
    var p, q := DTOPart(json), ImagePart(jpeg);
    var close := Encode(Multipart.ClosingDelimiter(boundary));
    calc {
      Multipart.Body(boundary, [p, q]);
      Multipart.PartsBytes(boundary, [p, q]) + close;
      { assert [p, q][1..] == [q]; }
      (Multipart.PartBytes(boundary, p) + Multipart.PartsBytes(boundary, [q])) + close;
      { assert [q][1..] == [];
        assert Multipart.PartsBytes(boundary, [q]) == Multipart.PartBytes(boundary, q) + [];
        assert Multipart.PartBytes(boundary, q) + [] == Multipart.PartBytes(boundary, q); }
      (Multipart.PartBytes(boundary, p) + Multipart.PartBytes(boundary, q)) + close;
      { DTOPartBytes(boundary, json); ImagePartBytes(boundary, jpeg); }
      DTOSection(boundary, json) + ImageSection(boundary, Some(jpeg)) + close;
    }
  }

  /** The `placeDTO` part of the reference layout is what the view appends for it. */
  lemma DTOPartBytes(boundary: string, json: seq<byte>)
    ensures Multipart.PartBytes(boundary, DTOPart(json)) == DTOSection(boundary, json)
  {
    var p := DTOPart(json);
    assert Multipart.DispositionLine(p) == DTODisposition;
    assert Multipart.ContentTypeLines(p) == JsonContentType;
  }

  /** The `placeImgUrls` part of the reference layout is what the view appends for it. */
  lemma ImagePartBytes(boundary: string, jpeg: seq<byte>)
    ensures Multipart.PartBytes(boundary, ImagePart(jpeg)) == ImageSection(boundary, Some(jpeg))
  {
    var p := ImagePart(jpeg);
    assert Multipart.DispositionLine(p) == ImageDisposition;
    assert Multipart.ContentTypeLines(p) == JpegContentType;
  }

  /** The example form of a name, an address, the category "Food" and three stars, without a photo. */
  lemma ExampleSubmission(boundary: string, accessToken: string,
                          encodeJson: PlaceDTO -> Option<seq<byte>>, jpegData: Image -> Option<seq<byte>>)
    requires encodeJson(PlaceDTO("A", "B", "food", "", 3)).Some?
    ensures MakeDTO(PlaceForm("A", "B", "", "Food", 3, None)) == PlaceDTO("A", "B", "food", "", 3)
    ensures var out := Submission(PlaceForm("A", "B", "", "Food", 3, None), boundary, accessToken, encodeJson, jpegData);
            out.Sent?
            && out.request.body
               == Multipart.Body(boundary, [DTOPart(encodeJson(PlaceDTO("A", "B", "food", "", 3)).value)])
  {
    assert Lowercased("Food") == "food";
    assert PlaceParts(encodeJson(PlaceDTO("A", "B", "food", "", 3)).value, None)
        == [DTOPart(encodeJson(PlaceDTO("A", "B", "food", "", 3)).value)];
  }

  // ---------------------------------------------------------------------------
  // The view's state

  /** The `@State` of `RegisterPlaceView` that submission reads and writes. */
  class RegisterPlaceView {
    var name: string
    var address: string
    var telephoneNumber: string
    var selectedCategory: string
    var rating: int
    var isSubmitting: bool
    var selectedImage: Option<Image>
    /** The requests handed to `URLSession` whose completion handler has not run yet. */
    var inFlight: seq<Request>
    /** Whether `presentationMode.wrappedValue.dismiss()` has been called. */
    var dismissed: bool

    constructor ()
      ensures name == [] && address == [] && telephoneNumber == [] && selectedCategory == [] && rating == 0
      ensures !isSubmitting && selectedImage == None && inFlight == [] && !dismissed
      ensures AtMostOneInFlight()
    {
      name, address, telephoneNumber, selectedCategory, rating := "", "", "", "", 0;
      isSubmitting, selectedImage := false, None;
      inFlight, dismissed := [], false;
    }

    /** The bindings as one form. */
    function Form(): PlaceForm
      reads this`name, this`address, this`telephoneNumber, this`selectedCategory, this`rating, this`selectedImage
    {
      PlaceForm(name, address, telephoneNumber, selectedCategory, rating, selectedImage)
    }

    /**
      The invariant the disabled button keeps: at most one request is in
      flight, and `isSubmitting` is set exactly while there is one.
     */
    ghost predicate AtMostOneInFlight()
      reads this
    {
      |inFlight| <= 1 && (isSubmitting <==> |inFlight| == 1)
    }

    /** The text fields, the star rating, the category picker and the photo picker write their bindings. */
    method Fill(name': string, address': string, telephoneNumber': string, category': string, rating': int,
                image': Option<Image>)
      modifies this`name, this`address, this`telephoneNumber, this`selectedCategory, this`rating, this`selectedImage
      ensures name == name' && address == address' && telephoneNumber == telephoneNumber'
      ensures selectedCategory == category' && rating == rating' && selectedImage == image'
    {
      name, address, telephoneNumber, selectedCategory, rating := name', address', telephoneNumber', category', rating';
      selectedImage := image';
    }

    /**
      `submitPlace()`: check the required fields, raise `isSubmitting`, build
      the request and its body by appending one piece after the other, and
      hand it to the network; on a serialiser failure lower the flag again.
     */
    method SubmitPlace(boundary: string, accessToken: string,
                       encodeJson: PlaceDTO -> Option<seq<byte>>, jpegData: Image -> Option<seq<byte>>)
      returns (outcome: SubmitOutcome)
      modifies this`isSubmitting, this`inFlight
      ensures outcome == Submission(Form(), boundary, accessToken, encodeJson, jpegData)
      ensures isSubmitting == match outcome
                              case MissingFields => old(isSubmitting)
                              case EncodingFailed => false
                              case Sent(_) => true
      ensures inFlight == if outcome.Sent? then old(inFlight) + [outcome.request] else old(inFlight)
    {
      if !(name != [] && address != [] && selectedCategory != [] && rating > 0) {
        return MissingFields;
      }

      isSubmitting := true;

      var request := Request(PlacesEndpoint, "GET", map[], []);
      request := request.(httpMethod := "POST");
      request := request.(headers := request.headers["Authorization" := "Bearer " + accessToken]);
      request := request.(headers := request.headers["Content-Type" := "multipart/form-data; boundary=" + boundary]);

      var placeDTO := PlaceDTO(name, address, Lowercased(selectedCategory), telephoneNumber, rating);
      var jsonData := encodeJson(placeDTO);
      if jsonData.None? {
        isSubmitting := false;
        return EncodingFailed;
      }
      var body := BuildBody(boundary, jsonData.value, selectedImage, jpegData);
      request := request.(body := body);
      assert request.headers == PlaceHeaders(boundary, accessToken);
      inFlight := inFlight + [request];
      outcome := Sent(request);
    }

    /**
      The body `submitPlace()` grows with `append`: the `placeDTO` part, the
      `placeImgUrls` part when the selected image compresses, and the closing
      delimiter; it is the multipart/form-data body of those parts.
     */
    static method BuildBody(boundary: string, json: seq<byte>, selectedImage: Option<Image>,
                            jpegData: Image -> Option<seq<byte>>)
      returns (body: seq<byte>)
      ensures body == Multipart.Body(boundary, PlaceParts(json, ImageData(selectedImage, jpegData)))
    {
      body := [];
      body := AppendJsonPart(body, boundary, json);
      ghost var dto := DTOSection(boundary, json);
      assert body == dto by {
        assert [] + dto == dto;
      }

      var imageData: Option<seq<byte>> := None;
      if selectedImage.Some? {
        imageData := jpegData(selectedImage.value);
        if imageData.Some? {
          body := AppendImagePart(body, boundary, imageData.value);
        }
      }
      assert imageData == ImageData(selectedImage, jpegData);
      ghost var sections := dto + ImageSection(boundary, imageData);
      assert body == sections by {
        if imageData.None? {
          assert dto + [] == dto;
        }
      }

      body := body + Encode(Multipart.ClosingDelimiter(boundary));
      PlaceBody(boundary, json, imageData);
    }

    /** The appends of the `placeDTO` part: delimiter, disposition, content type and blank line, JSON, CRLF. */
    static method AppendJsonPart(body: seq<byte>, boundary: string, json: seq<byte>) returns (body': seq<byte>)
      ensures body' == body + DTOSection(boundary, json)
    {
      var open, disposition, contentType, crlf :=
        Encode(Multipart.OpeningDelimiter(boundary)), Encode(DTODisposition), Encode(JsonContentType), Encode(Multipart.CRLF);
      body' := body;
      body' := body' + open;
      body' := body' + disposition;
      body' := body' + contentType;
      body' := body' + json;
      body' := body' + crlf;
      Multipart.AppendAssoc(body, open, disposition);
      Multipart.AppendAssoc(body, open + disposition, contentType);
      Multipart.AppendAssoc(body, open + disposition + contentType, json);
      Multipart.AppendAssoc(body, open + disposition + contentType + json, crlf);
    }

    /** The appends of the `placeImgUrls` part: delimiter, disposition with file name, content type and blank line, JPEG, CRLF. */
    static method AppendImagePart(body: seq<byte>, boundary: string, jpeg: seq<byte>) returns (body': seq<byte>)
      ensures body' == body + ImageSection(boundary, Some(jpeg))
    {
      var open, disposition, contentType, crlf :=
        Encode(Multipart.OpeningDelimiter(boundary)), Encode(ImageDisposition), Encode(JpegContentType), Encode(Multipart.CRLF);
      body' := body;
      body' := body' + open;
      body' := body' + disposition;
      body' := body' + contentType;
      body' := body' + jpeg;
      body' := body' + crlf;
      Multipart.AppendAssoc(body, open, disposition);
      Multipart.AppendAssoc(body, open + disposition, contentType);
      Multipart.AppendAssoc(body, open + disposition + contentType, jpeg);
      Multipart.AppendAssoc(body, open + disposition + contentType + jpeg, crlf);
    }

    /** The submit button: its action runs `submitPlace()` unless `.disabled(isSubmitting)` holds. */
    method SubmitTapped(boundary: string, accessToken: string,
                        encodeJson: PlaceDTO -> Option<seq<byte>>, jpegData: Image -> Option<seq<byte>>)
      returns (outcome: Option<SubmitOutcome>)
      requires AtMostOneInFlight()
      modifies this`isSubmitting, this`inFlight
      ensures AtMostOneInFlight()
      ensures old(isSubmitting) ==> outcome == None && isSubmitting && inFlight == old(inFlight)
      ensures !old(isSubmitting) ==>
                outcome == Some(Submission(Form(), boundary, accessToken, encodeJson, jpegData))
                && (isSubmitting <==> outcome.value.Sent?)
                && inFlight == if outcome.value.Sent? then old(inFlight) + [outcome.value.request] else old(inFlight)
    {
      if isSubmitting {
        return None;
      }
      var o := SubmitPlace(boundary, accessToken, encodeJson, jpegData);
      outcome := Some(o);
    }

    /**
      The `dataTask` completion handler for the `i`-th request in flight: it
      lowers `isSubmitting` whatever happened, returns early on a transport
      error, and otherwise dismisses the view, whatever the HTTP status.
     */
    method Complete(i: nat, completion: Completion)
      requires i < |inFlight|
      modifies this`isSubmitting, this`inFlight, this`dismissed
      ensures !isSubmitting
      ensures inFlight == old(inFlight[..i] + inFlight[i + 1..])
      ensures dismissed == (old(dismissed) || DismissesAsWritten(completion))
      ensures old(AtMostOneInFlight()) ==> AtMostOneInFlight() && inFlight == []
    {
      inFlight := inFlight[..i] + inFlight[i + 1..];
      isSubmitting := false;
      if completion.error.Some? {
        return;
      }
      dismissed := true;
    }

    /**
      The completion handler as its dismissal comment intends it: the flag is
      lowered whatever happened, but the view is dismissed only after a
      2xx response, so a rejected registration leaves the form on screen.
     */
    method CompleteOnSuccess(i: nat, completion: Completion)
      requires i < |inFlight|
      modifies this`isSubmitting, this`inFlight, this`dismissed
      ensures !isSubmitting
      ensures inFlight == old(inFlight[..i] + inFlight[i + 1..])
      ensures dismissed == (old(dismissed) || Succeeded(completion))
      ensures old(AtMostOneInFlight()) ==> AtMostOneInFlight() && inFlight == []
    {
      inFlight := inFlight[..i] + inFlight[i + 1..];
      isSubmitting := false;
      if completion.error.Some? {
        return;
      }
      if completion.statusCode.Some? && 200 <= completion.statusCode.value <= 299 {
        dismissed := true;
      }
    }
  }

  /** A tap on an idle view holding a complete form sends its request and disables the button. */
  method TapCompleteForm(view: RegisterPlaceView, boundary: string, accessToken: string,
                         encodeJson: PlaceDTO -> Option<seq<byte>>, jpegData: Image -> Option<seq<byte>>)
    returns (first: Option<SubmitOutcome>)
    requires view.AtMostOneInFlight() && !view.isSubmitting
    requires HasRequiredFields(view.Form()) && encodeJson(MakeDTO(view.Form())).Some?
    modifies view`isSubmitting, view`inFlight
    ensures first.Some? && first.value.Sent?
    ensures view.isSubmitting && view.AtMostOneInFlight()
  {
    first := view.SubmitTapped(boundary, accessToken, encodeJson, jpegData);
    SentIffSerialised(view.Form(), boundary, accessToken, encodeJson, jpegData);
  }

  /**
    Tapping the button twice before the response arrives sends one request
    only; its completion then clears the flag and, with the handler
    corrected, dismisses the view exactly when the server accepted the place.
   */
  method TwoTapsSendOneRequest(form: PlaceForm, boundary: string, accessToken: string,
                               encodeJson: PlaceDTO -> Option<seq<byte>>, jpegData: Image -> Option<seq<byte>>,
                               completion: Completion)
    returns (first: Option<SubmitOutcome>, second: Option<SubmitOutcome>, requestsSent: nat, dismissed: bool)
    requires HasRequiredFields(form)
    requires encodeJson(MakeDTO(form)).Some?
    ensures first.Some? && first.value.Sent? && second == None
    ensures requestsSent == 1
    ensures dismissed <==> Succeeded(completion)
  {
    var view := new RegisterPlaceView();
    view.Fill(form.name, form.address, form.telephoneNumber, form.category, form.rating, form.selectedImage);
    assert view.Form() == form;
    first := TapCompleteForm(view, boundary, accessToken, encodeJson, jpegData);
    second := view.SubmitTapped(boundary, accessToken, encodeJson, jpegData);
    requestsSent := |view.inFlight|;
    view.CompleteOnSuccess(0, completion);
    dismissed := view.dismissed;
  }
}
