/** The pure part of the controller: reading the body, choosing the logo file,
    merging a candidate record for an update and building a new record. */
module Reconciler {
  import opened Wrappers
  import opened Json
  import opened Restaurant

  /** The update handlers' reading of `req.body.data`: a non-empty string is
      parsed, an object is taken as it is, anything falsy (including the empty
      string) is the empty record. */
  function NormaliseUpdateBody(body: BodyData): (r: Result<Fields, Error>)
    ensures r.Failure? <==> body.JsonText? && body.text != "" && body.decoded.None?
    ensures r.Failure? ==> r.error == BodyParseError
    ensures body.NoData? || (body.JsonText? && body.text == "") ==> r == Success(map[])
    ensures body.JsonObject? ==> r == Success(body.fields)
    ensures body.JsonText? && body.text != "" && body.decoded.Some? ==> r == Success(body.decoded.value)
  {
    match body
    case NoData => Success(map[])
    case JsonText(text, decoded) =>
      if text == "" then Success(map[])
      else if decoded.Some? then Success(decoded.value)
      else Failure(BodyParseError)
    case JsonObject(fields) => Success(fields)
  }

  /** The creation handler's `JSON.parse(req.body.data)`: only a non-empty
      JSON string parses; an absent value, the empty string and an object
      (stringified to "[object Object]") make it throw. */
  function ParseCreateBody(body: BodyData): (r: Result<Fields, Error>)
    ensures r.Success? <==> body.JsonText? && body.text != "" && body.decoded.Some?
    ensures r.Success? ==> r.value == body.decoded.value
    ensures r.Failure? ==> r.error == BodyParseError
  {
    if body.JsonText? && body.text != "" && body.decoded.Some? then Success(body.decoded.value)
    else Failure(BodyParseError)
  }

  /** `req.files?.logo?.[0]?.path`: the first logo file, if any. */
  function LogoPath(logoFiles: seq<Path>): Option<Path>
  {
    if |logoFiles| > 0 then Some(logoFiles[0]) else None
  }

  /** The logo file the update handlers upload: the first one, when its path
      is truthy. */
  function LogoToUpload(logoFiles: seq<Path>): (p: Option<Path>)
    ensures p.Some? <==> |logoFiles| > 0 && logoFiles[0] != ""
    ensures p.Some? ==> p == LogoPath(logoFiles)
  {
    match LogoPath(logoFiles)
    case Some(path) => if Truthy(Str(path)) then Some(path) else None
    case None => None
  }

  /** The two handler families read `req.body.data` differently: whatever
      creation parses, an update reads the same way; an update also accepts
      an absent body, the empty string and an object, which creation rejects;
      and what an update rejects, creation rejects too. */
  lemma BodyReadingsDiffer(body: BodyData)
    ensures ParseCreateBody(body).Success? ==> NormaliseUpdateBody(body) == ParseCreateBody(body)
    ensures ParseCreateBody(body).Failure? && NormaliseUpdateBody(body).Success? <==>
      body.NoData? || (body.JsonText? && body.text == "") || body.JsonObject?
    ensures NormaliseUpdateBody(body).Failure? ==> ParseCreateBody(body).Failure?
    ensures body.NoData? || (body.JsonText? && body.text == "") ==> NormaliseUpdateBody(body) == Success(map[])
  {
  }

  /** The candidate record of an update, built as the handlers build
      `restaurantData`: the body without its media fields, the uploaded logo,
      the merged images and, when image files were sent, the cover photo.
      `logoUrl` is the uploaded logo (None: no logo was uploaded); `uploads`
      is what the image upload returned (None: no image files were sent). */
  function Reconcile(data: Fields, logoUrl: Option<Url>, existing: Option<Fields>, uploads: Option<seq<Url>>): (c: Fields)
    // every other body field passes through unchanged
    ensures forall k :: k !in MediaKeys ==> (k in c <==> k in data)
    ensures forall k :: k !in MediaKeys && k in data ==> c[k] == data[k]
    // the logo is there exactly when one was uploaded, with its URL
    ensures "logo" in c <==> logoUrl.Some?
    ensures logoUrl.Some? ==> c["logo"] == Str(logoUrl.value)
    // images: the stored ones followed by the uploaded ones
    ensures "images" in c
    ensures uploads.Some? ==> c["images"] == StrList(ExistingImages(existing) + uploads.value)
    ensures uploads.None? ==> c["images"] == StrList(ExistingImages(existing))
    // the cover photo is the first upload, whatever the body said
    ensures "coverPhoto" in c <==> uploads.Some?
    ensures uploads.Some? ==> c["coverPhoto"] == FirstOr(uploads.value)
  {
    var rest := data - MediaKeys;
    var withLogo := if logoUrl.Some? then rest["logo" := Str(logoUrl.value)] else rest;
    match uploads
    case None => withLogo["images" := StrList(ExistingImages(existing))]
    case Some(urls) =>
      var merged := withLogo["images" := StrList(ExistingImages(existing) + urls)];
      var cover := Get(merged, "coverPhoto");
      merged["coverPhoto" := if Truthy(cover) then cover else FirstOr(urls)]
  }

  /** The record the creation handler hands to the service: images, logo,
      cover photo and owner first, then the body's other fields spread over
      them. */
  function NewRestaurant(data: Fields, logoUrl: Url, uploaded: seq<Url>, ownerId: Id): (r: Fields)
    ensures r.Keys == data.Keys + MediaKeys + {"owner"}
    ensures r["images"] == StrList(uploaded)
    ensures r["logo"] == Str(logoUrl)
    ensures r["coverPhoto"] == FirstOr(uploaded)
    // a body `owner` overrides the principal
    ensures r["owner"] == if "owner" in data then data["owner"] else Str(ownerId)
    ensures forall k :: k !in MediaKeys && k in data ==> r[k] == data[k]
  {
    map["images" := StrList(uploaded), "logo" := Str(logoUrl),
        "coverPhoto" := FirstOr(uploaded), "owner" := Str(ownerId)]
    + (data - MediaKeys)
  }

  /** Whatever the body says about `images`, `coverPhoto` and `logo`, the
      candidate is the same. */
  lemma BodyMediaIgnored(data1: Fields, data2: Fields, logoUrl: Option<Url>, existing: Option<Fields>, uploads: Option<seq<Url>>)
    requires forall k :: k !in MediaKeys ==> (k in data1 <==> k in data2)
    requires forall k :: k !in MediaKeys && k in data1 ==> data1[k] == data2[k]
    ensures Reconcile(data1, logoUrl, existing, uploads) == Reconcile(data2, logoUrl, existing, uploads)
  {
    assert data1 - MediaKeys == data2 - MediaKeys;
  }

  /** The stored images are never lost: they are a prefix of the candidate's. */
  lemma StoredImagesKept(data: Fields, logoUrl: Option<Url>, existing: Option<Fields>, uploads: Option<seq<Url>>)
    ensures var c := Reconcile(data, logoUrl, existing, uploads);
      c["images"].StrList? && ExistingImages(existing) <= c["images"].items
  {
  }

  /** Stored ["a", "b"], uploaded ["c", "d"], no cover photo in the body. */
  lemma UploadScenario()
    ensures var c := Reconcile(map["name" := Str("Bistro")], None,
                               Some(map["images" := StrList(["a", "b"])]), Some(["c", "d"]));
      c == map["name" := Str("Bistro"), "images" := StrList(["a", "b", "c", "d"]),
               "coverPhoto" := Str("c")]
  {
    var data := map["name" := Str("Bistro")];
    assert data - MediaKeys == data;
    assert ["a", "b"] + ["c", "d"] == ["a", "b", "c", "d"];
  }

  /** Stored ["a"], no upload, the body asks for cover photo "x": the
      candidate keeps ["a"] and carries no cover photo at all. */
  lemma ExplicitCoverDroppedScenario()
    ensures var c := Reconcile(map["coverPhoto" := Str("x")], None,
                               Some(map["images" := StrList(["a"])]), None);
      c == map["images" := StrList(["a"])]
  {
  }
}
