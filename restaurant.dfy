/** The entities the restaurant controller handles: requests, the principal,
    the collaborators' answers, the calls it makes and what it responds. */
module Restaurant {
  import opened Wrappers
  import opened Json

  type Id = string
  type Url = string
  type Path = string

  /** The body fields the handlers destructure away before building a record. */
  const MediaKeys: set<string> := {"images", "coverPhoto", "logo"}

  const OK := 200
  const CREATED := 201

  const LogoUploadFailed := AppError(500, "Failed to upload logo")
  const ImagesUploadFailed := AppError(500, "Failed to upload images")
  const RestaurantNotFound := AppError(404, "restaurant doesnot found")
  const PasswordsRequired := AppError(400, "Old password and new password are required")

  /** `req.body.data`: absent, a JSON string together
      with what `JSON.parse` makes of it (None when it throws), or an object. */
  datatype BodyData =
    | NoData
    | JsonText(text: string, decoded: Option<Fields>)
    | JsonObject(fields: Fields)

  /** A multipart request: the body and the paths of the uploaded files under
      the `images` and `logo` field names. */
  datatype Request = Request(data: BodyData, imageFiles: seq<Path>, logoFiles: seq<Path>)

  /** The authenticated user: its own id and the restaurant it is bound to. */
  datatype Principal = Principal(id: Id, restaurant: Id)

  /** Whose update this is and which restaurant it targets: the owner's bound
      restaurant or the administrator's path parameter. */
  datatype Target = AsOwner(id: Id) | AsAdmin(id: Id)

  /** What the update validator makes of a candidate record. */
  datatype Verdict = Accepted(normalized: Fields) | Rejected(issues: seq<string>)

  /** The answers of the collaborators for one request: the logo upload, the
      multi-image upload, `findById`, the validator and the service call that
      persists (update, create or account settings). */
  datatype Services = Services(
    logoUpload: Call<Url>,
    imagesUpload: Call<seq<Url>>,
    lookup: Call<Option<Fields>>,
    validator: Fields -> Verdict,
    service: Call<Value>)

  /** One call the controller makes into a collaborator. */
  datatype Effect =
    | UploadLogo(logoPath: Option<Path>)
    | FindById(key: Id)
    | UploadImages(paths: seq<Path>)
    | Validate(candidate: Fields)
    | Save(target: Target, fields: Fields)
    | Create(record: Fields)
    | ChangePassword(restaurant: Id, oldPassword: Value, newPassword: Value)

  datatype Error =
    | AppError(status: int, message: string)  // thrown by the controller itself
    | BodyParseError                          // JSON.parse threw
    | UploaderError                           // an upload threw and was not caught
    | StoreError                              // findById or a service call threw
    | ValidationError(issues: seq<string>)    // the validator rejected the candidate

  /** The response sent on success. */
  datatype Response = Response(status: int, message: Option<string>, data: Value)

  /** One handler invocation: how it ended and the calls it made, in order. */
  datatype Run = Run(outcome: Result<Response, Error>, trace: seq<Effect>)

  /** `(record?.images as string[]) || []` */
  function ExistingImages(existing: Option<Fields>): seq<Url>
  {
    match existing
    case None => []
    case Some(rec) => if Get(rec, "images").StrList? then Get(rec, "images").items else []
  }

  /** `urls[0]`: `undefined` when there is none. */
  function FirstOr(urls: seq<Url>): Value
  {
    if |urls| > 0 then Str(urls[0]) else Undefined
  }

  /** Whether some call in the trace persists an update. */
  predicate Saves(trace: seq<Effect>)
  {
    exists i :: 0 <= i < |trace| && trace[i].Save?
  }
}
