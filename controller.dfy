/** The restaurant controller's handlers: the two update pipelines (owner
    and administrator), creation and the account-settings guard. */
module Controller {
  import opened Wrappers
  import opened Json
  import opened Restaurant
  import opened Reconciler

  /** The uploaded logo URL, when a logo was to be uploaded and the upload returned. */
  function LogoUrl(logoPath: Option<Path>, upload: Call<Url>): Option<Url>
  {
    if logoPath.Some? && upload.Returned? then Some(upload.value) else None
  }

  /** The uploaded image URLs, when image files were sent and the upload returned. */
  function ImageUrls(imageFiles: seq<Path>, upload: Call<seq<Url>>): Option<seq<Url>>
  {
    if |imageFiles| > 0 && upload.Returned? then Some(upload.value) else None
  }

  /** The specification of both update handlers, which differ only in the
      target: parse the body, upload the logo, fetch the stored record (the
      administrator's update stops with 404 when there is none), upload and
      merge the images, validate the candidate and persist the validator's
      output as a partial update. */
  function Update(target: Target, req: Request, svc: Services): Run
  {
    match NormaliseUpdateBody(req.data)
    case Failure(e) => Run(Failure(e), [])
    case Success(data) =>
      var logoPath := LogoToUpload(req.logoFiles);
      var afterLogo := if logoPath.Some? then [UploadLogo(logoPath)] else [];
      if logoPath.Some? && svc.logoUpload.Threw? then Run(Failure(LogoUploadFailed), afterLogo)
      else
        var afterLookup := afterLogo + [FindById(target.id)];
        match svc.lookup
        case Threw => Run(Failure(StoreError), afterLookup)
        case Returned(existing) =>
          if target.AsAdmin? && existing.None? then Run(Failure(RestaurantNotFound), afterLookup)
          else
            var sendsImages := |req.imageFiles| > 0;
            var afterImages := afterLookup + (if sendsImages then [UploadImages(req.imageFiles)] else []);
            if sendsImages && svc.imagesUpload.Threw? then Run(Failure(ImagesUploadFailed), afterImages)
            else
              var candidate := Reconcile(data, LogoUrl(logoPath, svc.logoUpload), existing,
                                         ImageUrls(req.imageFiles, svc.imagesUpload));
              var afterValidate := afterImages + [Validate(candidate)];
              match svc.validator(candidate)
              case Rejected(issues) => Run(Failure(ValidationError(issues)), afterValidate)
              case Accepted(fields) =>
                var afterSave := afterValidate + [Save(target, fields)];
                match svc.service
                case Threw => Run(Failure(StoreError), afterSave)
                case Returned(doc) =>
                  Run(Success(Response(OK, Some("Restaurant updated successfully"), doc)), afterSave)
  }

  /** `updateRestuarant`: the owner updates the restaurant bound to it. */
  method UpdateRestaurant(req: Request, user: Principal, svc: Services)
    returns (outcome: Result<Response, Error>, trace: seq<Effect>)
    ensures Run(outcome, trace) == Update(AsOwner(user.restaurant), req, svc)
  {
    trace := [];
    var body := NormaliseUpdateBody(req.data);
    if body.Failure? {
      outcome := Failure(body.error);
      return;
    }
    var data := body.value;
    var restaurantId := user.restaurant;
    var files := req.imageFiles;
    var uploadLogo := LogoToUpload(req.logoFiles);

    var restaurantData := data - MediaKeys;

    if uploadLogo.Some? {
      trace := trace + [UploadLogo(uploadLogo)];
      if svc.logoUpload.Threw? {
        outcome := Failure(LogoUploadFailed);
        return;
      }
      restaurantData := restaurantData["logo" := Str(svc.logoUpload.value)];
    }

    trace := trace + [FindById(restaurantId)];
    if svc.lookup.Threw? {
      outcome := Failure(StoreError);
      return;
    }
    var existingRestaurant := svc.lookup.value;

    if |files| > 0 {
      trace := trace + [UploadImages(files)];
      if svc.imagesUpload.Threw? {
        outcome := Failure(ImagesUploadFailed);
        return;
      }
      var uploadedImages := svc.imagesUpload.value;
      restaurantData := restaurantData["images" := StrList(ExistingImages(existingRestaurant) + uploadedImages)];
      var cover := Get(restaurantData, "coverPhoto");
      restaurantData := restaurantData["coverPhoto" := if Truthy(cover) then cover else FirstOr(uploadedImages)];
    } else {
      restaurantData := restaurantData["images" := StrList(ExistingImages(existingRestaurant))];
    }

    trace := trace + [Validate(restaurantData)];
    var verdict := svc.validator(restaurantData);
    if verdict.Rejected? {
      outcome := Failure(ValidationError(verdict.issues));
      return;
    }

    trace := trace + [Save(AsOwner(restaurantId), verdict.normalized)];
    if svc.service.Threw? {
      outcome := Failure(StoreError);
      return;
    }
    outcome := Success(Response(OK, Some("Restaurant updated successfully"), svc.service.value));
  }

  /** `updateRestuarantByAdmin`: an administrator updates the restaurant named
      in the path; a restaurant that does not exist is a 404, raised after the
      logo upload. */
  method UpdateRestaurantByAdmin(req: Request, pathId: Id, svc: Services)
    returns (outcome: Result<Response, Error>, trace: seq<Effect>)
    ensures Run(outcome, trace) == Update(AsAdmin(pathId), req, svc)
  {
    trace := [];
    var body := NormaliseUpdateBody(req.data);
    if body.Failure? {
      outcome := Failure(body.error);
      return;
    }
    var data := body.value;
    var restaurantId := pathId;
    var files := req.imageFiles;
    var uploadLogo := LogoToUpload(req.logoFiles);

    var restaurantData := data - MediaKeys;

    if uploadLogo.Some? {
      trace := trace + [UploadLogo(uploadLogo)];
      if svc.logoUpload.Threw? {
        outcome := Failure(LogoUploadFailed);
        return;
      }
      restaurantData := restaurantData["logo" := Str(svc.logoUpload.value)];
    }

    trace := trace + [FindById(restaurantId)];
    if svc.lookup.Threw? {
      outcome := Failure(StoreError);
      return;
    }
    var existingRestaurant := svc.lookup.value;
    if existingRestaurant.None? {
      outcome := Failure(RestaurantNotFound);
      return;
    }

    if |files| > 0 {
      trace := trace + [UploadImages(files)];
      if svc.imagesUpload.Threw? {
        outcome := Failure(ImagesUploadFailed);
        return;
      }
      var uploadedImages := svc.imagesUpload.value;
      restaurantData := restaurantData["images" := StrList(ExistingImages(existingRestaurant) + uploadedImages)];
      var cover := Get(restaurantData, "coverPhoto");
      restaurantData := restaurantData["coverPhoto" := if Truthy(cover) then cover else FirstOr(uploadedImages)];
    } else {
      restaurantData := restaurantData["images" := StrList(ExistingImages(existingRestaurant))];
    }

    trace := trace + [Validate(restaurantData)];
    var verdict := svc.validator(restaurantData);
    if verdict.Rejected? {
      outcome := Failure(ValidationError(verdict.issues));
      return;
    }

    trace := trace + [Save(AsAdmin(restaurantId), verdict.normalized)];
    if svc.service.Threw? {
      outcome := Failure(StoreError);
      return;
    }
    outcome := Success(Response(OK, Some("Restaurant updated successfully"), svc.service.value));
  }

  /** `postRestuarant`: parse the body, upload the logo and the images (both
      unconditionally), then create the record. Upload errors are not caught. */
  function PostRestaurant(req: Request, user: Principal, svc: Services): (run: Run)
    ensures ParseCreateBody(req.data).Failure? ==> run == Run(Failure(BodyParseError), [])
    // once the body parses, the logo upload is always attempted first, then the images
    ensures ParseCreateBody(req.data).Success? ==>
      |run.trace| >= 1 && run.trace[0] == UploadLogo(LogoPath(req.logoFiles))
    ensures ParseCreateBody(req.data).Success? && svc.logoUpload.Returned? ==>
      |run.trace| >= 2 && run.trace[1] == UploadImages(req.imageFiles)
    // a failed upload ends the handler: nothing further is uploaded or created
    ensures ParseCreateBody(req.data).Success? && svc.logoUpload.Threw? ==>
      run.trace == [UploadLogo(LogoPath(req.logoFiles))]
    ensures ParseCreateBody(req.data).Success? && svc.logoUpload.Returned? && svc.imagesUpload.Threw? ==>
      run.trace == [UploadLogo(LogoPath(req.logoFiles)), UploadImages(req.imageFiles)]
    ensures run.outcome.Success? <==>
      ParseCreateBody(req.data).Success? && svc.logoUpload.Returned? &&
      svc.imagesUpload.Returned? && svc.service.Returned?
    // what is created is the record built from the body and both uploads
    ensures ParseCreateBody(req.data).Success? && svc.logoUpload.Returned? && svc.imagesUpload.Returned? ==>
      run.trace == [UploadLogo(LogoPath(req.logoFiles)), UploadImages(req.imageFiles),
                    Create(NewRestaurant(ParseCreateBody(req.data).value, svc.logoUpload.value,
                                         svc.imagesUpload.value, user.id))]
    ensures run.outcome.Success? ==>
      run.outcome.value == Response(CREATED, Some("Restaurant created successfully"), svc.service.value)
    // once the body parses, an upload error propagates as it is and a service error follows the create call
    ensures ParseCreateBody(req.data).Success? && run.outcome.Failure? ==>
      run.outcome.error == (if svc.service.Threw? && |run.trace| == 3 then StoreError else UploaderError)
  {
    match ParseCreateBody(req.data)
    case Failure(e) => Run(Failure(e), [])
    case Success(data) =>
      var afterLogo := [UploadLogo(LogoPath(req.logoFiles))];
      match svc.logoUpload
      case Threw => Run(Failure(UploaderError), afterLogo)
      case Returned(logoUrl) =>
        var afterImages := afterLogo + [UploadImages(req.imageFiles)];
        match svc.imagesUpload
        case Threw => Run(Failure(UploaderError), afterImages)
        case Returned(uploaded) =>
          var afterCreate := afterImages + [Create(NewRestaurant(data, logoUrl, uploaded, user.id))];
          match svc.service
          case Threw => Run(Failure(StoreError), afterCreate)
          case Returned(doc) =>
            Run(Success(Response(CREATED, Some("Restaurant created successfully"), doc)), afterCreate)
  }

  /** `setAccountSettings`: both passwords must be present (truthy) before the
      service is called with the owner's restaurant. */
  function AccountSettings(body: Fields, user: Principal, svc: Services): (run: Run)
    ensures run.outcome == Failure(PasswordsRequired) <==>
      !Truthy(Get(body, "oldPassword")) || !Truthy(Get(body, "newPassword"))
    ensures run.outcome == Failure(PasswordsRequired) ==> run.trace == []
    ensures run.outcome != Failure(PasswordsRequired) ==>
      run.trace == [ChangePassword(user.restaurant, Get(body, "oldPassword"), Get(body, "newPassword"))]
    ensures run.outcome.Success? <==> run.outcome != Failure(PasswordsRequired) && svc.service.Returned?
    ensures run.outcome.Success? ==> run.outcome.value == Response(OK, None, svc.service.value)
    ensures svc.service.Threw? && run.outcome != Failure(PasswordsRequired) ==> run.outcome == Failure(StoreError)
  {
    var oldPassword := Get(body, "oldPassword");
    var newPassword := Get(body, "newPassword");
    if !Truthy(oldPassword) || !Truthy(newPassword) then Run(Failure(PasswordsRequired), [])
    else
      var called := [ChangePassword(user.restaurant, oldPassword, newPassword)];
      match svc.service
      case Threw => Run(Failure(StoreError), called)
      case Returned(result) => Run(Success(Response(OK, None, result)), called)
  }
}
