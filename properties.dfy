/** What the two update handlers promise, stated about their specification
    `Controller.Update`: which calls happen in which order, which error fires
    when, what is validated and what is persisted. */
module UpdateProperties {
  import opened Wrappers
  import opened Json
  import opened Restaurant
  import opened Reconciler
  import opened Controller

  /** The position of each kind of call in the update pipeline. */
  function Stage(e: Effect): nat
  {
    match e
    case UploadLogo(_) => 0
    case FindById(_) => 1
    case UploadImages(_) => 2
    case Validate(_) => 3
    case Save(_, _) => 4
    case Create(_) => 5
    case ChangePassword(_, _, _) => 6
  }

  /** The update gets as far as validation: the body parses, the logo upload
      (when attempted) returned, the lookup returned (and, for the
      administrator, found the record) and the image upload (when attempted)
      returned. */
  predicate Reaches(target: Target, req: Request, svc: Services)
  {
    && NormaliseUpdateBody(req.data).Success?
    && !(LogoToUpload(req.logoFiles).Some? && svc.logoUpload.Threw?)
    && svc.lookup.Returned?
    && !(target.AsAdmin? && svc.lookup.value.None?)
    && !(|req.imageFiles| > 0 && svc.imagesUpload.Threw?)
  }

  /** The candidate an update validates, when it gets that far. */
  function Candidate(req: Request, svc: Services): Fields
  {
    var data := match NormaliseUpdateBody(req.data) case Success(d) => d case Failure(_) => map[];
    var existing := match svc.lookup case Returned(e) => e case Threw => None;
    Reconcile(data, LogoUrl(LogoToUpload(req.logoFiles), svc.logoUpload), existing,
              ImageUrls(req.imageFiles, svc.imagesUpload))
  }

  /** The calls of the trace are update-pipeline calls in strictly increasing stage. */
  predicate InPipelineOrder(trace: seq<Effect>)
  {
    && (forall i :: 0 <= i < |trace| ==> Stage(trace[i]) <= 4)
    && (forall i, j :: 0 <= i < j < |trace| ==> Stage(trace[i]) < Stage(trace[j]))
  }

  lemma ExtendInOrder(trace: seq<Effect>, e: Effect)
    requires InPipelineOrder(trace) && Stage(e) <= 4
    requires |trace| > 0 ==> Stage(trace[|trace| - 1]) < Stage(e)
    ensures InPipelineOrder(trace + [e])
  {
    var t := trace + [e];
    forall i, j | 0 <= i < j < |t| ensures Stage(t[i]) < Stage(t[j]) {
      if j == |t| - 1 && i < |trace| - 1 {
        assert Stage(trace[i]) < Stage(trace[|trace| - 1]);
      }
    }
  }

  /** Calls are made in pipeline order, each at most once: logo upload,
      lookup, image upload, validation, persistence. */
  lemma CallsInPipelineOrder(target: Target, req: Request, svc: Services)
    ensures InPipelineOrder(Update(target, req, svc).trace)
  {
    var trace := Update(target, req, svc).trace;
    match NormaliseUpdateBody(req.data)
    case Failure(_) =>
      assert trace == [];
    case Success(data) =>
      var logoPath := LogoToUpload(req.logoFiles);
      var afterLogo: seq<Effect> := if logoPath.Some? then [UploadLogo(logoPath)] else [];
      var afterLookup := afterLogo + [FindById(target.id)];
      ExtendInOrder(afterLogo, FindById(target.id));
      if logoPath.Some? && svc.logoUpload.Threw? {
        assert trace == afterLogo;
      } else if svc.lookup.Threw? || (target.AsAdmin? && svc.lookup.value.None?) {
        assert trace == afterLookup;
      } else {
        var sendsImages := |req.imageFiles| > 0;
        var afterImages := afterLookup + (if sendsImages then [UploadImages(req.imageFiles)] else []);
        if sendsImages {
          ExtendInOrder(afterLookup, UploadImages(req.imageFiles));
        } else {
          assert afterImages == afterLookup;
        }
        if sendsImages && svc.imagesUpload.Threw? {
          assert trace == afterImages;
        } else {
          var candidate := Reconcile(data, LogoUrl(logoPath, svc.logoUpload), svc.lookup.value,
                                     ImageUrls(req.imageFiles, svc.imagesUpload));
          var afterValidate := afterImages + [Validate(candidate)];
          ExtendInOrder(afterImages, Validate(candidate));
          if svc.validator(candidate).Accepted? {
            var afterSave := afterValidate + [Save(target, svc.validator(candidate).normalized)];
            ExtendInOrder(afterValidate, Save(target, svc.validator(candidate).normalized));
            assert trace == afterSave;
          } else {
            assert trace == afterValidate;
          }
        }
      }
  }

  /** The calls an update makes before validation: the logo upload when a
      logo is to be uploaded, the lookup, and the image upload when image
      files were sent. */
  function PreValidation(target: Target, req: Request): (pre: seq<Effect>)
    ensures forall i :: 0 <= i < |pre| ==> Stage(pre[i]) <= 2
  {
    (if LogoToUpload(req.logoFiles).Some? then [UploadLogo(LogoToUpload(req.logoFiles))] else [])
    + [FindById(target.id)]
    + (if |req.imageFiles| > 0 then [UploadImages(req.imageFiles)] else [])
  }

  /** The whole trace of an update that gets as far as validation: the calls
      before validation, the validation of the candidate and, when the
      validator accepts, the persistence of its output. An update that stops
      earlier neither validates nor persists. */
  lemma TraceShape(target: Target, req: Request, svc: Services)
    ensures var trace := Update(target, req, svc).trace;
      Reaches(target, req, svc) ==>
        trace == PreValidation(target, req) + [Validate(Candidate(req, svc))]
                 + match svc.validator(Candidate(req, svc))
                   case Accepted(fields) => [Save(target, fields)]
                   case Rejected(_) => []
    ensures var trace := Update(target, req, svc).trace;
      !Reaches(target, req, svc) ==> forall i :: 0 <= i < |trace| ==> Stage(trace[i]) <= 2
  {
  }

  /** Validation runs exactly when the pipeline gets that far, and always on
      the reconciled candidate. */
  lemma ValidatesReconciledCandidate(target: Target, req: Request, svc: Services)
    ensures var trace := Update(target, req, svc).trace;
      (exists i :: 0 <= i < |trace| && trace[i].Validate?) <==> Reaches(target, req, svc)
    ensures var trace := Update(target, req, svc).trace;
      forall i :: 0 <= i < |trace| && trace[i].Validate? ==> trace[i].candidate == Candidate(req, svc)
  {
    var trace := Update(target, req, svc).trace;
    TraceShape(target, req, svc);
    if Reaches(target, req, svc) {
      var pre := PreValidation(target, req);
      assert trace[|pre|].Validate?;
      assert forall i :: 0 <= i < |pre| ==> trace[i] == pre[i];
    } else {
      forall i | 0 <= i < |trace| ensures !trace[i].Validate? {
        assert Stage(trace[i]) <= 2;
      }
    }
  }

  /** An update persists exactly when the validator accepts the candidate,
      with the validator's output, against the target, as its last call. */
  lemma PersistsValidatorOutput(target: Target, req: Request, svc: Services)
    ensures var trace := Update(target, req, svc).trace;
      Saves(trace) <==> Reaches(target, req, svc) && svc.validator(Candidate(req, svc)).Accepted?
    ensures var trace := Update(target, req, svc).trace;
      Saves(trace) ==>
        && trace[|trace| - 1] == Save(target, svc.validator(Candidate(req, svc)).normalized)
        && !Saves(trace[..|trace| - 1])
  {
    var trace := Update(target, req, svc).trace;
    TraceShape(target, req, svc);
    var pre := PreValidation(target, req);
    if Reaches(target, req, svc) {
      // before the last call come only the pre-validation calls and the validation
      var prefix := pre + [Validate(Candidate(req, svc))];
      assert !Saves(prefix) by {
        forall i | 0 <= i < |prefix| ensures !prefix[i].Save? {
          if i < |pre| {
            assert Stage(prefix[i]) <= 2;
          }
        }
      }
      if svc.validator(Candidate(req, svc)).Accepted? {
        assert trace[..|trace| - 1] == prefix;
        assert trace[|trace| - 1].Save?;
      } else {
        assert trace == prefix;
      }
    } else {
      forall i | 0 <= i < |trace| ensures !trace[i].Save? {
        assert Stage(trace[i]) <= 2;
      }
    }
  }

  /** Which error fires when. */
  lemma FailureCauses(target: Target, req: Request, svc: Services)
    ensures var out := Update(target, req, svc).outcome;
      out == Failure(BodyParseError) <==> NormaliseUpdateBody(req.data).Failure?
    ensures var out := Update(target, req, svc).outcome;
      out == Failure(LogoUploadFailed) <==>
        NormaliseUpdateBody(req.data).Success? && LogoToUpload(req.logoFiles).Some? && svc.logoUpload.Threw?
    ensures var out := Update(target, req, svc).outcome;
      out == Failure(RestaurantNotFound) <==>
        && target.AsAdmin?
        && NormaliseUpdateBody(req.data).Success?
        && !(LogoToUpload(req.logoFiles).Some? && svc.logoUpload.Threw?)
        && svc.lookup == Returned(None)
    ensures var out := Update(target, req, svc).outcome;
      out == Failure(ImagesUploadFailed) <==>
        && NormaliseUpdateBody(req.data).Success?
        && !(LogoToUpload(req.logoFiles).Some? && svc.logoUpload.Threw?)
        && svc.lookup.Returned?
        && !(target.AsAdmin? && svc.lookup.value.None?)
        && |req.imageFiles| > 0 && svc.imagesUpload.Threw?
    ensures var out := Update(target, req, svc).outcome;
      out.Failure? && out.error.ValidationError? <==>
        Reaches(target, req, svc) && svc.validator(Candidate(req, svc)).Rejected?
    ensures var out := Update(target, req, svc).outcome;
      out == Failure(StoreError) <==>
        && NormaliseUpdateBody(req.data).Success?
        && !(LogoToUpload(req.logoFiles).Some? && svc.logoUpload.Threw?)
        && (svc.lookup.Threw? ||
            (Reaches(target, req, svc) && svc.validator(Candidate(req, svc)).Accepted? && svc.service.Threw?))
    ensures var out := Update(target, req, svc).outcome;
      out.Success? <==>
        Reaches(target, req, svc) && svc.validator(Candidate(req, svc)).Accepted? && svc.service.Returned?
    ensures var out := Update(target, req, svc).outcome;
      out.Success? ==> out.value == Response(OK, Some("Restaurant updated successfully"), svc.service.value)
  {
  }

  /** Only an update with a logo file whose path is non-empty uploads a logo,
      and then as its first call; creation always attempts the upload of the
      first logo path, present or not. */
  lemma LogoUploadedWhen(target: Target, req: Request, user: Principal, svc: Services)
    ensures var trace := Update(target, req, svc).trace;
      NormaliseUpdateBody(req.data).Success? ==>
        ((exists i :: 0 <= i < |trace| && trace[i].UploadLogo?) <==> LogoToUpload(req.logoFiles).Some?)
    ensures var trace := Update(target, req, svc).trace;
      NormaliseUpdateBody(req.data).Success? && LogoToUpload(req.logoFiles).Some? ==>
        trace[0] == UploadLogo(LogoPath(req.logoFiles))
    ensures ParseCreateBody(req.data).Success? ==>
      PostRestaurant(req, user, svc).trace[0] == UploadLogo(LogoPath(req.logoFiles))
  {
    var trace := Update(target, req, svc).trace;
    if NormaliseUpdateBody(req.data).Success? {
      if LogoToUpload(req.logoFiles).Some? {
        assert trace[0].UploadLogo?;
      } else {
        forall i | 0 <= i < |trace| ensures !trace[i].UploadLogo? {
          CallsInPipelineOrder(target, req, svc);
          assert Stage(trace[i]) >= 1 by {
            if i > 0 { assert Stage(trace[0]) < Stage(trace[i]); }
          }
        }
      }
    }
  }

  /** A missing restaurant stops the administrator's update right after the
      lookup: the logo may already be uploaded, the images are not. */
  lemma NotFoundAfterLogoBeforeImages(target: Target, req: Request, svc: Services)
    requires Update(target, req, svc).outcome == Failure(RestaurantNotFound)
    ensures target.AsAdmin?
    ensures Update(target, req, svc).trace ==
      (if LogoToUpload(req.logoFiles).Some? then [UploadLogo(LogoToUpload(req.logoFiles))] else [])
      + [FindById(target.id)]
  {
  }

  /** For the owner a missing restaurant is no error: it behaves as a stored
      record without images. */
  lemma OwnerMissingRecordIsEmpty(id: Id, req: Request, svc: Services)
    ensures Update(AsOwner(id), req, svc.(lookup := Returned(None))) ==
            Update(AsOwner(id), req, svc.(lookup := Returned(Some(map[]))))
  {
  }

  /** When the record exists, the two handlers do the same thing and differ
      only in the target of the persisted update. */
  lemma VariantsDifferOnlyInTarget(id: Id, req: Request, svc: Services, rec: Fields)
    requires svc.lookup == Returned(Some(rec))
    ensures Update(AsOwner(id), req, svc).outcome == Update(AsAdmin(id), req, svc).outcome
    ensures var owner, admin := Update(AsOwner(id), req, svc).trace, Update(AsAdmin(id), req, svc).trace;
      && |owner| == |admin|
      && forall i :: 0 <= i < |owner| ==>
           owner[i] == if admin[i].Save? then Save(AsOwner(id), admin[i].fields) else admin[i]
  {
  }

  /** The media fields of the candidate, in terms of the request: the logo is
      there exactly when a logo file was uploaded, the cover photo exactly
      when image files were, and then it is the first uploaded URL. */
  lemma CandidateMedia(target: Target, req: Request, svc: Services)
    requires Reaches(target, req, svc)
    ensures var c := Candidate(req, svc);
      && ("logo" in c <==> LogoToUpload(req.logoFiles).Some?)
      && ("logo" in c ==> c["logo"] == Str(svc.logoUpload.value))
      && ("coverPhoto" in c <==> |req.imageFiles| > 0)
      && ("coverPhoto" in c ==> c["coverPhoto"] == FirstOr(svc.imagesUpload.value))
      && c["images"] == StrList(ExistingImages(svc.lookup.value) +
                                (if |req.imageFiles| > 0 then svc.imagesUpload.value else []))
  {
  }
}
