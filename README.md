# Restaurant profile updates, modelled in Dafny

This project models the restaurant controller of a restaurant-management
backend (`src/app/modules/restuarant/restaurant.controller.ts`). It covers:

- the two update handlers: `updateRestuarant`, where an owner updates the
  restaurant bound to their account, and `updateRestuarantByAdmin`, where an
  administrator updates the restaurant named in the path;
- the creation handler `postRestuarant`;
- the password guard of `setAccountSettings`.

An update reconciles three inputs into one candidate record:

- a partial record sent in the body;
- the logo and image files that were uploaded to the media host;
- the restaurant as it is stored.

The candidate is then validated and persisted as a partial update.

The collaborators are abstract. These are the media uploader, `findById`, the
validator and the restaurant service. Their answers for one request are an
input (`Restaurant.Services`): every call either returns a value or throws, and
the validator is a function from candidate to verdict. Each handler yields a
`Run`: how it ended (a response, or an error with its status and message) and
the list of calls it made into the collaborators, in order. That list makes
properties like "nothing is persisted after a failed upload" and "the 404
comes after the logo upload but before the image upload" statements about
values.

Files and modules:

- `wrappers.dfy` (`Wrappers`): `Option`, `Result`, and `Call`, the outcome of
  an awaited call.
- `json.dfy` (`Json`): JavaScript values, property access and truthiness.
- `restaurant.dfy` (`Restaurant`): requests, principal, targets, the
  collaborators' answers, calls, errors, responses and the error constants.
- `reconcile.dfy` (`Reconciler`): reading the body, choosing the logo file,
  the update candidate (`Reconcile`) and the new record (`NewRestaurant`).
- `controller.dfy` (`Controller`): the update specification `Update`, the two
  update handlers as imperative methods proved equal to it, creation and
  account settings.
- `properties.dfy` (`UpdateProperties`): what the update handlers promise,
  proved about `Update`.
- `store.dfy` (`Store`): the stored collection under partial updates, and the
  proof that a history of updates never loses a stored image.

## Where the model follows the code rather than the stated intent

- **Cover photo.** The code comment at line 111 (and line 190) says the
  cover photo is set from the uploads "only if not provided". The
  code does not do this. `coverPhoto` is destructured out of the body at
  line 84 (line 159), so `restaurantData.coverPhoto` is always unset when it is
  read.
  - When image files are sent, the cover photo is always the first uploaded
    URL.
  - When none are sent, a `coverPhoto` in the body is dropped.
  
  `Reconcile` keeps the `||` expression as written. Its contract, and the
  lemma `ExplicitCoverDroppedScenario`, state the behaviour the code actually
  has.
- **Order of logo upload and 404.** In the administrator's handler, the logo
  upload (lines 164-172) runs before the existence check (lines 175-179). So
  a 404 can follow a logo upload that already happened. The image upload,
  validation and persistence never run after it.
- **Owner with no stored record.** In the owner's handler, a missing record is
  not an error. It counts as a record with no images.

## Model

| member | source | states |
|---|---|---|
| `Reconciler.BodyReadingsDiffer` | src/app/modules/restuarant/restaurant.controller.ts:66-71 | the update reading of the body (`NormaliseUpdateBody`, lines 66-71) agrees with the creation reading (`ParseCreateBody`, line 17) wherever creation parses; the update reading alone accepts an absent body, an empty string and an object, and reads an absent body or an empty string as the empty record; whatever the update reading rejects, creation rejects too |
| `Reconciler.Reconcile` | src/app/modules/restuarant/restaurant.controller.ts:84-119 | other body fields pass through unchanged; `logo` is present iff a logo URL was uploaded, with that URL; `images` is the stored images followed by the uploaded URLs, or the stored images alone; `coverPhoto` is present iff image files were sent, and then it is the first uploaded URL |
| `Reconciler.NewRestaurant` | src/app/modules/restuarant/restaurant.controller.ts:27-34 | the created record has the uploaded images, the logo URL and the first image as cover photo; its `owner` is the principal's id unless the body has an `owner`, which overrides it; the other body fields pass through |
| `Reconciler.BodyMediaIgnored` | src/app/modules/restuarant/restaurant.controller.ts:84-86 | two bodies that differ only in `images`, `coverPhoto` and `logo` give the same candidate |
| `Reconciler.StoredImagesKept` | src/app/modules/restuarant/restaurant.controller.ts:103-119 | the stored images are always a prefix of the candidate's images |
| `Reconciler.UploadScenario` | src/app/modules/restuarant/restaurant.controller.ts:103-111 | stored ["a","b"] plus uploads ["c","d"] gives images ["a","b","c","d"] and cover photo "c" |
| `Reconciler.ExplicitCoverDroppedScenario` | src/app/modules/restuarant/restaurant.controller.ts:116-119 | stored ["a"], no upload and a body cover photo "x" gives images ["a"] and no cover photo |
| `Controller.UpdateRestaurant` | src/app/modules/restuarant/restaurant.controller.ts:65-137 | the owner's handler, built step by step, returns exactly the outcome and calls of `Update` targeted at the principal's restaurant |
| `Controller.UpdateRestaurantByAdmin` | src/app/modules/restuarant/restaurant.controller.ts:139-217 | the administrator's handler, built step by step, returns exactly the outcome and calls of `Update` targeted at the path id |
| `Controller.PostRestaurant` | src/app/modules/restuarant/restaurant.controller.ts:16-43 | a parse failure makes no call; otherwise the logo upload is always attempted first and then the image upload; a failed upload ends the handler, with no further upload and nothing created; it succeeds iff parsing, both uploads and the service call succeed; the created record is `NewRestaurant` of the body and both uploads; success is 201 "Restaurant created successfully"; once the body parses, no failure is a parse error: an upload error propagates uncaught and a failed create call is a store error |
| `Controller.AccountSettings` | src/app/modules/restuarant/restaurant.controller.ts:229-249 | 400 "Old password and new password are required" iff either password is falsy, and then no service call is made; otherwise exactly one call, with the principal's restaurant and both passwords, whose throw is the handler's error |
| `UpdateProperties.CallsInPipelineOrder` | src/app/modules/restuarant/restaurant.controller.ts:88-129 | an update calls logo upload, lookup, image upload, validation and persistence in that order, each at most once |
| `UpdateProperties.TraceShape` | src/app/modules/restuarant/restaurant.controller.ts:88-129 | an update that gets as far as validation makes the pre-validation calls, validates the candidate and, only when the validator accepts, persists its output as the last call; an update that stops earlier neither validates nor persists |
| `UpdateProperties.ValidatesReconciledCandidate` | src/app/modules/restuarant/restaurant.controller.ts:121-124 | validation runs iff no earlier step failed, and always on the reconciled candidate |
| `UpdateProperties.PersistsValidatorOutput` | src/app/modules/restuarant/restaurant.controller.ts:121-129 | an update is persisted iff the validator accepts the candidate; the persisted fields are the validator's output, keyed by the handler's target, as the last call and the only write |
| `UpdateProperties.FailureCauses` | src/app/modules/restuarant/restaurant.controller.ts:89-129 | exactly when each error fires: parse error, 500 "Failed to upload logo", 404 (administrator only, missing record), 500 "Failed to upload images", validation error, and a store error (the lookup throws, or the persistence call throws after the validator accepts); success (200 "Restaurant updated successfully" with the service's result) iff validation accepts and the service returns |
| `UpdateProperties.LogoUploadedWhen` | src/app/modules/restuarant/restaurant.controller.ts:80-97 | once the body parses, an update uploads a logo iff the first logo file has a non-empty path, and then as its first call with that path; creation always makes the logo upload its first call, with the first logo path even when there is none (lines 23-25) |
| `UpdateProperties.NotFoundAfterLogoBeforeImages` | src/app/modules/restuarant/restaurant.controller.ts:163-179 | a 404 only comes from the administrator's handler, and its calls are the logo upload (when a logo was sent) followed by the lookup, nothing more |
| `UpdateProperties.OwnerMissingRecordIsEmpty` | src/app/modules/restuarant/restaurant.controller.ts:99-119 | in the owner's handler a missing record behaves exactly as a stored record with no images |
| `UpdateProperties.VariantsDifferOnlyInTarget` | src/app/modules/restuarant/restaurant.controller.ts:139-208 | when the record exists, both handlers end the same way and make the same calls, except for the target of the persisted update |
| `UpdateProperties.CandidateMedia` | src/app/modules/restuarant/restaurant.controller.ts:84-119 | in request terms: `logo` is present iff a logo file was uploaded, with its URL; `coverPhoto` is present iff image files were sent, with the first uploaded URL; `images` is the stored images followed by the uploads |
| `Store.ApplyPartial` | src/app/modules/restuarant/restaurant.controller.ts:126-129 | a partial update overwrites exactly the defined fields it carries and keeps every other stored field |
| `Store.StepAppendsImages` | src/app/modules/restuarant/restaurant.controller.ts:99-129 | one update writes only its target; a failed update writes nothing; a successful update sets the target's images to its stored images followed by the new uploads |
| `Store.ImagesOnlyGrow` | src/app/modules/restuarant/restaurant.controller.ts:99-119 | over any history of updates, no record disappears and every record's stored images stay a prefix of its later images |

## Left out

- Express routing and middleware (`src/app/modules/users/owner/owner.routes.ts`): wiring only.
- The zod schemas (`src/app/modules/notification/notification.validation.ts` and the update validation): the validator is a function parameter, and the status code it reports on rejection is not modelled (`ValidationError`).
- A non-string falsy `data` (null, false, 0) is not modelled; `NoData` is an absent field. For creation such a value would not make `JSON.parse` throw.
- `JSON.parse`: what it makes of the text is an input of the request (`JsonText.decoded`). A body whose JSON is not an object is not modelled.
- The Cloudinary uploads: their answers are inputs. Nothing forces the image upload to return one URL per file. When it returns none, `uploadedImages[0]` is `undefined`, and the model keeps that.
- An absent `images` file field and an empty one are both the empty sequence of paths. So in creation, `uploadMultipleImages(undefined)` is recorded as an upload of no paths.
- `findById` and the restaurant service: their answers are inputs. `Store` gives the service's update the partial-update semantics: defined fields overwrite, `undefined` ones are dropped, and a missing id is not created. The service's source is not part of this model.
- `Store.StepAppendsImages` and `Store.ImagesOnlyGrow`: hold for validators that pass `images` through unchanged (`KeepsImages`), because the validation schema is not part of this model.
- A stored `images` that is not an array of strings counts as no images.
- Numbers are integers; `NaN` and fractions are not modelled. Only their truthiness matters here.
- `user.restaurant` is always an id; a principal without a bound restaurant is not modelled.
- `catchAsync` and the global error handler: how an uncaught error becomes an HTTP status is not modelled. `sendResponse` is reduced to status, message and data. `console.error` is left out.
- `getAllRestuarant`, `getSingleRestuarant`, `deleteRestuarant`: pure pass-throughs to the service.
- The password check inside the service's `accountSettings`: its source is not part of this model.
- Concurrency: each handler awaits one call after another. Races between updates of the same restaurant belong to the database.
