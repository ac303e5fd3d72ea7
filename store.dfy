/** The restaurant collection behind the update handlers, as a map from id
    to stored record, and what a history of updates does to it.  The service
    persists an update as a partial update: only the fields present in the
    update are overwritten, and an id with no record is left alone. */
module Store {
  import opened Wrappers
  import opened Json
  import opened Restaurant
  import opened Reconciler
  import opened Controller
  import opened UpdateProperties

  type Db = map<Id, Fields>

  /** `findById`. */
  function Find(db: Db, id: Id): Option<Fields>
  {
    if id in db then Some(db[id]) else None
  }

  /** A partial update: every field the update defines is overwritten, every
      other stored field is kept. */
  function ApplyPartial(stored: Fields, update: Fields): (r: Fields)
    ensures forall k :: k in update && update[k] != Undefined ==> k in r && r[k] == update[k]
    ensures forall k :: k in stored && !(k in update && update[k] != Undefined) ==> k in r && r[k] == stored[k]
    ensures r.Keys == stored.Keys + (set k | k in update && update[k] != Undefined)
  {
    stored + map k | k in update && update[k] != Undefined :: update[k]
  }

  /** What one call does to the collection: only a persisted update writes. */
  function Write(db: Db, e: Effect): Db
  {
    if e.Save? && e.target.id in db then db[e.target.id := ApplyPartial(db[e.target.id], e.fields)]
    else db
  }

  /** What the calls of a trace do to the collection, in order. */
  function Commit(db: Db, trace: seq<Effect>): Db
    decreases |trace|
  {
    if trace == [] then db else Commit(Write(db, trace[0]), trace[1..])
  }

  /** One update request against the collection, by its owner or an
      administrator, with its collaborators' answers. */
  datatype Step = Step(target: Target, req: Request, svc: Services)

  /** The collaborators of a step as they answer against `db`: the lookup
      returns the stored record, unless it threw. */
  function AgainstDb(db: Db, s: Step): Services
  {
    if s.svc.lookup.Threw? then s.svc else s.svc.(lookup := Returned(Find(db, s.target.id)))
  }

  /** The collection after one update; a failed update writes nothing. */
  function Apply(db: Db, s: Step): Db
  {
    var run := Update(s.target, s.req, AgainstDb(db, s));
    if run.outcome.Success? then Commit(db, run.trace) else db
  }

  /** The collection after a history of updates, applied one after the other. */
  function Replay(db: Db, steps: seq<Step>): Db
    decreases |steps|
  {
    if steps == [] then db else Replay(Apply(db, steps[0]), steps[1..])
  }

  /** The validator passes `images` through unchanged. */
  ghost predicate KeepsImages(validator: Fields -> Verdict)
  {
    forall c :: validator(c).Accepted? ==> Get(validator(c).normalized, "images") == Get(c, "images")
  }

  /** The URLs an update appends: the uploaded ones, if image files were sent. */
  function NewImages(imageFiles: seq<Path>, upload: Call<seq<Url>>): seq<Url>
  {
    match ImageUrls(imageFiles, upload)
    case Some(urls) => urls
    case None => []
  }

  /** The images of a stored record. */
  function ImagesOf(rec: Fields): seq<Url>
  {
    ExistingImages(Some(rec))
  }

  /** The images of every stored record are a prefix of its images in the other collection. */
  ghost predicate ImagesExtended(before: Db, after: Db)
  {
    forall id :: id in before ==> id in after && ImagesOf(before[id]) <= ImagesOf(after[id])
  }

  /** Committing a trace whose only write is its last call is that write. */
  lemma {:induction false} CommitLastSave(db: Db, trace: seq<Effect>, e: Effect)
    requires !Saves(trace)
    ensures Commit(db, trace + [e]) == Write(db, e)
    decreases |trace|
  {
    if trace == [] {
      assert [e][1..] == [];
    } else {
      assert (trace + [e])[1..] == trace[1..] + [e];
      assert !trace[0].Save?;
      assert !Saves(trace[1..]) by {
        forall i | 0 <= i < |trace| - 1 ensures !trace[1..][i].Save? {
          assert trace[1..][i] == trace[i + 1];
        }
      }
      CommitLastSave(db, trace[1..], e);
    }
  }

  /** One successful update leaves every other record alone and sets the
      target's images to its stored images followed by the uploaded ones. */
  lemma StepAppendsImages(db: Db, s: Step)
    requires KeepsImages(s.svc.validator)
    ensures var after := Apply(db, s);
      && after.Keys == db.Keys
      && (forall id :: id in db && id != s.target.id ==> after[id] == db[id])
    ensures !Update(s.target, s.req, AgainstDb(db, s)).outcome.Success? ==> Apply(db, s) == db
    ensures Update(s.target, s.req, AgainstDb(db, s)).outcome.Success? && s.target.id in db ==>
      ImagesOf(Apply(db, s)[s.target.id]) ==
        ImagesOf(db[s.target.id]) + NewImages(s.req.imageFiles, s.svc.imagesUpload)
  {
    var svc := AgainstDb(db, s);
    var run := Update(s.target, s.req, svc);
    if run.outcome.Success? {
      FailureCauses(s.target, s.req, svc);
      PersistsValidatorOutput(s.target, s.req, svc);
      assert Saves(run.trace) by {
        assert run.trace[|run.trace| - 1].Save?;
      }
      var c := Candidate(s.req, svc);
      var f := svc.validator(c).normalized;
      assert run.trace == run.trace[..|run.trace| - 1] + [Save(s.target, f)];
      CommitLastSave(db, run.trace[..|run.trace| - 1], Save(s.target, f));
      assert Apply(db, s) == Write(db, Save(s.target, f));
      var id := s.target.id;
      if id in db {
        assert svc.lookup == Returned(Some(db[id]));
        assert Get(f, "images") == Get(c, "images");
        var after := ApplyPartial(db[id], f);
        assert after["images"] == c["images"];
      }
    }
  }

  /** A stored restaurant never loses an image: over any history of updates
      (each answered by a validator that keeps `images`), every record's
      images stay a prefix of its later images, and no record disappears. */
  lemma {:induction false} ImagesOnlyGrow(db: Db, steps: seq<Step>)
    requires forall i :: 0 <= i < |steps| ==> KeepsImages(steps[i].svc.validator)
    ensures ImagesExtended(db, Replay(db, steps))
    decreases |steps|
  {
    if steps != [] {
      var next := Apply(db, steps[0]);
      StepAppendsImages(db, steps[0]);
      assert ImagesExtended(db, next);
      ImagesOnlyGrow(next, steps[1..]);
      var last := Replay(next, steps[1..]);
      forall id | id in db ensures id in last && ImagesOf(db[id]) <= ImagesOf(last[id]) {
        assert ImagesOf(db[id]) <= ImagesOf(next[id]) <= ImagesOf(last[id]);
      }
    }
  }
}
