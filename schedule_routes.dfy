/**
 * The schedule router: `GET /` lists every document, `PUT /:id` updates one
 * document by id and, on success only, emits `scheduleUpdated` once.
 */
module ScheduleRoutes {
  import opened Wrappers
  import opened ScheduleModel

  /** A document id (the route parameter `:id`). */
  type Id = string

  /** A stored document as the routes return it: its id and its fields. */
  datatype StoredSlot = StoredSlot(id: Id, slot: TimeSlot)

  /** Why `Schedule.find()` failed: the database could not be reached. */
  datatype ListError = StoreUnavailable

  /**
   * Why `findByIdAndUpdate` did not return a document: the body failed the
   * update validators, the database operation failed, or no document has the id.
   */
  datatype UpdateError = ValidationError | StoreFailure | NotFound

  /** The HTTP status of a listing: 200 with the array, or 500 from the catch block. */
  function ListStatus(r: Result<seq<StoredSlot>, ListError>): (code: nat)
    ensures code == 200 <==> r.Success?
    ensures code == 500 <==> r.Failure?
  {
    if r.Success? then 200 else 500
  }

  /**
   * The HTTP status of an update: 200 with the updated document, 404 when no
   * document has the id, and 400 for every error thrown inside the handler's
   * try block, a failing database included.
   */
  function UpdateStatus(r: Result<TimeSlot, UpdateError>): (code: nat)
    ensures code == 200 <==> r.Success?
    ensures code == 404 <==> r == Failure(NotFound)
    ensures code == 400 <==> r.Failure? && r.error != NotFound
  {
    match r
    case Success(_) => 200
    case Failure(NotFound) => 404
    case Failure(_) => 400
  }

  /** The ids of a sequence of documents, in order. */
  function IdsOf(docs: seq<StoredSlot>): (ids: seq<Id>)
    ensures |ids| == |docs| && forall i :: 0 <= i < |docs| ==> ids[i] == docs[i].id
  {
    if docs == [] then [] else [docs[0].id] + IdsOf(docs[1..])
  }

  predicate Distinct(ids: seq<Id>) {
    forall i, j :: 0 <= i < j < |ids| ==> ids[i] != ids[j]
  }

  /** Every document of the table satisfies the schema. */
  ghost predicate AllValid(table: map<Id, TimeSlot>) {
    forall id | id in table :: ValidSlot(table[id])
  }

  /**
   * The reply of `findByIdAndUpdate(id, body, { new: true, runValidators: true })`.
   * The update validators run before the query is sent, then the database is
   * asked, and a missing document yields null; `new: true` makes the reply the
   * document as it is after the update.
   */
  function UpdateOutcome(table: map<Id, TimeSlot>, id: Id, p: Patch, reachable: bool): Result<TimeSlot, UpdateError>
  {
    if !PatchValid(p) then Failure(ValidationError)
    else if !reachable then Failure(StoreFailure)
    else if id !in table then Failure(NotFound)
    else Success(Apply(table[id], p))
  }

  /** The table after the update: written only when the update succeeded. */
  function Committed(table: map<Id, TimeSlot>, id: Id, p: Patch, reachable: bool): map<Id, TimeSlot>
  {
    var r := UpdateOutcome(table, id, p, reachable);
    if r.Success? then table[id := r.value] else table
  }

  /** Exactly when each reply happens. */
  lemma UpdateOutcomeCases(table: map<Id, TimeSlot>, id: Id, p: Patch, reachable: bool)
    ensures UpdateOutcome(table, id, p, reachable).Success? <==> PatchValid(p) && reachable && id in table
    ensures UpdateOutcome(table, id, p, reachable) == Failure(ValidationError) <==> !PatchValid(p)
    ensures UpdateOutcome(table, id, p, reachable) == Failure(NotFound) <==> PatchValid(p) && reachable && id !in table
    ensures UpdateOutcome(table, id, p, reachable) == Failure(StoreFailure) <==> PatchValid(p) && !reachable
  {}

  /**
   * A successful update answers with the post-update document, changes that
   * document only and keeps the set of ids; a failed update leaves the table
   * as it was (every failure happens before anything is written).
   */
  lemma UpdateFrame(table: map<Id, TimeSlot>, id: Id, p: Patch, reachable: bool)
    ensures var r := UpdateOutcome(table, id, p, reachable);
      var t := Committed(table, id, p, reachable);
      && t.Keys == table.Keys
      && (r.Failure? ==> t == table)
      && (r.Success? ==> id in table && t[id] == r.value && r.value == Apply(table[id], p))
      && (forall k | k in table && k != id :: t[k] == table[k])
  {}

  /** On a table of valid documents, an update keeps every document valid and answers with a valid document. */
  lemma UpdateKeepsValid(table: map<Id, TimeSlot>, id: Id, p: Patch, reachable: bool)
    requires AllValid(table)
    ensures var r := UpdateOutcome(table, id, p, reachable);
      && AllValid(Committed(table, id, p, reachable))
      && (r.Success? ==> ValidSlot(r.value))
  {
    if UpdateOutcome(table, id, p, reachable).Success? {
      PatchValidIffResultValid(table[id], p);
    }
  }

  /**
   * Sending the same update twice gives the same reply twice and the same
   * final table as sending it once.
   */
  lemma UpdateTwiceSameAsOnce(table: map<Id, TimeSlot>, id: Id, p: Patch)
    ensures var once := Committed(table, id, p, true);
      && UpdateOutcome(once, id, p, true) == UpdateOutcome(table, id, p, true)
      && Committed(once, id, p, true) == once
  {
    if UpdateOutcome(table, id, p, true).Success? {
      ApplyIdempotent(table[id], p);
    }
  }

  /**
   * The collection together with the `scheduleUpdated` channel. `emitted`
   * counts `io.emit('scheduleUpdated')` calls; `snapshots` records, for each
   * emission, the table at the moment of emitting, i.e. what a viewer that
   * re-fetches on the event can see at the earliest.
   */
  class ScheduleStore {
    /** The natural order of the collection (insertion order). */
    var order: seq<Id>
    var table: map<Id, TimeSlot>
    var emitted: nat
    ghost var snapshots: seq<map<Id, TimeSlot>>

    ghost predicate Valid()
      reads this
    {
      && Distinct(order)
      && (forall id :: id in table <==> id in order)
      && |snapshots| == emitted
    }

    /**
     * The collection as the database holds it at start-up; nothing emitted yet.
     * The program creates no documents, so these may be any documents, also
     * ones that fail the schema; only their ids are distinct.
     */
    constructor (initial: seq<StoredSlot>)
      requires Distinct(IdsOf(initial))
      ensures Valid()
      ensures |order| == |initial|
      ensures forall i :: 0 <= i < |initial| ==> order[i] == initial[i].id && table[order[i]] == initial[i].slot
      ensures emitted == 0
    {
      var ids := IdsOf(initial);
      var t := map k | 0 <= k < |initial| :: initial[k].id := initial[k].slot;
      forall i | 0 <= i < |initial|
        ensures initial[i].id in t && t[initial[i].id] == initial[i].slot
      {
        assert forall k :: 0 <= k < |initial| && initial[k].id == initial[i].id ==> k == i by {
          assert forall k :: 0 <= k < |initial| ==> ids[k] == initial[k].id;
        }
      }
      order, table, emitted := ids, t, 0;
      snapshots := [];
    }

    /**
     * `GET /`: every stored document, in the collection's order, each once;
     * when the database cannot be reached, the listing fails (status 500).
     * Nothing is changed either way.
     */
    method List(reachable: bool) returns (r: Result<seq<StoredSlot>, ListError>)
      requires Valid()
      ensures !reachable ==> r == Failure(StoreUnavailable)
      ensures reachable ==> r.Success? && |r.value| == |order|
      ensures reachable ==> forall i :: 0 <= i < |r.value| ==> r.value[i] == StoredSlot(order[i], table[order[i]])
      ensures reachable ==> forall id :: id in table <==> exists i :: 0 <= i < |r.value| && r.value[i].id == id
      ensures reachable ==> forall i, j :: 0 <= i < j < |r.value| ==> r.value[i].id != r.value[j].id
    {
      if !reachable {
        return Failure(StoreUnavailable);
      }
      var ids, t := order, table;
      var docs := seq(|ids|, i requires 0 <= i < |ids| => StoredSlot(ids[i], t[ids[i]]));
      forall id | id in table
        ensures exists i :: 0 <= i < |docs| && docs[i].id == id
      {
        var i :| 0 <= i < |order| && order[i] == id;
        assert docs[i].id == id;
      }
      r := Success(docs);
    }

    /**
     * `PUT /:id`: answers as `UpdateOutcome` says, writes the table only on
     * success, and emits `scheduleUpdated` exactly once after a successful
     * write and never after a failure.
     */
    method Update(id: Id, patch: Patch, reachable: bool) returns (r: Result<TimeSlot, UpdateError>)
      requires Valid()
      modifies this
      ensures Valid()
      ensures r == UpdateOutcome(old(table), id, patch, reachable)
      ensures table == Committed(old(table), id, patch, reachable)
      ensures order == old(order)
      ensures AllValid(old(table)) ==> AllValid(table) && (r.Success? ==> ValidSlot(r.value))
      ensures emitted == old(emitted) + (if r.Success? then 1 else 0)
      ensures snapshots == if r.Success? then old(snapshots) + [table] else old(snapshots)
    {
      if AllValid(table) {
        UpdateKeepsValid(table, id, patch, reachable);
      }
      if !PatchValid(patch) {
        return Failure(ValidationError);
      }
      if !reachable {
        return Failure(StoreFailure);
      }
      if id !in table {
        return Failure(NotFound);
      }
      var updated := Apply(table[id], patch);
      table := table[id := updated];
      emitted := emitted + 1;
      snapshots := snapshots + [table];
      r := Success(updated);
    }
  }

  /**
   * The same `PUT /:id` sent twice: both replies are the same, the table ends
   * as after one update, and a successful update is announced twice.
   */
  method UpdateTwice(store: ScheduleStore, id: Id, patch: Patch) returns (first: Result<TimeSlot, UpdateError>, second: Result<TimeSlot, UpdateError>)
    requires store.Valid()
    modifies store
    ensures store.Valid()
    ensures first == second == UpdateOutcome(old(store.table), id, patch, true)
    ensures store.table == Committed(old(store.table), id, patch, true)
    ensures store.order == old(store.order)
    ensures store.emitted == old(store.emitted) + (if first.Success? then 2 else 0)
    ensures store.snapshots == old(store.snapshots) + (if first.Success? then [store.table, store.table] else [])
  {
    UpdateTwiceSameAsOnce(store.table, id, patch);
    first := store.Update(id, patch, true);
    second := store.Update(id, patch, true);
  }
}
