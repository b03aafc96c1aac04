/**
 * The Mongoose schema of the schedule collection: a time slot holds a required
 * `time` string and a `classes` record with the seven fixed day keys, each
 * holding an optional class entry whose three strings are all optional.
 */
module ScheduleModel {
  import opened Wrappers

  /** The day keys of `classes`, declared Mon to Sun. */
  datatype Day = Mon | Tue | Wed | Thu | Fri | Sat | Sun

  /** The fixed column order of both schedule grids. */
  const DaysOfWeek: seq<Day> := [Mon, Tue, Wed, Thu, Fri, Sat, Sun]

  /** The column of day `d`: every day has exactly one column. */
  function DayIndex(d: Day): (k: nat)
    ensures k < |DaysOfWeek| && DaysOfWeek[k] == d
    ensures forall j :: 0 <= j < |DaysOfWeek| && DaysOfWeek[j] == d ==> j == k
  {
    match d
    case Mon => 0
    case Tue => 1
    case Wed => 2
    case Thu => 3
    case Fri => 4
    case Sat => 5
    case Sun => 6
  }

  /** The three string paths of `classSchema`. */
  datatype EntryField = NameField | LocationField | TypeField

  /**
   * One class of one day. Each path is optional; `classType` is the schema's
   * `type` path, an unconstrained string (no enumeration is enforced).
   */
  datatype ClassEntry = ClassEntry(name: Option<string>, location: Option<string>, classType: Option<string>) {

    function Field(f: EntryField): Option<string> {
      match f
      case NameField => name
      case LocationField => location
      case TypeField => classType
    }

    /** The entry after `entry[f] = v`: that path holds `v`, the other two are as before. */
    function WithField(f: EntryField, v: string): (e: ClassEntry)
      ensures e.Field(f) == Some(v)
      ensures forall g :: g != f ==> e.Field(g) == Field(g)
    {
      match f
      case NameField => this.(name := Some(v))
      case LocationField => this.(location := Some(v))
      case TypeField => this.(classType := Some(v))
    }
  }

  /** The entry `{}` that the editor creates for a missing day. */
  const EmptyEntry := ClassEntry(None, None, None)

  /** The `classes` record: exactly the seven day keys, each with at most one entry. */
  datatype Classes = Classes(
    mon: Option<ClassEntry>, tue: Option<ClassEntry>, wed: Option<ClassEntry>,
    thu: Option<ClassEntry>, fri: Option<ClassEntry>, sat: Option<ClassEntry>,
    sun: Option<ClassEntry>)
  {
    function Get(d: Day): Option<ClassEntry> {
      match d
      case Mon => mon
      case Tue => tue
      case Wed => wed
      case Thu => thu
      case Fri => fri
      case Sat => sat
      case Sun => sun
    }

    /** The record after `classes[d] = e`: day `d` holds `e`, every other day is as before. */
    function With(d: Day, e: Option<ClassEntry>): (c: Classes)
      ensures c.Get(d) == e
      ensures forall d' :: d' != d ==> c.Get(d') == Get(d')
    {
      match d
      case Mon => this.(mon := e)
      case Tue => this.(tue := e)
      case Wed => this.(wed := e)
      case Thu => this.(thu := e)
      case Fri => this.(fri := e)
      case Sat => this.(sat := e)
      case Sun => this.(sun := e)
    }
  }

  /** Two `classes` records that agree on every day are the same record. */
  lemma ClassesExtensional(a: Classes, b: Classes)
    requires forall d: Day :: a.Get(d) == b.Get(d)
    ensures a == b
  {
    assert a.Get(Mon) == b.Get(Mon) && a.Get(Tue) == b.Get(Tue) && a.Get(Wed) == b.Get(Wed);
    assert a.Get(Thu) == b.Get(Thu) && a.Get(Fri) == b.Get(Fri) && a.Get(Sat) == b.Get(Sat);
    assert a.Get(Sun) == b.Get(Sun);
  }

  /** One document of the collection, without its `_id` (the store keys records by id). */
  datatype TimeSlot = TimeSlot(time: Option<string>, classes: Classes)

  /**
   * Schema validity of one document. `time` is `required: true`; Mongoose's
   * required check on a String path rejects a missing (or null) value and the
   * empty string. Nothing under `classes` is required, so nothing else matters.
   */
  predicate ValidSlot(s: TimeSlot) {
    s.time.Some? && s.time.value != ""
  }

  /** A time slot without a non-empty `time` string is invalid. */
  lemma MissingTimeIsInvalid(s: TimeSlot)
    requires s.time.None? || s.time == Some("")
    ensures !ValidSlot(s)
  {}

  /**
   * Validity depends on `time` alone: any `classes` record, with any day absent
   * and any entry of any type present, leaves it as it was.
   */
  lemma ClassesNeverAffectValidity(s: TimeSlot, c: Classes)
    ensures ValidSlot(s.(classes := c)) <==> ValidSlot(s)
  {}

  /** What an update body says about one top-level path: nothing, a new value, or null. */
  datatype FieldPatch<T> = Keep | Assign(value: T) | Unset

  /**
   * An update body. A supplied top-level path replaces the stored value
   * wholesale: `$set` of the nested `classes` object overwrites all seven days,
   * so a day the body leaves out ends up absent. A path the body leaves out
   * keeps its stored value.
   */
  datatype Patch = Patch(time: FieldPatch<string>, classes: Option<Classes>)

  /** The body `{}`. */
  const EmptyPatch := Patch(Keep, None)

  /** The document after the update body has been applied to it. */
  function Apply(s: TimeSlot, p: Patch): (r: TimeSlot)
  {
    TimeSlot(
      match p.time
      case Keep => s.time
      case Assign(v) => Some(v)
      case Unset => None,
      p.classes.GetOr(s.classes))
  }

  /**
   * Mongoose's update validators (`runValidators: true`): only the paths the
   * body supplies are validated, so the required `time` fails only when the
   * body sets it to null or to the empty string.
   */
  predicate PatchValid(p: Patch) {
    match p.time
    case Keep => true
    case Assign(v) => v != ""
    case Unset => false
  }

  /**
   * On a valid stored document, validating the supplied paths is the same as
   * validating the whole updated document.
   */
  lemma PatchValidIffResultValid(s: TimeSlot, p: Patch)
    requires ValidSlot(s)
    ensures PatchValid(p) <==> ValidSlot(Apply(s, p))
  {}

  /** Paths left out of the body keep their values; the empty body changes nothing. */
  lemma AbsentPathsKeepValues(s: TimeSlot, p: Patch)
    ensures p.time.Keep? ==> Apply(s, p).time == s.time
    ensures p.classes.None? ==> Apply(s, p).classes == s.classes
    ensures Apply(s, EmptyPatch) == s
  {}

  /** Applying the same body a second time changes nothing more. */
  lemma ApplyIdempotent(s: TimeSlot, p: Patch)
    ensures Apply(Apply(s, p), p) == Apply(s, p)
  {}
}
