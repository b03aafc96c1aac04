/**
 * The admin schedule editor: a grid of slots whose cells are edited in place by
 * `handleInputChange` and `handleSelectChange`, and the inputs each cell shows.
 */
module AdminScheduleEditor {
  import opened Wrappers
  import opened ScheduleModel
  import opened CardColors

  /** `timeSlot.classes[day] || {}`: a missing day reads as the empty entry. */
  function EntryAt(c: Classes, d: Day): ClassEntry {
    c.Get(d).GetOr(EmptyEntry)
  }

  /**
   * The slot after `classes[d][f] = v`, the entry being created empty first
   * when the day has none: path `f` of day `d` holds `v`, the other two paths
   * of that entry are as before (absent if the entry was created), and the
   * time and every other day are untouched.
   */
  function SetEntryField(s: TimeSlot, d: Day, f: EntryField, v: string): (r: TimeSlot)
    ensures r.time == s.time
    ensures forall d' :: d' != d ==> r.classes.Get(d') == s.classes.Get(d')
    ensures r.classes.Get(d).Some? && r.classes.Get(d).value.Field(f) == Some(v)
    ensures forall g :: g != f ==>
      r.classes.Get(d).value.Field(g) == (if s.classes.Get(d).Some? then s.classes.Get(d).value.Field(g) else None)
  {
    s.(classes := s.classes.With(d, Some(EntryAt(s.classes, d).WithField(f, v))))
  }

  /**
   * The slot after `handleInputChange(_, day, field, value)`: with no day only
   * `time` changes; with a day, one path of that day's entry changes.
   */
  function EditInput(s: TimeSlot, day: Option<Day>, field: EntryField, value: string): (r: TimeSlot)
    ensures day.None? ==> r.time == Some(value) && r.classes == s.classes
    ensures day.Some? ==> r == SetEntryField(s, day.value, field, value)
  {
    if day.Some? then SetEntryField(s, day.value, field, value) else s.(time := Some(value))
  }

  /** What one cell of the editor shows: two text inputs, the type select and the card style. */
  datatype EditorCell = EditorCell(nameInput: string, locationInput: string, typeSelect: string, disabled: bool, style: string)

  /**
   * The inputs of one cell. A Rest entry shows 'Rest' in both text inputs and
   * disables them; otherwise they show the entry's name and location, or
   * nothing. A missing entry is treated as `{}`.
   */
  function EditorCellOf(c: Option<ClassEntry>): (cell: EditorCell)
    ensures cell.disabled <==> c.Some? && c.value.classType == Some("Rest")
    ensures cell.disabled ==> cell.nameInput == "Rest" && cell.locationInput == "Rest"
    ensures !cell.disabled ==> cell.nameInput == (if c.Some? then c.value.name.GetOr("") else "")
    ensures !cell.disabled ==> cell.locationInput == (if c.Some? then c.value.location.GetOr("") else "")
    ensures cell.typeSelect == (if c.Some? then c.value.classType.GetOr("") else "")
    ensures cell.style == CardColorClass(if c.Some? then c.value.classType else None)
  {
    var info := c.GetOr(EmptyEntry);
    var isRest := info.classType == Some("Rest");
    EditorCell(
      if isRest then "Rest" else info.name.GetOr(""),
      if isRest then "Rest" else info.location.GetOr(""),
      info.classType.GetOr(""),
      isRest,
      CardColorClass(info.classType))
  }

  /** Choosing Rest in a cell's select disables its text inputs, which then show 'Rest', whatever the entry held. */
  lemma SelectingRestDisablesCell(s: TimeSlot, d: Day)
    ensures var cell := EditorCellOf(SetEntryField(s, d, TypeField, "Rest").classes.Get(d));
      cell.disabled && cell.nameInput == "Rest" && cell.locationInput == "Rest" && cell.style == DefaultStyle
  {}

  /** The editor's state: the slots of the grid, edited in place. */
  class ScheduleEditor {
    var slots: array<TimeSlot>

    constructor (initial: seq<TimeSlot>)
      ensures fresh(slots) && slots[..] == initial
    {
      slots := new TimeSlot[|initial|](i requires 0 <= i < |initial| => initial[i]);
    }

    /**
     * `handleInputChange(slotIndex, day, field, value)`: only slot `slotIndex`
     * changes, as `EditInput` says; the number of slots stays the same.
     */
    method InputChange(slotIndex: nat, day: Option<Day>, field: EntryField, value: string)
      requires slotIndex < slots.Length
      modifies slots
      ensures slots[..] == old(slots[..])[slotIndex := EditInput(old(slots[slotIndex]), day, field, value)]
    {
      var slot := slots[slotIndex];
      if day.Some? {
        var d := day.value;
        if slot.classes.Get(d).None? {
          slot := slot.(classes := slot.classes.With(d, Some(EmptyEntry)));
        }
        var entry := slot.classes.Get(d).value;
        ClassesExtensional(slot.classes.With(d, Some(entry.WithField(field, value))),
                           slots[slotIndex].classes.With(d, Some(EntryAt(slots[slotIndex].classes, d).WithField(field, value))));
        slot := slot.(classes := slot.classes.With(d, Some(entry.WithField(field, value))));
      } else {
        slot := slot.(time := Some(value));
      }
      slots[slotIndex] := slot;
    }

    /**
     * `handleSelectChange(slotIndex, day, value)`: sets only the `type` of the
     * day's entry of slot `slotIndex`, creating the entry empty if needed.
     */
    method SelectChange(slotIndex: nat, day: Day, value: string)
      requires slotIndex < slots.Length
      modifies slots
      ensures slots[..] == old(slots[..])[slotIndex := SetEntryField(old(slots[slotIndex]), day, TypeField, value)]
    {
      var slot := slots[slotIndex];
      if slot.classes.Get(day).None? {
        slot := slot.(classes := slot.classes.With(day, Some(EmptyEntry)));
      }
      var entry := slot.classes.Get(day).value;
      ClassesExtensional(slot.classes.With(day, Some(entry.WithField(TypeField, value))),
                         slots[slotIndex].classes.With(day, Some(EntryAt(slots[slotIndex].classes, day).WithField(TypeField, value))));
      slot := slot.(classes := slot.classes.With(day, Some(entry.WithField(TypeField, value))));
      slots[slotIndex] := slot;
    }
  }
}
