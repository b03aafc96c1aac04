/**
 * The public weekly schedule: how each cell of the grid is classified (a class
 * card, 'Rest' or 'N/A'), which icon and style it gets, and the order of rows
 * and columns.
 */
module ScheduleViewer {
  import opened Wrappers
  import opened ScheduleModel
  import opened CardColors
  import AdminScheduleEditor

  /** `classInfo && classInfo.type === 'Rest'`. */
  predicate IsRest(c: Option<ClassEntry>) {
    c.Some? && c.value.classType == Some("Rest")
  }

  /** `classInfo && classInfo.name && !isRest`: an entry with a non-empty name that is not Rest. */
  predicate IsClassAvailable(c: Option<ClassEntry>) {
    c.Some? && c.value.name.Some? && c.value.name.value != "" && !IsRest(c)
  }

  /** The location icon of a class card. */
  datatype Icon = VideoIcon | HomeIcon

  /** A rendered cell: a clickable class card, or a grey placeholder text. */
  datatype ViewCell =
    | ClassCard(name: string, location: string, icon: Icon, style: string)
    | Placeholder(text: string)

  /** Only class cards have the click handler that joins the class. */
  predicate Joinable(v: ViewCell) {
    v.ClassCard?
  }

  /**
   * The cell for one day's entry. It is a class card exactly when the class is
   * available; the card shows the name and location, the video icon exactly
   * when the location is 'Zoom', and the style of its type. Any other cell
   * reads 'Rest' for a Rest entry and 'N/A' otherwise, a missing entry or an
   * empty name included.
   */
  function ViewCellOf(c: Option<ClassEntry>): (v: ViewCell)
    ensures Joinable(v) <==> IsClassAvailable(c)
    ensures v.ClassCard? ==> v.name == c.value.name.value && v.location == c.value.location.GetOr("")
    ensures v.ClassCard? ==> (v.icon == VideoIcon <==> c.value.location == Some("Zoom"))
    ensures v.ClassCard? ==> v.style == CardColorClass(c.value.classType)
    ensures v.Placeholder? ==> (v.text == "Rest" <==> IsRest(c)) && (v.text == "N/A" <==> !IsRest(c))
  {
    if IsClassAvailable(c) then
      var info := c.value;
      ClassCard(info.name.value, info.location.GetOr(""),
                if info.location == Some("Zoom") then VideoIcon else HomeIcon,
                CardColorClass(info.classType))
    else
      Placeholder(if IsRest(c) then "Rest" else "N/A")
  }

  /** One row of the grid: the slot's time and one cell per day. */
  datatype Row = Row(time: string, cells: seq<ViewCell>)

  /** The cells of one slot for the given columns, column by column. */
  function CellsOf(c: Classes, days: seq<Day>): (cells: seq<ViewCell>)
    ensures |cells| == |days|
    ensures forall j :: 0 <= j < |days| ==> cells[j] == ViewCellOf(c.Get(days[j]))
  {
    if days == [] then [] else [ViewCellOf(c.Get(days[0]))] + CellsOf(c, days[1..])
  }

  /** The row of one slot: seven cells, in the fixed Mon..Sun order. */
  function RowOf(s: TimeSlot): (r: Row)
    ensures r.time == s.time.GetOr("")
    ensures |r.cells| == 7
    ensures forall d: Day :: r.cells[DayIndex(d)] == ViewCellOf(s.classes.Get(d))
  {
    Row(s.time.GetOr(""), CellsOf(s.classes, DaysOfWeek))
  }

  /** The table body: one row per slot, in the order of the data. */
  function Render(slots: seq<TimeSlot>): (rows: seq<Row>)
    ensures |rows| == |slots|
    ensures forall i :: 0 <= i < |slots| ==> rows[i] == RowOf(slots[i])
  {
    if slots == [] then [] else [RowOf(slots[0])] + Render(slots[1..])
  }

  /** The cell in row `i`, column `d` is a class card exactly when that slot's entry for `d` is an available class. */
  lemma JoinableCellsAreAvailableClasses(slots: seq<TimeSlot>, i: nat, d: Day)
    requires i < |slots|
    ensures Joinable(Render(slots)[i].cells[DayIndex(d)]) <==> IsClassAvailable(slots[i].classes.Get(d))
  {}

  /**
   * The two grids agree on Rest: the editor disables exactly the cells that the
   * public grid labels 'Rest', and such a cell is never joinable.
   */
  lemma EditorAndViewerAgreeOnRest(c: Option<ClassEntry>)
    ensures AdminScheduleEditor.EditorCellOf(c).disabled <==> ViewCellOf(c) == Placeholder("Rest")
    ensures AdminScheduleEditor.EditorCellOf(c).disabled ==> !Joinable(ViewCellOf(c))
  {}
}
