/**
 * The decisions behind one row of the lightpath table (`InactiveRow`,
 * `LightRow`): the state label and Remove button from the device's
 * `inserted`/`removed` flags, the beam indicator from the path's
 * impediment, and the MPS frame from the path's tripped and faulted
 * devices. Each `update_*` slot is modelled as a function returning the
 * display state it writes into the widgets.
 */
module Widgets {
  import opened Wrappers
  import opened Sequences
  import opened Devices

  // -----------------------------------------------------------------------
  // Device state label and Remove button

  /** The members of the `states` enumeration, whose values are 1 to 4. */
  datatype State = Unknown | Inserted | Removed | Error

  /** The enumeration value of a state. */
  function Value(s: State): int
  {
    match s
    case Unknown => 1
    case Inserted => 2
    case Removed => 3
    case Error => 4
  }

  /** `states(v)`: the state with value `v`. */
  function StateOf(v: int): (s: State)
    requires 1 <= v <= 4
    ensures Value(s) == v
  {
    if v == 1 then Unknown else if v == 2 then Inserted else if v == 3 then Removed else Error
  }

  /** The member's name, shown as the label text. */
  function Name(s: State): string
  {
    match s
    case Unknown => "Unknown"
    case Inserted => "Inserted"
    case Removed => "Removed"
    case Error => "Error"
  }

  /** Python's `int(b)` on a boolean. */
  function Int(b: bool): int
  {
    if b then 1 else 0
  }

  /** What reading the device's flags gives: both flags, or an exception. */
  datatype Reading = Reading(inserted: bool, removed: bool) | ReadFailed

  /** The state code `1 + inserted + 2 * removed`, or Error when the read raised. */
  function Interpret(r: Reading): (s: State)
    ensures r == ReadFailed ==> s == Error
    ensures r == Reading(false, false) ==> s == Unknown
    ensures r == Reading(true, false) ==> s == Inserted
    ensures r == Reading(false, true) ==> s == Removed
    ensures r == Reading(true, true) ==> s == Error
  {
    match r
    case ReadFailed => StateOf(Value(Error))
    case Reading(ins, rem) => StateOf(1 + Int(ins) + 2 * Int(rem))
  }

  /** The flags each state stands for; Error stands for both flags set. */
  function Flags(s: State): (r: Reading)
    ensures r.Reading?
  {
    match s
    case Unknown => Reading(false, false)
    case Inserted => Reading(true, false)
    case Removed => Reading(false, true)
    case Error => Reading(true, true)
  }

  /** Every state comes from exactly one pair of flags. */
  lemma InterpretFlags(s: State, r: Reading)
    ensures Interpret(Flags(s)) == s
    ensures r.Reading? ==> Flags(Interpret(r)) == r
  {
  }

  datatype LabelColor = Green | Red

  /** What `update_state` writes: the label text, its colour, and whether Remove is enabled. */
  datatype StateView = StateView(text: string, color: LabelColor, removeEnabled: bool)

  /**
   * The label reads the state's name; it is green only for a device that
   * reports removed and not inserted, and red otherwise, including the
   * contradictory and unreadable cases. Remove is offered unless the
   * device is already removed.
   */
  function UpdateState(r: Reading): (v: StateView)
    ensures v.text == Name(Interpret(r))
    ensures v.color == Green <==> r == Reading(false, true)
    ensures v.removeEnabled <==> r != Reading(false, true)
  {
    var state := Interpret(r);
    StateView(Name(state),
              if Value(state) == Value(Removed) then Green else Red,
              Value(state) != Value(Removed))
  }

  /** The Remove button is disabled exactly when the label is green. */
  lemma RemoveDisabledIffGreen(r: Reading)
    ensures !UpdateState(r).removeEnabled <==> UpdateState(r).color == Green
  {
  }

  // -----------------------------------------------------------------------
  // Beam indicator

  datatype IndicatorColor = Cyan | Gray

  /**
   * The indicator of a row is cyan (the beam reaches it) unless the path
   * has an impediment lying strictly upstream of the device.
   */
  function UpdatePath(device: Device, impediment: Option<Device>): (c: IndicatorColor)
    ensures c == Gray <==> impediment.Some? && impediment.value.z < device.z
  {
    if impediment.None? || device.z <= impediment.value.z then Cyan else Gray
  }

  /** The impediment's own row is lit. */
  lemma ImpedimentLit(impediment: Device)
    ensures UpdatePath(impediment, Some(impediment)) == Cyan
  {
  }

  /** Lit rows are closed downwards in position. */
  lemma LitDownwardClosed(upper: Device, lower: Device, impediment: Option<Device>)
    requires lower.z <= upper.z
    requires UpdatePath(upper, impediment) == Cyan
    ensures UpdatePath(lower, impediment) == Cyan
  {
  }

  /** The number of leading lit rows. */
  function LitPrefix(rows: seq<Device>, impediment: Option<Device>): (n: nat)
    ensures n <= |rows|
    ensures forall i :: 0 <= i < n ==> UpdatePath(rows[i], impediment) == Cyan
    ensures n < |rows| ==> UpdatePath(rows[n], impediment) == Gray
  {
    if |rows| == 0 || UpdatePath(rows[0], impediment) == Gray then 0
    else 1 + LitPrefix(rows[1..], impediment)
  }

  /**
   * Rows judged against one impediment (one beam path) and sorted by
   * position: the lit rows are exactly a leading block.
   */
  lemma LitRowsArePrefix(rows: seq<Device>, impediment: Option<Device>)
    requires SortedBy(rows, Z)
    ensures forall i :: 0 <= i < |rows| ==>
      (UpdatePath(rows[i], impediment) == Cyan <==> i < LitPrefix(rows, impediment))
  {
  }

  // -----------------------------------------------------------------------
  // MPS frame

  /** The frame border: red (tripping), gold (faulted) or none. */
  datatype Border = RedBorder | GoldBorder | NoBorder

  /** Tripped is tested first, then faulted; the device is compared by value. */
  function UpdateMps(device: Device, tripped: seq<Device>, faulted: seq<Device>): (b: Border)
    ensures b == RedBorder <==> device in tripped
    ensures b == GoldBorder <==> device !in tripped && device in faulted
    ensures b == NoBorder <==> device !in tripped && device !in faulted
  {
    if device in tripped then RedBorder
    else if device in faulted then GoldBorder
    else NoBorder
  }

  /** A device reported both tripped and faulted shows red. */
  lemma TrippedTakesPrecedence(device: Device, tripped: seq<Device>, faulted: seq<Device>)
    requires device in tripped && device in faulted
    ensures UpdateMps(device, tripped, faulted) == RedBorder
  {
  }

  /** When the path keeps the two lists disjoint, the frame shows each list's members by its own colour. */
  lemma DisjointBorders(device: Device, tripped: seq<Device>, faulted: seq<Device>)
    requires forall d :: d in tripped ==> d !in faulted
    ensures UpdateMps(device, tripped, faulted) == GoldBorder <==> device in faulted
  {
  }

  // -----------------------------------------------------------------------
  // Row widgets

  /** The widgets of a row, in the column order they are laid out. */
  datatype Widget = Indicator | NameFrame | PrefixLabel | Spacer | StateLabel | RemoveButton

  /** `InactiveRow.widgets`. */
  function InactiveRowWidgets(): (w: seq<Widget>)
    ensures |w| == 5 && RemoveButton !in w
  {
    [Indicator, NameFrame, PrefixLabel, Spacer, StateLabel]
  }

  /** `LightRow.widgets`: the inactive row's widgets followed by the Remove button. */
  function LightRowWidgets(): (w: seq<Widget>)
    ensures |w| == 6
    ensures w[..5] == InactiveRowWidgets() && w[5] == RemoveButton
  {
    [Indicator, NameFrame, PrefixLabel, Spacer, StateLabel, RemoveButton]
  }

  /** A row of the table: a display-only container, or a live device with its beam path. */
  datatype Row = InactiveRow(device: Device) | LightRow(device: Device, path: Beamline)

  /** The widgets a row contributes, one per grid column. */
  function RowWidgets(row: Row): (w: seq<Widget>)
    ensures RemoveButton in w <==> row.LightRow?
  {
    match row
    case InactiveRow(_) => InactiveRowWidgets()
    case LightRow(_, _) => LightRowWidgets()
  }
}
