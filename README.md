# lightpath display logic in Dafny

lightpath shows, for a chosen destination beamline, the chain of devices
the beam passes, how far the beam gets, and which devices trip or fault
the machine protection system (MPS). This project models the
deterministic part of its Qt front end (`LightApp` in
`lightpath/ui/gui.py` and the row classes of `lightpath/ui/widgets.py`),
and proves what that code promises:

- Ordering destinations by end point.
- Choosing the initial destination.
- Filing happi "containers" (display-only devices) under their beamlines.
- `select_devices`, which merges a destination's path with the containers
  lying before each beamline's end point, stably sorts by position, and
  filters by beamline and MPS membership.
- Building one row per selected device.
- The state label and Remove button of a row.
- The beam indicator relative to the path's impediment.
- The MPS frame from the path's tripped and faulted devices.

The beam-path engine and the controller (`lightpath/path.py`,
`lightpath/controller.py`) are not part of this model. Their outputs are
inputs here: the controller's beamline table (`Devices.Controller`), the
path's impediment, and its tripped and faulted device lists.

Files:

- `wrappers.dfy`: `Option`, `Result`, and the Python exceptions that can
  escape (`KeyError`, `IndexError`).
- `sequences.dfy`: Python's stable `sorted(key=...)` as an insertion sort
  over a real key, and the filtering list comprehension. It proves that
  the sort is sorted, is a permutation and is stable. Stability means every
  key class keeps its input order. It also proves that a sorted sequence
  with the same key classes is unique, so the model equals any stable sort.
  Finally, it proves that filtering commutes with the sort.
- `devices.dfy`: devices, beamlines and the controller's table.
- `gui.dfy`: `LightApp`'s selection logic.
- `widgets.dfy`: the row decisions, each `update_*` slot as a function
  returning the display state it writes.

Modelling choices:

- Positions `z` and range ends are `real`. They are only compared.
- A Python dictionary's key order is `Controller.names`.
- `select_devices` builds its end-point dictionary from a `set` of
  beamline names, so the order in which containers are gathered depends on
  string hashing. `order` stands for that iteration order: any
  repetition-free listing of the set. Every property is proved for every
  such order.
- A failed dictionary lookup or list index is a `Failure(KeyError(..))` or
  `Failure(IndexError)`, not a precondition.
- MPS capability (`hasattr(dev, 'mps')`) is the boolean `Device.mps`. A
  container attribute that may be missing is an `Option`.
- A device's identity is its value. The tripped and faulted collections
  are lists, so membership is list membership.

Where the design description and the code differ, the model follows the code:

- Destinations are ordered non-decreasingly by end point, with ties in
  dictionary order, rather than strictly.
- An unknown destination raises `KeyError` rather than a dedicated error.
- A device reporting both inserted and removed is shown as `Error`,
  with a red label and Remove enabled.

## Model

| member | source | states |
|---|---|---|
| `Sequences.SortBy` | lightpath/ui/gui.py:153 | the model of `sorted(key=...)`: a list of the same length; what it orders and keeps is stated by the lemmas below |
| `Sequences.SortBySorted` | lightpath/ui/gui.py:153 | the stable sort by position yields a list non-decreasing in `z` |
| `Sequences.SortByMultiset` | lightpath/ui/gui.py:153 | sorting is a permutation of its input |
| `Sequences.SortByStable` | lightpath/ui/gui.py:153 | sorting is stable: the devices at each position keep their input order |
| `Sequences.StableSortUnique` | lightpath/ui/gui.py:153 | two sorted lists with the same per-position order are equal, so any stable sort gives the modelled result |
| `Sequences.Filter` | lightpath/ui/gui.py:155-160 | the model of a filtering comprehension: never longer than its input; its membership and order are stated by the lemmas below |
| `Sequences.FilterMembers` | lightpath/ui/gui.py:155-160 | a filtering comprehension keeps exactly the elements passing its test |
| `Sequences.FilterMultiset` | lightpath/ui/gui.py:155-160 | filtering only removes elements |
| `Sequences.FilterAppend` | lightpath/ui/gui.py:155-160 | filtering distributes over concatenation, so it keeps relative order |
| `Sequences.FilterSorted` | lightpath/ui/gui.py:155-160 | filtering a sorted list leaves it sorted |
| `Sequences.FilterSortBy` | lightpath/ui/gui.py:153-160 | filtering after the stable sort equals stably sorting the filtered input |
| `Gui.Destinations` | lightpath/ui/gui.py:105-110 | destinations are a permutation of the beamline names, non-decreasing by `range[1]`, ties in dictionary order |
| `Gui.DestinationsAreBeamlines` | lightpath/ui/gui.py:105-110 | the destinations are exactly the controller's beamlines, each listed once |
| `Gui.IndexOf` | lightpath/ui/gui.py:79-82 | `list.index` gives the first position of the name, or fails (ValueError) exactly when it is absent |
| `Gui.StartIndex` | lightpath/ui/gui.py:77-82 | no (or empty) request picks index 0 and raises IndexError only without destinations; a known request picks its first position; an unknown one falls back to 0 without raising |
| `Gui.StartIndexInRange` | lightpath/ui/gui.py:77-84 | with at least one destination the start index always exists and is in range |
| `Gui.AsContainer` | lightpath/ui/gui.py:92-93 | a filed container keeps its beamline and position and is shown as a container |
| `Gui.FiledUnder` | lightpath/ui/gui.py:89-101 | the list of one beamline after filing: no longer than the containers filed, only containers of that beamline, empty for an unknown beamline |
| `Gui.FileContainers` | lightpath/ui/gui.py:86-101 | the container map has one list per controller beamline, starting empty, and each list is what filing the containers in order gives |
| `Gui.FiledUnderMembers` | lightpath/ui/gui.py:89-101 | a container lands in the list of `b` iff it has a `z`, its beamline is `b` and `b` is a known key; otherwise it is skipped |
| `Gui.FiledUnderAppend` | lightpath/ui/gui.py:89-101 | filing is container by container: relative order is kept and a skipped container does not affect the others |
| `Gui.PoolBeamlines` | lightpath/ui/gui.py:143 | the set of the pool's beamlines: every pool device's beamline, and nothing that is not one |
| `Gui.ZsOn` | lightpath/ui/gui.py:144-145 | the positions listed for a beamline are exactly those of its pool devices |
| `Gui.MaxOf` | lightpath/ui/gui.py:144 | `max` returns an element of the list that bounds every element |
| `Gui.Endpoints` | lightpath/ui/gui.py:143-146 | end points are defined exactly for the pool's beamlines, each is the largest `z` of that beamline's pool devices |
| `Gui.Gather` | lightpath/ui/gui.py:148-151 | a container is gathered iff its beamline is a pool beamline, it is in that beamline's list, and its `z` is strictly below the end point; a pool beamline without a list raises KeyError |
| `Gui.SelectDevices` | lightpath/ui/gui.py:125-162 | an unknown destination raises KeyError, as does a pool beamline without a container list; otherwise the result is sorted by `z` |
| `Gui.Shown` | lightpath/ui/gui.py:155-160 | the check-box filters only drop devices; without `upstream` every kept device is on the destination, with MPS-only every kept device is MPS-capable |
| `Gui.SelectDevicesMembers` | lightpath/ui/gui.py:141-160 | a device is shown iff it is on the path or is an admitted container, and it passes the beamline and MPS filters |
| `Gui.ShownContainerBeforeEnd` | lightpath/ui/gui.py:143-151 | a shown container belongs to a pool beamline and lies strictly before some pool device of that beamline |
| `Gui.SelectDevicesAll` | lightpath/ui/gui.py:153 | with upstream devices and no MPS filter the result is a permutation of path plus selected containers, stable by `z` |
| `Gui.SelectDevicesFiltered` | lightpath/ui/gui.py:153-160 | the filtered result is the stable sort of the filtered devices and a sub-multiset of the unfiltered list |
| `Gui.SortByMembers` | lightpath/ui/gui.py:153 | sorting neither adds nor drops a device |
| `Gui.ShownMembers` | lightpath/ui/gui.py:155-160 | the beamline filter keeps only devices of the destination and the MPS filter only MPS devices |
| `Gui.LoadDeviceRow` | lightpath/ui/gui.py:112-123 | a container gets an inactive row, a live device a row bound to `light.beamlines[device.beamline]`, KeyError if that beamline is unknown |
| `Gui.LoadRows` | lightpath/ui/gui.py:203-206 | one row per selected device in order, with a Remove button exactly for live devices, each live row bound to its own beamline's path; fails iff some live device's beamline is unknown |
| `Widgets.StateOf` | lightpath/ui/widgets.py:162-170 | the enumeration lookup returns the member with the given value |
| `Widgets.Interpret` | lightpath/ui/widgets.py:156-168 | neither flag gives Unknown, inserted only Inserted, removed only Removed, both Error, and a failed read Error |
| `Widgets.InterpretFlags` | lightpath/ui/widgets.py:162-168 | decoding is a bijection between flag pairs and the four states |
| `Widgets.UpdateState` | lightpath/ui/widgets.py:152-177 | the label shows the state's name; it is green iff the device reports removed and not inserted, red otherwise (Error included); Remove is enabled iff not removed |
| `Widgets.RemoveDisabledIffGreen` | lightpath/ui/widgets.py:172-177 | the Remove button is disabled exactly when the label is green |
| `Widgets.UpdatePath` | lightpath/ui/widgets.py:122-134 | the indicator is gray iff an impediment lies strictly upstream of the device, cyan otherwise |
| `Widgets.ImpedimentLit` | lightpath/ui/widgets.py:126-129 | the impediment's own row is lit |
| `Widgets.LitDownwardClosed` | lightpath/ui/widgets.py:126-132 | a device upstream of a lit device is lit |
| `Widgets.LitPrefix` | lightpath/ui/widgets.py:126-132 | counts the leading lit rows: those before it are lit, the next one is gray |
| `Widgets.LitRowsArePrefix` | lightpath/ui/widgets.py:126-132 | rows judged against one impediment (one beam path) and sorted by `z`: the lit rows are exactly a leading block |
| `Widgets.UpdateMps` | lightpath/ui/widgets.py:136-150 | red iff tripped, gold iff faulted and not tripped, no border otherwise |
| `Widgets.TrippedTakesPrecedence` | lightpath/ui/widgets.py:144-148 | a device both tripped and faulted shows red |
| `Widgets.DisjointBorders` | lightpath/ui/widgets.py:144-150 | with disjoint lists, gold marks exactly the faulted devices |
| `Widgets.InactiveRowWidgets` | lightpath/ui/widgets.py:68-77 | an inactive row has five widgets and no Remove button |
| `Widgets.LightRowWidgets` | lightpath/ui/widgets.py:179-189 | a live row has six widgets: the inactive row's five in the same order, then the Remove button |
| `Widgets.RowWidgets` | lightpath/ui/widgets.py:68-77 | a row has a Remove button iff it is a live-device row |

## Left out

- The beam-path engine and `LightController` (impediment, trip and fault
  computation, the registry): not part of this model. Their results are
  inputs.
- Qt and PyDM work is not modelled: layouts, fonts, style-sheet strings,
  widget construction, the grid placement and teardown in
  `change_path_display`, `ui_filename`/`ui_filepath`, and reading the
  check boxes and combo box. Colours are enumerations. The style sheets
  use rgb(124,252,0) for green and rgb(255,215,0) for gold.
- Device actuation (`remove(wait=False)` in both files): a hardware call
  whose exceptions are only logged.
- Subscriptions (`subscribe`, `clear_sub`): event wiring into objects
  outside the model.
- `from_json`: database I/O and device construction.
- `examples/demo.py`: it only launches the application.
- Logging.
- Floating-point positions: `real` has no NaN, so comparisons are total.
- `Widgets.Interpret`: Python's `int()` on a non-boolean flag value is
  not modelled; flags are booleans or the read fails as a whole.
- The table as a whole is not claimed to light a leading block of rows:
  each live row consults its own beamline's path (the path bound by
  `load_device_row`), and inactive container rows have no indicator
  logic. `Widgets.LitRowsArePrefix` is about rows judged against one path.
- The order of Qt signals during `LightApp.__init__`: moving the combo box
  (gui.py:84) may run `change_path_display` before the container map is
  assigned (gui.py:87), so a start destination other than the first could
  raise AttributeError there. `Gui.StartIndex` models only the index
  computation at gui.py:77-82, and `Gui.FileContainers` the map built
  after it.
- Object identity: devices are values, so two distinct objects with equal
  fields are one device here.
