/**
 * The device-selection logic of the lightpath main window (`LightApp`):
 * the ordering of destinations, the initial destination, the filing of
 * happi containers under their beamlines, and the choice of the devices
 * shown for a destination (`select_devices`).
 */
module Gui {
  import opened Wrappers
  import opened Sequences
  import opened Devices
  import opened Widgets

  // -----------------------------------------------------------------------
  // Destinations

  /**
   * The sort key of `destinations`: a beamline's end point `range[1]`.
   * Only the controller's own names are ever sorted, so for a valid
   * controller the `0.0` fallback for a name outside the table is never used.
   */
  function EndPoint(light: Controller): string -> real
  {
    n => if n in light.beamlines then light.beamlines[n].range.end else 0.0
  }

  /** All beamline names, most upstream first: a stable sort by end point. */
  function Destinations(light: Controller): (r: seq<string>)
    ensures multiset(r) == multiset(light.names)
    ensures SortedBy(r, EndPoint(light))
    ensures forall k :: WithKey(r, EndPoint(light), k) == WithKey(light.names, EndPoint(light), k)
  {
    SortBySorted(light.names, EndPoint(light));
    SortByMultiset(light.names, EndPoint(light));
    SortByStable(light.names, EndPoint(light));
    SortBy(light.names, EndPoint(light))
  }

  /** The destinations are exactly the controller's beamlines, each listed once. */
  lemma DestinationsAreBeamlines(light: Controller)
    requires light.Valid()
    ensures forall n :: n in Destinations(light) <==> n in light.beamlines
    ensures forall n :: n in Destinations(light) ==> multiset(Destinations(light))[n] == 1
  {
    var r := Destinations(light);
    forall n ensures n in r <==> n in light.names {
      assert n in r <==> n in multiset(r);
      assert n in light.names <==> n in multiset(light.names);
    }
    forall n | n in r ensures multiset(r)[n] == 1 {
      DistinctCount(light.names, n);
    }
  }

  /** In a repetition-free list, a member occurs once. */
  lemma {:induction false} DistinctCount(s: seq<string>, x: string)
    requires forall i, j :: 0 <= i < j < |s| ==> s[i] != s[j]
    requires x in s
    ensures multiset(s)[x] == 1
  {
    if s[0] == x {
      assert x !in s[1..];
      assert s == [s[0]] + s[1..];
    } else {
      DistinctCount(s[1..], x);
      assert s == [s[0]] + s[1..];
    }
  }

  // -----------------------------------------------------------------------
  // The initial destination

  /** Python's `list.index`: the first position of `x`, or None for a ValueError. */
  function IndexOf(s: seq<string>, x: string): (r: Option<nat>)
    ensures r.Some? ==> r.value < |s| && s[r.value] == x
    ensures r.Some? ==> forall j :: 0 <= j < r.value ==> s[j] != x
    ensures r.None? <==> x !in s
  {
    if |s| == 0 then None
    else if s[0] == x then Some(0)
    else match IndexOf(s[1..], x)
      case None => None
      case Some(i) => Some(i + 1)
  }

  /** A requested beamline name is used only when it is truthy: given and non-empty. */
  predicate Given(requested: Option<string>)
  {
    requested.Some? && requested.value != ""
  }

  /**
   * The combo-box index the window starts on. Without a (truthy) request
   * the first destination is taken, which fails with IndexError when there
   * is none; a request that is not a destination falls back to index 0.
   */
  function StartIndex(dests: seq<string>, requested: Option<string>): (r: Result<nat, PyError>)
    ensures r.Failure? <==> !Given(requested) && |dests| == 0
    ensures r.Failure? ==> r.error == IndexError
    ensures !Given(requested) && |dests| > 0 ==> r == Success(0)
    ensures Given(requested) && requested.value in dests ==>
      r.Success? && r.value < |dests| && dests[r.value] == requested.value
      && forall j :: 0 <= j < r.value ==> dests[j] != requested.value
    ensures Given(requested) && requested.value !in dests ==> r == Success(0)
  {
    var chosen := if Given(requested) then Success(requested.value)
                  else if |dests| == 0 then Failure(IndexError)
                  else Success(dests[0]);
    match chosen
    case Failure(err) => Failure(err)
    case Success(name) =>
      match IndexOf(dests, name)
      case Some(i) => Success(i)
      case None => Success(0)
  }

  /** Whatever is requested, a non-empty destination list yields a valid index. */
  lemma StartIndexInRange(dests: seq<string>, requested: Option<string>)
    requires |dests| > 0
    ensures StartIndex(dests, requested).Success?
    ensures StartIndex(dests, requested).value < |dests|
  {
  }

  // -----------------------------------------------------------------------
  // Filing containers under their beamlines

  /**
   * A happi container handed to the window. A missing attribute is None:
   * such a container raises AttributeError when it is filed.
   */
  datatype Candidate = Candidate(name: string, beamline: Option<string>, z: Option<real>, mps: bool)

  /** Whether `c` goes into the list of beamline `b` (known keys are `keys`). */
  predicate Files(c: Candidate, keys: set<string>, b: string)
  {
    c.z.Some? && c.beamline == Some(b) && b in keys
  }

  /** The container as a row of the device list. */
  function AsContainer(c: Candidate): (d: Device)
    requires c.z.Some? && c.beamline.Some?
    ensures d.kind == Container && d.beamline == c.beamline.value && d.z == c.z.value
  {
    Device(c.name, c.beamline.value, c.z.value, c.mps, Container)
  }

  /** The list of beamline `b` after filing `cs` in order. */
  function FiledUnder(cs: seq<Candidate>, keys: set<string>, b: string): (r: seq<Device>)
    ensures |r| <= |cs|
    ensures forall d :: d in r ==> d.kind == Container && d.beamline == b
    ensures b !in keys ==> r == []
  {
    if |cs| == 0 then []
    else
      var c := cs[|cs| - 1];
      FiledUnder(cs[..|cs| - 1], keys, b) + (if Files(c, keys, b) then [AsContainer(c)] else [])
  }

  /**
   * The container map built when the window starts: one list per beamline
   * key, each container appended to its beamline's list, and containers
   * without a position, without a beamline or with an unknown beamline
   * skipped.
   */
  method FileContainers(keys: set<string>, candidates: seq<Candidate>)
    returns (containers: map<string, seq<Device>>)
    ensures containers.Keys == keys
    ensures forall b :: b in keys ==> containers[b] == FiledUnder(candidates, keys, b)
  {
    containers := map b | b in keys :: [];
    for i := 0 to |candidates|
      invariant containers.Keys == keys
      invariant forall b :: b in keys ==> containers[b] == FiledUnder(candidates[..i], keys, b)
    {
      var c := candidates[i];
      assert candidates[..i + 1][..i] == candidates[..i];
      if c.z.Some? && c.beamline.Some? && c.beamline.value in containers {
        var b := c.beamline.value;
        containers := containers[b := containers[b] + [AsContainer(c)]];
      }
    }
    assert candidates[..|candidates|] == candidates;
  }

  /** A container is filed under `b` exactly when it has a position and `b` is its known beamline. */
  lemma {:induction false} FiledUnderMembers(cs: seq<Candidate>, keys: set<string>, b: string)
    ensures forall d :: d in FiledUnder(cs, keys, b) <==>
      exists c :: c in cs && Files(c, keys, b) && d == AsContainer(c)
  {
    if |cs| > 0 {
      var init := cs[..|cs| - 1];
      FiledUnderMembers(init, keys, b);
      assert cs == init + [cs[|cs| - 1]];
      forall d ensures d in FiledUnder(cs, keys, b) ==>
        exists c :: c in cs && Files(c, keys, b) && d == AsContainer(c)
      {
        if d in FiledUnder(init, keys, b) {
          var c :| c in init && Files(c, keys, b) && d == AsContainer(c);
          assert c in cs;
        }
      }
    }
  }

  /**
   * Filing is done container by container: the lists for a batch are the
   * lists for its first part followed by those for the rest, so relative
   * order is kept and a skipped container does not affect the others.
   */
  lemma {:induction false} FiledUnderAppend(xs: seq<Candidate>, ys: seq<Candidate>, keys: set<string>, b: string)
    ensures FiledUnder(xs + ys, keys, b) == FiledUnder(xs, keys, b) + FiledUnder(ys, keys, b)
  {
    if |ys| > 0 {
      var init := ys[..|ys| - 1];
      assert (xs + ys)[..|xs + ys| - 1] == xs + init;
      assert (xs + ys)[|xs + ys| - 1] == ys[|ys| - 1];
      FiledUnderAppend(xs, init, keys, b);
    } else {
      assert xs + ys == xs;
    }
  }

  // -----------------------------------------------------------------------
  // Selecting the devices shown for a destination

  /** The beamlines of the devices in `pool`: Python's `set(d.beamline for d in pool)`. */
  function PoolBeamlines(pool: seq<Device>): (bls: set<string>)
    ensures forall d :: d in pool ==> d.beamline in bls
    ensures forall b :: b in bls ==> exists d :: d in pool && d.beamline == b
  {
    set d | d in pool :: d.beamline
  }

  /** `order` lists the members of `s` once each: an iteration order of a Python set. */
  ghost predicate Enumerates(order: seq<string>, s: set<string>)
  {
    && (forall i, j :: 0 <= i < j < |order| ==> order[i] != order[j])
    && (forall x :: x in order <==> x in s)
  }

  /** The positions of `s`, in order. */
  function Positions(s: seq<Device>): (zs: seq<real>)
    ensures |zs| == |s| && forall i :: 0 <= i < |s| ==> zs[i] == s[i].z
  {
    seq(|s|, i requires 0 <= i < |s| => s[i].z)
  }

  lemma PositionsMembers(s: seq<Device>)
    ensures forall z :: z in Positions(s) <==> exists d :: d in s && d.z == z
  {
  }

  /** `[d.z for d in pool if d.beamline == bl]`. */
  function ZsOn(pool: seq<Device>, bl: string): (zs: seq<real>)
    ensures forall z :: z in zs <==> exists d :: d in pool && d.beamline == bl && d.z == z
  {
    var on := Filter(pool, OnBeamline(bl));
    FilterMembers(pool, OnBeamline(bl));
    PositionsMembers(on);
    Positions(on)
  }

  /** Python's `max` over a non-empty list. */
  function MaxOf(zs: seq<real>): (m: real)
    requires |zs| > 0
    ensures m in zs
    ensures forall z :: z in zs ==> z <= m
  {
    if |zs| == 1 then zs[0]
    else
      var rest := MaxOf(zs[1..]);
      assert forall z :: z in zs ==> z == zs[0] || z in zs[1..];
      if zs[0] >= rest then zs[0] else rest
  }

  /** Each beamline of the pool mapped to the largest position of its devices. */
  function Endpoints(pool: seq<Device>): (e: map<string, real>)
    ensures e.Keys == PoolBeamlines(pool)
    ensures forall d :: d in pool ==> d.z <= e[d.beamline]
    ensures forall bl :: bl in e ==> exists d :: d in pool && d.beamline == bl && d.z == e[bl]
  {
    ZsOnPoolBeamlines(pool);
    map bl | bl in PoolBeamlines(pool) :: MaxOf(ZsOn(pool, bl))
  }

  /** Every pool beamline has positions, and every pool device's position is among its beamline's. */
  lemma ZsOnPoolBeamlines(pool: seq<Device>)
    ensures forall bl :: bl in PoolBeamlines(pool) ==> |ZsOn(pool, bl)| > 0
    ensures forall d :: d in pool ==> d.beamline in PoolBeamlines(pool) && d.z in ZsOn(pool, d.beamline)
  {
    forall bl | bl in PoolBeamlines(pool) ensures |ZsOn(pool, bl)| > 0 {
      var d :| d in pool && d.beamline == bl;
      assert d.z in ZsOn(pool, bl);
    }
  }

  /** The container test of `select_devices`: on `bl` and strictly before `end`. */
  function Admits(bl: string, end: real): Device -> bool
  {
    (c: Device) => c.beamline == bl && c.z < end
  }

  /**
   * The containers of the listed beamlines that lie before the beamline's
   * end point, beamline by beamline; a beamline without a container list
   * raises KeyError.
   */
  function Gather(order: seq<string>, containers: map<string, seq<Device>>, e: map<string, real>)
    : (r: Result<seq<Device>, PyError>)
    requires forall bl :: bl in order ==> bl in e
    ensures r.Failure? <==> exists bl :: bl in order && bl !in containers
    ensures r.Failure? ==> r.error.KeyError? && r.error.key in order && r.error.key !in containers
    ensures r.Success? ==> forall c :: c in r.value <==>
      c.beamline in order && c in containers[c.beamline] && c.z < e[c.beamline]
  {
    if |order| == 0 then Success([])
    else
      var bl := order[0];
      if bl !in containers then Failure(KeyError(bl))
      else
        match Gather(order[1..], containers, e)
        case Failure(err) => Failure(err)
        case Success(rest) =>
          FilterMembers(containers[bl], Admits(bl, e[bl]));
          Success(Filter(containers[bl], Admits(bl, e[bl])) + rest)
  }

  /** The requirement on `order` for a call of `SelectDevices`. */
  ghost predicate OrderFits(light: Controller, beamline: string, order: seq<string>)
  {
    beamline in light.beamlines ==> Enumerates(order, PoolBeamlines(light.beamlines[beamline].path))
  }

  /** The containers `SelectDevices` adds to the pool of `beamline`. */
  function SelectedContainers(light: Controller, containers: map<string, seq<Device>>,
                              beamline: string, order: seq<string>): Result<seq<Device>, PyError>
    requires beamline in light.beamlines
    requires OrderFits(light, beamline, order)
  {
    var pool := light.beamlines[beamline].path;
    Gather(order, containers, Endpoints(pool))
  }

  /** The filters the display's check boxes apply to the sorted list. */
  function Shown(s: seq<Device>, beamline: string, upstream: bool, mpsOnly: bool): (r: seq<Device>)
    ensures multiset(r) <= multiset(s)
    ensures !upstream ==> forall d :: d in r ==> d.beamline == beamline
    ensures mpsOnly ==> forall d :: d in r ==> d.mps
  {
    var own := if upstream then s else Filter(s, OnBeamline(beamline));
    FilterMultiset(s, OnBeamline(beamline));
    FilterMembers(s, OnBeamline(beamline));
    FilterMultiset(own, IsMps);
    FilterMembers(own, IsMps);
    if mpsOnly then Filter(own, IsMps) else own
  }

  /**
   * The devices shown for `beamline`: its path plus the containers lying
   * before their beamline's end point, stably sorted by position, then
   * restricted to the beamline itself unless `upstream`, and to MPS
   * devices if `mpsOnly`. The pool's beamlines are visited in `order`,
   * which stands for the iteration order of a Python set.
   */
  function SelectDevices(light: Controller, containers: map<string, seq<Device>>, beamline: string,
                         upstream: bool, mpsOnly: bool, order: seq<string>): (r: Result<seq<Device>, PyError>)
    requires OrderFits(light, beamline, order)
    ensures beamline !in light.beamlines ==> r == Failure(KeyError(beamline))
    ensures beamline in light.beamlines ==>
      (r.Failure? <==> exists bl :: bl in PoolBeamlines(light.beamlines[beamline].path) && bl !in containers)
    ensures r.Success? ==> SortedBy(r.value, Z)
  {
    if beamline !in light.beamlines then Failure(KeyError(beamline))
    else
      var pool := light.beamlines[beamline].path;
      match Gather(order, containers, Endpoints(pool))
      case Failure(err) => Failure(err)
      case Success(cs) =>
        var sorted := SortBy(pool + cs, Z);
        SortBySorted(pool + cs, Z);
        FilterSorted(sorted, OnBeamline(beamline), Z);
        var own := if upstream then sorted else Filter(sorted, OnBeamline(beamline));
        FilterSorted(own, IsMps, Z);
        Success(Shown(sorted, beamline, upstream, mpsOnly))
  }

  /**
   * A device is shown exactly when it is on the destination's path or is
   * a container of a pool beamline lying strictly before that beamline's
   * end point, and it passes the beamline and MPS filters.
   */
  lemma SelectDevicesMembers(light: Controller, containers: map<string, seq<Device>>, beamline: string,
                             upstream: bool, mpsOnly: bool, order: seq<string>)
    requires beamline in light.beamlines
    requires OrderFits(light, beamline, order)
    requires SelectDevices(light, containers, beamline, upstream, mpsOnly, order).Success?
    ensures var pool := light.beamlines[beamline].path;
            var e := Endpoints(pool);
            forall d :: d in SelectDevices(light, containers, beamline, upstream, mpsOnly, order).value <==>
              && (d in pool || (d.beamline in e && d in containers[d.beamline] && d.z < e[d.beamline]))
              && (upstream || d.beamline == beamline)
              && (!mpsOnly || d.mps)
  {
    var pool := light.beamlines[beamline].path;
    var e := Endpoints(pool);
    var cs := Gather(order, containers, e).value;
    assert forall c :: c in cs <==> c.beamline in e && c in containers[c.beamline] && c.z < e[c.beamline];
    SortByMembers(pool + cs, Z);
    ShownMembers(SortBy(pool + cs, Z), beamline, upstream, mpsOnly);
  }

  /** Sorting neither adds nor drops a device. */
  lemma SortByMembers(s: seq<Device>, key: Device -> real)
    ensures forall d :: d in SortBy(s, key) <==> d in s
  {
    SortByMultiset(s, key);
    forall d ensures d in SortBy(s, key) <==> d in s {
      assert d in SortBy(s, key) <==> d in multiset(SortBy(s, key));
      assert d in s <==> d in multiset(s);
    }
  }

  /** The check-box filters keep exactly the devices that pass them. */
  lemma ShownMembers(s: seq<Device>, beamline: string, upstream: bool, mpsOnly: bool)
    ensures forall d :: d in Shown(s, beamline, upstream, mpsOnly) <==>
      d in s && (upstream || d.beamline == beamline) && (!mpsOnly || d.mps)
  {
    FilterMembers(s, OnBeamline(beamline));
    var own := if upstream then s else Filter(s, OnBeamline(beamline));
    FilterMembers(own, IsMps);
  }

  /** A shown container lies strictly before some device of its own beamline on the path. */
  lemma ShownContainerBeforeEnd(light: Controller, containers: map<string, seq<Device>>, beamline: string,
                                upstream: bool, mpsOnly: bool, order: seq<string>, d: Device)
    requires beamline in light.beamlines
    requires OrderFits(light, beamline, order)
    requires SelectDevices(light, containers, beamline, upstream, mpsOnly, order).Success?
    requires d in SelectDevices(light, containers, beamline, upstream, mpsOnly, order).value
    requires d !in light.beamlines[beamline].path
    ensures d.beamline in PoolBeamlines(light.beamlines[beamline].path)
    ensures d.beamline in containers && d in containers[d.beamline]
    ensures exists p :: p in light.beamlines[beamline].path && p.beamline == d.beamline && d.z < p.z
  {
    SelectDevicesMembers(light, containers, beamline, upstream, mpsOnly, order);
    var pool := light.beamlines[beamline].path;
    var e := Endpoints(pool);
    var p :| p in pool && p.beamline == d.beamline && p.z == e[d.beamline];
  }

  /**
   * With upstream devices included and no MPS filter, the shown list is a
   * permutation of the path plus the selected containers, and devices at
   * equal positions keep their order in that concatenation.
   */
  lemma SelectDevicesAll(light: Controller, containers: map<string, seq<Device>>, beamline: string,
                         order: seq<string>)
    requires beamline in light.beamlines
    requires OrderFits(light, beamline, order)
    requires SelectDevices(light, containers, beamline, true, false, order).Success?
    ensures SelectedContainers(light, containers, beamline, order).Success?
    ensures var all := light.beamlines[beamline].path + SelectedContainers(light, containers, beamline, order).value;
            var r := SelectDevices(light, containers, beamline, true, false, order).value;
            && multiset(r) == multiset(all)
            && forall k :: WithKey(r, Z, k) == WithKey(all, Z, k)
  {
    var all := light.beamlines[beamline].path + SelectedContainers(light, containers, beamline, order).value;
    SortByMultiset(all, Z);
    SortByStable(all, Z);
  }

  /**
   * The filters only drop devices and keep the sorted order: the shown list
   * is the stable sort of the filtered path and containers, and it is a
   * sub-multiset of the unfiltered list.
   */
  lemma SelectDevicesFiltered(light: Controller, containers: map<string, seq<Device>>, beamline: string,
                              upstream: bool, mpsOnly: bool, order: seq<string>)
    requires beamline in light.beamlines
    requires OrderFits(light, beamline, order)
    requires SelectDevices(light, containers, beamline, upstream, mpsOnly, order).Success?
    ensures SelectedContainers(light, containers, beamline, order).Success?
    ensures var all := light.beamlines[beamline].path + SelectedContainers(light, containers, beamline, order).value;
            var r := SelectDevices(light, containers, beamline, upstream, mpsOnly, order).value;
            && r == SortBy(Shown(all, beamline, upstream, mpsOnly), Z)
            && multiset(r) <= multiset(all)
  {
    var all := light.beamlines[beamline].path + SelectedContainers(light, containers, beamline, order).value;
    var sorted := SortBy(all, Z);
    SortByMultiset(all, Z);
    FilterSortBy(all, OnBeamline(beamline), Z);
    var own := if upstream then all else Filter(all, OnBeamline(beamline));
    FilterSortBy(own, IsMps, Z);
    var ownSorted := if upstream then sorted else Filter(sorted, OnBeamline(beamline));
    FilterMultiset(sorted, OnBeamline(beamline));
    FilterMultiset(ownSorted, IsMps);
  }

  // -----------------------------------------------------------------------
  // Rows of the table

  /**
   * The row for one device: a container gets an inactive row, a live device
   * a row bound to its beamline's path, which raises KeyError when the
   * controller has no such beamline.
   */
  function LoadDeviceRow(light: Controller, d: Device): (r: Result<Row, PyError>)
    ensures r.Success? ==> r.value.device == d
    ensures r.Success? ==> (r.value.InactiveRow? <==> d.kind == Container)
    ensures r.Failure? <==> d.kind == Live && d.beamline !in light.beamlines
    ensures r.Failure? ==> r.error == KeyError(d.beamline)
    ensures r.Success? && r.value.LightRow? ==>
      d.beamline in light.beamlines && r.value.path == light.beamlines[d.beamline]
  {
    if d.kind.Container? then Success(InactiveRow(d))
    else if d.beamline !in light.beamlines then Failure(KeyError(d.beamline))
    else Success(LightRow(d, light.beamlines[d.beamline]))
  }

  /**
   * The rows built for the selected devices, one per device in the same
   * order; the first device whose row cannot be built raises.
   */
  function LoadRows(light: Controller, devices: seq<Device>): (r: Result<seq<Row>, PyError>)
    ensures r.Failure? <==> exists d :: d in devices && d.kind == Live && d.beamline !in light.beamlines
    ensures r.Success? ==> |r.value| == |devices|
    ensures r.Success? ==> forall i :: 0 <= i < |devices| ==>
      r.value[i].device == devices[i] && (RemoveButton in RowWidgets(r.value[i]) <==> devices[i].kind == Live)
    ensures r.Success? ==> forall i :: 0 <= i < |devices| && r.value[i].LightRow? ==>
      devices[i].beamline in light.beamlines && r.value[i].path == light.beamlines[devices[i].beamline]
  {
    if |devices| == 0 then Success([])
    else
      match LoadDeviceRow(light, devices[0])
      case Failure(err) => Failure(err)
      case Success(row) =>
        match LoadRows(light, devices[1..])
        case Failure(err) => Failure(err)
        case Success(rest) => Success([row] + rest)
  }
}
