/**
 * The values the display reads from the beam-path controller, which is
 * not part of this model: devices with a beamline and a position `z`,
 * and the controller's table of beamlines, each with its device path and
 * its (start, end) range.
 */
module Devices {

  /** A row either shows a live device or a display-only happi container. */
  datatype Kind = Live | Container

  /**
   * A device as the display sees it. `mps` stands for "has an `mps`
   * attribute", the test the display uses for MPS membership.
   */
  datatype Device = Device(name: string, beamline: string, z: real, mps: bool, kind: Kind)

  /** The sort key of device lists: the position along the beam. */
  function Z(d: Device): real
  {
    d.z
  }

  /** Whether a device is MPS-capable. */
  predicate IsMps(d: Device)
  {
    d.mps
  }

  /** The test `dev.beamline == beamline` as a predicate on devices. */
  function OnBeamline(b: string): Device -> bool
  {
    (d: Device) => d.beamline == b
  }

  datatype Range = Range(start: real, end: real)

  /** A controller entry: the beam path's devices and the beamline's range. */
  datatype Beamline = Beamline(path: seq<Device>, range: Range)

  /**
   * The controller's `beamlines` dictionary: `names` is its key order
   * (insertion order of the dictionary), `beamlines` its contents.
   */
  datatype Controller = Controller(names: seq<string>, beamlines: map<string, Beamline>)
  {
    /** The key order lists every key exactly once, as a dictionary's keys do. */
    ghost predicate Valid()
    {
      && (forall i, j :: 0 <= i < j < |names| ==> names[i] != names[j])
      && (forall n :: n in names <==> n in beamlines)
    }
  }
}
