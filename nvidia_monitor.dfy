/** Best-effort probe of the first NVIDIA GPU (`NvidiaMonitor`, main.py
    lines 75-120). Each vendor call either succeeds or raises; which one
    raises first is an input of the model. */
module NvidiaGpu {
  import opened Wrappers

  /** An opaque device handle returned by the vendor library. */
  type DeviceHandle = nat

  /** How initialisation goes: the first vendor step that fails, or success. */
  datatype InitOutcome =
    | LibraryMissing                                   // `import pynvml` fails
    | InitFails                                        // `nvmlInit` raises
    | HandleFails                                      // `nvmlDeviceGetHandleByIndex(0)` raises
    | NameFails(handle: DeviceHandle)                  // `nvmlDeviceGetName` raises
    | Ready(handle: DeviceHandle, deviceName: string)  // every step succeeds

  /** How one telemetry read goes: both vendor queries answer, or one raises. */
  datatype ReadOutcome =
    | ReadFails
    | ReadOk(utilization: nat, temperature: int)

  class NvidiaMonitor {
    var available: bool
    var name: Option<string>
    var handle: Option<DeviceHandle>
    /** The vendor library has been initialised (`_nvml is not None`). */
    var nvml: bool

    /** Availability is only ever claimed with a library, a handle and a name. */
    ghost predicate Valid()
      reads this
    {
      available ==> nvml && handle.Some? && name.Some?
    }

    /** `__init__`: start unavailable, then try to initialise. */
    constructor (outcome: InitOutcome)
      ensures Valid()
      ensures available <==> outcome.Ready?
      ensures name == (if outcome.Ready? then Some(outcome.deviceName) else None)
      ensures nvml <==> (outcome.HandleFails? || outcome.NameFails? || outcome.Ready?)
      ensures handle == (if outcome.NameFails? || outcome.Ready? then Some(outcome.handle) else None)
    {
      available := false;
      name := None;
      handle := None;
      nvml := false;
      new;
      Initialize(outcome);
    }

    /** `_initialize`: each step records what it obtained; any raising step
        leaves the probe unavailable, keeping what earlier steps recorded. */
    method Initialize(outcome: InitOutcome)
      requires Valid()
      modifies this
      ensures available <==> outcome.Ready? || (outcome.LibraryMissing? && old(available))
      ensures name == (if outcome.Ready? then Some(outcome.deviceName) else old(name))
      ensures nvml == (if outcome.LibraryMissing? || outcome.InitFails? then old(nvml) else true)
      ensures handle == (if outcome.NameFails? || outcome.Ready? then Some(outcome.handle) else old(handle))
      ensures Valid()
    {
      if outcome.LibraryMissing? {
        // the import failed: nothing is touched
        return;
      }
      match outcome
      case InitFails =>
        available := false;
      case HandleFails =>
        nvml := true;
        available := false;
      case NameFails(h) =>
        nvml := true;
        handle := Some(h);
        available := false;
      case Ready(h, n) =>
        nvml := true;
        handle := Some(h);
        name := Some(n);
        available := true;
    }

    /** `read`: utilisation and temperature as reals when the probe is usable
        and the vendor answers, otherwise both absent. */
    method Read(outcome: ReadOutcome) returns (utilization: Option<real>, temperature: Option<real>)
      ensures utilization.Some? <==> available && nvml && handle.Some? && outcome.ReadOk?
      ensures temperature.Some? <==> utilization.Some?
      ensures utilization.Some? ==> utilization.value == outcome.utilization as real
      ensures temperature.Some? ==> temperature.value == outcome.temperature as real
    {
      if !available || !nvml || handle.None? {
        return None, None;
      }
      match outcome
      case ReadFails =>
        return None, None;
      case ReadOk(u, t) =>
        return Some(u as real), Some(t as real);
    }

    /** `shutdown`: releases the library only when the probe is available,
        then reports the probe unavailable. `released` tells whether the
        vendor's shutdown was called; its errors are swallowed. */
    method Shutdown() returns (released: bool)
      requires Valid()
      modifies this`available
      ensures Valid()
      ensures !available
      ensures released == old(available)
      ensures !old(available) ==> unchanged(this)
    {
      if !available || !nvml {
        return false;
      }
      released := true;
      available := false;
    }
  }

  /** A second shutdown releases nothing and changes nothing. */
  method ShutdownTwice(monitor: NvidiaMonitor) returns (first: bool, second: bool)
    requires monitor.Valid()
    modifies monitor
    ensures !monitor.available
    ensures first == old(monitor.available) && !second
    ensures monitor.name == old(monitor.name) && monitor.handle == old(monitor.handle) && monitor.nvml == old(monitor.nvml)
  {
    first := monitor.Shutdown();
    second := monitor.Shutdown();
  }

  /** A probe whose initialisation failed never reports a name or a reading. */
  method FailedProbeReportsNothing(outcome: InitOutcome, read: ReadOutcome) returns (name: Option<string>, utilization: Option<real>, temperature: Option<real>)
    requires !outcome.Ready?
    ensures name.None? && utilization.None? && temperature.None?
  {
    var monitor := new NvidiaMonitor(outcome);
    name := monitor.name;
    utilization, temperature := monitor.Read(read);
  }
}
