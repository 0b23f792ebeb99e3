/** The sampling engine (`SystemSampler`, main.py lines 123-225): one
    snapshot per call from OS readings, with the rolling network baseline
    kept between calls, and the pure helpers it relies on. */
module Sampling {
  import opened Wrappers
  import opened AsciiText
  import opened NetworkRate
  import opened Uptime
  import opened CpuTemperature
  import opened NvidiaGpu

  /** `platform.system().lower().startswith("win")`. */
  predicate IsWindows(system: string): (b: bool)
    ensures b <==> |system| >= 3 && LowerChar(system[0]) == 'w' && LowerChar(system[1]) == 'i' && LowerChar(system[2]) == 'n'
  {
    StartsWith(Lower(system), "win")
  }

  /** A backslash is added only when the drive does not already end in one. */
  function WithTrailingBackslash(drive: string): (r: string)
    ensures EndsWith(r, "\\")
    ensures StartsWith(r, drive)
    ensures |r| <= |drive| + 1
    ensures EndsWith(drive, "\\") ==> r == drive
  {
    if EndsWith(drive, "\\") then drive else drive + "\\"
  }

  lemma WithTrailingBackslashIdempotent(drive: string)
    ensures WithTrailingBackslash(WithTrailingBackslash(drive)) == WithTrailingBackslash(drive)
  {
  }

  /** `_detect_disk_mount`: the system drive (`SystemDrive`, by default "C:")
      with a trailing backslash on Windows, the root filesystem elsewhere. */
  function DetectDiskMount(system: string, systemDrive: Option<string>): (mount: string)
    ensures IsWindows(system) ==> EndsWith(mount, "\\")
    ensures IsWindows(system) ==> StartsWith(mount, if systemDrive.Some? then systemDrive.value else "C:")
    ensures IsWindows(system) ==> |mount| <= |if systemDrive.Some? then systemDrive.value else "C:"| + 1
    ensures IsWindows(system) ==> mount == WithTrailingBackslash(if systemDrive.Some? then systemDrive.value else "C:")
    ensures !IsWindows(system) ==> mount == "/"
  {
    if IsWindows(system) then
      var drive := match systemDrive case Some(d) => d case None => "C:";
      WithTrailingBackslash(drive)
    else "/"
  }

  /** Resolving again from a resolved mount gives the same mount. */
  lemma DetectDiskMountStable(system: string, systemDrive: Option<string>)
    ensures DetectDiskMount(system, Some(DetectDiskMount(system, systemDrive))) == DetectDiskMount(system, systemDrive)
  {
  }

  lemma DefaultDriveIsC(system: string)
    requires IsWindows(system)
    ensures DetectDiskMount(system, None) == "C:\\"
  {
  }

  const BytesPerGb: real := 1073741824.0

  /** `_to_gb`: binary gigabytes, so the result times 1024^3 is the byte count. */
  function ToGb(bytes: real): (gb: real)
    ensures gb * BytesPerGb == bytes
  {
    bytes / BytesPerGb
  }

  lemma OneGibibyteIsOneGb()
    ensures ToGb(1073741824.0) == 1.0
  {
  }

  /** How the CPU frequency query goes. */
  datatype FrequencyQuery =
    | FrequencyFails          // the query raised
    | NoFrequency             // the query answered `None`
    | Frequency(current: real)

  /** `_read_cpu_frequency`: the current frequency, or absent on any failure. */
  function ReadCpuFrequency(q: FrequencyQuery): (mhz: Option<real>)
    ensures mhz.Some? <==> q.Frequency?
    ensures mhz.Some? ==> mhz.value == q.current
  {
    match q
    case Frequency(current) => Some(current)
    case _ => None
  }

  /** `psutil.disk_usage` of one mount point. */
  datatype DiskUsage = DiskUsage(total: nat, used: nat, free: nat, percent: real)

  /** The answers of the two `psutil.disk_usage` calls `_read_disk_usage`
      may make, `None` where the call raises: the query of the resolved mount,
      and the query of "/" made after that one raised. They are separate
      answers, so the retry can succeed even where the first query was of "/". */
  datatype DiskQueries = DiskQueries(atMount: Option<DiskUsage>, retryRoot: Option<DiskUsage>)

  /** `_read_disk_usage`: the usage of the resolved mount when it can be read,
      else the answer of the retry on "/"; `None` when both raise (the sample
      then aborts). */
  function ReadDiskUsage(q: DiskQueries): (usage: Option<DiskUsage>)
    ensures usage.Some? <==> q.atMount.Some? || q.retryRoot.Some?
    ensures q.atMount.Some? ==> usage == q.atMount
    ensures q.atMount.None? ==> usage == q.retryRoot
  {
    match q.atMount
    case Some(u) => Some(u)
    case None => q.retryRoot
  }

  /** The answers when every mount in `disks`, and no other, can be read. */
  function StableQueries(mount: string, disks: map<string, DiskUsage>): DiskQueries {
    DiskQueries(if mount in disks then Some(disks[mount]) else None,
                if "/" in disks then Some(disks["/"]) else None)
  }

  /** With answers that do not change between the two calls, the disk shown is
      the resolved mount when readable, else "/", and none only when neither is. */
  lemma StableDisksFallBackToRoot(mount: string, disks: map<string, DiskUsage>)
    ensures ReadDiskUsage(StableQueries(mount, disks)).Some? <==> mount in disks || "/" in disks
    ensures mount in disks ==> ReadDiskUsage(StableQueries(mount, disks)) == Some(disks[mount])
    ensures mount !in disks && "/" in disks ==> ReadDiskUsage(StableQueries(mount, disks)) == Some(disks["/"])
  {
  }

  /** `psutil.virtual_memory()` and `psutil.swap_memory()`, the parts used. */
  datatype VirtualMemory = VirtualMemory(total: nat, used: nat, percent: real)
  datatype SwapMemory = SwapMemory(percent: real)

  /** Everything one sample reads from the OS, the clocks and the GPU driver.
      `memory` and `swap` are `None` when that query raises. */
  datatype OsReadings = OsReadings(
    cpuPercent: real,
    frequency: FrequencyQuery,
    sensors: SensorSource,
    memory: Option<VirtualMemory>,
    swap: Option<SwapMemory>,
    disks: DiskQueries,
    net: NetCounters,
    monotonic: real,
    wallClock: real,
    bootTime: real,
    gpu: ReadOutcome)

  datatype Snapshot = Snapshot(
    cpuUsagePercent: real,
    cpuFrequencyMhz: Option<real>,
    cpuTempC: Option<real>,
    ramPercent: real,
    ramUsedGb: real,
    ramTotalGb: real,
    swapPercent: real,
    diskPercent: real,
    diskMount: string,
    uptime: string,
    netDownloadBytesPerSec: real,
    netUploadBytesPerSec: real,
    gpuName: Option<string>,
    gpuUsagePercent: Option<real>,
    gpuTempC: Option<real>)

  class SystemSampler {
    /** The counters and monotonic time of the previous sample. */
    var lastNet: NetCounters
    var lastTime: real
    const diskMount: string
    const nvidia: NvidiaMonitor

    ghost predicate Valid()
      reads this, nvidia
    {
      nvidia.Valid()
    }

    /** `__init__`: the baseline counters and time, the GPU probe and the
        disk mount, resolved once. */
    constructor (net: NetCounters, monotonic: real, gpu: InitOutcome, system: string, systemDrive: Option<string>)
      ensures Valid() && fresh(nvidia)
      ensures lastNet == net && lastTime == monotonic
      ensures diskMount == DetectDiskMount(system, systemDrive)
      ensures nvidia.available <==> gpu.Ready?
      ensures nvidia.name == (if gpu.Ready? then Some(gpu.deviceName) else None)
    {
      lastNet := net;
      lastTime := monotonic;
      nvidia := new NvidiaMonitor(gpu);
      diskMount := DetectDiskMount(system, systemDrive);
    }

    /** `sample`: a snapshot of the readings. A failing memory, swap or disk
        query aborts the call before the baseline is touched; otherwise the
        rates are taken against the previous baseline and the baseline becomes
        the counters and time just read. The GPU probe is not changed. */
    method Sample(os: OsReadings) returns (result: Result<Snapshot>)
      requires Valid()
      modifies this`lastNet, this`lastTime
      ensures Valid()
      ensures result.Failure? <==> os.memory.None? || os.swap.None? || ReadDiskUsage(os.disks).None?
      ensures result.Failure? ==> lastNet == old(lastNet) && lastTime == old(lastTime)
      ensures result.Success? ==> lastNet == os.net && lastTime == os.monotonic
      ensures result.Success? ==>
        var s := result.value;
        var elapsed := Elapsed(os.monotonic, old(lastTime));
        && s.netDownloadBytesPerSec == Rate(os.net.bytesRecv, old(lastNet).bytesRecv, elapsed)
        && s.netUploadBytesPerSec == Rate(os.net.bytesSent, old(lastNet).bytesSent, elapsed)
        && s.uptime == UptimeText(os.wallClock, os.bootTime)
        && s.cpuUsagePercent == os.cpuPercent
        && s.cpuFrequencyMhz == ReadCpuFrequency(os.frequency)
        && s.cpuTempC == TemperatureOf(os.sensors)
        && s.ramPercent == os.memory.value.percent
        && s.ramUsedGb == ToGb(os.memory.value.used as real)
        && s.ramTotalGb == ToGb(os.memory.value.total as real)
        && s.swapPercent == os.swap.value.percent
        && s.diskPercent == ReadDiskUsage(os.disks).value.percent
        && s.diskMount == diskMount
        && s.gpuName == nvidia.name
        && (s.gpuUsagePercent.Some? <==> nvidia.available && os.gpu.ReadOk?)
        && (s.gpuTempC.Some? <==> s.gpuUsagePercent.Some?)
        && (s.gpuUsagePercent.Some? ==> s.gpuUsagePercent.value == os.gpu.utilization as real)
        && (s.gpuTempC.Some? ==> s.gpuTempC.value == os.gpu.temperature as real)
    {
      var cpuUsage := os.cpuPercent;
      var frequency := ReadCpuFrequency(os.frequency);
      var temperature := ReadCpuTemperature(os.sensors);
      if os.memory.None? || os.swap.None? {
        return Failure;
      }
      var vm, sm := os.memory.value, os.swap.value;
      var disk := ReadDiskUsage(os.disks);
      if disk.None? {
        return Failure;
      }

      var elapsed := Elapsed(os.monotonic, lastTime);
      var download := Rate(os.net.bytesRecv, lastNet.bytesRecv, elapsed);
      var upload := Rate(os.net.bytesSent, lastNet.bytesSent, elapsed);
      lastNet := os.net;
      lastTime := os.monotonic;

      var uptime := UptimeText(os.wallClock, os.bootTime);
      var gpuUsage, gpuTemp := nvidia.Read(os.gpu);

      result := Success(Snapshot(
        cpuUsage, frequency, temperature,
        vm.percent, ToGb(vm.used as real), ToGb(vm.total as real),
        sm.percent, disk.value.percent, diskMount, uptime,
        download, upload,
        nvidia.name, gpuUsage, gpuTemp));
    }

    /** `shutdown`: shuts the GPU probe down; safe to call again. */
    method Shutdown()
      requires Valid()
      modifies nvidia`available
      ensures Valid()
      ensures !nvidia.available
      ensures !old(nvidia.available) ==> unchanged(nvidia)
    {
      var _ := nvidia.Shutdown();
    }
  }

  /** Two samples two seconds apart with 2048 more bytes received: the second
      reports 1024 bytes per second downloaded. */
  method TwoSamplesTwoSecondsApart(sampler: SystemSampler, first: OsReadings, second: OsReadings) returns (r: Result<Snapshot>)
    requires sampler.Valid()
    requires first.memory.Some? && first.swap.Some? && ReadDiskUsage(first.disks).Some?
    requires second.memory.Some? && second.swap.Some? && ReadDiskUsage(second.disks).Some?
    requires second.monotonic == first.monotonic + 2.0
    requires second.net.bytesRecv == first.net.bytesRecv + 2048
    modifies sampler`lastNet, sampler`lastTime
    ensures r.Success? && r.value.netDownloadBytesPerSec == 1024.0
  {
    var _ := sampler.Sample(first);
    r := sampler.Sample(second);
    TwoKilobytesInTwoSeconds(first.net.bytesRecv, first.monotonic);
  }

  /** Without a GPU probe, no snapshot ever carries GPU fields. */
  method NoGpuMeansNoGpuFields(gpu: InitOutcome, net: NetCounters, monotonic: real, system: string, samples: seq<OsReadings>) returns (snapshots: seq<Snapshot>)
    requires !gpu.Ready?
    ensures forall s :: s in snapshots ==> s.gpuName.None? && s.gpuUsagePercent.None? && s.gpuTempC.None?
  {
    var sampler := new SystemSampler(net, monotonic, gpu, system, None);
    snapshots := [];
    for i := 0 to |samples|
      invariant sampler.Valid() && !sampler.nvidia.available && sampler.nvidia.name.None?
      invariant forall s :: s in snapshots ==> s.gpuName.None? && s.gpuUsagePercent.None? && s.gpuTempC.None?
    {
      var r := sampler.Sample(samples[i]);
      if r.Success? {
        snapshots := snapshots + [r.value];
      }
    }
  }
}
