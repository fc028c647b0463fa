/** The GPU extractors. The device handle is modelled by what its three accessors
    answer at the moment of sampling; a missing handle is `None`. */
module GpuData {
  import opened Ints
  import opened Wrappers
  import opened Measurements

  /** An error reported by the GPU management library; its details are never read. */
  datatype NvmlError = NvmlError(code: int)

  /** Device memory in bytes. */
  datatype MemoryInfo = MemoryInfo(free: u64, total: u64, used: u64)

  /** Utilization rates in percent. */
  datatype Utilization = Utilization(gpu: u32, memory: u32)

  /** The answers of `memory_info()`, `utilization_rates()` and
      `temperature(TemperatureSensor::Gpu)`. */
  datatype Device = Device(
    memoryInfo: Result<MemoryInfo, NvmlError>,
    utilizationRates: Result<Utilization, NvmlError>,
    gpuTemperature: Result<u32, NvmlError>)

  /** Used VRAM, bytes floored to kibibytes. */
  function GetUsedVram(device: Option<Device>): (m: Measurement)
    ensures m.NaN? || m.VramUsed?
    ensures m.NaN? <==> device.None? || device.value.memoryInfo.Err?
    ensures m.VramUsed? ==>
      var used := device.value.memoryInfo.value.used;
      m.vramKib * 1024 <= used < m.vramKib * 1024 + 1024
  {
    match device
    case None => NaN
    case Some(dev) =>
      match dev.memoryInfo
      case Err(_) => NaN
      case Ok(data) => VramUsed(data.used / 1024)
  }

  /** Total VRAM, bytes floored to kibibytes. */
  function GetTotalVram(device: Option<Device>): (m: Measurement)
    ensures m.NaN? || m.VramTotal?
    ensures m.NaN? <==> device.None? || device.value.memoryInfo.Err?
    ensures m.VramTotal? ==>
      var total := device.value.memoryInfo.value.total;
      m.vramKib * 1024 <= total < m.vramKib * 1024 + 1024
  {
    match device
    case None => NaN
    case Some(dev) =>
      match dev.memoryInfo
      case Err(_) => NaN
      case Ok(data) => VramTotal(data.total / 1024)
  }

  /** GPU utilization, passed through unchanged. */
  function GetGpuUtil(device: Option<Device>): (m: Measurement)
    ensures m.NaN? || m.GpuUtil?
    ensures m.NaN? <==> device.None? || device.value.utilizationRates.Err?
    ensures m.GpuUtil? ==> m.percent == device.value.utilizationRates.value.gpu
  {
    match device
    case None => NaN
    case Some(dev) =>
      match dev.utilizationRates
      case Err(_) => NaN
      case Ok(data) => GpuUtil(data.gpu)
  }

  /** GPU core temperature, passed through unchanged. */
  function GetGpuTemp(device: Option<Device>): (m: Measurement)
    ensures m.NaN? || m.GpuTemp?
    ensures m.NaN? <==> device.None? || device.value.gpuTemperature.Err?
    ensures m.GpuTemp? ==> m.degrees == device.value.gpuTemperature.value
  {
    match device
    case None => NaN
    case Some(dev) =>
      match dev.gpuTemperature
      case Err(_) => NaN
      case Ok(t) => GpuTemp(t)
  }

  /** Each extractor consults exactly one accessor: two devices that agree on it
      give the same measurement, whatever the other accessors answer. */
  lemma ExtractorsReadOneAccessor(d1: Device, d2: Device)
    ensures d1.memoryInfo == d2.memoryInfo ==>
      GetUsedVram(Some(d1)) == GetUsedVram(Some(d2)) &&
      GetTotalVram(Some(d1)) == GetTotalVram(Some(d2))
    ensures d1.utilizationRates == d2.utilizationRates ==>
      GetGpuUtil(Some(d1)) == GetGpuUtil(Some(d2))
    ensures d1.gpuTemperature == d2.gpuTemperature ==>
      GetGpuTemp(Some(d1)) == GetGpuTemp(Some(d2))
  {
  }

  /** Without a device every GPU extractor degrades to `NaN`. */
  lemma NoDeviceNoGpuSamples()
    ensures GetUsedVram(None) == NaN && GetTotalVram(None) == NaN
    ensures GetGpuUtil(None) == NaN && GetGpuTemp(None) == NaN
  {
  }
}
