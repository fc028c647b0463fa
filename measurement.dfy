/** The tagged union every extractor returns and the worker forwards. */
module Measurements {
  import opened Ints

  /** One sample, or `NaN`: "this sample could not be produced this pass".
      Floating-point payloads are modelled by exact reals. */
  datatype Measurement =
    | Temperature(celsius: i32)
    | AvgTemperature(celsius: i32)
    | Memory(kib: real)
    | TotalMemory(kib: real)
    | CpuUtil(load: real)
    | FrameRate(hz: real)
    | Network(status: string)
    | VramUsed(vramKib: u64)
    | VramTotal(vramKib: u64)
    | GpuUtil(percent: u32)
    | GpuTemp(degrees: u32)
    | NaN
}
