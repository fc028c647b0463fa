# qmstats sampling core in Dafny

A model of the measurement engine of `qmstats`, a background sampler that reads
hardware telemetry from Windows Management Instrumentation (WMI) and from the
NVIDIA management library (NVML) and sends typed `Measurement` values to an
`mpsc` channel.

The model covers:

- the `Measurement` tagged union (`Measurements`);
- a WMI query result, modelled as an error or a sequence of rows, each row a map
  from field name to a `Variant` (`WmiQuery`);
- the GPU extractors, over an optional device whose accessors answer with a
  `Result` (`GpuData`);
- the two thermal-zone aggregators. These are `for` loops with `i32` locals. Each
  is proved against a specification function, and lemmas prove the bounds of
  the average and the peak (`Thermal`, with `SeqMath` and `Ints`);
- the other WMI extractors: processor load (a loop), available and total memory,
  network status, refresh rate, and `KiB_to_GiB` (`WmiData`);
- the measurement thread's delivery logic (`Sampler`). `Worker` is a class that
  records everything handed to `tx.send` and what the receiver got. Startup
  sends two values without filtering. Each pass then sends its seven results
  in order, with every `NaN` dropped. Passes are bounded and given as a
  sequence of collaborator answers.

Integer semantics follow Rust:

- `u32 as i32` wraps. `AsI32` models this.
- `/` on `i32` truncates toward zero. `TruncDiv` models this.
- `-` and `+=` on `i32` are overflow-checked (a debug build panics). The thermal
  methods require that no overflow happens, and they keep every intermediate
  value in a variable of type `i32`, so every step carries a proof obligation.

`f64` payloads are exact `real`s.

Points where the code's behaviour differs from what it might be taken to do:

- With no `UI2` processor rows, `get_cpu_util` gives `CpuUtil(1.0)`
  (src/lib.rs:250-254).
- The comments at src/lib.rs:258 and 283 say the memory extractors return
  `NaN` on error. They `unwrap` the query result, however (src/lib.rs:265, 290),
  and so do the network and refresh-rate extractors (src/lib.rs:315, 337). A failed query
  therefore panics. Each of these extractors has the precondition `q.QOk?`.
- Zones at 250 K and 260 K read -23 and -13 degrees under the code's `- 273`.
  Neither counts, so both aggregators give 0 (`Thermal.ColdZonesExample`).
  `Thermal.WarmZonesExample` uses 296 K and 286 K, which read 23 and 13
  degrees.
- The comments at src/lib.rs:37-39 and 157-158 describe an `assume` flag.
  Neither `init_measurement_thread` nor `init_wmi_connection` takes one.
  `init_wmi_connection` tries `COMLibrary::new()` and falls back to
  `assume_initialized()` when that fails (src/lib.rs:160-171).

## Model

| member | source | states |
|---|---|---|
| `Ints.AsI32` | src/lib.rs:189 | `u32 as i32` is congruent to the input modulo 2^32: identity up to `i32::MAX`, negative above it |
| `Ints.TruncDiv` | src/lib.rs:199 | Rust's `i32` division rounds toward zero: for a nonnegative dividend the result is the floor quotient and at most the dividend |
| `GpuData.GetUsedVram` | src/lib.rs:100-112 | `NaN` exactly when the device is absent or `memory_info` fails; otherwise `VramUsed(k)` with `k` the floor of the used bytes divided by 1024 |
| `GpuData.GetTotalVram` | src/lib.rs:114-127 | `NaN` exactly when the device is absent or `memory_info` fails; otherwise `VramTotal(k)` with `k` the floor of the total bytes divided by 1024 |
| `GpuData.GetGpuUtil` | src/lib.rs:129-139 | `NaN` exactly when the device is absent or `utilization_rates` fails; otherwise the `gpu` rate unchanged |
| `GpuData.GetGpuTemp` | src/lib.rs:141-152 | `NaN` exactly when the device is absent or the GPU-sensor temperature fails; otherwise that temperature unchanged |
| `GpuData.ExtractorsReadOneAccessor` | src/lib.rs:100-152 | each extractor depends only on its own accessor's answer |
| `GpuData.NoDeviceNoGpuSamples` | src/lib.rs:100-152 | with no device handle all four GPU extractors give `NaN`, without consulting an accessor |
| `Thermal.ZoneReading` | src/lib.rs:188-191 | a zone row has a reading exactly when its `Temperature` field is a `UI4`; the reading is at most `i32::MAX - 273` |
| `Thermal.Positive` | src/lib.rs:192-195 | keeps exactly the strictly positive readings (membership in both directions) |
| `Thermal.MeanTemperature` | src/lib.rs:184-200 | the average lies between 0 and the sum of the qualifying readings |
| `Thermal.PeakOf` | src/lib.rs:216-225 | the running maximum from 0 is nonnegative, at least every reading, and either 0 or one of the readings |
| `Thermal.CpuTemp` | src/lib.rs:175-203 | `NaN` exactly when the query fails; otherwise always `AvgTemperature`; `AvgTemperature(0)` for an empty answer |
| `Thermal.CpuTempMax` | src/lib.rs:207-227 | `NaN` exactly when the query fails; otherwise always `Temperature`; `Temperature(0)` for an empty answer |
| `Thermal.ReadingsFit` | src/lib.rs:189 | when no subtraction overflows, every reading is an `i32` |
| `Thermal.QualifyingPrefixSum` | src/lib.rs:187-196 | the qualifying readings of a prefix of the rows sum to no more than those of all rows |
| `Thermal.ZoneStep` | src/lib.rs:187-196 | one loop step adds the row's reading to sum and count exactly when it is positive, and neither `i32` addition can overflow |
| `Thermal.MeanBounds` | src/lib.rs:184-200 | the average is at least 0, and 0 when no zone qualifies; otherwise at least 1 and between the least and greatest qualifying reading |
| `Thermal.PeakBounds` | src/lib.rs:216-226 | the peak is nonnegative, at least every converted `UI4` reading, and either 0 or one of them |
| `Thermal.MeanAtMostPeak` | src/lib.rs:175-227 | on the same rows the average never exceeds the peak |
| `Thermal.CpuTempAtMostCpuTempMax` | src/lib.rs:175-227 | for one successful answer the `AvgTemperature` payload is at most the `Temperature` payload |
| `Thermal.ZoneRowReading` | src/lib.rs:188-189 | a zone reporting `k` Kelvin reads `(k as i32) - 273` degrees |
| `Thermal.ThreeZoneReadings` | src/lib.rs:187-191 | three zone rows give their three Celsius readings in order |
| `Thermal.WarmZonesExample` | src/lib.rs:175-227 | zones at 296 K, 286 K and 0 K give `AvgTemperature(18)` and `Temperature(23)` |
| `Thermal.ColdZonesExample` | src/lib.rs:175-227 | zones at 250 K, 260 K and 0 K give `AvgTemperature(0)` and `Temperature(0)` |
| `Thermal.GetCpuTemp` | src/lib.rs:175-203 | the loop with `count`, `tot_temp` and `res_temp` returns `CpuTemp(q)`, and its `i32` arithmetic never overflows |
| `Thermal.GetCpuTempMax` | src/lib.rs:207-227 | the running-maximum loop returns `CpuTempMax(q)` |
| `WmiData.RowLoad` | src/lib.rs:244-247 | a processor row has a load exactly when `LoadPercentage` is a `UI2`, which lies in the `u16` range |
| `WmiData.CpuUtilization` | src/lib.rs:231-255 | `NaN` exactly when the query fails; otherwise `CpuUtil`; `CpuUtil(1.0)` when no row has a load |
| `WmiData.LoadsPrefix` | src/lib.rs:243-249 | a prefix of the rows carries no more loads than all rows |
| `WmiData.LoadStep` | src/lib.rs:243-249 | one loop step adds the row's load, if any, to the total and the count, and the count stays within the whole answer's |
| `WmiData.CpuUtilizationBounds` | src/lib.rs:250-254 | a successful mean load lies between the least and greatest processor load, so in 0..65535 |
| `WmiData.GetCpuUtil` | src/lib.rs:231-255 | the loop over processor rows returns `CpuUtilization(q)` without overflowing its `i32` counter |
| `WmiData.GetAvailableMemory` | src/lib.rs:259-280 | `Memory` exactly when the first row's `AvailableBytes` is a `UI8`, with the payload times 1024 equal to those bytes; `NaN` otherwise |
| `WmiData.GetTotalMemory` | src/lib.rs:284-305 | `TotalMemory` exactly when the first row's `TotalPhysicalMemory` is a `UI8`, with the payload times 1024 equal to those bytes; `NaN` otherwise |
| `WmiData.GetNetworkConnection` | src/lib.rs:309-328 | `Network` exactly when there is a first row whose `Status` is a string, which it carries verbatim; `NaN` otherwise |
| `WmiData.NetworkReadsOnlyFirstRow` | src/lib.rs:317-320 | rows after the first cannot change the network result |
| `WmiData.GetFrameRate` | src/lib.rs:332-350 | `FrameRate` exactly when the first row's `CurrentRefreshRate` is a `UI4`, carried unchanged; `NaN` otherwise |
| `WmiData.KibToGib` | src/lib.rs:355-357 | the result times 1024 * 1024 is the input, so 1024 * 1024 KiB is 1.0 GiB |
| `Sampler.PassResults` | src/lib.rs:69-77 | a pass evaluates exactly seven extractors |
| `Sampler.WithoutNaNKeepsSamples` | src/lib.rs:79-86 | the filter removes every `NaN` and nothing else: each other value keeps its number of occurrences, the length does not grow, and a `NaN`-free list is unchanged |
| `Sampler.StreamHasNoNaN` | src/lib.rs:67-89 | the passes never send `NaN`, and send at most seven values per pass |
| `Sampler.StreamPrefix` | src/lib.rs:67-89 | what the first k passes send is a prefix of what all passes send |
| `Sampler.ThreadOutputShape` | src/lib.rs:57-89 | total memory, then total VRAM, come first and are the only values that can be `NaN`; without a device the second is; at most 2 + 7n values after n passes |
| `Sampler.Worker.Start` | src/lib.rs:50-65 | startup sends total memory, then total VRAM, unfiltered, and records whether a device was found |
| `Sampler.Worker.Send` | src/lib.rs:81-84 | a send is always recorded; the receiver gets it only while connected, and otherwise the failure is logged |
| `Sampler.Worker.DropReceiver` | src/lib.rs:81-84 | after the consumer drops its receiver, the record of sends is unchanged and later sends fail |
| `Sampler.Worker.SendSamples` | src/lib.rs:79-86 | the send loop appends exactly the non-`NaN` results, in order, and keeps earlier sends unchanged |
| `Sampler.Worker.Pass` | src/lib.rs:67-88 | one pass appends exactly the filtered seven results; a dropped receiver does not stop it |
| `Sampler.Worker.Run` | src/lib.rs:67-89 | n passes append the passes' filtered results one pass after another |
| `Sampler.MeasurementThread` | src/lib.rs:41-96 | after startup and n passes the worker has sent exactly `ThreadOutput`, and the receiver got it all if it stayed connected |

## Left out

- `init_wmi_connection`, `Nvml::init` and `device_by_index` (src/lib.rs:45-55, 160-171) are COM/NVML foreign calls. The device arrives as an `Option<Device>` parameter, and a WMI connection failure is left out because it panics.
- Thread spawning and `thread::sleep` (src/lib.rs:43, 88, 91-94) are concurrency and timing. The endless `loop` is modelled as a bounded sequence of passes.
- `get_apps_running` and the `Application` struct (src/lib.rs:29-33, 362-380) are left out. The first wraps the foreign call `EnumProcesses`: it returns `Err` when the enumeration fails and `Ok` of an empty vector otherwise. The second is unused.
- src/test.rs is left out. It holds only tests against a live WMI service.
- `Device` is a snapshot of the three accessors' answers for one pass, so all three GPU extractors of a pass see the same snapshot. The real device might answer differently between calls.
- `PassInputs` gives each thermal extractor its own query answer, as the source issues the query twice. Only `Thermal.CpuTempAtMostCpuTempMax` relates the two extractors, and only on the same answer.
- `Measurement` `f64` payloads are exact reals. `u64 as f64` is exact below 2^53, division by 1024 is exact in binary floating point, and a sum of `u16` loads stays exact. The rounding of the processor-load quotient is not modelled.
- Rust's `PartialEq` on `f64` (NaN payloads unequal to themselves) is not modelled. The worker compares only against `Measurement::NaN`, a test on the tag alone.
- Thermal.GetCpuTemp, Thermal.CpuTemp: require that `- 273` and the running sum stay in `i32` range. These operations panic on overflow in a debug build and wrap in a release build; the release wrap-around is not modelled.
- Thermal.GetCpuTempMax, Thermal.CpuTempMax: require that `- 273` stays in `i32` range, for the same reason.
- WmiData.GetCpuUtil: requires at most `i32::MAX` load rows, because the `i32` counter would overflow.
- WmiData.GetAvailableMemory, WmiData.GetTotalMemory, WmiData.GetNetworkConnection, WmiData.GetFrameRate: require a successful query, because the source `unwrap`s it and panics otherwise.
- `eprintln!` output is modelled only as a count of failed sends (`Worker.failedSends`), not as the text written.
