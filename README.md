# wgpu runtime of burn: adapter selection and runtime defaults

This project models the part of burn's wgpu runtime that decides things rather
than calling into the driver, and proves properties of it:

- **Adapter selection** (`select_adapter` and its nested `select`). Given the
  adapters wgpu enumerates (each described by its `DeviceType`, identified by its
  position in the enumeration) and the requested `WgpuDevice`, the model
  computes which adapter is chosen or which panic is raised. The enumeration loop
  that fills the `adapters` and `adapters_other` vectors and the `BestAvailable`
  scan with its running best score are imperative methods
  (`PartitionAdapters`, `ScanMostPerformant`, `SelectAdapter`), each proved equal to
  a specification function (`Positions`, `MostPerformant`, `Selection`). Lemmas
  about those functions prove the properties listed below.
- **`RuntimeOptions::default`**: where `max_tasks` comes from (the
  `BURN_WGPU_MAX_TASKS` lookup, default 64, or a panic for text that does not
  parse). The deallocation tick period is `max_tasks * 2` in `usize` arithmetic.
- **`tuner_device_id`**: the autotuner key `"wgpu-<device>-<backend>"`. The model
  renders the device number in decimal and proves that the key determines both
  the device number and the backend name.

Modules: `Wrappers` (Option, Result), `Wgpu` (`DeviceType`, `WgpuDevice`),
`AdapterSelection`, `Options`, `TunerId`.

Modelling decisions:
- `select` takes its two vectors by value and returns `Vec::remove(num)`. The
  vectors are dropped right after the call, so the removal cannot be observed.
  It is modelled as the pure function `Choose`, which returns the element at
  index `num`.
- The `Existing` arm inside the enumeration closure cannot run, because of the
  check at lines 196-198. The model's `IsSameType` therefore requires a device
  that is not `Existing`, and only `Selection` and `SelectAdapter` accept every
  device.
- The panic message of the parse says "a positive integer". The code still
  accepts `0` (`parse::<usize>` succeeds on it), giving `max_tasks = 0` and a
  period of 0. The model follows the code.

## Model

| member | source | states |
|---|---|---|
| `AdapterSelection.PartitionAdapters` | crates/burn-wgpu/src/runtime.rs:193-224 | the enumeration loop leaves in `adapters` and `adapters_other` exactly the positions that `Positions` assigns to those two vectors |
| `AdapterSelection.Positions` | crates/burn-wgpu/src/runtime.rs:200-224 | each vector holds at most as many entries as there are adapters, and every entry is a real enumeration position |
| `AdapterSelection.PartitionMembership` | crates/burn-wgpu/src/runtime.rs:205-223 | an adapter is in `adapters_other` if and only if its type is `Other`; it is in `adapters` if and only if it is not `Other` and its type is the requested one, where `BestAvailable` accepts every type |
| `AdapterSelection.PartitionOrdered` | crates/burn-wgpu/src/runtime.rs:200-224 | both vectors list positions strictly increasing, so they keep enumeration order |
| `AdapterSelection.IndexedSelection` | crates/burn-wgpu/src/runtime.rs:226-273 | for `DiscreteGpu(n)`, `IntegratedGpu(n)`, `VirtualGpu(n)` and `Cpu` (n = 0): if `adapters` has more than n entries, the result is `adapters[n]` and has the requested type; otherwise, if `adapters_other` has more than n entries, the result is `adapters_other[n]` (the same n) and has type `Other`; otherwise the panic "not found" for the requested kind |
| `AdapterSelection.FallbackUsesSameIndex` | crates/burn-wgpu/src/runtime.rs:232-248 | with adapters [Discrete, Other, Other], the request `DiscreteGpu(1)` returns position 2, not position 1 |
| `AdapterSelection.SelectedTypeIsRequestedOrOther` | crates/burn-wgpu/src/runtime.rs:205-251 | when a by-index request succeeds, the chosen adapter is an enumerated one whose type is the requested type or `Other` |
| `AdapterSelection.MostPerformant` | crates/burn-wgpu/src/runtime.rs:275-302 | the scan ends with no adapter if and only if it has no candidates; otherwise it ends on one of the candidates |
| `AdapterSelection.ScanMostPerformant` | crates/burn-wgpu/src/runtime.rs:275-296 | the loop with the running `most_performant_adapter` and `current_score` (starting at -1) ends with the candidate that `MostPerformant` gives |
| `AdapterSelection.MostPerformantIsFirstMaximum` | crates/burn-wgpu/src/runtime.rs:283-296 | the scan returns a candidate whose score is at least that of every candidate, and every earlier candidate scores strictly less, so the first maximum wins |
| `AdapterSelection.ScoreInjective` | crates/burn-wgpu/src/runtime.rs:283-290 | the score table (Discrete 5, Other 4, Integrated 3, Virtual 2, Cpu 1) gives different scores to different types |
| `AdapterSelection.BestAvailableCandidates` | crates/burn-wgpu/src/runtime.rs:278-280 | every enumerated adapter appears in `adapters` chained with `adapters_other` for `BestAvailable` |
| `AdapterSelection.SameTypeCandidatesOrdered` | crates/burn-wgpu/src/runtime.rs:278-280 | in that chained order, two adapters of the same type appear in enumeration order |
| `AdapterSelection.BestAvailableSelection` | crates/burn-wgpu/src/runtime.rs:274-302 | `BestAvailable` panics exactly when no adapter is enumerated; otherwise it picks an enumerated adapter whose score is maximal over all adapters, and the earliest one with that score |
| `AdapterSelection.SelectAdapter` | crates/burn-wgpu/src/runtime.rs:189-310 | `select_adapter` computes `Selection`. An `Existing` device always gives the "existing device" panic before any adapter is looked at. A chosen adapter is an enumerated one, reported with its own type |
| `Options.WrappingDouble` | crates/burn-wgpu/src/runtime.rs:76 | `max_tasks * 2` on a 64-bit `usize` is twice the value modulo 2^64 |
| `Options.Default` | crates/burn-wgpu/src/runtime.rs:66-80 | the defaults fail (the `expect` panic) exactly when the variable is set to text that does not parse; otherwise `max_tasks` is the parsed value if the variable is set, and 64 if it is absent or not Unicode |
| `Options.DeallocPeriodIsTwiceMaxTasks` | crates/burn-wgpu/src/runtime.rs:75-78 | the deallocation tick period is exactly `2 * max_tasks` whenever that fits a `usize` |
| `Options.DefaultWithoutVariable` | crates/burn-wgpu/src/runtime.rs:68-78 | without a usable variable the options are 64 tasks and a tick period of 128 |
| `TunerId.DigitChar` | crates/burn-wgpu/src/runtime.rs:175 | a digit below ten is written as the character whose digit value it is |
| `TunerId.Decimal` | crates/burn-wgpu/src/runtime.rs:175 | the device number is written as a non-empty string of decimal digits with no leading zero |
| `TunerId.DecimalRoundTrip` | crates/burn-wgpu/src/runtime.rs:175 | reading that decimal text back gives the device number |
| `TunerId.TunerDeviceId` | crates/burn-wgpu/src/runtime.rs:174-176 | the id starts with `wgpu-` and ends with a dash followed by the backend name |
| `TunerId.TunerDeviceIdSuffix` | crates/burn-wgpu/src/runtime.rs:175 | after the `wgpu-` prefix the id is the decimal device number, a dash, and the backend name |
| `TunerId.DigitsThenDash` | crates/burn-wgpu/src/runtime.rs:175 | a digit string followed by text starting with a dash splits at that first dash in only one way |
| `TunerId.TunerDeviceIdInjective` | crates/burn-wgpu/src/runtime.rs:174-176 | two adapters get the same tuner id only if they have the same device number and the same backend name |

## Left out

- The wasm `select_adapter` (lines 178-186) is left out. It asks wgpu for its default adapter and enumerates nothing.
- Enumerating adapters and reading `AdapterInfo` are wgpu calls. They become the input sequence of device types.
- The `log::info!` calls are logging only.
- The exact panic texts are left out. Panics are the `Failure` values `ExistingDevice`, `NotFound(kind)` and `NoAdapter`. The debug listing of adapters in the "not found" message is not modelled.
- `Options.WrappingDouble` models `max_tasks * 2` with release-build wrap-around. A debug build panics on that overflow instead. Only a `BURN_WGPU_MAX_TASKS` of 2^63 or more reaches it.
- Reading `BURN_WGPU_MAX_TASKS` is an input of the model. Parsing the text as a `usize` happens in standard-library code. The lookup and the parse are one input: not present, not Unicode, or the parse result.
- `SliceStrategy::Ratio(0.8)` is a floating-point policy parameter. `DeallocStrategy::new_period_tick` is only given its period, because its implementation is not part of this model.
- `Backend::to_str` belongs to wgpu, which is not part of this model. The backend name is taken as a string parameter.
- The `WgpuDevice` indices, the `Existing` id and positions are `usize` in the source and `nat` here. No arithmetic is done on them, so their width does not matter.
- The static `RUNTIME` registry, with `client`, `register`, `init_existing_device`, `init_sync` and `init_async` (lines 30-108), is left out. It is process-wide shared state whose `ComputeRuntime` implementation is not part of this model.
- `create_wgpu_setup`, `create_client` and `select_device` (lines 110-172) are left out. They build wgpu devices, queues, storage, the server, the channel and the tuner through `pollster::block_on` and driver calls.
- `crates/burn-compute/src/client.rs` is left out. Each method forwards to a channel or to a tuner behind an `RwLock`, and neither implementation is part of this model.
- `crates/burn-tensor/src/tests/quantization/ops/log.rs` is left out. It is a floating-point approximate-equality test with no logic to model.
