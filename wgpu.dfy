/**
 * The two enumerations the adapter-selection rule of the wgpu runtime works on:
 * the kind of device an enumerated adapter reports (`wgpu::DeviceType`) and the
 * device a caller asks the runtime for (`WgpuDevice`).
 *
 * Constructor names are shared between the two types, as in the source, so they
 * are always written qualified (`DeviceType.Cpu`, `WgpuDevice.Cpu`).
 */
module Wgpu {

  /** The device type an adapter reports in its `AdapterInfo`. */
  datatype DeviceType = DiscreteGpu | IntegratedGpu | VirtualGpu | Cpu | Other

  /**
   * The device requested from the runtime. The index of the three GPU kinds
   * selects among the adapters of that kind, in enumeration order; `Existing`
   * names a device registered by the caller.
   */
  datatype WgpuDevice =
    | DiscreteGpu(index: nat)
    | IntegratedGpu(index: nat)
    | VirtualGpu(index: nat)
    | Cpu
    | BestAvailable
    | Existing(id: nat)
  {
    /** The four kinds that are served by picking an adapter by index. */
    predicate ByIndex() {
      DiscreteGpu? || IntegratedGpu? || VirtualGpu? || Cpu?
    }

    /** The index used for these kinds; a CPU request always uses index 0. */
    function Num(): nat
      requires ByIndex()
    {
      if Cpu? then 0 else index
    }

    /** The adapter device type that a by-index request asks for. */
    function Requested(): DeviceType
      requires ByIndex()
    {
      match this
      case DiscreteGpu(_) => DeviceType.DiscreteGpu
      case IntegratedGpu(_) => DeviceType.IntegratedGpu
      case VirtualGpu(_) => DeviceType.VirtualGpu
      case Cpu => DeviceType.Cpu
    }
  }
}
