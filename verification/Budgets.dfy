/** Resource demands and limits (src/comfyng/resources/budgets.py). */
module Budgets {
  import opened Graphs

  /** One set of requirements, without alternatives. */
  datatype Demand = Demand(
    cpu: nat,
    ram: nat,
    vram: nat,
    gpu: Option<nat>,
    heavy: bool,
    pinned: nat,
    readers: nat,
    writers: nat)

  /** A demand and the weaker demands that may stand in for it. Alternatives are not nested. */
  datatype Estimate = Estimate(base: Demand, offload: Option<Demand>, quantize: Option<Demand>, reduceBatch: Option<Demand>)

  datatype GpuLimit = GpuLimit(vram: nat, heavy: nat)

  datatype Limits = Limits(cpu: nat, ram: nat, pinned: nat, readers: nat, writers: nat, gpus: map<nat, GpuLimit>)

  /** The kinds of resource that are accounted for. */
  datatype Kind = Cpu | Ram | Pinned | Reads | Writes | Vram(gpu: nat) | Heavy(gpu: nat)

  predicate ValidDemand(d: Demand)
  {
    && d.cpu >= 1 && (d.vram > 0 <==> d.gpu.Some?) && (d.heavy ==> d.gpu.Some?) && d.pinned <= d.ram
  }

  predicate ValidEstimate(e: Estimate)
  {
    && ValidDemand(e.base)
    && (e.offload.Some? ==> ValidDemand(e.offload.value))
    && (e.quantize.Some? ==> ValidDemand(e.quantize.value))
    && (e.reduceBatch.Some? ==> ValidDemand(e.reduceBatch.value))
  }

  function Need(d: Demand, k: Kind): nat
  {
    match k
    case Cpu => d.cpu
    case Ram => d.ram
    case Pinned => d.pinned
    case Reads => d.readers
    case Writes => d.writers
    case Vram(g) => if d.gpu == Some(g) then d.vram else 0
    case Heavy(g) => if d.gpu == Some(g) && d.heavy then 1 else 0
  }

  function LimitOf(l: Limits, k: Kind): nat
  {
    match k
    case Cpu => l.cpu
    case Ram => l.ram
    case Pinned => l.pinned
    case Reads => l.readers
    case Writes => l.writers
    case Vram(g) => if g in l.gpus then l.gpus[g].vram else 0
    case Heavy(g) => if g in l.gpus then l.gpus[g].heavy else 0
  }

  /** Every need is covered, on an existing GPU. */
  ghost predicate Fits(d: Demand, l: Limits)
  {
    (d.gpu.Some? ==> d.gpu.value in l.gpus) && forall k :: Need(d, k) <= LimitOf(l, k)
  }
}
