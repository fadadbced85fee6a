/** Admission control over reserved resources (src/comfyng/resources/broker.py). */
module Broker {
  import opened Graphs
  import opened Budgets

  type LeaseId = nat

  datatype Lease = Lease(id: LeaseId, demand: Demand)

  // ----- Accounting -----

  /** `_used`, per kind. */
  function Used(leases: seq<Lease>, k: Kind): nat
  {
    if leases == [] then 0 else Used(leases[..|leases| - 1], k) + Need(leases[|leases| - 1].demand, k)
  }

  /** No kind is overcommitted, and leases only name GPUs that exist. */
  ghost predicate Conserved(limits: Limits, leases: seq<Lease>)
  {
    && (forall k :: Used(leases, k) <= LimitOf(limits, k))
    && (forall l :: l in leases && l.demand.gpu.Some? ==> l.demand.gpu.value in limits.gpus)
  }

  function Monus(a: nat, b: nat): nat
  {
    if a >= b then a - b else 0
  }

  /** `available`. */
  function Available(limits: Limits, leases: seq<Lease>): Limits
  {
    Limits(Monus(limits.cpu, Used(leases, Cpu)), Monus(limits.ram, Used(leases, Ram)),
           Monus(limits.pinned, Used(leases, Pinned)), Monus(limits.readers, Used(leases, Reads)),
           Monus(limits.writers, Used(leases, Writes)),
           map g | g in limits.gpus ::
             GpuLimit(Monus(limits.gpus[g].vram, Used(leases, Vram(g))), Monus(limits.gpus[g].heavy, Used(leases, Heavy(g)))))
  }

  lemma AvailableIsTheRest(limits: Limits, leases: seq<Lease>, k: Kind)
    requires Conserved(limits, leases)
    ensures LimitOf(Available(limits, leases), k) + Used(leases, k) == LimitOf(limits, k)
  {
    assert Used(leases, k) <= LimitOf(limits, k);
  }

  lemma NothingReserved(limits: Limits)
    ensures Available(limits, []) == limits
  {
    assert Available(limits, []).gpus == limits.gpus;
  }

  // ----- Diagnostics -----

  datatype Code = CpuCores | RamBytes | PinnedRamBytes | ConcurrentReads | ConcurrentWrites | GpuUnavailable | GpuVram | GpuHeavyJobs

  datatype Violation = Violation(code: Code, requested: nat, available: Option<nat>, transient: bool, gpu: Option<nat>)

  /** One check: a violation when the request exceeds what there is; transient when only the
      current load is in the way. */
  function Check(code: Code, requested: nat, available: nat, fixed: nat, current: bool, gpu: Option<nat>): seq<Violation>
  {
    if requested > available then [Violation(code, requested, Some(available), current && requested <= fixed, gpu)] else []
  }

  function HostShortfalls(d: Demand, limits: Limits, l: Limits, current: bool): seq<Violation>
  {
    Check(CpuCores, d.cpu, l.cpu, limits.cpu, current, None) +
    Check(RamBytes, d.ram, l.ram, limits.ram, current, None) +
    Check(PinnedRamBytes, d.pinned, l.pinned, limits.pinned, current, None) +
    Check(ConcurrentReads, d.readers, l.readers, limits.readers, current, None) +
    Check(ConcurrentWrites, d.writers, l.writers, limits.writers, current, None)
  }

  function GpuShortfalls(d: Demand, limits: Limits, l: Limits, current: bool): seq<Violation>
  {
    if d.gpu.None? then []
    else if d.gpu.value !in l.gpus || d.gpu.value !in limits.gpus then [Violation(GpuUnavailable, d.vram, None, false, d.gpu)]
    else Check(GpuVram, d.vram, l.gpus[d.gpu.value].vram, limits.gpus[d.gpu.value].vram, current, d.gpu) +
         if d.heavy then Check(GpuHeavyJobs, 1, l.gpus[d.gpu.value].heavy, limits.gpus[d.gpu.value].heavy, current, d.gpu) else []
  }

  /** `_diagnostics`, against the static limits or against what is available now. */
  function Diagnostics(d: Demand, limits: Limits, leases: seq<Lease>, current: bool): seq<Violation>
  {
    var l := if current then Available(limits, leases) else limits;
    HostShortfalls(d, limits, l, current) + GpuShortfalls(d, limits, l, current)
  }

  lemma DiagnosticsExact(d: Demand, limits: Limits, leases: seq<Lease>, current: bool)
    requires ValidDemand(d)
    ensures Diagnostics(d, limits, leases, current) == [] <==>
            Fits(d, if current then Available(limits, leases) else limits)
  {
    var l := if current then Available(limits, leases) else limits;
    if Fits(d, l) {
      assert Need(d, Cpu) <= LimitOf(l, Cpu) && Need(d, Ram) <= LimitOf(l, Ram) && Need(d, Pinned) <= LimitOf(l, Pinned);
      assert Need(d, Reads) <= LimitOf(l, Reads) && Need(d, Writes) <= LimitOf(l, Writes);
      if d.gpu.Some? {
        assert Need(d, Vram(d.gpu.value)) <= LimitOf(l, Vram(d.gpu.value));
        assert Need(d, Heavy(d.gpu.value)) <= LimitOf(l, Heavy(d.gpu.value));
      }
    }
  }

  function CodeOf(k: Kind): Code
  {
    match k
    case Cpu => CpuCores
    case Ram => RamBytes
    case Pinned => PinnedRamBytes
    case Reads => ConcurrentReads
    case Writes => ConcurrentWrites
    case Vram(_) => GpuVram
    case Heavy(_) => GpuHeavyJobs
  }

  function GpuOf(k: Kind): Option<nat>
  {
    if k.Vram? || k.Heavy? then Some(k.gpu) else None
  }

  /** The violation reports one kind of which too little is left, with the figures for it. */
  ghost predicate Reports(v: Violation, k: Kind, d: Demand, limits: Limits, l: Limits, current: bool)
  {
    && (GpuOf(k).Some? ==> GpuOf(k).value in limits.gpus) && Need(d, k) > LimitOf(l, k)
    && v == Violation(CodeOf(k), Need(d, k), Some(LimitOf(l, k)), current && Need(d, k) <= LimitOf(limits, k), GpuOf(k))
  }

  lemma HostKind(v: Violation, d: Demand, limits: Limits, l: Limits, current: bool) returns (k: Kind)
    requires v in HostShortfalls(d, limits, l, current)
    ensures Reports(v, k, d, limits, l, current)
  {
    if v in Check(CpuCores, d.cpu, l.cpu, limits.cpu, current, None) {
      k := Cpu;
    } else if v in Check(RamBytes, d.ram, l.ram, limits.ram, current, None) {
      k := Ram;
    } else if v in Check(PinnedRamBytes, d.pinned, l.pinned, limits.pinned, current, None) {
      k := Pinned;
    } else if v in Check(ConcurrentReads, d.readers, l.readers, limits.readers, current, None) {
      k := Reads;
    } else {
      k := Writes;
    }
  }

  lemma GpuKind(v: Violation, d: Demand, limits: Limits, l: Limits, current: bool) returns (k: Kind)
    requires l.gpus.Keys == limits.gpus.Keys && v in GpuShortfalls(d, limits, l, current) && v.code != GpuUnavailable
    ensures Reports(v, k, d, limits, l, current)
  {
    k := if v.code == GpuVram then Vram(d.gpu.value) else Heavy(d.gpu.value);
  }

  /** The diagnostics are exactly the shortfalls, and a missing GPU. */
  lemma DiagnosticsListShortfalls(d: Demand, limits: Limits, leases: seq<Lease>, current: bool, v: Violation)
    requires ValidDemand(d)
    ensures var l := if current then Available(limits, leases) else limits;
            v in Diagnostics(d, limits, leases, current) <==>
              (exists k :: Reports(v, k, d, limits, l, current)) || GpuMissing(v, d, limits)
  {
    var l := if current then Available(limits, leases) else limits;
    Listed(d, limits, l, current, v);
  }

  ghost predicate GpuMissing(v: Violation, d: Demand, limits: Limits)
  {
    d.gpu.Some? && d.gpu.value !in limits.gpus && v == Violation(GpuUnavailable, d.vram, None, false, d.gpu)
  }

  lemma Listed(d: Demand, limits: Limits, l: Limits, current: bool, v: Violation)
    requires ValidDemand(d) && l.gpus.Keys == limits.gpus.Keys
    ensures v in HostShortfalls(d, limits, l, current) + GpuShortfalls(d, limits, l, current) <==>
              (exists k :: Reports(v, k, d, limits, l, current)) || GpuMissing(v, d, limits)
  {
    if v in HostShortfalls(d, limits, l, current) {
      var k := HostKind(v, d, limits, l, current);
    } else if v in GpuShortfalls(d, limits, l, current) {
      if v.code != GpuUnavailable { var k := GpuKind(v, d, limits, l, current); }
    }
    if k :| Reports(v, k, d, limits, l, current) {
      ReportIsListed(v, k, d, limits, l, current);
    }
  }

  lemma ReportIsListed(v: Violation, k: Kind, d: Demand, limits: Limits, l: Limits, current: bool)
    requires ValidDemand(d) && l.gpus.Keys == limits.gpus.Keys && Reports(v, k, d, limits, l, current)
    ensures v in HostShortfalls(d, limits, l, current) || v in GpuShortfalls(d, limits, l, current)
  {
    match k
    case Cpu => assert v in Check(CpuCores, d.cpu, l.cpu, limits.cpu, current, None);
    case Ram => assert v in Check(RamBytes, d.ram, l.ram, limits.ram, current, None);
    case Pinned => assert v in Check(PinnedRamBytes, d.pinned, l.pinned, limits.pinned, current, None);
    case Reads => assert v in Check(ConcurrentReads, d.readers, l.readers, limits.readers, current, None);
    case Writes => assert v in Check(ConcurrentWrites, d.writers, l.writers, limits.writers, current, None);
    case Vram(g) => assert d.gpu == Some(g);
    case Heavy(g) => assert d.gpu == Some(g) && d.heavy;
  }

  /** Against the static limits nothing is transient; against the current load everything is,
      if the demand fits the static limits. */
  lemma TransientExact(d: Demand, limits: Limits, leases: seq<Lease>, current: bool, v: Violation)
    requires ValidDemand(d) && v in Diagnostics(d, limits, leases, current)
    ensures !current ==> !v.transient
    ensures current && Fits(d, limits) ==> v.transient
  {
    if Fits(d, limits) {
      assert Need(d, Cpu) <= LimitOf(limits, Cpu) && Need(d, Ram) <= LimitOf(limits, Ram) && Need(d, Pinned) <= LimitOf(limits, Pinned);
      assert Need(d, Reads) <= LimitOf(limits, Reads) && Need(d, Writes) <= LimitOf(limits, Writes);
      if d.gpu.Some? {
        assert Need(d, Vram(d.gpu.value)) <= LimitOf(limits, Vram(d.gpu.value));
        assert Need(d, Heavy(d.gpu.value)) <= LimitOf(limits, Heavy(d.gpu.value));
      }
    }
  }

  // ----- Admission -----

  datatype Action = NoChange | Offload | Quantize | Sequence | ReduceBatch | Reject

  datatype Decision =
    | Admitted(action: Action, lease: Lease, attempted: seq<Action>)
    | Deferred(selected: Demand, diagnostics: seq<Violation>, attempted: seq<Action>)
    | Rejected(diagnostics: seq<Violation>, attempted: seq<Action>)

  ghost predicate FitsNow(d: Demand, limits: Limits, leases: seq<Lease>)
  {
    Fits(d, Available(limits, leases))
  }

  ghost predicate MaybeFitsNow(d: Option<Demand>, limits: Limits, leases: seq<Lease>)
  {
    d.Some? && FitsNow(d.value, limits, leases)
  }

  ghost predicate MaybeFits(d: Option<Demand>, limits: Limits)
  {
    d.Some? && Fits(d.value, limits)
  }

  /** The demand an admission grants, in order of preference; the reduced batch only counts
      when waiting cannot help. */
  ghost function Grant(e: Estimate, limits: Limits, leases: seq<Lease>): Option<(Action, Demand)>
  {
    if FitsNow(e.base, limits, leases) then Some((NoChange, e.base))
    else if MaybeFitsNow(e.offload, limits, leases) then Some((Offload, e.offload.value))
    else if MaybeFitsNow(e.quantize, limits, leases) then Some((Quantize, e.quantize.value))
    else if Waitable(e, limits).None? && MaybeFitsNow(e.reduceBatch, limits, leases) then Some((ReduceBatch, e.reduceBatch.value))
    else None
  }

  /** The first demand that fits an idle machine. */
  ghost function Waitable(e: Estimate, limits: Limits): Option<Demand>
  {
    if Fits(e.base, limits) then Some(e.base)
    else if MaybeFits(e.offload, limits) then e.offload
    else if MaybeFits(e.quantize, limits) then e.quantize
    else None
  }

  /** What `admit` decides. */
  ghost predicate Decides(e: Estimate, limits: Limits, leases: seq<Lease>, id: LeaseId, r: Decision)
  {
    match r
    case Admitted(action, lease, _) => Grant(e, limits, leases) == Some((action, lease.demand)) && lease.id == id
    case Deferred(selected, diagnostics, _) =>
      && Grant(e, limits, leases).None? && Waitable(e, limits) == Some(selected)
      && diagnostics == Diagnostics(selected, limits, leases, true)
    case Rejected(diagnostics, _) =>
      && Grant(e, limits, leases).None? && Waitable(e, limits).None?
      && diagnostics == Diagnostics(e.base, limits, leases, false)
  }

  /** The transformations an estimate offers, in the order they are tried. */
  function Transforms(e: Estimate): seq<Action>
  {
    (if e.offload.Some? then [Offload] else []) + if e.quantize.Some? then [Quantize] else []
  }

  /** The actions a decision reports as attempted. */
  function Attempts(e: Estimate, r: Decision): seq<Action>
  {
    match r
    case Admitted(NoChange, _, _) => [NoChange]
    case Admitted(Offload, _, _) => [NoChange, Offload]
    case Admitted(Quantize, _, _) => [NoChange] + Transforms(e)
    case Admitted(_, _, _) => [NoChange] + Transforms(e) + [Sequence, ReduceBatch]
    case Deferred(_, _, _) => [NoChange] + Transforms(e) + [Sequence]
    case Rejected(_, _) => [NoChange] + Transforms(e) + [Sequence] + (if e.reduceBatch.Some? then [ReduceBatch] else []) + [Reject]
  }

  /** Exactly one outcome is possible. */
  ghost predicate IsDeferred(e: Estimate, limits: Limits, leases: seq<Lease>)
  {
    Grant(e, limits, leases).None? && Waitable(e, limits).Some?
  }

  lemma {:induction false} FitsFixed(d: Demand, limits: Limits, leases: seq<Lease>)
    requires FitsNow(d, limits, leases)
    ensures Fits(d, limits)
  {
    forall k
      ensures Need(d, k) <= LimitOf(limits, k)
    {
      assert Need(d, k) <= LimitOf(Available(limits, leases), k);
    }
  }

  /** A deferred request waits for something: someone holds a lease, and every diagnostic
      would go away with the load. */
  lemma DeferredIsTransient(e: Estimate, limits: Limits, leases: seq<Lease>, id: LeaseId, r: Decision)
    requires ValidEstimate(e) && Decides(e, limits, leases, id, r) && r.Deferred?
    ensures r.diagnostics != [] && forall v :: v in r.diagnostics ==> v.transient
    ensures leases != []
  {
    DiagnosticsExact(r.selected, limits, leases, true);
    forall v | v in r.diagnostics
      ensures v.transient
    {
      TransientExact(r.selected, limits, leases, true, v);
    }
    NothingReserved(limits);
  }

  /** A rejected request has only permanent diagnostics: neither it nor its offloaded or quantized
      form fits even an idle machine. A reduced batch might. */
  lemma RejectedIsPermanent(e: Estimate, limits: Limits, leases: seq<Lease>, id: LeaseId, r: Decision)
    requires ValidEstimate(e) && Decides(e, limits, leases, id, r) && r.Rejected?
    ensures r.diagnostics != [] && forall v :: v in r.diagnostics ==> !v.transient
    ensures !Fits(e.base, limits) && !MaybeFits(e.offload, limits) && !MaybeFits(e.quantize, limits)
  {
    DiagnosticsExact(e.base, limits, leases, false);
    forall v | v in r.diagnostics
      ensures !v.transient
    {
      TransientExact(e.base, limits, leases, false, v);
    }
  }

  /** Unlike the other alternatives, a reduced batch that only lacks current room is rejected,
      not deferred. */
  lemma ReducedBatchNeverWaits(e: Estimate, limits: Limits, leases: seq<Lease>, id: LeaseId, r: Decision)
    requires Decides(e, limits, leases, id, r) && MaybeFits(e.reduceBatch, limits)
    requires !Fits(e.base, limits) && !MaybeFits(e.offload, limits) && !MaybeFits(e.quantize, limits)
    ensures r.Rejected? <==> !MaybeFitsNow(e.reduceBatch, limits, leases)
    ensures r.Admitted? <==> MaybeFitsNow(e.reduceBatch, limits, leases)
  {
    if FitsNow(e.base, limits, leases) { FitsFixed(e.base, limits, leases); }
    if MaybeFitsNow(e.offload, limits, leases) { FitsFixed(e.offload.value, limits, leases); }
    if MaybeFitsNow(e.quantize, limits, leases) { FitsFixed(e.quantize.value, limits, leases); }
  }

  // ----- Which outcome a request gets -----

  /** The demand fits beside what the leases hold, on a GPU that exists. */
  ghost predicate HasRoom(d: Demand, limits: Limits, leases: seq<Lease>)
  {
    && (d.gpu.Some? ==> d.gpu.value in limits.gpus)
    && forall k :: Need(d, k) + Used(leases, k) <= LimitOf(limits, k)
  }

  ghost predicate OfferHasRoom(d: Option<Demand>, limits: Limits, leases: seq<Lease>)
  {
    d.Some? && HasRoom(d.value, limits, leases)
  }

  lemma RoomIsFit(d: Demand, limits: Limits, leases: seq<Lease>)
    requires Conserved(limits, leases)
    ensures HasRoom(d, limits, leases) <==> FitsNow(d, limits, leases)
    ensures HasRoom(d, limits, []) <==> Fits(d, limits)
  {
    forall k
      ensures LimitOf(Available(limits, leases), k) + Used(leases, k) == LimitOf(limits, k) && Used([], k) == 0
    {
      AvailableIsTheRest(limits, leases, k);
    }
    hide Used, Need, LimitOf;
  }

  lemma OffersFit(e: Estimate, limits: Limits, leases: seq<Lease>)
    requires Conserved(limits, leases)
    ensures HasRoom(e.base, limits, leases) <==> FitsNow(e.base, limits, leases)
    ensures HasRoom(e.base, limits, []) <==> Fits(e.base, limits)
    ensures OfferHasRoom(e.offload, limits, leases) <==> MaybeFitsNow(e.offload, limits, leases)
    ensures OfferHasRoom(e.offload, limits, []) <==> MaybeFits(e.offload, limits)
    ensures OfferHasRoom(e.quantize, limits, leases) <==> MaybeFitsNow(e.quantize, limits, leases)
    ensures OfferHasRoom(e.quantize, limits, []) <==> MaybeFits(e.quantize, limits)
    ensures OfferHasRoom(e.reduceBatch, limits, leases) <==> MaybeFitsNow(e.reduceBatch, limits, leases)
  {
    hide HasRoom, Fits, FitsNow, Conserved;
    RoomIsFit(e.base, limits, leases);
    if e.offload.Some? { RoomIsFit(e.offload.value, limits, leases); }
    if e.quantize.Some? { RoomIsFit(e.quantize.value, limits, leases); }
    if e.reduceBatch.Some? { RoomIsFit(e.reduceBatch.value, limits, leases); }
  }

  /** The request itself, its offloaded and its quantized form are tried in this order, and the
      first with room is granted. With room for none, the first that would have room on an idle
      machine waits. With no such form either, the reduced batch is granted if it has room, and
      otherwise the request is rejected. */
  lemma AdmissionPrefers(e: Estimate, limits: Limits, leases: seq<Lease>, id: LeaseId, r: Decision)
    requires Conserved(limits, leases) && Decides(e, limits, leases, id, r)
    ensures if HasRoom(e.base, limits, leases) then r.Admitted? && r.action == NoChange && r.lease == Lease(id, e.base)
            else if OfferHasRoom(e.offload, limits, leases) then r.Admitted? && r.action == Offload && r.lease == Lease(id, e.offload.value)
            else if OfferHasRoom(e.quantize, limits, leases) then r.Admitted? && r.action == Quantize && r.lease == Lease(id, e.quantize.value)
            else if HasRoom(e.base, limits, []) then r.Deferred? && r.selected == e.base
            else if OfferHasRoom(e.offload, limits, []) then r.Deferred? && r.selected == e.offload.value
            else if OfferHasRoom(e.quantize, limits, []) then r.Deferred? && r.selected == e.quantize.value
            else if OfferHasRoom(e.reduceBatch, limits, leases) then
              r.Admitted? && r.action == ReduceBatch && r.lease == Lease(id, e.reduceBatch.value)
            else r.Rejected?
  {
    hide HasRoom, Fits, FitsNow, Conserved, Diagnostics;
    OffersFit(e, limits, leases);
  }

  /** So a request is turned away that would be granted on an idle machine. */
  lemma ReducedBatchTurnedAway()
    ensures var limits := Limits(2, 8, 8, 1, 1, map[]);
            var leases := [Lease(0, Demand(2, 1, 0, None, false, 0, 0, 0))];
            var e := Estimate(Demand(4, 1, 0, None, false, 0, 0, 0), None, None, Some(Demand(1, 1, 0, None, false, 0, 0, 0)));
            && ValidEstimate(e) && Conserved(limits, leases)
            && Grant(e, limits, leases).None? && Waitable(e, limits).None?
            && Grant(e, limits, []) == Some((ReduceBatch, e.reduceBatch.value))
  {
    var limits := Limits(2, 8, 8, 1, 1, map[]);
    var leases := [Lease(0, Demand(2, 1, 0, None, false, 0, 0, 0))];
    var big, small := Demand(4, 1, 0, None, false, 0, 0, 0), Demand(1, 1, 0, None, false, 0, 0, 0);
    NothingReserved(limits);
    UsedGrows([], leases[0], Cpu);
    assert leases == [] + [leases[0]] && Used([], Cpu) == 0;
    assert Need(big, Cpu) > LimitOf(limits, Cpu) && Need(small, Cpu) > LimitOf(Available(limits, leases), Cpu);
    assert Need(big, Cpu) > LimitOf(Available(limits, leases), Cpu);
    forall k
      ensures Need(small, k) <= LimitOf(limits, k) && Used(leases, k) <= LimitOf(limits, k)
    {
      UsedGrows([], leases[0], k);
    }
    assert Fits(small, limits);
  }

  // ----- Conservation -----

  lemma UsedGrows(leases: seq<Lease>, l: Lease, k: Kind)
    ensures Used(leases + [l], k) == Used(leases, k) + Need(l.demand, k)
  {
    assert (leases + [l])[..|leases|] == leases;
  }

  lemma GrantConserves(limits: Limits, leases: seq<Lease>, l: Lease)
    requires Conserved(limits, leases) && FitsNow(l.demand, limits, leases)
    ensures Conserved(limits, leases + [l])
  {
    forall k
      ensures Used(leases + [l], k) <= LimitOf(limits, k)
    {
      UsedGrows(leases, l, k);
      AvailableIsTheRest(limits, leases, k);
      assert Need(l.demand, k) <= LimitOf(Available(limits, leases), k);
    }
  }

  lemma GrantFits(e: Estimate, limits: Limits, leases: seq<Lease>)
    requires Grant(e, limits, leases).Some?
    ensures FitsNow(Grant(e, limits, leases).value.1, limits, leases)
  {
  }

  /** The leases without one. */
  function Without(leases: seq<Lease>, id: LeaseId): seq<Lease>
  {
    if leases == [] then []
    else
      var last := leases[|leases| - 1];
      Without(leases[..|leases| - 1], id) + if last.id == id then [] else [last]
  }

  ghost predicate UniqueLeases(leases: seq<Lease>)
  {
    forall i, j :: 0 <= i < j < |leases| ==> leases[i].id != leases[j].id
  }

  ghost predicate Live(leases: seq<Lease>, id: LeaseId)
  {
    exists l :: l in leases && l.id == id
  }

  lemma {:induction false} WithoutMembers(leases: seq<Lease>, id: LeaseId, l: Lease)
    ensures l in Without(leases, id) <==> l in leases && l.id != id
  {
    if leases != [] {
      WithoutMembers(leases[..|leases| - 1], id, l);
      assert leases == leases[..|leases| - 1] + [leases[|leases| - 1]];
    }
  }

  lemma {:induction false} WithoutUnique(leases: seq<Lease>, id: LeaseId)
    requires UniqueLeases(leases)
    ensures UniqueLeases(Without(leases, id))
  {
    if leases != [] {
      var init, last := leases[..|leases| - 1], leases[|leases| - 1];
      WithoutUnique(init, id);
      forall l | l in Without(init, id)
        ensures l.id != last.id
      {
        WithoutMembers(init, id, l);
      }
    }
  }

  /** Releasing gives back exactly what the lease held. */
  lemma {:induction false} ReleaseReturns(leases: seq<Lease>, l: Lease, k: Kind)
    requires UniqueLeases(leases) && l in leases
    ensures Used(Without(leases, l.id), k) + Need(l.demand, k) == Used(leases, k)
  {
    var init, last := leases[..|leases| - 1], leases[|leases| - 1];
    if last.id == l.id {
      var i :| 0 <= i < |leases| && leases[i] == l;
      assert leases == init + [last];
      WithoutLast(init, last);
      UsedGrows(init, last, k);
    } else {
      assert l in init;
      ReleaseReturns(init, l, k);
      UsedGrows(Without(init, l.id), last, k);
    }
  }

  lemma WithoutLast(init: seq<Lease>, last: Lease)
    requires UniqueLeases(init + [last])
    ensures Without(init + [last], last.id) == init
  {
    var all := init + [last];
    forall l | l in init
      ensures l.id != last.id
    {
      var j :| 0 <= j < |init| && init[j] == l;
      assert all[j].id != all[|init|].id;
    }
    WithoutOther(init, last.id);
    assert all[..|init|] == init;
  }

  lemma {:induction false} WithoutOther(leases: seq<Lease>, id: LeaseId)
    requires forall l :: l in leases ==> l.id != id
    ensures Without(leases, id) == leases
  {
    if leases != [] {
      WithoutOther(leases[..|leases| - 1], id);
      assert leases == leases[..|leases| - 1] + [leases[|leases| - 1]];
    }
  }

  lemma ReleaseConserves(limits: Limits, leases: seq<Lease>, id: LeaseId)
    requires Conserved(limits, leases) && UniqueLeases(leases)
    ensures Conserved(limits, Without(leases, id))
  {
    forall l | l in Without(leases, id)
      ensures l in leases
    {
      WithoutMembers(leases, id, l);
    }
    if l :| l in leases && l.id == id {
      forall k
        ensures Used(Without(leases, id), k) <= LimitOf(limits, k)
      {
        ReleaseReturns(leases, l, k);
      }
    } else {
      WithoutOther(leases, id);
    }
  }

  // ----- Any sequence of admissions and releases -----

  datatype Ledger = Ledger(leases: seq<Lease>, next: LeaseId)

  datatype Op = Admit(estimate: Estimate) | Release(id: LeaseId)

  datatype Usage = Unused | Then(earlier: Usage, op: Op)

  ghost function After(limits: Limits, b: Ledger, op: Op): Ledger
  {
    match op
    case Admit(e) =>
      var grant := Grant(e, limits, b.leases);
      if grant.Some? then Ledger(b.leases + [Lease(b.next, grant.value.1)], b.next + 1) else b
    case Release(id) => b.(leases := Without(b.leases, id))
  }

  ghost function Final(limits: Limits, run: Usage): Ledger
  {
    match run
    case Unused => Ledger([], 0)
    case Then(earlier, op) => After(limits, Final(limits, earlier), op)
  }

  ghost predicate Sound(limits: Limits, b: Ledger)
  {
    && Conserved(limits, b.leases) && UniqueLeases(b.leases)
    && forall l :: l in b.leases ==> l.id < b.next
  }

  lemma AfterIsSound(limits: Limits, b: Ledger, op: Op)
    requires Sound(limits, b)
    ensures Sound(limits, After(limits, b, op))
  {
    match op
    case Admit(e) =>
      if Grant(e, limits, b.leases).Some? {
        GrantFits(e, limits, b.leases);
        GrantConserves(limits, b.leases, Lease(b.next, Grant(e, limits, b.leases).value.1));
      }
    case Release(id) =>
      ReleaseConserves(limits, b.leases, id);
      WithoutUnique(b.leases, id);
      forall l | l in Without(b.leases, id)
        ensures l in b.leases
      {
        WithoutMembers(b.leases, id, l);
      }
  }

  /** Conservation over every run. */
  lemma {:induction false} RunConserves(limits: Limits, run: Usage)
    ensures Sound(limits, Final(limits, run))
    decreases run
  {
    match run
    case Unused =>
    case Then(earlier, op) =>
      RunConserves(limits, earlier);
      AfterIsSound(limits, Final(limits, earlier), op);
  }

  ghost predicate Extends(run: Usage, start: Usage)
  {
    run == start || (run.Then? && Extends(run.earlier, start))
  }

  /** A released lease never becomes live again, so its second release does nothing. */
  lemma {:induction false} ReleasedOnce(limits: Limits, run: Usage, start: Usage, id: LeaseId)
    requires Extends(run, Then(start, Release(id))) && Live(Final(limits, start).leases, id)
    ensures !Live(Final(limits, run).leases, id) && id < Final(limits, run).next
    ensures Final(limits, Then(run, Release(id))) == Final(limits, run)
    decreases run
  {
    RunConserves(limits, start);
    var b := Final(limits, run);
    if run == Then(start, Release(id)) {
      forall l | l in b.leases
        ensures l.id != id
      {
        WithoutMembers(Final(limits, start).leases, id, l);
      }
    } else {
      ReleasedOnce(limits, run.earlier, start, id);
      var before := Final(limits, run.earlier);
      forall l | l in b.leases
        ensures l.id != id
      {
        match run.op
        case Admit(e) =>
          assert l in before.leases || l.id == before.next;
        case Release(other) =>
          WithoutMembers(before.leases, other, l);
      }
    }
    WithoutOther(b.leases, id);
  }

  // ----- The broker -----

  class ResourceBroker {
    const limits: Limits
    var leases: seq<Lease>
    var next: LeaseId

    ghost predicate Valid()
      reads this
    {
      Sound(limits, Ledger(leases, next))
    }

    ghost function State(): Ledger
      reads this
    {
      Ledger(leases, next)
    }

    constructor (limits: Limits)
      ensures Valid() && State() == Ledger([], 0) && this.limits == limits
    {
      this.limits, leases, next := limits, [], 0;
    }

    /** `_used` by one pass over the live leases. */
    method UsedNow(k: Kind) returns (used: nat)
      ensures used == Used(leases, k)
    {
      used := 0;
      for i := 0 to |leases|
        invariant used == Used(leases[..i], k)
      {
        assert leases[..i + 1][..i] == leases[..i];
        used := used + Need(leases[i].demand, k);
      }
      assert leases[..|leases|] == leases;
    }

    /** `_reserve`. */
    method Reserve(d: Demand) returns (lease: Lease)
      requires Valid() && FitsNow(d, limits, leases)
      modifies this
      ensures Valid() && lease == Lease(old(next), d)
      ensures leases == old(leases) + [lease] && next == old(next) + 1
    {
      GrantConserves(limits, leases, Lease(next, d));
      lease := Lease(next, d);
      leases, next := leases + [lease], next + 1;
    }

    /** `not _violations(...)`. */
    method NoViolations(d: Demand, current: bool) returns (ok: bool)
      requires ValidDemand(d)
      ensures ok == if current then FitsNow(d, limits, leases) else Fits(d, limits)
    {
      DiagnosticsExact(d, limits, leases, current);
      ok := Diagnostics(d, limits, leases, current) == [];
    }

    /** The loop over transformations: the first that fits now, and whatever could wait. */
    method Transform(e: Estimate, candidate0: Option<Demand>)
      returns (granted: Option<(Action, Demand)>, candidate: Option<Demand>, attempted: seq<Action>)
      requires Valid() && ValidEstimate(e) && !FitsNow(e.base, limits, leases)
      requires candidate0 == if Fits(e.base, limits) then Some(e.base) else None
      ensures granted.Some? ==> granted == Grant(e, limits, leases) && granted.value.0 in {Offload, Quantize}
      ensures attempted == [NoChange] + if granted.Some? && granted.value.0 == Offload then [Offload] else Transforms(e)
      ensures granted.None? ==> candidate == Waitable(e, limits)
      ensures granted.None? ==> !MaybeFitsNow(e.offload, limits, leases) && !MaybeFitsNow(e.quantize, limits, leases)
    {
      granted, candidate, attempted := None, candidate0, [NoChange];
      if e.offload.Some? {
        attempted := attempted + [Offload];
        var now := NoViolations(e.offload.value, true);
        if now { return Some((Offload, e.offload.value)), candidate, attempted; }
        if candidate.None? {
          var fits := NoViolations(e.offload.value, false);
          if fits { candidate := e.offload; }
        }
      }
      if e.quantize.Some? {
        attempted := attempted + [Quantize];
        var now := NoViolations(e.quantize.value, true);
        if now { return Some((Quantize, e.quantize.value)), candidate, attempted; }
        if candidate.None? {
          var fits := NoViolations(e.quantize.value, false);
          if fits { candidate := e.quantize; }
        }
      }
    }

    /** `admit`. */
    method Admit(e: Estimate) returns (r: Decision)
      requires Valid() && ValidEstimate(e)
      modifies this
      ensures Valid() && Decides(e, limits, old(leases), old(next), r)
      ensures State() == After(limits, old(State()), Op.Admit(e)) && r.attempted == Attempts(e, r)
    {
      hide Fits, FitsNow, Diagnostics, Conserved, Available, UniqueLeases;
      var now := NoViolations(e.base, true);
      if now {
        var lease := Reserve(e.base);
        return Admitted(NoChange, lease, [NoChange]);
      }
      var fits := NoViolations(e.base, false);
      var granted, candidate, attempted := Transform(e, if fits then Some(e.base) else None);
      if granted.Some? {
        GrantFits(e, limits, leases);
        var lease := Reserve(granted.value.1);
        return Admitted(granted.value.0, lease, attempted);
      }
      attempted := attempted + [Sequence];
      if candidate.Some? {
        return Deferred(candidate.value, Diagnostics(candidate.value, limits, leases, true), attempted);
      }
      if e.reduceBatch.Some? {
        attempted := attempted + [ReduceBatch];
        now := NoViolations(e.reduceBatch.value, true);
        if now {
          var lease := Reserve(e.reduceBatch.value);
          return Admitted(ReduceBatch, lease, attempted);
        }
      }
      attempted := attempted + [Reject];
      r := Rejected(Diagnostics(e.base, limits, leases, false), attempted);
    }

    /** `release`: true for a live lease, false afterwards. */
    method Release(lease: Lease) returns (released: bool)
      requires Valid()
      modifies this
      ensures Valid() && released == (lease in old(leases))
      ensures leases == (if released then Without(old(leases), lease.id) else old(leases)) && next == old(next)
    {
      released := lease in leases;
      if released {
        AfterIsSound(limits, State(), Op.Release(lease.id));
        leases := Without(leases, lease.id);
      }
    }
  }
}
