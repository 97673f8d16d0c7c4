/** The PM8916 voltage-mode battery monitor
    (drivers/power/supply/pm8916_bms_vm.c).  The hardware only samples the
    battery voltage; the driver estimates the open-circuit voltage (OCV)
    in software from the samples, the charger's presence and the BMS state
    machine.  All four voltages are `unsigned int` in uV and every update
    wraps as C's unsigned arithmetic does. */
module BmsVm {
  import opened Kernel

  const FIFO_COUNT: nat := 2
  const FSM_STATE_S2: nat := 2
  const BMS_VM_TYPE: int := 0x020D
  /** The largest OCV move attributed to one FIFO update (25 mV). */
  const MAX_STEP_UV: nat := 25000

  datatype Bms = Bms(bootOcv: u32, lastOcv: u32, fakeOcv: u32, vbatNow: u32)

  /** The battery description's design limits (`int`, in uV). */
  datatype Design = Design(minUv: s32, maxUv: s32)

  /** One FIFO sample in uV: `raw * 300 - 100000` in `int`, stored in an
      `unsigned int`. */
  function SampleUv(raw: u16): (uv: u32)
    ensures raw >= 334 ==> uv == raw * 300 - 100000
    ensures raw < 334 ==> uv == 0x1_0000_0000 + raw * 300 - 100000
  {
    U32(raw * 300 - 100000)
  }

  /** `PM8916_BMS_VM_FSM_STATE`: bits 5:3 of STATUS1. */
  function FsmState(status1: u32): (s: nat)
    ensures s < 8
    // bits 5:3: the low three bits and everything above bit 5 do not matter
    ensures status1 == 64 * (status1 / 64) + 8 * s + status1 % 8
  {
    var eighths := status1 / 8;
    assert status1 == 8 * eighths + status1 % 8;
    assert eighths == 8 * (eighths / 8) + eighths % 8;
    assert eighths / 8 == status1 / 64;
    eighths % 8
  }

  /** Adding in `int` after a wrapping conversion wraps the same way as
      adding first. */
  lemma S32AddWrapped(a: int, b: int)
    ensures S32(a + S32(b)) == S32(a + b)
  {
    var q := (S32(b) - b) / 0x1_0000_0000;
    assert S32(b) == b + 0x1_0000_0000 * q;
    assert (a + S32(b)) % 0x1_0000_0000 == (a + b) % 0x1_0000_0000;
  }

  /** The sample loop of `fifo_update_done_irq`: the last sample becomes
      `vbat_now`, and the per-sample changes, each taken in wrapping
      unsigned arithmetic and summed in `int`, telescope to the net change
      from the previous `vbat_now` to the new one. */
  method ReadSamples(vbat0: u32, samples: seq<u16>) returns (vbat: u32, delta: s32)
    requires |samples| == FIFO_COUNT
    ensures vbat == SampleUv(samples[|samples| - 1])
    ensures delta == S32(vbat - vbat0)
  {
    vbat := vbat0;
    delta := 0;
    var i := 0;
    while i < |samples|
      invariant 0 <= i <= |samples|
      invariant i == 0 ==> vbat == vbat0
      invariant i > 0 ==> vbat == SampleUv(samples[i - 1])
      invariant delta == S32(vbat - vbat0)
    {
      var tmp := SampleUv(samples[i]);
      var locDelta := S32(U32(tmp - vbat));
      DeltaStep(vbat0, vbat, tmp, delta);
      delta := S32(delta + locDelta);
      vbat := tmp;
      i := i + 1;
    }
  }

  /** One iteration keeps the running sum equal to the net change. */
  lemma DeltaStep(vbat0: int, vbat: int, tmp: int, delta: int)
    requires delta == S32(vbat - vbat0)
    ensures S32(delta + S32(U32(tmp - vbat))) == S32(tmp - vbat0)
  {
    var d := tmp - vbat;
    S32Congruent(U32(d), d);
    S32AddWrapped(delta, d);
    S32AddWrapped(d, vbat - vbat0);
  }

  /** Numbers congruent modulo 2^32 wrap to the same `int`. */
  lemma S32Congruent(x: int, y: int)
    requires (x - y) % 0x1_0000_0000 == 0
    ensures S32(x) == S32(y)
  {
    var q := (x - y) / 0x1_0000_0000;
    assert x == y + 0x1_0000_0000 * q;
    assert x % 0x1_0000_0000 == y % 0x1_0000_0000;
  }

  /** The OCV estimate after one FIFO update, from the estimate before it,
      the new `vbat_now`, the net change `delta`, whether a charger
      supplies the battery and the BMS state:
        - a change of under 25 mV moves the estimate when it goes the way
          the charger allows (up when charging, down otherwise);
        - without a charger the estimate is at least the battery voltage;
        - in state S2 an estimate more than 10 mV below the battery voltage
          creeps up by 4 mV (the comparison wraps for a battery voltage
          under 10 mV);
        - with a charger the estimate is capped at the design maximum. */
  function EstimateOcv(fake: u32, vbat: u32, delta: s32, supplied: bool, fsm: nat, design: Design): (r: u32)
    ensures supplied ==> r <= U32(design.maxUv)
    ensures Sane(fake, vbat, design) && !supplied ==> vbat <= r <= Max(fake, vbat) + 4000
    ensures Sane(fake, vbat, design) && supplied ==> r >= Min(fake, design.maxUv)
    ensures Sane(fake, vbat, design) && supplied ==> r <= Max(fake, vbat) + MAX_STEP_UV
  {
    var f1 := if ((supplied && delta > 0) || (!supplied && delta < 0)) && Abs(delta) < MAX_STEP_UV
      then U32(fake + delta) else fake;
    var f2 := if !supplied && f1 < vbat then vbat else f1;
    var f3 := if fsm == FSM_STATE_S2 && f2 < U32(vbat - 10000) then U32(f2 + 4000) else f2;
    if supplied && f3 > U32(design.maxUv) then U32(design.maxUv) else f3
  }

  /** Voltages in the range where none of the estimator's unsigned
      operations wrap. */
  predicate Sane(fake: u32, vbat: u32, design: Design) {
    MAX_STEP_UV <= fake < 0x8000_0000 && 10000 <= vbat < 0x8000_0000 && design.maxUv >= 0
  }

  /** `fifo_update_done_irq`.  A failed FIFO read, or a charger query that
      fails with anything but -ENODEV, leaves the state untouched; -ENODEV
      counts as no charger.  `status1` is the STATUS1 read, which leaves
      the driver's scratch variable (then holding the last sample) as it
      was when it fails. */
  method FifoUpdate(b: Bms, fifo: Result<seq<u16>>, supplied: int, status1: Option<u32>, design: Design)
    returns (r: Bms)
    requires fifo.Ok? ==> |fifo.value| == FIFO_COUNT
    ensures fifo.Err? || (supplied < 0 && supplied != -ENODEV) ==> r == b
    ensures r.bootOcv == b.bootOcv && r.lastOcv == b.lastOcv
    ensures fifo.Ok? && (supplied >= 0 || supplied == -ENODEV) ==>
      r.vbatNow == SampleUv(fifo.value[FIFO_COUNT - 1]) &&
      var charging := supplied > 0;
      var fsm := FsmState(if status1.Some? then status1.value else r.vbatNow);
      r.fakeOcv == EstimateOcv(b.fakeOcv, r.vbatNow, S32(r.vbatNow - b.vbatNow), charging, fsm, design)
  {
    if fifo.Err? {
      return b;
    }
    var sup := supplied;
    if sup == -ENODEV {
      sup := 0;
    } else if sup < 0 {
      return b;
    }
    var vbat, delta := ReadSamples(b.vbatNow, fifo.value);
    var tmp := if status1.Some? then status1.value else vbat;
    var fake := EstimateOcv(b.fakeOcv, vbat, delta, sup != 0, FsmState(tmp), design);
    r := b.(fakeOcv := fake, vbatNow := vbat);
  }

  /** A jump of 25 mV or more between FIFO updates is not attributed to
      the OCV: outside state S2 and below the cap, a charging estimate
      stays put. */
  lemma LargeJumpIgnored(fake: u32, vbat: u32, delta: s32, fsm: nat, design: Design)
    requires Abs(delta) >= MAX_STEP_UV && fsm != FSM_STATE_S2 && fake <= U32(design.maxUv)
    ensures EstimateOcv(fake, vbat, delta, true, fsm, design) == fake
  {
  }

  /** While charging, a small rise in battery voltage raises the estimate
      by exactly the same amount; a fall leaves it alone. */
  lemma ChargingFollowsRise(fake: u32, vbat: u32, delta: s32, fsm: nat, design: Design)
    requires Sane(fake, vbat, design) && fsm != FSM_STATE_S2
    requires 0 < delta < MAX_STEP_UV && fake + delta <= design.maxUv
    ensures EstimateOcv(fake, vbat, delta, true, fsm, design) == fake + delta
    ensures EstimateOcv(fake, vbat, -delta, true, fsm, design) == Min(fake, design.maxUv)
  {
  }

  /** Without a charger, a small fall in battery voltage lowers the
      estimate by the same amount, but never below the battery voltage; a
      rise leaves it where it was, again at least the battery voltage. */
  lemma DischargeFollowsFall(fake: u32, vbat: u32, delta: s32, fsm: nat, design: Design)
    requires Sane(fake, vbat, design) && 0 < delta < MAX_STEP_UV
    ensures EstimateOcv(fake, vbat, -delta, false, fsm, design) == Max(fake - delta, vbat)
    ensures EstimateOcv(fake, vbat, delta, false, fsm, design) == Max(fake, vbat)
  {
  }

  /** In state S2 with a charger, an estimate that did not move and lies
      more than 10 mV below the battery voltage creeps up by 4 mV, up to
      the design maximum. */
  lemma S2Creep(fake: u32, vbat: u32, delta: s32, design: Design)
    requires Sane(fake, vbat, design) && delta <= 0 && fake + 10000 < vbat
    ensures EstimateOcv(fake, vbat, delta, true, FSM_STATE_S2, design)
         == Min(fake + 4000, design.maxUv)
  {
  }

  /** Without a charger the estimate is already raised to the battery
      voltage, so the S2 creep never applies. */
  lemma S2IdleWithoutCharger(fake: u32, vbat: u32, delta: s32, fsm: nat, design: Design)
    requires Sane(fake, vbat, design)
    ensures EstimateOcv(fake, vbat, delta, false, FSM_STATE_S2, design)
         == EstimateOcv(fake, vbat, delta, false, fsm, design)
  {
  }

  /** A sample below 334 (under 0 V after the offset) wraps to a voltage
      near 2^32 uV. */
  lemma LowSampleWraps(raw: u16)
    requires raw < 334
    ensures SampleUv(raw) >= 0x1_0000_0000 - 100000
  {
  }

  datatype Health = Dead | Overvoltage | Good

  /** The HEALTH property: the design limits are `int` and compared with
      the unsigned `vbat_now` as unsigned. */
  function BmsHealth(vbat: u32, design: Design): (h: Health)
    ensures h == Dead <==> vbat < U32(design.minUv)
    ensures h == Overvoltage <==> U32(design.minUv) <= vbat && vbat > U32(design.maxUv)
  {
    if vbat < U32(design.minUv) then Dead
    else if vbat > U32(design.maxUv) then Overvoltage
    else Good
  }

  /** With non-negative design limits the health is good exactly inside
      them. */
  lemma HealthGoodInside(vbat: u32, design: Design)
    requires 0 <= design.minUv <= design.maxUv
    ensures BmsHealth(vbat, design) == Good <==> design.minUv <= vbat <= design.maxUv
  {
  }

  datatype Status = Full | Charging | Discharging

  /** The STATUS property.  `ocv2cap` is the battery's OCV-to-capacity
      table lookup at 20 C, which is not part of this model. */
  function BmsStatus(b: Bms, supplied: int, ocv2cap: u32 -> int): (r: Result<Status>)
    ensures r.Err? <==> supplied < 0 && supplied != -ENODEV
    ensures r.Err? ==> r.errno == -supplied
    ensures r == Ok(Discharging) <==> supplied == 0 || supplied == -ENODEV
    ensures r == Ok(Full) <==> supplied > 0 && ocv2cap(b.fakeOcv) > 98
  {
    if supplied < 0 && supplied != -ENODEV then Err(-supplied)
    else if supplied != 0 && supplied != -ENODEV then
      (if ocv2cap(b.fakeOcv) > 98 then Ok(Full) else Ok(Charging))
    else Ok(Discharging)
  }

  /** The OCV from the word the 2-byte OCV read lands in: the read fills
      only the low half of an `unsigned int` that is never initialised, so
      the upper half is whatever the word held; the product wraps. */
  function OcvOf(word: u32): (uv: u32)
    ensures word < 0x1_0000 ==> uv == word * 300
  {
    U32(word * 300)
  }

  /** Probe: the peripheral must report the VM-BMS type; the OCV measured
      at boot seeds every voltage.  `perphType` and `ocvWord` are the whole
      words the two 2-byte reads land in. */
  function Probe(perphType: Result<int>, ocvWord: Result<u32>): (r: Result<Bms>)
    ensures perphType.Err? ==> r == Err(perphType.errno)
    ensures perphType.Ok? && perphType.value != BMS_VM_TYPE ==> r == Err(ENODEV)
    ensures perphType == Ok(BMS_VM_TYPE) && ocvWord.Err? ==> r == Err(ocvWord.errno)
    ensures r.Ok? <==> perphType == Ok(BMS_VM_TYPE) && ocvWord.Ok?
    ensures r.Ok? ==>
      var v := r.value;
      v.bootOcv == OcvOf(ocvWord.value) && v.lastOcv == v.bootOcv &&
      v.fakeOcv == v.bootOcv && v.vbatNow == v.bootOcv
  {
    match perphType
    case Err(e) => Err(e)
    case Ok(t) =>
      if t != BMS_VM_TYPE then Err(ENODEV)
      else match ocvWord
        case Err(e) => Err(e)
        case Ok(w) =>
          var ocv := OcvOf(w);
          Ok(Bms(ocv, ocv, ocv, ocv))
  }

  /** Resume: the OCV the hardware measured while suspended replaces the
      estimate only if it differs from the last one seen.  The read's
      result is not checked, so `ocvWord` is whatever the word holds
      afterwards, read or not. */
  function Resume(b: Bms, ocvWord: u32): (r: Bms)
    ensures r.bootOcv == b.bootOcv && r.vbatNow == b.vbatNow
    ensures r.lastOcv == OcvOf(ocvWord)
    ensures r.fakeOcv == if OcvOf(ocvWord) == b.lastOcv then b.fakeOcv else OcvOf(ocvWord)
  {
    var ocv := OcvOf(ocvWord);
    if ocv != b.lastOcv then b.(lastOcv := ocv, fakeOcv := ocv) else b
  }

  /** Resuming twice with the same reading is the same as resuming once:
      the second reading is no longer new. */
  lemma ResumeIdempotent(b: Bms, ocvWord: u32)
    ensures Resume(Resume(b, ocvWord), ocvWord) == Resume(b, ocvWord)
  {
  }
}
