/** The SMB1360 charger and fuel gauge (drivers/power/supply/smb1360.c):
    decoding of the IRQ and status registers into power-supply properties,
    scaling of the fuel gauge's shadow registers, and the mapping of
    device-tree configuration to charger register codes.

    Register contents are `bv8`.  A configuration step returns the register
    updates it issues, each a `regmap_update_bits(reg, mask, val)`; register
    I/O after a successful read is assumed to succeed. */
module Smb1360 {
  import opened Kernel

  // Charger registers and fields
  const CFG_BATT_CHG_REG: byte := 0x00
  const CHG_ITERM_MASK: bv8 := 0x07
  const RECHG_MV_MASK: bv8 := 0x60
  const CFG_CHG_MISC_REG: byte := 0x07
  const CHG_CURR_TERM_DIS_BIT: bv8 := 0x08
  const CFG_SFY_TIMER_CTRL_REG: byte := 0x0A
  const SAFETY_TIME_DISABLE_BIT: bv8 := 0x20
  const SAFETY_TIME_MINUTES_MASK: bv8 := 0x0C
  const BATT_CHG_FLT_VTG_REG: byte := 0x15
  const VFLOAT_MASK: bv8 := 0x7F
  const SHDN_CTRL_REG: byte := 0x1A
  const SHDN_CMD_USE_BIT: bv8 := 0x02
  const SHDN_CMD_POLARITY_BIT: bv8 := 0x04
  const CMD_IL_REG: byte := 0x41
  const SHDN_CMD_BIT: bv8 := 0x80

  // Status and IRQ status bits
  const CHG_HOLD_OFF_BIT: bv8 := 0x08
  const CHG_TYPE_MASK: bv8 := 0x06
  const IRQ_A_HOT_HARD_BIT: bv8 := 0x40
  const IRQ_A_COLD_HARD_BIT: bv8 := 0x10
  const IRQ_A_HOT_SOFT_BIT: bv8 := 0x04
  const IRQ_A_COLD_SOFT_BIT: bv8 := 0x01
  const IRQ_C_CHG_TERM_BIT: bv8 := 0x01
  const IRQ_E_USBIN_UV_BIT: bv8 := 0x01
  const IRQ_H_EMPTY_SOC_BIT: bv8 := 0x10

  // OTP addresses of the hard JEITA thresholds
  const OTP_HARD_COLD_REG_ADDR: byte := 0x12
  const OTP_HARD_HOT_REG_ADDR: byte := 0x13

  const MIN_FLOAT_MV: nat := 3460
  const MAX_FLOAT_MV: nat := 4730
  const VFLOAT_STEP_MV: nat := 10
  const MIN_RECHG_MV: nat := 50
  const MAX_RECHG_MV: nat := 300
  const S16_MAX: nat := 32767

  /** One `regmap_update_bits` call. */
  datatype Update = Update(reg: byte, mask: bv8, val: bv8)

  /** The register value after an update: bits under the mask come from
      the update, the others are kept. */
  function Apply(prev: bv8, u: Update): (r: bv8)
    ensures r & u.mask == u.val & u.mask
    ensures r & !u.mask == prev & !u.mask
  {
    (prev & !u.mask) | (u.val & u.mask)
  }

  // ---------------------------------------------------------------------
  // Power-supply properties

  datatype Status = Full | NotCharging | Discharging | Charging | UnknownStatus
  datatype ChargeKind = NoCharge | Trickle | Fast | UnknownKind
  datatype Health = Hot | Warm | Cold | Cool | Good

  /** The charge-type field, bits 2:1 of STATUS_3. */
  function ChgType(status3: bv8): (t: nat)
    ensures t < 4
    ensures t == 0 <==> status3 & CHG_TYPE_MASK == 0
  {
    ((status3 & CHG_TYPE_MASK) >> 1) as nat
  }

  /** `get_prop_batt_status`: the reported status and the return code
      (0 or a negated errno). */
  function BattStatus(irqC: bv8, status3: Result<bv8>): (r: (Status, int))
    requires status3.Err? ==> status3.errno > 0
    ensures r.0 == Full <==> irqC & IRQ_C_CHG_TERM_BIT != 0
    ensures r.1 != 0 <==> r.0 == UnknownStatus
    ensures r.0 == UnknownStatus <==> irqC & IRQ_C_CHG_TERM_BIT == 0 && status3.Err?
    ensures r.1 < 0 ==> r.1 == -status3.errno
    ensures r.0 == NotCharging <==>
      irqC & IRQ_C_CHG_TERM_BIT == 0 && status3.Ok? && status3.value & CHG_HOLD_OFF_BIT != 0
    // past the terminated, failed and held-off cases, the charge-type field
    // alone decides between discharging and charging
    ensures irqC & IRQ_C_CHG_TERM_BIT == 0 && status3.Ok? && status3.value & CHG_HOLD_OFF_BIT == 0 ==>
      r == (if status3.value & CHG_TYPE_MASK == 0 then Discharging else Charging, 0)
  {
    if irqC & IRQ_C_CHG_TERM_BIT != 0 then (Full, 0)
    else match status3
      case Err(e) => (UnknownStatus, -e)
      case Ok(reg) =>
        if reg & CHG_HOLD_OFF_BIT != 0 then (NotCharging, 0)
        else if ChgType(reg) == 0 then (Discharging, 0)
        else (Charging, 0)
  }

  /** `get_prop_charge_type`: not charging, pre-charge (trickle), or
      fast/taper charge. */
  function ChargeType(status3: Result<bv8>): (r: (ChargeKind, int))
    requires status3.Err? ==> status3.errno > 0
    ensures r.1 != 0 <==> status3.Err?
    ensures r.0 == UnknownKind <==> status3.Err?
    // a failed read returns that read's error code
    ensures status3.Err? ==> r.1 == -status3.errno
    ensures status3.Ok? ==> (r.0 == Fast <==> status3.value & 0x04 != 0)
    ensures status3.Ok? ==> (r.0 == Trickle <==> status3.value & 0x06 == 0x02)
  {
    match status3
    case Err(e) => (UnknownKind, -e)
    case Ok(reg) =>
      var t := ChgType(reg);
      if t == 0 then (NoCharge, 0)
      else if t == 2 || t == 3 then (Fast, 0)
      else if t == 1 then (Trickle, 0)
      else (NoCharge, 0)
  }

  /** Status and charge type read the same STATUS_3 register and agree:
      unless the charge cycle has terminated or is held off, the battery
      is discharging exactly when no charge type is reported. */
  lemma StatusAgreesWithChargeType(irqC: bv8, status3: bv8)
    requires irqC & IRQ_C_CHG_TERM_BIT == 0 && status3 & CHG_HOLD_OFF_BIT == 0
    ensures BattStatus(irqC, Ok(status3)).0 == Discharging <==> ChargeType(Ok(status3)).0 == NoCharge
    ensures BattStatus(irqC, Ok(status3)).0 == Charging <==> ChargeType(Ok(status3)).0 in {Trickle, Fast}
  {
  }

  /** `get_prop_batt_health`: the hard limits take precedence over the soft
      ones, and hot over cold. */
  function BattHealth(irqA: bv8): (h: Health)
    ensures h == Hot <==> irqA & IRQ_A_HOT_HARD_BIT != 0
    ensures h == Warm <==> irqA & IRQ_A_HOT_HARD_BIT == 0 && irqA & IRQ_A_HOT_SOFT_BIT != 0
    ensures h == Cold <==> irqA & (IRQ_A_HOT_HARD_BIT | IRQ_A_HOT_SOFT_BIT) == 0 && irqA & IRQ_A_COLD_HARD_BIT != 0
    ensures h == Good <==> irqA & 0x55 == 0
  {
    if irqA & IRQ_A_HOT_HARD_BIT != 0 then Hot
    else if irqA & IRQ_A_HOT_SOFT_BIT != 0 then Warm
    else if irqA & IRQ_A_COLD_HARD_BIT != 0 then Cold
    else if irqA & IRQ_A_COLD_SOFT_BIT != 0 then Cool
    else Good
  }

  /** The ONLINE property: USB input is present unless the under-voltage
      flag is set. */
  function Online(irqE: bv8): (b: bool)
    // the under-voltage flag is bit 0 of IRQ_E
    ensures b <==> (irqE as nat) % 2 == 0
  {
    irqE & IRQ_E_USBIN_UV_BIT == 0
  }

  const IRQ_E_USBIN_OV_BIT: bv8 := 0x04

  /** Only the under-voltage flag matters: an input flagged as over-voltage
      is still reported online, and setting the under-voltage flag takes it
      offline whatever else is set. */
  lemma OnlineOnlyUnderVoltage(irqE: bv8)
    ensures Online(irqE | IRQ_E_USBIN_OV_BIT) == Online(irqE)
    ensures !Online(irqE | IRQ_E_USBIN_UV_BIT)
    ensures Online(irqE & !IRQ_E_USBIN_UV_BIT)
  {
  }

  /** `smb1360_read_voltage`: a little-endian 16-bit reading scaled so that
      0x7FFF is 5000 mV, truncated. */
  function VoltageNow(raw: u16): (mv: nat)
    ensures mv * S16_MAX <= raw * 5000 < (mv + 1) * S16_MAX
    ensures mv <= 10000
  {
    raw * 5000 / S16_MAX
  }

  /** The 16-bit register read as `s16`. */
  function AsS16(raw: u16): (s: s16)
    ensures (s - raw) % 0x1_0000 == 0
  {
    if raw < 0x8000 then raw else raw - 0x1_0000
  }

  /** `get_prop_current_now`: a signed reading where 0x7FFF is 2500 mA,
      truncated toward zero to whole mA, reported in uA with the opposite
      sign (the gauge counts discharge as positive). */
  function CurrentNow(raw: u16): (ua: int)
    ensures ua % 1000 == 0
    ensures AsS16(raw) > 0 ==> ua <= 0
    ensures AsS16(raw) < 0 ==> ua >= 0
    ensures var ma := Abs(ua) / 1000;
      ma * S16_MAX <= Abs(AsS16(raw)) * 2500 < (ma + 1) * S16_MAX
  {
    -(CDiv(AsS16(raw) * 2500, S16_MAX) * 1000)
  }

  /** `get_prop_chg_full_design`: the 16-bit capacity in mAh, reported in
      uAh. */
  function ChargeFullDesign(raw: u16): (uah: nat)
    ensures uah % 1000 == 0 && uah / 1000 == raw
  {
    raw * 1000
  }

  /** `get_prop_batt_capacity`: 0 when the empty-SoC flag is raised,
      otherwise the 8-bit SoC rescaled to percent, rounded to the nearest. */
  function Capacity(irqH: bv8, soc: Result<bv8>): (r: Result<int>)
    ensures irqH & IRQ_H_EMPTY_SOC_BIT != 0 ==> r == Ok(0)
    ensures irqH & IRQ_H_EMPTY_SOC_BIT == 0 ==> (r.Err? <==> soc.Err?)
    ensures r.Err? ==> r == Err(soc.errno)
    ensures r.Ok? ==> 0 <= r.value <= 100
    ensures r.Ok? && irqH & IRQ_H_EMPTY_SOC_BIT == 0 ==>
      var reg := soc.value as int;
      2 * Abs(255 * r.value - 100 * reg) <= 255
  {
    if irqH & IRQ_H_EMPTY_SOC_BIT != 0 then Ok(0)
    else match soc
      case Err(e) => Err(e)
      case Ok(reg) =>
        CapacityClampInactive(reg as nat);
        Ok(Clamp(DivRoundClosest(reg as nat * 100, 255), 0, 100))
  }

  /** The clamp to [0, 100] never changes a rounded 8-bit SoC. */
  lemma CapacityClampInactive(reg: nat)
    requires reg < 256
    ensures DivRoundClosest(reg * 100, 255) <= 100
    ensures Clamp(DivRoundClosest(reg * 100, 255), 0, 100) == DivRoundClosest(reg * 100, 255)
  {
  }

  /** `get_prop_batt_temp`: the gauge reports 1/16 K; the property is in
      tenths of a degree Celsius, whole degrees only. */
  function BattTemp(raw: u16): (r: int)
    ensures r % 10 == 0
    ensures var kelvin := r / 10 + 273;
      16 * kelvin <= raw < 16 * (kelvin + 1)
  {
    var kelvin := raw * 625 / 10000;
    SixteenthsScale(raw);
    (kelvin - 273) * 10
  }

  /** Scaling by 625/10000 is dividing by 16. */
  lemma SixteenthsScale(raw: nat)
    ensures raw * 625 / 10000 == raw / 16
  {
    var q := raw / 16;
    var rm := raw % 16;
    assert raw * 625 == 10000 * q + 625 * rm;
  }

  // ---------------------------------------------------------------------
  // Configuration

  /** The float-voltage register code read back in mV. */
  function FloatMv(reg: bv8): (mv: nat)
    ensures MIN_FLOAT_MV <= mv <= MIN_FLOAT_MV + 127 * VFLOAT_STEP_MV
    ensures (mv - MIN_FLOAT_MV) % VFLOAT_STEP_MV == 0
  {
    (reg & VFLOAT_MASK) as nat * VFLOAT_STEP_MV + MIN_FLOAT_MV
  }

  /** `float_voltage_set`: with no configured value the current register is
      read back; a configured value must lie in [3460, 4730] mV and is
      written as 10 mV steps above 3460.  The result is the float voltage
      the driver records, and the update it issues. */
  function FloatVoltageSet(prop: Option<u32>, reg: Result<bv8>): (r: Result<(nat, Option<Update>)>)
    ensures prop.None? ==> (r.Ok? <==> reg.Ok?)
    ensures prop.None? && r.Ok? ==> r.value == (FloatMv(reg.value), None)
    ensures prop.Some? ==>
      (r.Ok? <==> MIN_FLOAT_MV <= prop.value <= MAX_FLOAT_MV)
    ensures prop.Some? && r.Err? ==> r.errno == EINVAL
    ensures prop.Some? && r.Ok? ==>
      r.value.0 == prop.value && r.value.1.Some? &&
      r.value.1.value.reg == BATT_CHG_FLT_VTG_REG && r.value.1.value.mask == VFLOAT_MASK
  {
    match prop
    case None =>
      (match reg
       case Err(e) => Err(e)
       case Ok(v) => Ok((FloatMv(v), None)))
    case Some(mv) =>
      if mv < MIN_FLOAT_MV || mv > MAX_FLOAT_MV then Err(EINVAL)
      else
        var code := (mv - MIN_FLOAT_MV) / VFLOAT_STEP_MV;
        Ok((mv, Some(Update(BATT_CHG_FLT_VTG_REG, VFLOAT_MASK, code as bv8))))
  }

  /** Writing a configured float voltage and reading the register back
      gives the configured value rounded down to a 10 mV step, whatever the
      register held before. */
  lemma FloatVoltageReadBack(mv: u32, prev: bv8)
    requires MIN_FLOAT_MV <= mv <= MAX_FLOAT_MV
    ensures var w := FloatVoltageSet(Some(mv), Ok(prev));
      w.Ok? &&
      FloatMv(Apply(prev, w.value.1.value)) == mv - (mv - MIN_FLOAT_MV) % VFLOAT_STEP_MV
  {
    var code := (mv - MIN_FLOAT_MV) / VFLOAT_STEP_MV;
    var a := Apply(prev, Update(BATT_CHG_FLT_VTG_REG, VFLOAT_MASK, code as bv8));
    FloatCodeByte(code);
    assert a & VFLOAT_MASK == code as bv8;
    assert FloatMv(a) == code * VFLOAT_STEP_MV + MIN_FLOAT_MV;
  }

  /** A float-voltage code fits the register field unchanged. */
  lemma FloatCodeByte(code: nat)
    requires code < 128
    ensures (code as bv8) & VFLOAT_MASK == code as bv8
    ensures (code as bv8) as nat == code
  {
    var b := code as bv8;
    assert b as nat == code;
    assert b < 128;
    FieldFits(b);
  }

  lemma FieldFits(b: bv8)
    requires b < 128
    ensures b & VFLOAT_MASK == b
  {
  }

  /** The termination-current code: the configured mA, halved for a
      10 mOhm sense resistor (C division), clamped to [25, 200], then
      `DIV_ROUND_UP(v, 25) - 1`.  The code selects the smallest 25 mA step
      that reaches the clamped current. */
  function ItermCode(ma: s32, rsense10: bool): (c: nat)
    ensures c < 8
    ensures var v := Clamp(if rsense10 then CDiv(ma, 2) else ma, 25, 200);
      25 * c < v <= 25 * (c + 1)
  {
    var ma' := if rsense10 then CDiv(ma, 2) else ma;
    var v := Clamp(ma', 25, 200);
    DivRoundUp(v, 25) - 1
  }

  /** `iterm_set`: either disable current termination, or program the
      termination code and enable it. */
  function ItermSet(disabled: bool, prop: Option<s32>, rsense10: bool): (r: seq<Update>)
    ensures disabled ==> r == [Update(CFG_CHG_MISC_REG, CHG_CURR_TERM_DIS_BIT, CHG_CURR_TERM_DIS_BIT)]
    ensures !disabled && prop.None? ==> r == []
    ensures !disabled && prop.Some? ==>
      |r| == 2 && r[0].reg == CFG_BATT_CHG_REG && r[0].mask == CHG_ITERM_MASK &&
      r[0].val as int == ItermCode(prop.value, rsense10) &&
      r[1] == Update(CFG_CHG_MISC_REG, CHG_CURR_TERM_DIS_BIT, 0)
  {
    if disabled then [Update(CFG_CHG_MISC_REG, CHG_CURR_TERM_DIS_BIT, CHG_CURR_TERM_DIS_BIT)]
    else match prop
      case None => []
      case Some(ma) =>
        [Update(CFG_BATT_CHG_REG, CHG_ITERM_MASK, ItermCode(ma, rsense10) as bv8),
         Update(CFG_CHG_MISC_REG, CHG_CURR_TERM_DIS_BIT, 0)]
  }

  /** The safety-timer table in minutes. */
  function ChgTime(i: nat): (m: nat)
    requires i < 4
    ensures m == 192 * Pow2(i)
  {
    [192, 384, 768, 1536][i]
  }

  /** `safety_time_set`: 0 disables the timer; otherwise the timer is
      enabled with the shortest table entry that is at least the requested
      time; a request above the longest entry is rejected. */
  method SafetyTimeSet(prop: Option<u32>) returns (r: Result<Option<Update>>)
    ensures prop.None? ==> r == Ok(None)
    ensures prop.Some? && prop.value > 1536 ==> r == Err(EINVAL)
    ensures prop == Some(0) ==>
      r == Ok(Some(Update(CFG_SFY_TIMER_CTRL_REG, SAFETY_TIME_DISABLE_BIT, SAFETY_TIME_DISABLE_BIT)))
    ensures prop.Some? && 0 < prop.value <= 1536 ==>
      r.Ok? && r.value.Some? &&
      var u := r.value.value;
      u.reg == CFG_SFY_TIMER_CTRL_REG &&
      u.mask == SAFETY_TIME_DISABLE_BIT | SAFETY_TIME_MINUTES_MASK &&
      u.val & !SAFETY_TIME_MINUTES_MASK == 0 &&
      var i := (u.val >> 2) as nat;
      i < 4 && prop.value <= ChgTime(i) && (i == 0 || ChgTime(i - 1) < prop.value)
  {
    if prop.None? {
      return Ok(None);
    }
    var val := prop.value;
    if val > 1536 {
      return Err(EINVAL);
    }
    var mask := SAFETY_TIME_DISABLE_BIT;
    var data := SAFETY_TIME_DISABLE_BIT;
    if val != 0 {
      mask := SAFETY_TIME_DISABLE_BIT | SAFETY_TIME_MINUTES_MASK;
      // the first entry at least as long as requested; the last, 1536,
      // always qualifies after the bound check above
      var i := 0;
      while val > ChgTime(i)
        invariant 0 <= i < 4
        invariant forall j :: 0 <= j < i ==> ChgTime(j) < val
        decreases 4 - i
      {
        i := i + 1;
      }
      data := (i as bv8) << 2;
      assert (data >> 2) as nat == i;
      assert i > 0 ==> ChgTime(i - 1) < val;
    }
    return Ok(Some(Update(CFG_SFY_TIMER_CTRL_REG, mask, data)));
  }

  /** `recharge_threshold_set`: a threshold in [50, 300] mV is written as
      whole 100 mV steps in bits 6:5; it may not be set when both
      recharge and charge inhibit are disabled. */
  function RechargeThresholdSet(prop: Option<u32>, rechgDisabled: bool, inhibitDisabled: bool): (r: Result<Option<Update>>)
    ensures prop.None? ==> r == Ok(None)
    ensures prop.Some? ==>
      (r.Ok? <==> !(rechgDisabled && inhibitDisabled) && MIN_RECHG_MV <= prop.value <= MAX_RECHG_MV)
    ensures r.Err? ==> r.errno == EINVAL
    ensures prop.Some? && r.Ok? ==>
      r.value.Some? &&
      var u := r.value.value;
      u.reg == CFG_BATT_CHG_REG && u.mask == RECHG_MV_MASK && u.val & !RECHG_MV_MASK == 0 &&
      var step := (u.val >> 5) as nat;
      100 * step <= prop.value < 100 * (step + 1)
  {
    match prop
    case None => Ok(None)
    case Some(mv) =>
      if rechgDisabled && inhibitDisabled then Err(EINVAL)
      else if mv < MIN_RECHG_MV || mv > MAX_RECHG_MV then Err(EINVAL)
      else
        var step := mv / 100;
        assert step < 4;
        var v := (step as bv8) << 5;
        assert (v >> 5) as nat == step;
        Ok(Some(Update(CFG_BATT_CHG_REG, RECHG_MV_MASK, v)))
  }

  /** `TEMP_THRE_SET(x)`: a threshold in tenths of a degree Celsius as a
      count of whole degrees above -30 C, with C's (wrapping) `int`
      addition and truncating division. */
  function TempThreSet(x: s32): (t: int)
    ensures -300 <= x <= 0x7FFF_FFFF - 300 ==> 10 * t <= x + 300 < 10 * (t + 1)
    // below -30 C the quotient is truncated toward zero, so rounded up
    ensures x < -300 ==> 10 * (t - 1) < x + 300 <= 10 * t
    // near the top of the range the addition wraps to a negative sum
    ensures x > 0x7FFF_FFFF - 300 ==>
              10 * (t - 1) < x + 300 - 0x1_0000_0000 <= 10 * t
  {
    CDiv(S32(x + 300), 10)
  }

  /** `update_temp_tresh`: a configured threshold is written to the given
      8-bit register, truncated to its width. */
  function UpdateTempThresh(reg: byte, prop: Option<s32>): (w: Option<(byte, byte)>)
    ensures w.None? <==> prop.None?
    ensures w.Some? ==> w.value.0 == reg && (w.value.1 - TempThreSet(prop.value)) % 0x100 == 0
  {
    match prop
    case None => None
    case Some(x) => Some((reg, U8(TempThreSet(x))))
  }

  /** `find_fastchg_current`: the index of the largest fast-charge current
      in the 450..1500 mA table (150 mA steps) not above the request. */
  method FindFastchgCurrent(ma: int) returns (r: Result<nat>)
    ensures r.Err? <==> ma < 450
    ensures r.Err? ==> r.errno == EINVAL
    ensures r.Ok? ==> (r.value < 8 && FastchgMa(r.value) <= ma &&
      (r.value == 7 || ma < FastchgMa(r.value + 1)))
  {
    var i := 7;
    while i >= 0
      invariant -1 <= i <= 7
      invariant forall j :: i < j < 8 ==> ma < FastchgMa(j)
    {
      if FastchgMa(i) <= ma {
        return Ok(i);
      }
      i := i - 1;
    }
    assert ma < FastchgMa(0);
    return Err(EINVAL);
  }

  function FastchgMa(i: nat): (m: nat)
    requires i < 8
    ensures m == 450 + 150 * i
  {
    [450, 600, 750, 900, 1050, 1200, 1350, 1500][i]
  }

  /** `set_shutdown`: when the SHDN command is in use, the command bit is
      written set exactly when the configured polarity equals the requested
      state. */
  function SetShutdown(ctrl: Result<bv8>, shutdown: bool): (r: Result<Option<Update>>)
    ensures r.Err? <==> ctrl.Err?
    ensures r.Err? ==> r.errno == ctrl.errno
    ensures ctrl.Ok? && ctrl.value & SHDN_CMD_USE_BIT == 0 ==> r == Ok(None)
    ensures ctrl.Ok? && ctrl.value & SHDN_CMD_USE_BIT != 0 ==>
      r.Ok? && r.value.Some? && r.value.value.reg == CMD_IL_REG &&
      r.value.value.mask == SHDN_CMD_BIT &&
      (r.value.value.val == SHDN_CMD_BIT <==> (ctrl.value & SHDN_CMD_POLARITY_BIT != 0) == shutdown)
  {
    match ctrl
    case Err(e) => Err(e)
    case Ok(v) =>
      if v & SHDN_CMD_USE_BIT == 0 then Ok(None)
      else
        var polarity := v & SHDN_CMD_POLARITY_BIT != 0;
        Ok(Some(Update(CMD_IL_REG, SHDN_CMD_BIT, if polarity == shutdown then SHDN_CMD_BIT else 0)))
  }

  /** Power-off and power-on drive the shutdown command bit to opposite
      values, whatever the polarity, so one undoes the other. */
  lemma PowerOffOnOpposite(ctrl: bv8, il: bv8)
    requires ctrl & SHDN_CMD_USE_BIT != 0
    ensures var off := SetShutdown(Ok(ctrl), true).value.value;
      var on := SetShutdown(Ok(ctrl), false).value.value;
      Apply(il, off) & SHDN_CMD_BIT != Apply(il, on) & SHDN_CMD_BIT &&
      Apply(Apply(il, off), on) == Apply(il, on)
  {
  }

  // ---------------------------------------------------------------------
  // Hard JEITA thresholds (`set_otp_hard_jeita_threshold`)

  /** The four bytes written to OTP: hot address, hot threshold, cold
      address, cold threshold, as the C code computes them: each threshold
      is stored into a `u8`, so the later `< 0` test can never fire and an
      out-of-range threshold is written truncated. */
  function HardJeitaAsWritten(hot: Option<s32>, cold: Option<s32>): (r: Result<seq<byte>>)
    ensures r.Err? <==> hot.None? || cold.None?
    ensures r.Err? ==> r.errno == EINVAL
    ensures r.Ok? ==> (|r.value| == 4 && r.value[0] == OTP_HARD_HOT_REG_ADDR &&
      r.value[2] == OTP_HARD_COLD_REG_ADDR &&
      // each threshold is the macro's value narrowed to a byte
      r.value[1] == U8(TempThreSet(hot.value)) && r.value[3] == U8(TempThreSet(cold.value)))
  {
    if hot.None? || cold.None? then Err(EINVAL)
    else
      var val := [OTP_HARD_HOT_REG_ADDR, U8(TempThreSet(hot.value)),
                  OTP_HARD_COLD_REG_ADDR, U8(TempThreSet(cold.value))];
      if val[1] < 0 || val[3] < 0 then Err(EINVAL) else Ok(val)
  }

  /** A hot limit of -40.0 C passes the check and is programmed as byte
      246, which the hardware reads as a limit of 216 C. */
  lemma HardJeitaNegativeAccepted()
    ensures TempThreSet(-400) == -10
    ensures HardJeitaAsWritten(Some(-400), Some(0)) == Ok([OTP_HARD_HOT_REG_ADDR, 246, OTP_HARD_COLD_REG_ADDR, 30])
  {
  }

  /** The evidently intended check: reject a threshold below -30 C before
      it is narrowed to a byte. */
  function HardJeita(hot: Option<s32>, cold: Option<s32>): (r: Result<seq<byte>>)
    ensures r.Ok? <==> hot.Some? && cold.Some? && TempThreSet(hot.value) >= 0 && TempThreSet(cold.value) >= 0
    ensures r.Err? ==> r.errno == EINVAL
    ensures r.Ok? ==> (|r.value| == 4 &&
      r.value[0] == OTP_HARD_HOT_REG_ADDR && r.value[2] == OTP_HARD_COLD_REG_ADDR &&
      r.value[1] == TempThreSet(hot.value) % 0x100 && r.value[3] == TempThreSet(cold.value) % 0x100)
  {
    if hot.None? || cold.None? then Err(EINVAL)
    else
      var h := TempThreSet(hot.value);
      var c := TempThreSet(cold.value);
      if h < 0 || c < 0 then Err(EINVAL)
      else Ok([OTP_HARD_HOT_REG_ADDR, U8(h), OTP_HARD_COLD_REG_ADDR, U8(c)])
  }

  /** A threshold in the chip's range, -30.0 C up to 225.9 C, is accepted
      and programmed exactly (no truncation). */
  lemma HardJeitaInRange(hot: s32, cold: s32)
    requires -300 <= hot <= 2259 && -300 <= cold <= 2259
    ensures var r := HardJeita(Some(hot), Some(cold));
      r.Ok? && r.value[1] == TempThreSet(hot) && r.value[3] == TempThreSet(cold) &&
      10 * (r.value[1] as int) - 300 <= hot < 10 * (r.value[1] as int) - 290
  {
  }
}
