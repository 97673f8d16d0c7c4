/** The PM8916 linear battery charger (drivers/power/supply/pm8916_lbc.c):
    the safe and maximum charge voltage and current taken from the device
    tree and the battery description, clamped to what the charger supports
    and programmed as register codes. */
module Lbc {
  import opened Kernel
  import opened Bits

  const MIN_CURRENT: nat := 90000
  const MAX_CURRENT: nat := 1440000
  const MIN_VOLTAGE: nat := 4000000
  const MAX_VOLTAGE: nat := 4775000
  const VOLTAGE_STEP: nat := 25000

  // Register offsets within the charger peripheral
  const VDD_MAX: nat := 0x40
  const VDD_SAFE: nat := 0x41
  const IBAT_MAX: nat := 0x44
  const IBAT_SAFE: nat := 0x45
  const CHG_CTRL: nat := 0x49
  const TCHG_MAX_EN: nat := 0x60
  const CHG_EN_PSTG_EN: nat := 0xA0

  // Peripheral type/subtype words and the PMIC-charger option
  const CHGR_TYPE: int := 0x1502
  const BAT_IF_TYPE: int := 0x1602
  const USB_TYPE: int := 0x1702
  const MISC_TYPE: int := 0x1802
  const PMIC_CHARGER: int := 0x80
  const USBIN_VALID_BIT: nat := 2

  /** The charger's limits (`unsigned int`, uV and uA). */
  datatype Limits = Limits(voltageMax: u32, voltageSafe: u32, currentMax: u32, currentSafe: u32)

  /** One `regmap_write` to a charger register. */
  datatype Write = Write(reg: nat, val: nat)

  /** The limits as `probe_dt` leaves them. */
  predicate Configured(c: Limits) {
    MIN_VOLTAGE <= c.voltageSafe <= MAX_VOLTAGE &&
    MIN_CURRENT <= c.currentSafe <= MAX_CURRENT &&
    c.currentMax <= c.currentSafe
  }

  /** The code of a charge voltage: 25 mV steps above 4.0 V. */
  function VoltageCode(uv: nat): (code: nat)
    requires MIN_VOLTAGE <= uv <= MAX_VOLTAGE
    ensures code <= 31
    ensures MIN_VOLTAGE + VOLTAGE_STEP * code <= uv < MIN_VOLTAGE + VOLTAGE_STEP * (code + 1)
  {
    (uv - MIN_VOLTAGE) / VOLTAGE_STEP
  }

  /** The code of a charge current: 90 mA steps, starting at 90 mA. */
  function CurrentCode(ua: nat): (code: nat)
    requires MIN_CURRENT <= ua <= MAX_CURRENT
    ensures code <= 15
    ensures MIN_CURRENT * (code + 1) <= ua < MIN_CURRENT * (code + 2)
  {
    ua / MIN_CURRENT - 1
  }

  /** `probe_dt`: a missing property reads as 0.  The safe voltage must be
      at least 4.0 V and is capped at 4.775 V; the safe current is clamped
      to [90 mA, 1.44 A]; the maxima start at the safe values. */
  function ProbeDt(vddSafe: Option<u32>, ibatSafe: Option<u32>): (r: Result<(Limits, seq<Write>)>)
    ensures var v := if vddSafe.Some? then vddSafe.value else 0;
      (r.Err? <==> v < MIN_VOLTAGE) && (r.Err? ==> r.errno == EINVAL) &&
      (r.Ok? ==> r.value.0.voltageSafe == Min(v, MAX_VOLTAGE))
    ensures r.Ok? ==>
      var c := r.value.0;
      var i := if ibatSafe.Some? then ibatSafe.value else 0;
      Configured(c) && c.voltageMax == c.voltageSafe && c.currentMax == c.currentSafe &&
      c.currentSafe == Clamp(i, MIN_CURRENT, MAX_CURRENT) &&
      r.value.1 == [Write(VDD_SAFE, VoltageCode(c.voltageSafe)),
                    Write(IBAT_SAFE, CurrentCode(c.currentSafe)),
                    Write(TCHG_MAX_EN, 0)]
  {
    var v := if vddSafe.Some? then vddSafe.value else 0;
    if v < MIN_VOLTAGE then Err(EINVAL)
    else
      var vsafe := Max(MIN_VOLTAGE, Min(MAX_VOLTAGE, v));
      var i := if ibatSafe.Some? then ibatSafe.value else 0;
      var isafe := Max(MIN_CURRENT, Min(i, MAX_CURRENT));
      Ok((Limits(vsafe, vsafe, isafe, isafe),
          [Write(VDD_SAFE, VoltageCode(vsafe)), Write(IBAT_SAFE, CurrentCode(isafe)), Write(TCHG_MAX_EN, 0)]))
  }

  /** `charger_enable`: the maximum voltage (the battery's design maximum,
      an `int` stored unsigned) is raised to 4.0 V and capped at the safe
      voltage; the maximum current is capped at the safe current.  The
      IBAT_MAX code is computed from the safe current: the clamped value
      computed just before it is overwritten. */
  function ChargerEnable(c: Limits, designMax: s32): (r: (Limits, seq<Write>))
    requires Configured(c)
    ensures MIN_VOLTAGE <= r.0.voltageMax <= c.voltageSafe
    ensures MIN_VOLTAGE <= designMax <= c.voltageSafe ==> r.0.voltageMax == designMax
    // the ends of the clamp, taken on the unsigned reading of the design value
    ensures U32(designMax) < MIN_VOLTAGE ==> r.0.voltageMax == MIN_VOLTAGE
    ensures U32(designMax) > c.voltageSafe ==> r.0.voltageMax == c.voltageSafe
    // a negative design maximum reads as a huge unsigned value and is capped
    ensures designMax < 0 ==> r.0.voltageMax == c.voltageSafe
    ensures r.0.voltageSafe == c.voltageSafe && r.0.currentSafe == c.currentSafe
    ensures r.0.currentMax == Min(c.currentMax, c.currentSafe)
    ensures Configured(r.0)
    ensures r.1 == [Write(VDD_MAX, VoltageCode(r.0.voltageMax)),
                    Write(IBAT_MAX, CurrentCode(c.currentSafe)),
                    Write(CHG_CTRL, CHG_EN_PSTG_EN)]
  {
    var vmax := Min(Max(U32(designMax), MIN_VOLTAGE), c.voltageSafe);
    var imax := Min(c.currentMax, c.currentSafe);
    var code := c.currentSafe / MIN_CURRENT - 1;
    (c.(voltageMax := vmax, currentMax := imax),
     [Write(VDD_MAX, VoltageCode(vmax)), Write(IBAT_MAX, code), Write(CHG_CTRL, CHG_EN_PSTG_EN)])
  }

  /** Probe: each of the four peripherals must report its exact type and
      subtype and the charger must be the PMIC's own; a failed read is
      returned as it is.  Then the device-tree limits are applied, the
      battery description is fetched (`battery` is its design maximum or
      the errno of `power_supply_get_battery_info`), the USB status is read
      for extcon, and charging is enabled with the design maximum. */
  function Probe(types: seq<Result<int>>, chgOption: Result<int>, vddSafe: Option<u32>,
                 ibatSafe: Option<u32>, battery: Result<s32>, rtSts: Result<u32>)
    : (r: Result<(Limits, seq<Write>)>)
    requires |types| == 4
    // the first peripheral that fails to read or mismatches decides
    ensures forall m: nat :: FirstBadFrom(types, PeripheralTypes(), 0, m) ==> r == BadRead(types[m])
    ensures TypesMatch(types) && chgOption.Err? ==> r == Err(chgOption.errno)
    ensures TypesMatch(types) && chgOption.Ok? && chgOption.value != PMIC_CHARGER ==>
              r == Err(ENODEV)
    ensures TypesMatch(types) && chgOption == Ok(PMIC_CHARGER) ==>
              var dt := ProbeDt(vddSafe, ibatSafe);
              && (dt.Err? ==> r == Err(dt.errno))
              && (dt.Ok? && battery.Err? ==> r == Err(battery.errno))
              && (dt.Ok? && battery.Ok? && rtSts.Err? ==> r == Err(rtSts.errno))
              && (dt.Ok? && battery.Ok? && rtSts.Ok? ==>
                    var en := ChargerEnable(dt.value.0, battery.value);
                    r == Ok((en.0, dt.value.1 + en.1)))
    ensures r.Ok? ==> TypesMatch(types) && chgOption == Ok(PMIC_CHARGER)
    ensures r.Ok? ==> Configured(r.value.0) && MIN_VOLTAGE <= r.value.0.voltageMax <= r.value.0.voltageSafe
  {
    var c := CheckTypes(types, PeripheralTypes(), 0);
    if c.Err? then Err(c.errno)
    else if chgOption.Err? then Err(chgOption.errno)
    else if chgOption.value != PMIC_CHARGER then Err(ENODEV)
    else match ProbeDt(vddSafe, ibatSafe)
      case Err(e) => Err(e)
      case Ok((limits, dtWrites)) =>
        if battery.Err? then Err(battery.errno)
        else if rtSts.Err? then Err(rtSts.errno)
        else
          var (enabled, enWrites) := ChargerEnable(limits, battery.value);
          Ok((enabled, dtWrites + enWrites))
  }

  /** The type/subtype words of the charger, battery interface, USB and
      miscellaneous peripherals, in the order probe reads them. */
  function PeripheralTypes(): seq<int> {
    [CHGR_TYPE, BAT_IF_TYPE, USB_TYPE, MISC_TYPE]
  }

  /** Every peripheral read succeeded and reported its type. */
  predicate TypesMatch(types: seq<Result<int>>) {
    types == [Ok(CHGR_TYPE), Ok(BAT_IF_TYPE), Ok(USB_TYPE), Ok(MISC_TYPE)]
  }

  /** What probe returns for a bad peripheral read: the read's error, or
      ENODEV for a wrong type. */
  function BadRead(t: Result<int>): Result<(Limits, seq<Write>)> {
    if t.Err? then Err(t.errno) else Err(ENODEV)
  }

  /** Peripheral m is the first from the k-th on whose read fails or
      reports the wrong type. */
  predicate FirstBadFrom(types: seq<Result<int>>, expected: seq<int>, k: nat, m: nat)
    requires |types| == |expected|
  {
    k <= m < |types| && types[m] != Ok(expected[m]) &&
    forall j :: k <= j < m ==> types[j] == Ok(expected[j])
  }

  /** The peripheral type checks from the k-th on, in order: the first
      failed read or mismatch decides. */
  function CheckTypes(types: seq<Result<int>>, expected: seq<int>, k: nat): (r: Result<()>)
    requires |types| == |expected| && k <= |types|
    ensures r.Ok? <==> forall j :: k <= j < |types| ==> types[j] == Ok(expected[j])
    ensures forall m: nat :: FirstBadFrom(types, expected, k, m) ==>
              r == if types[m].Err? then Err(types[m].errno) else Err(ENODEV)
    decreases |types| - k
  {
    if k == |types| then Ok(())
    else match types[k]
      case Err(e) => Err(e)
      case Ok(t) =>
        if t != expected[k] then Err(ENODEV)
        else
          BadAfter(types, expected, k);
          CheckTypes(types, expected, k + 1)
  }

  /** When the k-th peripheral matches, a first bad read from k on is one
      from k + 1 on. */
  lemma BadAfter(types: seq<Result<int>>, expected: seq<int>, k: nat)
    requires |types| == |expected| && k < |types| && types[k] == Ok(expected[k])
    ensures forall m: nat :: FirstBadFrom(types, expected, k, m) ==> FirstBadFrom(types, expected, k + 1, m)
  {
  }

  /** After probe the IBAT_MAX register holds the same code as IBAT_SAFE:
      the maximum current starts at the safe current, so the overwritten
      clamp would not have changed the code either. */
  lemma ProbeCurrentCodesAgree(vddSafe: Option<u32>, ibatSafe: Option<u32>, designMax: s32)
    requires ProbeDt(vddSafe, ibatSafe).Ok?
    ensures var (limits, dtWrites) := ProbeDt(vddSafe, ibatSafe).value;
      var (enabled, enWrites) := ChargerEnable(limits, designMax);
      dtWrites[1].val == enWrites[1].val &&
      enWrites[1].val == CurrentCode(Max(MIN_CURRENT, Min(enabled.currentMax, MAX_CURRENT)))
  {
  }

  /** The ONLINE property: USB input is valid (bit 1 of the USB
      peripheral's real-time status). */
  function Online(rtSts: Result<u32>): (r: Result<bool>)
    ensures r.Err? <==> rtSts.Err?
    ensures r.Err? ==> r.errno == rtSts.errno
    ensures r.Ok? ==> (r.value <==> Bit(rtSts.value, 1))
  {
    match rtSts
    case Err(e) => Err(e)
    case Ok(t) => Ok((t / USBIN_VALID_BIT) % 2 == 1)
  }

  /** Only the USBIN_VALID bit matters: clearing it reads offline, and
      clearing any other bit of the status changes nothing. */
  lemma OnlineOnlyValidBit(t: u32, j: nat)
    ensures ClearBit(t, j) <= t && ClearBit(t, 1) <= t
    ensures Online(Ok(ClearBit(t, 1))) == Ok(false)
    ensures j != 1 ==> Online(Ok(ClearBit(t, j))) == Online(Ok(t))
  {
    ClearBitBound(t, j);
    ClearBitBound(t, 1);
    ClearBitBits(t, 1, 1);
    ClearBitBits(t, j, 1);
  }
}
