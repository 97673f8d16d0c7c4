/** The MSM8916 QDSP6 sound card (sound/soc/qcom/msm8916-qdsp6.c): the
    mapping from back-end DAI ids to the four MI2S ports, the iomux bits
    each port's DAI initialisation sets, the one-time headset jack, the
    per-port reference counts that gate the MI2S bit clock, and the fixed
    back-end stream format. */
module Qdsp6 {
  import opened Kernel

  /** DAI ids from the q6afe device-tree bindings: the receive and transmit
      DAIs of the four MI2S ports are numbered consecutively. */
  const PRIMARY_MI2S_RX: int := 16
  const QUATERNARY_MI2S_TX: int := 23

  /** MI2S port indices. */
  const MI2S_PRIMARY: nat := 0
  const MI2S_SECONDARY: nat := 1
  const MI2S_TERTIARY: nat := 2
  const MI2S_QUATERNARY: nat := 3
  const MI2S_COUNT: nat := 4

  const MIC_CTRL_TER_WS_SLAVE_SEL: bv32 := 0x0020_0000
  const MIC_CTRL_QUA_WS_SLAVE_SEL_10: bv32 := 0x0002_0000
  const MIC_CTRL_TLMM_SCLK_EN: bv32 := 0x0000_0002
  const SPKR_CTL_PRI_WS_SLAVE_SEL_11: bv32 := 0x0003_0000
  const MI2S_BCLK_RATE: nat := 1536000

  /** `msm8916_qdsp6_get_mi2s_id`: ids outside the MI2S range are refused;
      otherwise the port is the pair the id belongs to. */
  function Mi2sId(id: int): (r: Result<nat>)
    ensures r.Err? <==> id < PRIMARY_MI2S_RX || id > QUATERNARY_MI2S_TX
    ensures r.Err? ==> r.errno == EINVAL
    ensures r.Ok? ==> r.value < MI2S_COUNT
  {
    if id < PRIMARY_MI2S_RX || id > QUATERNARY_MI2S_TX then Err(EINVAL)
    else Ok((id - PRIMARY_MI2S_RX) / 2)
  }

  /** The receive and transmit DAI ids of a port. */
  function PortDais(port: nat): (ids: set<int>)
    requires port < MI2S_COUNT
  {
    {PRIMARY_MI2S_RX + 2 * port, PRIMARY_MI2S_RX + 2 * port + 1}
  }

  /** An id maps to a port exactly when it is one of that port's two DAIs. */
  lemma Mi2sIdPorts(id: int, port: nat)
    requires port < MI2S_COUNT
    ensures Mi2sId(id) == Ok(port) <==> id in PortDais(port)
  {
  }

  /** The card's state: the two iomux registers, whether the jack exists,
      and per port the clock reference count (`unsigned int`) and the bit
      clock rate last programmed (0 when off). */
  datatype Card = Card(spkrIomux: bv32, micIomux: bv32, jackSetup: bool,
                       clkCount: seq<u32>, bclk: seq<nat>)

  predicate WellFormed(c: Card) {
    |c.clkCount| == MI2S_COUNT && |c.bclk| == MI2S_COUNT
  }

  /** The iomux selection in `dai_init`: the primary port sets the speaker
      word-select bits, tertiary and quaternary their microphone
      word-select bit and the TLMM bit-clock enable; the secondary port is
      not supported. */
  function Iomux(port: nat, spkr: bv32, mic: bv32): (r: Result<(bv32, bv32)>)
    requires port < MI2S_COUNT
    ensures r.Err? <==> port == MI2S_SECONDARY
    ensures r.Err? ==> r.errno == ENOTSUPP
    ensures r.Ok? && port == MI2S_PRIMARY ==> r.value == (SetBits(spkr, SPKR_CTL_PRI_WS_SLAVE_SEL_11), mic)
    ensures r.Ok? && port == MI2S_TERTIARY ==>
      r.value == (spkr, SetBits(mic, MIC_CTRL_TER_WS_SLAVE_SEL | MIC_CTRL_TLMM_SCLK_EN))
    ensures r.Ok? && port == MI2S_QUATERNARY ==>
      r.value == (spkr, SetBits(mic, MIC_CTRL_QUA_WS_SLAVE_SEL_10 | MIC_CTRL_TLMM_SCLK_EN))
  {
    if port == MI2S_PRIMARY then Ok((spkr | SPKR_CTL_PRI_WS_SLAVE_SEL_11, mic))
    else if port == MI2S_QUATERNARY then Ok((spkr, mic | MIC_CTRL_QUA_WS_SLAVE_SEL_10 | MIC_CTRL_TLMM_SCLK_EN))
    else if port == MI2S_TERTIARY then Ok((spkr, mic | MIC_CTRL_TER_WS_SLAVE_SEL | MIC_CTRL_TLMM_SCLK_EN))
    else Err(ENOTSUPP)
  }

  /** A read-modify-write that sets the given bits: they end up set and
      every other bit keeps its value. */
  function SetBits(w: bv32, bits: bv32): (r: bv32)
    ensures r & bits == bits
    ensures r & !bits == w & !bits
  {
    w | bits
  }

  /** Initialising the same port again leaves the iomux unchanged. */
  lemma IomuxIdempotent(port: nat, spkr: bv32, mic: bv32)
    requires port < MI2S_COUNT && Iomux(port, spkr, mic).Ok?
    ensures var (s, m) := Iomux(port, spkr, mic).value;
      Iomux(port, s, m) == Ok((s, m))
  {
    if port == MI2S_PRIMARY {
      SetBitsIdempotent(spkr, SPKR_CTL_PRI_WS_SLAVE_SEL_11);
    } else if port == MI2S_TERTIARY {
      SetBitsIdempotent(mic, MIC_CTRL_TER_WS_SLAVE_SEL | MIC_CTRL_TLMM_SCLK_EN);
    } else if port == MI2S_QUATERNARY {
      SetBitsIdempotent(mic, MIC_CTRL_QUA_WS_SLAVE_SEL_10 | MIC_CTRL_TLMM_SCLK_EN);
    }
  }

  lemma SetBitsIdempotent(w: bv32, bits: bv32)
    ensures SetBits(SetBits(w, bits), bits) == SetBits(w, bits)
  {
  }

  /** The codec loop of `dai_init`: for each codec DAI the default master
      clock and then the jack are set; the first failure other than
      ENOTSUPP is returned. */
  function CodecSetup(results: seq<(Result<()>, Result<()>)>): (r: Result<()>)
    ensures r.Ok? <==> forall k :: 0 <= k < |results| ==> Tolerated(results[k].0) && Tolerated(results[k].1)
    ensures r.Err? ==> r.errno != ENOTSUPP
    ensures forall k ::
      (0 <= k < |results| && !CodecOk(results[k]) && forall j :: 0 <= j < k ==> CodecOk(results[j])) ==>
      r == (if Tolerated(results[k].0) then results[k].1 else results[k].0)
  {
    if |results| == 0 then Ok(())
    else if !Tolerated(results[0].0) then results[0].0
    else if !Tolerated(results[0].1) then results[0].1
    else CodecSetup(results[1..])
  }

  predicate Tolerated(r: Result<()>) {
    r.Ok? || r.errno == ENOTSUPP
  }

  /** Both calls for one codec DAI went through or were not supported. */
  predicate CodecOk(calls: (Result<()>, Result<()>)) {
    Tolerated(calls.0) && Tolerated(calls.1)
  }

  /** The codec loop over two runs of codec DAIs is the loop over the
      first, continued with the second only when the first succeeds. */
  lemma {:induction false} CodecSetupAppend(a: seq<(Result<()>, Result<()>)>, b: seq<(Result<()>, Result<()>)>)
    ensures CodecSetup(a + b) == if CodecSetup(a).Err? then CodecSetup(a) else CodecSetup(b)
    decreases |a|
  {
    if |a| > 0 {
      assert (a + b)[0] == a[0];
      assert (a + b)[1..] == a[1..] + b;
      CodecSetupAppend(a[1..], b);
    } else {
      assert a + b == b;
    }
  }

  /** What one `dai_init` call did: the state after it, whether it created
      the headset jack, and its return value. */
  datatype InitOutcome = InitOutcome(card: Card, jackCreated: bool, status: Result<()>)

  /** `msm8916_qdsp6_dai_init`.  `jackNew` is the result of creating the
      jack and `codecs` the results of the codec calls.  The iomux is
      written before the jack and codec steps, so it stays written when
      they fail. */
  function DaiInit(c: Card, id: int, jackNew: Result<()>,
                   codecs: seq<(Result<()>, Result<()>)>): (r: InitOutcome)
    ensures r.jackCreated ==> !c.jackSetup && jackNew.Ok? && r.card.jackSetup
    ensures r.card.jackSetup <==> c.jackSetup || r.jackCreated
    ensures r.card.clkCount == c.clkCount && r.card.bclk == c.bclk
    ensures Mi2sId(id).Err? ==> r == InitOutcome(c, false, Err(EINVAL))
    ensures r.status.Ok? ==> r.card.jackSetup && Mi2sId(id).Ok? && Mi2sId(id).value != MI2S_SECONDARY
    ensures Mi2sId(id).Ok? ==>
      var io := Iomux(Mi2sId(id).value, c.spkrIomux, c.micIomux);
      (io.Err? ==> r == InitOutcome(c, false, Err(ENOTSUPP))) &&
      (io.Ok? ==> (r.card.spkrIomux, r.card.micIomux) == io.value) &&
      (io.Ok? && !c.jackSetup && jackNew.Err? ==> !r.card.jackSetup && !r.jackCreated && r.status == jackNew) &&
      (io.Ok? && (c.jackSetup || jackNew.Ok?) ==> r.jackCreated == !c.jackSetup && r.status == CodecSetup(codecs))
  {
    match Mi2sId(id)
    case Err(e) => InitOutcome(c, false, Err(e))
    case Ok(port) =>
      match Iomux(port, c.spkrIomux, c.micIomux)
      case Err(e) => InitOutcome(c, false, Err(e))
      case Ok((spkr, mic)) =>
        var c1 := c.(spkrIomux := spkr, micIomux := mic);
        if !c.jackSetup && jackNew.Err? then InitOutcome(c1, false, Err(jackNew.errno))
        else
          var created := !c.jackSetup;
          InitOutcome(c1.(jackSetup := true), created, CodecSetup(codecs))
  }

  /** Once a port's initialisation has succeeded, initialising it again
      changes nothing on the card, creates no jack, and only repeats the
      codec calls. */
  lemma DaiInitRepeat(c: Card, id: int, jackNew: Result<()>, codecs: seq<(Result<()>, Result<()>)>,
                      jackNew': Result<()>, codecs': seq<(Result<()>, Result<()>)>)
    requires DaiInit(c, id, jackNew, codecs).status.Ok?
    ensures var o := DaiInit(c, id, jackNew, codecs);
      var o' := DaiInit(o.card, id, jackNew', codecs');
      o'.card == o.card && !o'.jackCreated && o'.status == CodecSetup(codecs')
  {
    var o := DaiInit(c, id, jackNew, codecs);
    IomuxIdempotent(Mi2sId(id).value, c.spkrIomux, c.micIomux);
  }

  /** One call of `dai_init` with the results it receives. */
  datatype InitCall = InitCall(id: int, jackNew: Result<()>, codecs: seq<(Result<()>, Result<()>)>)

  /** The card after a series of `dai_init` calls, and how many of them
      created the jack. */
  function RunInits(c: Card, calls: seq<InitCall>): (r: (Card, nat))
    decreases |calls|
  {
    if |calls| == 0 then (c, 0)
    else
      var o := DaiInit(c, calls[0].id, calls[0].jackNew, calls[0].codecs);
      var (c', n) := RunInits(o.card, calls[1..]);
      (c', n + if o.jackCreated then 1 else 0)
  }

  /** However many back ends are initialised, the headset jack is created
      at most once, and not at all when it already exists. */
  lemma {:induction false} JackCreatedOnce(c: Card, calls: seq<InitCall>)
    ensures RunInits(c, calls).1 <= 1
    ensures c.jackSetup ==> RunInits(c, calls).1 == 0
    ensures RunInits(c, calls).0.jackSetup <==> c.jackSetup || RunInits(c, calls).1 == 1
    decreases |calls|
  {
    if |calls| > 0 {
      var o := DaiInit(c, calls[0].id, calls[0].jackNew, calls[0].codecs);
      JackCreatedOnce(o.card, calls[1..]);
    }
  }

  // ---------------------------------------------------------------------
  // Bit clock reference counting

  /** Each port's bit clock runs exactly while it has users. */
  predicate Balanced(c: Card)
    requires WellFormed(c)
  {
    forall p :: 0 <= p < MI2S_COUNT ==>
      (c.bclk[p] == MI2S_BCLK_RATE || c.bclk[p] == 0) && (c.bclk[p] != 0 <==> c.clkCount[p] > 0)
  }

  /** The unsigned increment of this count does not pass one, so startup
      programs the clock: the count was zero, or it wraps around. */
  predicate FirstUser(count: u32) {
    count == 0 || count == 0xFFFF_FFFF
  }

  /** `msm8916_qdsp6_startup` as written: the count is incremented first,
      and only the 0 -> 1 transition programs the bit clock, whose result
      is returned.  `clk` is the result of that clock call. */
  function StartupAsWritten(c: Card, id: int, clk: Result<()>): (r: (Card, Result<()>))
    requires WellFormed(c)
    ensures WellFormed(r.0)
    ensures Mi2sId(id).Err? ==> r == (c, Err(EINVAL))
    ensures Mi2sId(id).Ok? ==>
      var p := Mi2sId(id).value;
      r.0.clkCount == c.clkCount[p := U32(c.clkCount[p] as int + 1)] &&
      (r.1.Err? <==> FirstUser(c.clkCount[p]) && clk.Err?) &&
      (r.0.bclk[p] != c.bclk[p] ==> FirstUser(c.clkCount[p]) && clk.Ok? && r.0.bclk[p] == MI2S_BCLK_RATE) &&
      forall q :: 0 <= q < MI2S_COUNT && q != p ==> r.0.bclk[q] == c.bclk[q]
    ensures Mi2sId(id).Ok? ==>
      var p := Mi2sId(id).value;
      (FirstUser(c.clkCount[p]) && clk.Ok? ==> r.0.bclk[p] == MI2S_BCLK_RATE && r.1 == Ok(())) &&
      (FirstUser(c.clkCount[p]) && clk.Err? ==> r.0.bclk == c.bclk && r.1 == clk) &&
      (!FirstUser(c.clkCount[p]) ==> r.0.bclk == c.bclk && r.1 == Ok(()))
  {
    match Mi2sId(id)
    case Err(e) => (c, Err(e))
    case Ok(p) =>
      var n := U32(c.clkCount[p] as int + 1);
      var c1 := c.(clkCount := c.clkCount[p := n]);
      if n > 1 then (c1, Ok(()))
      else if clk.Err? then (c1, clk)
      else (c1.(bclk := c.bclk[p := MI2S_BCLK_RATE]), Ok(()))
  }

  /** A failed clock enable leaves the count at one; the next startup
      then succeeds without programming the clock, so the port runs with
      users and no bit clock. */
  lemma StartupFailureLeavesClockOff()
    ensures var c := Card(0, 0, false, [0, 0, 0, 0], [0, 0, 0, 0]);
      var (c1, r1) := StartupAsWritten(c, PRIMARY_MI2S_RX, Err(EIO));
      var (c2, r2) := StartupAsWritten(c1, PRIMARY_MI2S_RX, Ok(()));
      Balanced(c) && r1 == Err(EIO) && r2 == Ok(()) &&
      c2.clkCount[MI2S_PRIMARY] == 2 && c2.bclk[MI2S_PRIMARY] == 0 && !Balanced(c2)
  {
    var c := Card(0, 0, false, [0, 0, 0, 0], [0, 0, 0, 0]);
    var (c1, r1) := StartupAsWritten(c, PRIMARY_MI2S_RX, Err(EIO));
    var (c2, r2) := StartupAsWritten(c1, PRIMARY_MI2S_RX, Ok(()));
    assert c2.clkCount[0] == 2 && c2.bclk[0] == 0;
  }

  /** Startup with the failed enable undone: the count is only kept when
      the clock is running. */
  function Startup(c: Card, id: int, clk: Result<()>): (r: (Card, Result<()>))
    requires WellFormed(c)
    ensures WellFormed(r.0)
    ensures Mi2sId(id).Err? ==> r == (c, Err(EINVAL))
    ensures r.1.Err? && Mi2sId(id).Ok? ==> r.0 == c && r.1 == clk
    ensures r.1.Ok? ==>
      var p := Mi2sId(id).value;
      r.0.clkCount == c.clkCount[p := U32(c.clkCount[p] as int + 1)] &&
      r.0.bclk[p] == (if FirstUser(c.clkCount[p]) then MI2S_BCLK_RATE else c.bclk[p]) &&
      forall q :: 0 <= q < MI2S_COUNT && q != p ==> r.0.bclk[q] == c.bclk[q]
  {
    match Mi2sId(id)
    case Err(e) => (c, Err(e))
    case Ok(p) =>
      var n := U32(c.clkCount[p] as int + 1);
      var c1 := c.(clkCount := c.clkCount[p := n]);
      if n > 1 then (c1, Ok(()))
      else if clk.Err? then (c, clk)
      else (c1.(bclk := c.bclk[p := MI2S_BCLK_RATE]), Ok(()))
  }

  /** `msm8916_qdsp6_shutdown`: the count is decremented (as an unsigned
      int) and the clock is switched off when it reaches zero; a failed
      switch-off is only logged, so the clock is left as it was. */
  function Shutdown(c: Card, id: int, clk: Result<()>): (r: Card)
    requires WellFormed(c)
    ensures WellFormed(r)
    ensures Mi2sId(id).Err? ==> r == c
    ensures Mi2sId(id).Ok? ==>
      var p := Mi2sId(id).value;
      r.clkCount == c.clkCount[p := U32(c.clkCount[p] as int - 1)] &&
      (r.bclk != c.bclk ==> c.clkCount[p] == 1 && clk.Ok? && r.bclk == c.bclk[p := 0]) &&
      (c.clkCount[p] == 1 && clk.Ok? ==> r.bclk[p] == 0)
  {
    match Mi2sId(id)
    case Err(_) => c
    case Ok(p) =>
      var n := U32(c.clkCount[p] as int - 1);
      var c1 := c.(clkCount := c.clkCount[p := n]);
      if n > 0 || clk.Err? then c1
      else c1.(bclk := c.bclk[p := 0])
  }

  /** A shutdown with no stream open wraps the unsigned count around
      instead of stopping at zero. */
  lemma ShutdownUnderflowWraps(c: Card, id: int, clk: Result<()>)
    requires WellFormed(c) && Mi2sId(id).Ok? && c.clkCount[Mi2sId(id).value] == 0
    ensures Shutdown(c, id, clk).clkCount[Mi2sId(id).value] == 0xFFFF_FFFF
  {
  }

  /** Startup keeps every port's clock running exactly while it has users,
      whatever the clock call returns. */
  lemma StartupBalanced(c: Card, id: int, clk: Result<()>)
    requires WellFormed(c) && Balanced(c)
    requires forall p :: 0 <= p < MI2S_COUNT ==> c.clkCount[p] < 0xFFFF_FFFF
    ensures Balanced(Startup(c, id, clk).0)
  {
    var r := Startup(c, id, clk).0;
    forall q | 0 <= q < MI2S_COUNT
      ensures (r.bclk[q] == MI2S_BCLK_RATE || r.bclk[q] == 0) && (r.bclk[q] != 0 <==> r.clkCount[q] > 0)
    {
      if Mi2sId(id).Ok? && Startup(c, id, clk).1.Ok? && q == Mi2sId(id).value {
        assert r.clkCount[q] == c.clkCount[q] + 1;
      }
    }
  }

  /** Shutdown of an open stream keeps the balance, provided switching the
      clock off succeeds. */
  lemma ShutdownBalanced(c: Card, id: int)
    requires WellFormed(c) && Balanced(c)
    requires Mi2sId(id).Ok? && c.clkCount[Mi2sId(id).value] > 0
    ensures Balanced(Shutdown(c, id, Ok(())))
  {
    var r := Shutdown(c, id, Ok(()));
    var p := Mi2sId(id).value;
    forall q | 0 <= q < MI2S_COUNT
      ensures (r.bclk[q] == MI2S_BCLK_RATE || r.bclk[q] == 0) && (r.bclk[q] != 0 <==> r.clkCount[q] > 0)
    {
      if q == p {
        assert r.clkCount[q] == c.clkCount[q] - 1;
      }
    }
  }

  /** Opening and closing a stream on a balanced card puts it back as it
      was. */
  lemma StartupShutdownRoundTrip(c: Card, id: int)
    requires WellFormed(c) && Balanced(c) && Mi2sId(id).Ok?
    requires c.clkCount[Mi2sId(id).value] < 0xFFFF_FFFF
    ensures var (c1, r) := Startup(c, id, Ok(()));
      r.Ok? && Shutdown(c1, id, Ok(())) == c
  {
    var p := Mi2sId(id).value;
    var (c1, r) := Startup(c, id, Ok(()));
    var c2 := Shutdown(c1, id, Ok(()));
    assert c2.clkCount == c.clkCount;
    assert c2.bclk == c.bclk;
  }

  // ---------------------------------------------------------------------
  // Back-end stream format

  const SNDRV_PCM_FORMAT_S16_LE: nat := 2
  const FIXED_RATE: nat := 48000
  const FIXED_CHANNELS: nat := 2

  /** The hardware parameters the fixup touches: the rate and channel
      intervals and the format mask (as the set of formats it allows). */
  datatype HwParams = HwParams(rateMin: nat, rateMax: nat, channelsMin: nat, channelsMax: nat,
                               formats: set<nat>)

  /** `msm8916_qdsp6_hw_params_fixup`: the rate is pinned to 48 kHz and
      the channels to two; S16_LE is added to the format mask, which keeps
      whatever it already allowed. */
  function HwParamsFixup(p: HwParams): (r: HwParams)
    ensures r.rateMin == r.rateMax == FIXED_RATE
    ensures r.channelsMin == r.channelsMax == FIXED_CHANNELS
    ensures SNDRV_PCM_FORMAT_S16_LE in r.formats
    ensures forall f :: f in r.formats <==> f in p.formats || f == SNDRV_PCM_FORMAT_S16_LE
  {
    HwParams(FIXED_RATE, FIXED_RATE, FIXED_CHANNELS, FIXED_CHANNELS, p.formats + {SNDRV_PCM_FORMAT_S16_LE})
  }

  lemma HwParamsFixupIdempotent(p: HwParams)
    ensures HwParamsFixup(HwParamsFixup(p)) == HwParamsFixup(p)
  {
  }
}
