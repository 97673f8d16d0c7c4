/** The BAM-DMUX wire format: an 8-byte little-endian header in front of
    every frame exchanged with the modem, the padded data frame built by
    `bam_dmux_tx_prepare_skb` and taken apart again by
    `bam_dmux_tx_unprepare_skb`, and the header-only OPEN/CLOSE frames. */
module DmuxFrame {
  import opened Kernel

  const BUFFER_SIZE: nat := 2048
  const HDR_SIZE: nat := 8
  const MAX_DATA_SIZE: nat := BUFFER_SIZE - HDR_SIZE
  const NUM_SKB: nat := 32
  const NUM_CH: nat := 9
  const HDR_MAGIC: u16 := 0x33fc

  const CMD_DATA: byte := 0
  const CMD_OPEN: byte := 1
  const CMD_CLOSE: byte := 2

  /** `struct bam_dmux_hdr`. */
  datatype Hdr = Hdr(magic: u16, signal: byte, cmd: byte, pad: byte, ch: byte, len: u16)

  /** The header's bytes in memory (the SoC is little-endian). */
  function EncodeHdr(h: Hdr): (b: seq<byte>)
    ensures |b| == HDR_SIZE
    // the struct's layout: magic and len little-endian around four bytes
    ensures b[0] as int + 0x100 * b[1] as int == h.magic && b[6] as int + 0x100 * b[7] as int == h.len
    ensures b[2] == h.signal && b[3] == h.cmd && b[4] == h.pad && b[5] == h.ch
  {
    [h.magic % 0x100, h.magic / 0x100, h.signal, h.cmd, h.pad, h.ch,
     h.len % 0x100, h.len / 0x100]
  }

  /** The header a frame starts with, read in place as `skb->data`. */
  function DecodeHdr(b: seq<byte>): (h: Hdr)
    requires |b| >= HDR_SIZE
    // the header whose bytes are the buffer's first eight
    ensures EncodeHdr(h) == b[..HDR_SIZE]
  {
    var h := Hdr(b[0] as int + 0x100 * b[1] as int, b[2], b[3], b[4], b[5],
                 b[6] as int + 0x100 * b[7] as int);
    assert h.magic % 0x100 == b[0] && h.magic / 0x100 == b[1];
    assert h.len % 0x100 == b[6] && h.len / 0x100 == b[7];
    h
  }

  lemma HdrRoundTrip(h: Hdr)
    ensures DecodeHdr(EncodeHdr(h)) == h
  {
  }

  /** Reading a header and writing it back reproduces the first 8 bytes. */
  lemma {:induction false} HdrBytesRoundTrip(b: seq<byte>)
    requires |b| >= HDR_SIZE
    ensures EncodeHdr(DecodeHdr(b)) == b[..HDR_SIZE]
  {
    var h := DecodeHdr(b);
    assert h.magic % 0x100 == b[0] && h.magic / 0x100 == b[1];
    assert h.len % 0x100 == b[6] && h.len / 0x100 == b[7];
  }

  function Zeros(n: nat): (z: seq<byte>)
    ensures |z| == n && forall i :: 0 <= i < n ==> z[i] == 0
  {
    if n == 0 then [] else Zeros(n - 1) + [0]
  }

  /** `sizeof(u32) - skb->len % sizeof(u32)`: never 0, so a payload that is
      already word-aligned still gets four zero bytes. */
  function PadFor(len: nat): (pad: nat)
    ensures 1 <= pad <= 4
    ensures (len + pad) % 4 == 0
    ensures len % 4 == 0 <==> pad == 4
  {
    4 - len % 4
  }

  /** The data frame `bam_dmux_tx_prepare_skb` builds around a payload sent
      on channel `ch`: header, payload, pad zero bytes.  `hdr->len` is
      `skb->len - sizeof(*hdr)` truncated to `u16`. */
  function DataFrame(ch: byte, payload: seq<byte>): seq<byte> {
    var pad := PadFor(|payload|);
    EncodeHdr(Hdr(HDR_MAGIC, 0, CMD_DATA, pad, ch, U16(|payload|)))
      + payload + Zeros(pad)
  }

  /** `bam_dmux_tx_prepare_skb`.  When the buffer lacks head- or tailroom or
      is cloned it must be reallocated; `expandErr` is the positive errno
      that reallocation returns, 0 when it succeeds. */
  function TxPrepare(ch: byte, payload: seq<byte>, needsExpand: bool, expandErr: nat)
    : (r: Result<seq<byte>>)
    ensures r.Err? <==> needsExpand && expandErr != 0
    ensures r.Err? ==> r.errno == expandErr
    ensures r.Ok? ==> r.value == DataFrame(ch, payload)
  {
    if needsExpand && expandErr != 0 then Err(expandErr)
    else Ok(DataFrame(ch, payload))
  }

  /** The fields of a prepared data frame's header. */
  lemma DataFrameHeader(ch: byte, payload: seq<byte>)
    ensures |DataFrame(ch, payload)| == HDR_SIZE + |payload| + PadFor(|payload|)
    ensures |DataFrame(ch, payload)| % 4 == 0
    ensures DataFrame(ch, payload)[..HDR_SIZE]
         == EncodeHdr(Hdr(HDR_MAGIC, 0, CMD_DATA, PadFor(|payload|), ch, U16(|payload|)))
    ensures |payload| < 0x1_0000 ==>
              DecodeHdr(DataFrame(ch, payload)).len == |payload|
    ensures DataFrame(ch, payload)[HDR_SIZE..HDR_SIZE + |payload|] == payload
    ensures forall i :: HDR_SIZE + |payload| <= i < |DataFrame(ch, payload)| ==>
              DataFrame(ch, payload)[i] == 0
  {
    HdrRoundTrip(Hdr(HDR_MAGIC, 0, CMD_DATA, PadFor(|payload|), ch, U16(|payload|)));
  }

  /** `bam_dmux_tx_unprepare_skb`: drop `hdr->pad` trailing bytes, then the
      header.  The frame must hold at least what its header announces. */
  function TxUnprepare(frame: seq<byte>): (payload: seq<byte>)
    requires |frame| >= HDR_SIZE && |frame| >= HDR_SIZE + DecodeHdr(frame).pad
    ensures |payload| == |frame| - HDR_SIZE - DecodeHdr(frame).pad
    ensures forall i :: 0 <= i < |payload| ==> payload[i] == frame[HDR_SIZE + i]
  {
    var pad := DecodeHdr(frame).pad;
    var trimmed := if pad != 0 then frame[..|frame| - pad] else frame;
    trimmed[HDR_SIZE..]
  }

  /** Unpreparing a prepared frame gives back exactly the payload: this is
      what lets `start_xmit` hand the buffer back to the stack when the ring
      is full. */
  lemma PrepareUnprepare(ch: byte, payload: seq<byte>)
    ensures |DataFrame(ch, payload)| >= HDR_SIZE
    ensures |DataFrame(ch, payload)| >= HDR_SIZE + DecodeHdr(DataFrame(ch, payload)).pad
    ensures TxUnprepare(DataFrame(ch, payload)) == payload
  {
    var f := DataFrame(ch, payload);
    DataFrameHeader(ch, payload);
    HdrRoundTrip(Hdr(HDR_MAGIC, 0, CMD_DATA, PadFor(|payload|), ch, U16(|payload|)));
    assert DecodeHdr(f) == DecodeHdr(f[..HDR_SIZE]);
    assert DecodeHdr(f).pad == PadFor(|payload|);
  }

  /** The header-only frame `bam_dmux_send_cmd` queues: a zeroed header with
      magic, command and channel filled in. */
  function CmdFrame(cmd: byte, ch: byte): (f: seq<byte>)
    ensures |f| == HDR_SIZE
    ensures DecodeHdr(f) == Hdr(HDR_MAGIC, 0, cmd, 0, ch, 0)
  {
    HdrRoundTrip(Hdr(HDR_MAGIC, 0, cmd, 0, ch, 0));
    EncodeHdr(Hdr(HDR_MAGIC, 0, cmd, 0, ch, 0))
  }
}
