/** The MStar MSG2638 touchscreen (drivers/input/touchscreen/msg2638.c):
    the 23-byte touch frame, its additive checksum, and the interrupt
    handler's decoding of up to five 12-bit contacts. */
module Msg2638 {
  import opened Kernel

  const MODE_DATA_RAW: byte := 0x5A
  const MAX_FINGERS: nat := 5
  const PACKET_BYTES: nat := 4
  /** mode, five packets, proximity, checksum */
  const FRAME_BYTES: nat := 1 + MAX_FINGERS * PACKET_BYTES + 2
  const CHECKED_BYTES: nat := FRAME_BYTES - 1

  /** The byte sum, accumulated from the front as the C loop does. */
  function Sum(data: seq<byte>): (r: nat)
    ensures r <= 255 * |data|
  {
    if |data| == 0 then 0 else Sum(data[..|data| - 1]) + data[|data| - 1]
  }

  /** `msg2638_checksum`: the two's-complement negation of the byte sum,
      truncated to a byte. */
  function Checksum(data: seq<byte>): (c: byte)
    ensures (Sum(data) + c) % 256 == 0
  {
    var s: int := Sum(data);
    (-s) % 256
  }

  /** The checksum is the only byte that brings the sum to a multiple of
      256. */
  lemma ChecksumUnique(data: seq<byte>, c: byte)
    requires (Sum(data) + c) % 256 == 0
    ensures c == Checksum(data)
  {
    var s := Sum(data);
    var q := (s + c) / 256;
    var q' := (s + Checksum(data)) / 256;
    assert c - Checksum(data) == 256 * (q - q');
  }

  /** The fields of one packet: high nibbles of x and y, low bytes of x and
      y, and the pressure byte. */
  function XyHi(frame: seq<byte>, i: nat): byte
    requires |frame| == FRAME_BYTES && i < MAX_FINGERS
  { frame[1 + PACKET_BYTES * i] }

  function XLow(frame: seq<byte>, i: nat): byte
    requires |frame| == FRAME_BYTES && i < MAX_FINGERS
  { frame[2 + PACKET_BYTES * i] }

  function YLow(frame: seq<byte>, i: nat): byte
    requires |frame| == FRAME_BYTES && i < MAX_FINGERS
  { frame[3 + PACKET_BYTES * i] }

  /** A packet that is all 0xFF (pressure aside) carries no finger. */
  predicate Blank(frame: seq<byte>, i: nat)
    requires |frame| == FRAME_BYTES && i < MAX_FINGERS
  {
    XyHi(frame, i) == 0xFF && XLow(frame, i) == 0xFF && YLow(frame, i) == 0xFF
  }

  /** The 12-bit coordinates: the high nibble of xy_hi above x_low, the low
      nibble above y_low. */
  function CoordX(xyHi: byte, xLow: byte): (x: nat)
    ensures x < 4096 && x / 256 == xyHi / 16 && x % 256 == xLow
  {
    (xyHi / 16) * 256 + xLow
  }

  function CoordY(xyHi: byte, yLow: byte): (y: nat)
    ensures y < 4096 && y / 256 == xyHi % 16 && y % 256 == yLow
  {
    (xyHi % 16) * 256 + yLow
  }

  /** One reported contact: its slot and position. */
  datatype Contact = Contact(slot: nat, x: nat, y: nat)

  /** The contacts of packets `i` and up, in increasing slot order (so no
      slot twice): one per packet that is not blank, in the slot of the
      packet's index. */
  function Contacts(frame: seq<byte>, i: nat): (r: seq<Contact>)
    requires |frame| == FRAME_BYTES && i <= MAX_FINGERS
    ensures forall c :: c in r ==>
      i <= c.slot < MAX_FINGERS && !Blank(frame, c.slot) &&
      c.x == CoordX(XyHi(frame, c.slot), XLow(frame, c.slot)) &&
      c.y == CoordY(XyHi(frame, c.slot), YLow(frame, c.slot))
    ensures forall a :: 0 < a < |r| ==> r[a - 1].slot < r[a].slot
    ensures |r| <= MAX_FINGERS - i
    decreases MAX_FINGERS - i
  {
    if i == MAX_FINGERS then []
    else
      var rest := Contacts(frame, i + 1);
      assert |rest| > 0 ==> rest[0] in rest;
      if Blank(frame, i) then rest
      else [Contact(i, CoordX(XyHi(frame, i), XLow(frame, i)), CoordY(XyHi(frame, i), YLow(frame, i)))] + rest
  }

  /** Every packet that is not blank is reported. */
  lemma {:induction false} ContactsComplete(frame: seq<byte>, i: nat, j: nat)
    requires |frame| == FRAME_BYTES && i <= j < MAX_FINGERS && !Blank(frame, j)
    ensures exists c :: c in Contacts(frame, i) && c.slot == j
    decreases MAX_FINGERS - i
  {
    if i < j {
      ContactsComplete(frame, i + 1, j);
      var c :| c in Contacts(frame, i + 1) && c.slot == j;
      assert c in Contacts(frame, i);
    } else {
      assert Contacts(frame, i)[0].slot == j;
    }
  }

  /** A frame is accepted when it is in raw-data mode and its last byte is
      the checksum of the others. */
  predicate Accepted(frame: seq<byte>)
    requires |frame| == FRAME_BYTES
  {
    frame[0] == MODE_DATA_RAW && Checksum(frame[..CHECKED_BYTES]) == frame[CHECKED_BYTES]
  }

  /** `msg2638_ts_irq_handler`: a failed transfer, another mode or a bad
      checksum reports nothing (no sync either); an accepted frame reports
      its contacts and then the frame and input syncs. */
  function HandleIrq(read: Result<seq<byte>>): (r: Option<seq<Contact>>)
    requires read.Ok? ==> |read.value| == FRAME_BYTES
    ensures r.Some? <==> read.Ok? && Accepted(read.value)
    ensures r.Some? ==> r.value == Contacts(read.value, 0)
    ensures r.Some? ==> |r.value| <= MAX_FINGERS
    ensures r.Some? ==> forall c :: c in r.value ==> c.slot < MAX_FINGERS && c.x < 4096 && c.y < 4096
  {
    match read
    case Err(_) => None
    case Ok(frame) =>
      if frame[0] != MODE_DATA_RAW then None
      else if Checksum(frame[..CHECKED_BYTES]) != frame[CHECKED_BYTES] then None
      else Some(Contacts(frame, 0))
  }

  /** `msg2638_init_input_dev`: the device tree must give both sizes. */
  function InitInput(maxX: u32, maxY: u32): (r: Result<()>)
    ensures r.Err? <==> maxX == 0 || maxY == 0
    ensures r.Err? ==> r.errno == EINVAL
  {
    if maxX == 0 || maxY == 0 then Err(EINVAL) else Ok(())
  }

  // ---------------------------------------------------------------------
  // The controller's side: building a frame from touches

  /** A finger as the controller sees it. */
  datatype Touch = Touch(x: nat, y: nat, pressure: byte)

  /** A touch with 12-bit coordinates, which a packet can carry. */
  predicate InRange(t: Option<Touch>) {
    t.Some? ==> t.value.x < 4096 && t.value.y < 4096
  }

  /** The corner (4095, 4095), whose packet is indistinguishable from a
      blank one. */
  predicate Corner(t: Option<Touch>) {
    t.Some? && t.value.x == 4095 && t.value.y == 4095
  }

  function EncodePacket(t: Option<Touch>): (p: seq<byte>)
    requires InRange(t)
    ensures |p| == PACKET_BYTES
  {
    match t
    case None => [0xFF, 0xFF, 0xFF, 0xFF]
    case Some(Touch(x, y, pressure)) => [(x / 256) * 16 + y / 256, x % 256, y % 256, pressure]
  }

  function Packets(ts: seq<Option<Touch>>): (r: seq<byte>)
    requires forall k :: 0 <= k < |ts| ==> InRange(ts[k])
    ensures |r| == PACKET_BYTES * |ts|
  {
    if |ts| == 0 then [] else EncodePacket(ts[0]) + Packets(ts[1..])
  }

  /** A frame in raw-data mode carrying the given fingers, sealed with its
      checksum. */
  function EncodeFrame(ts: seq<Option<Touch>>, proximity: byte): (frame: seq<byte>)
    requires |ts| == MAX_FINGERS
    requires forall k :: 0 <= k < |ts| ==> InRange(ts[k])
    ensures |frame| == FRAME_BYTES
  {
    var body := [MODE_DATA_RAW] + Packets(ts) + [proximity];
    body + [Checksum(body)]
  }

  /** The contacts a frame should yield: one per finger present, in slot
      order, at the finger's position. */
  function Present(ts: seq<Option<Touch>>, i: nat): (r: seq<Contact>)
    requires i <= |ts|
    decreases |ts| - i
  {
    if i == |ts| then []
    else if ts[i].Some? then [Contact(i, ts[i].value.x, ts[i].value.y)] + Present(ts, i + 1)
    else Present(ts, i + 1)
  }

  lemma {:induction false} PacketsAt(ts: seq<Option<Touch>>, i: nat, k: nat)
    requires forall j :: 0 <= j < |ts| ==> InRange(ts[j])
    requires i < |ts| && k < PACKET_BYTES
    ensures Packets(ts)[PACKET_BYTES * i + k] == EncodePacket(ts[i])[k]
  {
    if i > 0 {
      PacketsAt(ts[1..], i - 1, k);
      assert Packets(ts)[PACKET_BYTES * i + k] == Packets(ts[1..])[PACKET_BYTES * (i - 1) + k];
    }
  }

  /** Packet i of an encoded frame decodes to finger i, or is blank when
      there is none. */
  lemma PacketDecodes(ts: seq<Option<Touch>>, proximity: byte, i: nat)
    requires |ts| == MAX_FINGERS && i < MAX_FINGERS
    requires forall k :: 0 <= k < |ts| ==> InRange(ts[k]) && !Corner(ts[k])
    ensures var frame := EncodeFrame(ts, proximity);
      (Blank(frame, i) <==> ts[i].None?) &&
      (ts[i].Some? ==> CoordX(XyHi(frame, i), XLow(frame, i)) == ts[i].value.x &&
                       CoordY(XyHi(frame, i), YLow(frame, i)) == ts[i].value.y)
  {
    var frame := EncodeFrame(ts, proximity);
    var p := EncodePacket(ts[i]);
    PacketsAt(ts, i, 0);
    PacketsAt(ts, i, 1);
    PacketsAt(ts, i, 2);
    assert XyHi(frame, i) == p[0];
    assert XLow(frame, i) == p[1];
    assert YLow(frame, i) == p[2];
    PacketFields(ts[i]);
  }

  /** The packet of a touch decodes back to it; only an absent touch gives
      a blank packet. */
  lemma PacketFields(t: Option<Touch>)
    requires InRange(t) && !Corner(t)
    ensures var p := EncodePacket(t);
      (p[0] == 0xFF && p[1] == 0xFF && p[2] == 0xFF <==> t.None?) &&
      (t.Some? ==> CoordX(p[0], p[1]) == t.value.x && CoordY(p[0], p[2]) == t.value.y)
  {
    if t.Some? {
      var x, y := t.value.x, t.value.y;
      var hi := (x / 256) * 16 + y / 256;
      assert hi / 16 == x / 256 && hi % 16 == y / 256;
    }
  }

  lemma {:induction false} ContactsOfEncoded(ts: seq<Option<Touch>>, proximity: byte, i: nat)
    requires |ts| == MAX_FINGERS && i <= MAX_FINGERS
    requires forall k :: 0 <= k < |ts| ==> InRange(ts[k]) && !Corner(ts[k])
    ensures Contacts(EncodeFrame(ts, proximity), i) == Present(ts, i)
    decreases MAX_FINGERS - i
  {
    if i < MAX_FINGERS {
      PacketDecodes(ts, proximity, i);
      ContactsOfEncoded(ts, proximity, i + 1);
    }
  }

  /** Round trip: the handler accepts every frame the controller builds and
      reports exactly the fingers it carries, each in its own slot. */
  lemma FrameRoundTrip(ts: seq<Option<Touch>>, proximity: byte)
    requires |ts| == MAX_FINGERS
    requires forall k :: 0 <= k < |ts| ==> InRange(ts[k]) && !Corner(ts[k])
    ensures HandleIrq(Ok(EncodeFrame(ts, proximity))) == Some(Present(ts, 0))
  {
    var frame := EncodeFrame(ts, proximity);
    assert frame[..CHECKED_BYTES] == [MODE_DATA_RAW] + Packets(ts) + [proximity];
    ContactsOfEncoded(ts, proximity, 0);
  }

  /** Changing any one byte before the checksum makes an accepted frame
      rejected. */
  lemma CorruptionDetected(frame: seq<byte>, k: nat, b: byte)
    requires |frame| == FRAME_BYTES && Accepted(frame)
    requires k < CHECKED_BYTES && b != frame[k]
    ensures !Accepted(frame[k := b])
  {
    var body := frame[..CHECKED_BYTES];
    var body' := frame[k := b][..CHECKED_BYTES];
    assert body' == body[k := b];
    SumUpdate(body, k, b);
  }

  /** Replacing one byte changes the sum by the difference. */
  lemma {:induction false} SumUpdate(data: seq<byte>, k: nat, b: byte)
    requires k < |data|
    ensures Sum(data[k := b]) == Sum(data) - data[k] + b
  {
    var n := |data| - 1;
    var d := data[k := b];
    if k == n {
      assert d[..n] == data[..n];
    } else {
      SumUpdate(data[..n], k, b);
      assert d[..n] == data[..n][k := b];
    }
  }
}
