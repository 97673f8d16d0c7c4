/** The Himax HX852xES touchscreen controller
    (drivers/input/touchscreen/himax_852xES.c): the configuration block
    read at probe, the layout of the event buffer, and the interrupt
    handler's choice between reporting fingers and reporting the capacitive
    keys, with the `(had_finger_pressed, last_key)` state it keeps between
    interrupts. */
module Himax {
  import opened Kernel

  const MAX_FINGERS: nat := 12
  const MAX_KEY_COUNT: nat := 3
  const COORD_BYTES: nat := 4
  const INFO_BYTES: nat := 4
  const CONFIG_BYTES: nat := 12
  /** The key field value meaning "no key". */
  const NO_KEY: nat := 0x0F

  /** The controller's key codes for the three capacitive keys. */
  function KeyMapping(i: nat): (code: byte)
    requires i < MAX_KEY_COUNT
    ensures code == Pow2(i)
  {
    [0x01, 0x02, 0x04][i]
  }

  function AlignUp4(n: nat): (r: nat)
    ensures r % 4 == 0 && n <= r < n + 4
  {
    (n + 3) / 4 * 4
  }

  /** `HX852_BUF_SIZE`: four coordinate bytes per finger, one width byte
      per finger padded to a multiple of four, then the four-byte touch
      info. */
  function BufSize(fingers: nat): (n: nat)
    ensures COORD_BYTES * fingers + fingers + INFO_BYTES <= n < COORD_BYTES * fingers + fingers + INFO_BYTES + 4
    ensures n % 4 == 0
  {
    var width := AlignUp4(fingers);
    WordAligned(fingers, width);
    COORD_BYTES * fingers + width + INFO_BYTES
  }

  lemma WordAligned(words: nat, bytes: nat)
    requires bytes % 4 == 0
    ensures (4 * words + bytes + 4) % 4 == 0
  {
    assert 4 * words + bytes + 4 == 4 * (words + bytes / 4 + 1);
  }

  /** The buffer on the stack, sized for the most fingers, holds every
      frame the controller can be configured for. */
  lemma BufSizeBound(fingers: nat)
    requires fingers <= MAX_FINGERS
    ensures BufSize(fingers) <= BufSize(MAX_FINGERS) == 64
  {
  }

  function Be16(hi: byte, lo: byte): (v: u16)
    ensures v / 256 == hi && v % 256 == lo
  {
    hi * 256 + lo
  }

  function Le16(lo: byte, hi: byte): (v: u16)
    ensures v / 256 == hi && v % 256 == lo
  {
    hi * 256 + lo
  }

  // ---------------------------------------------------------------------
  // Configuration

  /** The decoded configuration: the finger count and, when set, the axis
      maxima. */
  datatype Config = Config(maxFingers: nat, axes: Option<(int, int)>)

  /** `read_config` on the 12-byte configuration block (rx_num, tx_num,
      max_pt, 3 padding bytes, big-endian x and y resolutions, 2 padding
      bytes): the finger count is the high nibble of max_pt and may not
      exceed 12; each axis maximum is one less than the resolution.  As
      written, the maxima are applied when both are nonzero, so a zero
      resolution (maximum -1) passes. */
  function ReadConfigAsWritten(conf: seq<byte>): (r: Result<Config>)
    requires |conf| == CONFIG_BYTES
    ensures r.Err? <==> conf[2] / 16 > MAX_FINGERS
    ensures r.Err? ==> r.errno == EINVAL
    ensures r.Ok? ==> r.value.maxFingers == conf[2] / 16 <= MAX_FINGERS
    ensures r.Ok? ==> (r.value.axes.Some? <==> Be16(conf[6], conf[7]) != 1 && Be16(conf[8], conf[9]) != 1)
    ensures r.Ok? && r.value.axes.Some? ==>
      r.value.axes.value == (Be16(conf[6], conf[7]) - 1, Be16(conf[8], conf[9]) - 1)
  {
    var maxFingers := conf[2] / 16;
    if maxFingers > MAX_FINGERS then Err(EINVAL)
    else
      var xMax := Be16(conf[6], conf[7]) - 1;
      var yMax := Be16(conf[8], conf[9]) - 1;
      Ok(Config(maxFingers, if xMax != 0 && yMax != 0 then Some((xMax, yMax)) else None))
  }

  /** A controller reporting no resolution at all gets axis maxima of -1. */
  lemma ZeroResolutionApplied()
    ensures var conf := [0, 0, 0xA0, 0, 0, 0, 0, 0, 0, 0, 0, 0];
      ReadConfigAsWritten(conf) == Ok(Config(10, Some((-1, -1))))
  {
  }

  /** `read_config` with the evidently intended test: the maxima are
      applied only when both resolutions give a positive maximum. */
  function ReadConfig(conf: seq<byte>): (r: Result<Config>)
    requires |conf| == CONFIG_BYTES
    ensures r.Err? <==> conf[2] / 16 > MAX_FINGERS
    ensures r.Err? ==> r.errno == EINVAL
    ensures r.Ok? ==> r.value.maxFingers == conf[2] / 16 <= MAX_FINGERS
    ensures r.Ok? && r.value.axes.Some? ==> r.value.axes.value.0 > 0 && r.value.axes.value.1 > 0
    ensures r.Ok? ==> (r.value.axes.Some? <==> Be16(conf[6], conf[7]) > 1 && Be16(conf[8], conf[9]) > 1)
    ensures r.Ok? && r.value.axes.Some? ==>
      r.value.axes.value == (Be16(conf[6], conf[7]) - 1, Be16(conf[8], conf[9]) - 1)
  {
    var maxFingers := conf[2] / 16;
    if maxFingers > MAX_FINGERS then Err(EINVAL)
    else
      var xMax := Be16(conf[6], conf[7]) - 1;
      var yMax := Be16(conf[8], conf[9]) - 1;
      Ok(Config(maxFingers, if xMax > 0 && yMax > 0 then Some((xMax, yMax)) else None))
  }

  /** `parse_properties`: a keycode count of zero or less (including an
      error) means no keys; more than three is refused; otherwise the
      codes are read. */
  function ParseProperties(count: int, codes: Result<seq<u32>>): (r: Result<seq<u32>>)
    requires codes.Ok? && count > 0 ==> |codes.value| == count
    ensures count <= 0 ==> r == Ok([])
    ensures count > MAX_KEY_COUNT ==> r == Err(EINVAL)
    ensures 0 < count <= MAX_KEY_COUNT ==> r == codes
    ensures r.Ok? ==> |r.value| <= MAX_KEY_COUNT
  {
    if count <= 0 then Ok([])
    else if count > MAX_KEY_COUNT then Err(EINVAL)
    else codes
  }

  // ---------------------------------------------------------------------
  // Events

  /** The driver's state between interrupts. */
  datatype Hx = Hx(maxFingers: nat, keycodes: seq<u32>, hadFingerPressed: bool, lastKey: byte)

  predicate Valid(s: Hx) {
    s.maxFingers <= MAX_FINGERS && |s.keycodes| <= MAX_KEY_COUNT
  }

  /** What the driver reports to the input layer.  Key events carry the
      key's index as well as its code. */
  datatype Event =
    | Contact(slot: nat, x: u16, y: u16, width: byte)
    | Key(index: nat, code: u32, pressed: bool)
    | SyncFrame
    | Sync

  /** The key field: the top four bits of the pressed mask, with 0x0F
      meaning no key. */
  function CurrentKey(fingerPressed: u16): (k: byte)
    ensures k < 0x0F
    ensures fingerPressed / 4096 != NO_KEY ==> k == fingerPressed / 4096
    ensures fingerPressed / 4096 == NO_KEY ==> k == 0
  {
    var k := fingerPressed / 4096;
    if k == NO_KEY then 0 else k
  }

  /** The pressed mask after the finger-count check: a finger count of
      0xFF or with a zero low nibble clears it (key bits included). */
  function FingerMask(fingerNum: byte, fingerPressed: u16): (m: u16)
    ensures m == 0 || m == fingerPressed
    ensures m == 0 <==> fingerNum == 0xFF || fingerNum % 16 == 0 || fingerPressed == 0
  {
    if fingerNum == 0xFF || fingerNum % 16 == 0 then 0 else fingerPressed
  }

  predicate Pressed(mask: u16, i: nat) {
    (mask / Pow2(i)) % 2 == 1
  }

  /** The contacts reported for the fingers from `i` to `maxFingers`, in
      slot order: one for each finger whose bit is set, with its
      big-endian coordinates and its width byte. */
  function Contacts(buf: seq<byte>, maxFingers: nat, mask: u16, i: nat): (r: seq<Event>)
    requires maxFingers <= MAX_FINGERS && |buf| == BufSize(maxFingers) && i <= maxFingers
    ensures forall e :: e in r ==>
      e.Contact? && i <= e.slot < maxFingers && Pressed(mask, e.slot) &&
      e == Contact(e.slot, CoordX(buf, maxFingers, e.slot), CoordY(buf, maxFingers, e.slot), Width(buf, maxFingers, e.slot))
    ensures forall a :: 0 < a < |r| ==> r[a - 1].slot < r[a].slot
    decreases maxFingers - i
  {
    if i == maxFingers then []
    else
      var rest := Contacts(buf, maxFingers, mask, i + 1);
      assert |rest| > 0 ==> rest[0] in rest;
      if Pressed(mask, i) then
        [Contact(i, CoordX(buf, maxFingers, i), CoordY(buf, maxFingers, i), Width(buf, maxFingers, i))] + rest
      else rest
  }

  // The fields of finger i: big-endian x and y in its four coordinate
  // bytes, and its byte in the width block after the coordinates.

  function CoordX(buf: seq<byte>, maxFingers: nat, i: nat): u16
    requires i < maxFingers <= MAX_FINGERS && |buf| == BufSize(maxFingers)
  {
    Be16(buf[COORD_BYTES * i], buf[COORD_BYTES * i + 1])
  }

  function CoordY(buf: seq<byte>, maxFingers: nat, i: nat): u16
    requires i < maxFingers <= MAX_FINGERS && |buf| == BufSize(maxFingers)
  {
    Be16(buf[COORD_BYTES * i + 2], buf[COORD_BYTES * i + 3])
  }

  function Width(buf: seq<byte>, maxFingers: nat, i: nat): byte
    requires i < maxFingers <= MAX_FINGERS && |buf| == BufSize(maxFingers)
  {
    buf[COORD_BYTES * maxFingers + i]
  }

  /** Every pressed finger below the configured count is reported. */
  lemma {:induction false} ContactsComplete(buf: seq<byte>, maxFingers: nat, mask: u16, i: nat, j: nat)
    requires maxFingers <= MAX_FINGERS && |buf| == BufSize(maxFingers)
    requires i <= j < maxFingers && Pressed(mask, j)
    ensures exists e :: e in Contacts(buf, maxFingers, mask, i) && e.slot == j
    decreases maxFingers - i
  {
    if i < j {
      ContactsComplete(buf, maxFingers, mask, i + 1, j);
      var e :| e in Contacts(buf, maxFingers, mask, i + 1) && e.slot == j;
      assert e in Contacts(buf, maxFingers, mask, i);
    } else {
      assert Contacts(buf, maxFingers, mask, i)[0].slot == j;
    }
  }

  /** `process_display_touch`: report every pressed finger, close the
      frame, and remember whether any finger was down. */
  function DisplayTouch(s: Hx, buf: seq<byte>, mask: u16): (r: (Hx, seq<Event>))
    requires Valid(s) && |buf| == BufSize(s.maxFingers)
    ensures r.0 == s.(hadFingerPressed := r.0.hadFingerPressed)
    ensures r.0.hadFingerPressed <==> exists j :: 0 <= j < s.maxFingers && Pressed(mask, j)
    ensures r.1 == Contacts(buf, s.maxFingers, mask, 0) + [SyncFrame]
  {
    var contacts := Contacts(buf, s.maxFingers, mask, 0);
    assert (exists j :: 0 <= j < s.maxFingers && Pressed(mask, j)) ==> |contacts| > 0 by {
      if j :| 0 <= j < s.maxFingers && Pressed(mask, j) {
        ContactsComplete(buf, s.maxFingers, mask, 0, j);
      }
    }
    assert |contacts| > 0 ==> contacts[0] in contacts && Pressed(mask, contacts[0].slot) && contacts[0].slot < s.maxFingers;
    (s.(hadFingerPressed := |contacts| > 0), contacts + [SyncFrame])
  }

  /** The key events for keys `i` and up: a key whose code is the current
      one is pressed, otherwise one whose code was the last one is
      released. */
  function KeyEvents(keycodes: seq<u32>, current: byte, last: byte, i: nat): (r: seq<Event>)
    requires |keycodes| <= MAX_KEY_COUNT && i <= |keycodes|
    ensures forall e :: e in r ==> e.Key? && i <= e.index < |keycodes| && e.code == keycodes[e.index]
    ensures forall j :: i <= j < |keycodes| ==>
      (Key(j, keycodes[j], true) in r <==> KeyMapping(j) == current)
    ensures forall j :: i <= j < |keycodes| ==>
      (Key(j, keycodes[j], false) in r <==> KeyMapping(j) == last && KeyMapping(j) != current)
    decreases |keycodes| - i
  {
    if i == |keycodes| then []
    else
      var rest := KeyEvents(keycodes, current, last, i + 1);
      if KeyMapping(i) == current then [Key(i, keycodes[i], true)] + rest
      else if KeyMapping(i) == last then [Key(i, keycodes[i], false)] + rest
      else rest
  }

  /** `process_btn_touch`. */
  function BtnTouch(s: Hx, current: byte): (r: (Hx, seq<Event>))
    requires Valid(s)
    ensures r.0 == s.(lastKey := current)
    ensures forall e :: e in r.1 ==> e.Key? && e.index < |s.keycodes|
    ensures r.1 == KeyEvents(s.keycodes, current, s.lastKey, 0)
  {
    (s.(lastKey := current), KeyEvents(s.keycodes, current, s.lastKey, 0))
  }

  /** At most one key is reported pressed per frame: the three key codes
      are distinct bits. */
  lemma OnePressAtMost(keycodes: seq<u32>, current: byte, last: byte, a: nat, b: nat)
    requires |keycodes| <= MAX_KEY_COUNT && a < |keycodes| && b < |keycodes|
    requires Key(a, keycodes[a], true) in KeyEvents(keycodes, current, last, 0)
    requires Key(b, keycodes[b], true) in KeyEvents(keycodes, current, last, 0)
    ensures a == b
  {
  }

  /** `hx852_interrupt`: nothing happens while the input device is closed
      or when the read fails.  Otherwise the touch path runs when a finger
      is pressed now or was before (so that lifting is reported), else the
      key path runs when there are keys and a key is pressed now or was
      before.  A sync ends every handled frame. */
  function Interrupt(s: Hx, users: bool, read: Result<seq<byte>>): (r: (Hx, seq<Event>))
    requires Valid(s)
    requires read.Ok? ==> |read.value| == BufSize(s.maxFingers)
    ensures Valid(r.0)
    ensures !users || read.Err? ==> r == (s, [])
    ensures users && read.Ok? ==> |r.1| > 0 && r.1[|r.1| - 1] == Sync
    ensures users && read.Ok? ==>
      var (mask, current) := FrameFields(read.value, s.maxFingers);
      if mask != 0 || s.hadFingerPressed then
        r.0 == s.(hadFingerPressed := r.0.hadFingerPressed) &&
        (r.0.hadFingerPressed <==> exists j :: 0 <= j < s.maxFingers && Pressed(mask, j)) &&
        r.1 == Contacts(read.value, s.maxFingers, mask, 0) + [SyncFrame, Sync]
      else if |s.keycodes| > 0 && (current != 0 || s.lastKey != 0) then
        r.0 == s.(lastKey := current) &&
        r.1 == KeyEvents(s.keycodes, current, s.lastKey, 0) + [Sync]
      else r.0 == s && r.1 == [Sync]
  {
    if !users then (s, [])
    else match read
      case Err(_) => (s, [])
      case Ok(buf) =>
        var (mask, current) := FrameFields(buf, s.maxFingers);
        if mask != 0 || s.hadFingerPressed then
          var (s', ev) := DisplayTouch(s, buf, mask);
          (s', ev + [Sync])
        else if |s.keycodes| > 0 && (current != 0 || s.lastKey != 0) then
          var (s', ev) := BtnTouch(s, current);
          (s', ev + [Sync])
        else (s, [Sync])
  }

  /** The touch-info fields of a frame: the pressed mask after the
      finger-count check and the current key.  The info block is the last
      four bytes of the buffer: the finger count, then the little-endian
      pressed word, then a padding byte. */
  function FrameFields(buf: seq<byte>, maxFingers: nat): (r: (u16, byte))
    requires maxFingers <= MAX_FINGERS && |buf| == BufSize(maxFingers)
    ensures var info := |buf| - INFO_BYTES;
      var pressed := Le16(buf[info + 1], buf[info + 2]);
      r.0 == FingerMask(buf[info], pressed) &&
      r.1 == (if buf[info + 2] / 16 == NO_KEY then 0 else buf[info + 2] / 16)
  {
    var info := COORD_BYTES * maxFingers + AlignUp4(maxFingers);
    var pressed := Le16(buf[info + 1], buf[info + 2]);
    (FingerMask(buf[info], pressed), CurrentKey(pressed))
  }

  /** Once a frame with no fingers has been reported, the touch path
      stays idle until a finger is pressed again. */
  lemma LiftReportedOnce(s: Hx, buf: seq<byte>)
    requires Valid(s) && |buf| == BufSize(s.maxFingers)
    requires FrameFields(buf, s.maxFingers).0 == 0
    ensures !Interrupt(s, true, Ok(buf)).0.hadFingerPressed
  {
  }

  /** `hx852_suspend`: a held key is released and the state is reset, so
      nothing is left pressed across suspend. */
  function Suspend(s: Hx): (r: (Hx, seq<Event>))
    requires Valid(s)
    ensures r.0 == s.(hadFingerPressed := false, lastKey := 0)
    ensures forall j :: 0 <= j < |s.keycodes| ==>
      (Key(j, s.keycodes[j], false) in r.1 <==> s.lastKey != 0 && KeyMapping(j) == s.lastKey)
    ensures forall e :: e in r.1 ==> !(e.Key? && e.pressed)
    ensures r.1 == [] <==> !s.hadFingerPressed && s.lastKey == 0
  {
    var frame := if s.hadFingerPressed then [SyncFrame] else [];
    var keys := if s.lastKey != 0 then KeyEvents(s.keycodes, 0, s.lastKey, 0) else [];
    var sync := if s.hadFingerPressed || s.lastKey != 0 then [Sync] else [];
    (s.(hadFingerPressed := false, lastKey := 0), frame + keys + sync)
  }
}
