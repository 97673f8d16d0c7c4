/** The BAM-DMUX protocol engine (drivers/net/ethernet/qualcomm/bam-dmux.c)
    as one immutable record and step functions over it: the 32-slot TX ring
    with its one-ahead backpressure, the deferred-TX mask and its wake work,
    RX validation and dispatch, the `remote_channels` open/closed mask, and
    the power-collapse handshake bits.

    DMA engine, runtime-PM and allocator outcomes are inputs of each step;
    the frames handed to the TX DMA engine and the packets given to the
    network stack are logged in the record so that properties can speak
    about them. */
module Dmux {
  import opened Kernel
  import opened Bits
  import opened DmuxFrame

  /** An entry of `tx_skbs`: empty, holding a queued frame not (yet) handed
      to the DMA engine, or holding a frame the DMA engine is sending. */
  datatype TxSlot = Free | Held(frame: seq<byte>) | InFlight(frame: seq<byte>)

  /** The state of a registered network interface that the driver looks at
      or changes. */
  datatype Netdev = Netdev(running: bool, queueStopped: bool, attached: bool)

  /** `skb->protocol` chosen for a received data frame. */
  datatype Proto = IPv4 | IPv6 | Map

  /** A packet passed to `netif_receive_skb`. */
  datatype Packet = Packet(ch: nat, proto: Proto, data: seq<byte>)

  datatype State = State(
    pcState: bool,            // last level seen on the modem's power-control line
    pcAckState: bool,         // level we last drove on the ack line
    linkUp: bool,             // pc_completion is complete
    rxChan: bool,             // the RX DMA channel is held
    rxPosted: nat,            // RX buffers currently given to the DMA engine
    tx: seq<TxSlot>,          // tx_skbs
    txNext: u32,              // tx_next_skb
    deferred: nat,            // tx_deferred_skb, one bit per slot
    wakeupPending: bool,      // tx_wakeup_work is scheduled
    remote: nat,              // remote_channels, one bit per channel
    netdevs: seq<Option<Netdev>>,
    registerPending: bool,    // register_netdev_work is scheduled
    wire: seq<seq<byte>>,     // frames submitted to the TX DMA engine, in order
    received: seq<Packet>)    // packets handed to the network stack, in order

  /** What the record's fields always satisfy: array sizes, mask widths,
      and that a deferred slot still holds its frame. */
  predicate Valid(s: State) {
    && |s.tx| == NUM_SKB
    && |s.netdevs| == NUM_CH
    && s.deferred < 0x1_0000_0000   // an unsigned int
    && s.remote < 0x200              // channels 0..8 only
    && s.rxPosted <= NUM_SKB
    && (s.linkUp ==> s.pcState)
    && (forall i :: 0 <= i < NUM_SKB && Bit(s.deferred, i) ==> s.tx[i].Held?)
  }

  /** Replace channel `ch`'s interface state. */
  function WithNetdev(s: State, ch: nat, nd: Netdev): (r: State)
    requires Valid(s) && ch < NUM_CH
    ensures Valid(r) && r.netdevs[ch] == Some(nd)
    ensures forall c :: 0 <= c < NUM_CH && c != ch ==> r.netdevs[c] == s.netdevs[c]
    ensures r == s.(netdevs := r.netdevs)
  {
    s.(netdevs := s.netdevs[ch := Some(nd)])
  }

  // ---------------------------------------------------------------------
  // Netdev queue control

  /** `bam_dmux_tx_stop_queues`: every registered interface is stopped. */
  function StopQueues(nd: seq<Option<Netdev>>): (r: seq<Option<Netdev>>)
    ensures |r| == |nd|
    ensures forall i :: 0 <= i < |nd| ==>
              (r[i].Some? <==> nd[i].Some?) &&
              (nd[i].Some? ==>
                 && r[i].value.queueStopped
                 && r[i].value.running == nd[i].value.running
                 && r[i].value.attached == nd[i].value.attached)
  {
    seq(|nd|, i requires 0 <= i < |nd| =>
      if nd[i].Some? then Some(nd[i].value.(queueStopped := true)) else None)
  }

  /** `bam_dmux_tx_wake_queues`: every registered, running interface is
      woken; the others are left alone. */
  function WakeQueues(nd: seq<Option<Netdev>>): (r: seq<Option<Netdev>>)
    ensures |r| == |nd|
    ensures forall i :: 0 <= i < |nd| ==>
              (r[i].Some? <==> nd[i].Some?) &&
              (nd[i].Some? ==>
                 // a queue stays stopped only on an interface that is down
                 && (r[i].value.queueStopped <==> nd[i].value.queueStopped && !nd[i].value.running)
                 && r[i].value.running == nd[i].value.running
                 && r[i].value.attached == nd[i].value.attached)
  {
    seq(|nd|, i requires 0 <= i < |nd| =>
      if nd[i].Some? && nd[i].value.running
      then Some(nd[i].value.(queueStopped := false)) else nd[i])
  }

  /** Stopping every queue and waking them again leaves exactly the running
      interfaces able to transmit, whatever state the queues were in. */
  lemma StopThenWake(nd: seq<Option<Netdev>>)
    ensures var w := WakeQueues(StopQueues(nd));
      forall i :: 0 <= i < |nd| && nd[i].Some? ==>
        w[i].Some? && (w[i].value.queueStopped <==> !nd[i].value.running)
  {
  }

  // ---------------------------------------------------------------------
  // TX ring

  /** `tx_next_skb` is an `unsigned int`; because 2^32 is a multiple of 32
      its wrap-around never disturbs the slot sequence. */
  lemma NextSlotWraps(t: u32)
    ensures U32(t + 1) % NUM_SKB == (t % NUM_SKB + 1) % NUM_SKB
  {
  }

  /** The ring part of `bam_dmux_tx_queue`: the slots and counter after
      trying to queue a frame, the slot used, and whether the queues must
      be stopped. */
  datatype Queued = Queued(tx: seq<TxSlot>, next: u32, slot: Option<nat>, stop: bool)

  function RingQueue(tx: seq<TxSlot>, next: u32, frame: seq<byte>): (q: Queued)
    requires |tx| == NUM_SKB
    ensures |q.tx| == NUM_SKB
    ensures var n := next % NUM_SKB;
      if !tx[n].Free? then
        // occupied: nothing queued, counter kept, queues stopped
        q == Queued(tx, next, None, true)
      else
        && q.slot == Some(n)
        && q.tx == tx[n := Held(frame)]
        && q.next % NUM_SKB == (n + 1) % NUM_SKB
        // one-ahead backpressure: stop when the following slot is still busy
        && q.stop == !tx[(n + 1) % NUM_SKB].Free?
  {
    var n := next % NUM_SKB;
    if !tx[n].Free? then Queued(tx, next, None, true)
    else
      var tx1 := tx[n := Held(frame)];
      var next1 := U32(next + 1);
      NextSlotWraps(next);
      Queued(tx1, next1, Some(n), !tx1[next1 % NUM_SKB].Free?)
  }

  /** `bam_dmux_tx_queue`: claim slot `tx_next_skb % 32` for a frame. */
  function TxQueue(s: State, frame: seq<byte>): (r: (State, Option<nat>))
    requires Valid(s)
    ensures Valid(r.0)
    ensures r.1.Some? <==> s.tx[s.txNext % NUM_SKB].Free?
    ensures r.1.None? ==> r.0.tx == s.tx && r.0.txNext == s.txNext
    ensures r.1.Some? ==>
      && r.1.value == s.txNext % NUM_SKB
      && r.0.tx[r.1.value] == Held(frame)
      && (forall j :: 0 <= j < NUM_SKB && j != r.1.value ==> r.0.tx[j] == s.tx[j])
      && r.0.txNext == U32(s.txNext + 1)
    // the queues are stopped exactly when the slot the counter now points
    // to is still occupied
    ensures r.0.netdevs == if !r.0.tx[r.0.txNext % NUM_SKB].Free?
                           then StopQueues(s.netdevs) else s.netdevs
    ensures r.0 == s.(tx := r.0.tx, txNext := r.0.txNext, netdevs := r.0.netdevs)
  {
    var q := RingQueue(s.tx, s.txNext, frame);
    (s.(tx := q.tx, txNext := q.next,
        netdevs := if q.stop then StopQueues(s.netdevs) else s.netdevs), q.slot)
  }

  /** Queue several frames in a row, with no completion in between: the
      final ring, the slot each frame got, and whether each stopped the
      queues. */
  function QueueAll(tx: seq<TxSlot>, next: u32, frames: seq<seq<byte>>)
    : (r: (seq<TxSlot>, u32, seq<Option<nat>>, seq<bool>))
    requires |tx| == NUM_SKB
    ensures |r.0| == NUM_SKB && |r.2| == |frames| && |r.3| == |frames|
    decreases |frames|
  {
    if |frames| == 0 then (tx, next, [], [])
    else
      var q := RingQueue(tx, next, frames[0]);
      var (tx', next', slots, stops) := QueueAll(q.tx, q.next, frames[1..]);
      (tx', next', [q.slot] + slots, [q.stop] + stops)
  }

  /** Slots `a`, `a+1`, ..., `a+31` (mod 32) are all different ... */
  lemma SlotsDistinct(a: nat, j: nat, k: nat)
    requires j < NUM_SKB && k < NUM_SKB && j != k
    ensures (a + j) % NUM_SKB != (a + k) % NUM_SKB
  {
    var r := a % NUM_SKB;
    assert a == NUM_SKB * (a / NUM_SKB) + r;
    assert (a + j) % NUM_SKB == (r + j) % NUM_SKB;
    assert (a + k) % NUM_SKB == (r + k) % NUM_SKB;
  }

  /** ... and cover the whole ring. */
  lemma SlotsCover(a: nat, i: nat) returns (j: nat)
    requires i < NUM_SKB
    ensures j < NUM_SKB && (a + j) % NUM_SKB == i
  {
    j := (i - a) % NUM_SKB;
    var r := a % NUM_SKB;
    assert a == NUM_SKB * (a / NUM_SKB) + r;
    assert (a + j) % NUM_SKB == (r + j) % NUM_SKB;
  }

  /** The `j`-th slot counting from `start`. */
  function Slot(start: nat, j: nat): (i: nat)
    ensures i < NUM_SKB
  {
    (start + j) % NUM_SKB
  }

  /** The ring as it is after `done` frames were queued from slot `start`
      on: those slots hold queued frames and the others are free. */
  predicate RunOf(tx: seq<TxSlot>, start: nat, done: nat)
    requires |tx| == NUM_SKB
  {
    forall j :: 0 <= j < NUM_SKB ==>
      (tx[Slot(start, j)].Free? <==> j >= done) && !tx[Slot(start, j)].InFlight?
  }

  /** One queue into such a ring claims slot `start + done`, and stops the
      queues only when that fills the ring. */
  lemma QueueStep(tx: seq<TxSlot>, next: u32, f: seq<byte>, start: nat, done: nat)
    requires |tx| == NUM_SKB && done < NUM_SKB
    requires next % NUM_SKB == Slot(start, done) && RunOf(tx, start, done)
    ensures var q := RingQueue(tx, next, f);
      && q.slot == Some(Slot(start, done))
      && RunOf(q.tx, start, done + 1)
      && q.next % NUM_SKB == Slot(start, done + 1)
      && q.stop == (done + 1 == NUM_SKB)
  {
    var n := Slot(start, done);
    assert tx[n].Free?;
    var q := RingQueue(tx, next, f);
    assert q.tx == tx[n := Held(f)];
    forall j | 0 <= j < NUM_SKB
      ensures (q.tx[Slot(start, j)].Free? <==> j >= done + 1) && !q.tx[Slot(start, j)].InFlight?
    {
      if j != done {
        SlotsDistinct(start, j, done);
        assert q.tx[Slot(start, j)] == tx[Slot(start, j)];
      }
    }
    SlotNext(start, done);
    if done + 1 < NUM_SKB {
      assert tx[Slot(start, done + 1)].Free?;
    } else {
      assert Slot(start, done + 1) == Slot(start, 0);
      assert !tx[Slot(start, 0)].Free?;
    }
  }

  /** The slot after the `j`-th is the `j+1`-th, and the 32nd is the 0th
      again. */
  lemma SlotNext(start: nat, j: nat)
    ensures Slot(start, j + 1) == (Slot(start, j) + 1) % NUM_SKB
    ensures j + 1 == NUM_SKB ==> Slot(start, j + 1) == Slot(start, 0)
  {
  }

  /** Queuing into such a ring claims the next slots in order and stops the
      queues only when it fills the ring. */
  lemma {:induction false} QueueRun(tx: seq<TxSlot>, next: u32, frames: seq<seq<byte>>,
                                    start: nat, done: nat)
    requires |tx| == NUM_SKB && done + |frames| <= NUM_SKB
    requires next % NUM_SKB == Slot(start, done) && RunOf(tx, start, done)
    ensures var r := QueueAll(tx, next, frames);
      && (forall j :: 0 <= j < |frames| ==> r.2[j] == Some(Slot(start, done + j)))
      && (forall j :: 0 <= j < |frames| ==> r.3[j] == (done + j + 1 == NUM_SKB))
      && RunOf(r.0, start, done + |frames|)
      && r.1 % NUM_SKB == Slot(start, done + |frames|)
    decreases |frames|
  {
    if |frames| > 0 {
      QueueStep(tx, next, frames[0], start, done);
      var q := RingQueue(tx, next, frames[0]);
      QueueRun(q.tx, q.next, frames[1..], start, done + 1);
      var r1 := QueueAll(q.tx, q.next, frames[1..]);
      var r := QueueAll(tx, next, frames);
      assert r.2 == [q.slot] + r1.2;
      assert r.3 == [q.stop] + r1.3;
    }
  }

  /** Exhausting the ring: from an empty ring, 32 frames take the 32 slots
      in order starting at `tx_next_skb % 32`; only the 32nd stops the
      queues; a 33rd is refused and stops them again. */
  lemma RingExhaustion(tx: seq<TxSlot>, next: u32, frames: seq<seq<byte>>, f: seq<byte>)
    requires |tx| == NUM_SKB && |frames| == NUM_SKB
    requires forall i :: 0 <= i < NUM_SKB ==> tx[i].Free?
    ensures var (tx', next', slots, stops) := QueueAll(tx, next, frames);
            && (forall j :: 0 <= j < NUM_SKB ==> slots[j] == Some((next + j) % NUM_SKB))
            && (forall j :: 0 <= j < NUM_SKB ==> stops[j] == (j == NUM_SKB - 1))
            && (forall i :: 0 <= i < NUM_SKB ==> tx'[i].Held?)
            && RingQueue(tx', next', f) == Queued(tx', next', None, true)
  {
    var start: nat := next;
    assert RunOf(tx, start, 0);
    QueueRun(tx, next, frames, start, 0);
    var (tx', next', slots, stops) := QueueAll(tx, next, frames);
    forall i | 0 <= i < NUM_SKB ensures tx'[i].Held? {
      var j := SlotsCover(start, i);
      assert Slot(start, j) == i;
    }
    assert tx'[next' % NUM_SKB].Held?;
  }

  /** `bam_dmux_tx_queue_fail`: give back the slot of a frame that could not
      be mapped or submitted.  The counter is not rolled back. */
  function TxQueueFail(s: State, slot: Option<nat>): (r: State)
    requires Valid(s)
    requires slot.Some? ==> slot.value < NUM_SKB && !Bit(s.deferred, slot.value)
    ensures Valid(r)
    ensures slot.None? ==> r == s
    ensures slot.Some? ==>
      && r.tx[slot.value] == Free
      && (forall j :: 0 <= j < NUM_SKB && j != slot.value ==> r.tx[j] == s.tx[j])
      && r == s.(tx := r.tx)
  {
    if slot.None? then s else s.(tx := s.tx[slot.value := Free])
  }

  /** `bam_dmux_skb_dma_submit_tx` followed by the issue: when the DMA
      engine accepts the descriptor the frame goes on the wire. */
  function SubmitTx(s: State, i: nat, ok: bool): (r: State)
    requires Valid(s) && i < NUM_SKB && !s.tx[i].Free? && !Bit(s.deferred, i)
    ensures Valid(r)
    ensures ok ==>
      && r.tx[i] == InFlight(s.tx[i].frame)
      && (forall j :: 0 <= j < NUM_SKB && j != i ==> r.tx[j] == s.tx[j])
      && r.wire == s.wire + [s.tx[i].frame]
      && r == s.(tx := r.tx, wire := r.wire)
    ensures !ok ==> r == s
  {
    if ok then s.(tx := s.tx[i := InFlight(s.tx[i].frame)], wire := s.wire + [s.tx[i].frame])
    else s
  }

  /** `bam_dmux_tx_callback`: the DMA engine finished sending slot `i`. */
  function TxCallback(s: State, i: nat): (r: State)
    requires Valid(s) && i < NUM_SKB && s.tx[i].InFlight?
    ensures Valid(r)
    ensures r.tx[i] == Free
    ensures forall j :: 0 <= j < NUM_SKB && j != i ==> r.tx[j] == s.tx[j]
    // only the slot the ring is waiting for releases the queues
    ensures r.netdevs == (if i == s.txNext % NUM_SKB then WakeQueues(s.netdevs)
                          else s.netdevs)
    ensures r == s.(tx := r.tx, netdevs := r.netdevs)
  {
    var s1 := s.(tx := s.tx[i := Free]);
    if i == s.txNext % NUM_SKB then s1.(netdevs := WakeQueues(s1.netdevs)) else s1
  }

  /** A frame queued, then refused by the DMA mapping or the engine, leaves
      the ring as it found it; only the counter has moved on. */
  lemma QueueFailRestores(s: State, frame: seq<byte>)
    requires Valid(s)
    ensures var (s1, slot) := TxQueue(s, frame);
      slot.Some? ==> TxQueueFail(s1, slot).tx == s.tx
  {
    var (s1, slot) := TxQueue(s, frame);
    if slot.Some? {
      var r := TxQueueFail(s1, slot);
      assert forall j :: 0 <= j < NUM_SKB ==> r.tx[j] == s.tx[j];
    }
  }

  /** The life of one frame: queued into a free slot, handed to the DMA
      engine and completed, it ends on the wire and its slot is free again,
      so the ring is as it was before; completion releases the queues
      exactly when the ring had been left full. */
  lemma SendComplete(s: State, frame: seq<byte>)
    requires Valid(s) && s.tx[s.txNext % NUM_SKB].Free?
    ensures var (s1, slot) := TxQueue(s, frame);
      && slot.Some?
      && var s2 := SubmitTx(s1, slot.value, true);
      && s2.tx[slot.value].InFlight?
      && var s3 := TxCallback(s2, slot.value);
      && s3.tx == s.tx
      && s3.wire == s.wire + [frame]
      && s3.txNext == U32(s.txNext + 1)
  {
    var (s1, slot) := TxQueue(s, frame);
    var s2 := SubmitTx(s1, slot.value, true);
    var s3 := TxCallback(s2, slot.value);
    assert forall j :: 0 <= j < NUM_SKB ==> s3.tx[j] == s.tx[j];
  }

  /** Outcomes of the calls `bam_dmux_send_cmd` makes that the driver does
      not control. */
  datatype CmdEnv = CmdEnv(allocOk: bool, pmRet: int, mapOk: bool, submitOk: bool)

  /** `bam_dmux_send_cmd`: queue and send a header-only OPEN or CLOSE frame
      for channel `ch`. */
  function SendCmd(s: State, ch: byte, cmd: byte, env: CmdEnv): (r: (State, Result<()>))
    requires Valid(s)
    ensures Valid(r.0)
    ensures r.0.netdevs == s.netdevs || r.0.netdevs == StopQueues(s.netdevs)
    ensures !env.allocOk ==> r == (s, Err(ENOMEM))
    ensures env.allocOk && env.pmRet < 0 ==> r == (s, Err(-env.pmRet))
    ensures r.1.Ok? <==>
      env.allocOk && env.pmRet >= 0 && s.tx[s.txNext % NUM_SKB].Free? && env.mapOk && env.submitOk
    ensures r.1.Ok? ==> r.0.wire == s.wire + [CmdFrame(cmd, ch)]
    ensures r.1.Err? ==> r.0.wire == s.wire
    ensures env.allocOk && env.pmRet >= 0 && !s.tx[s.txNext % NUM_SKB].Free? ==>
              r.1 == Err(EBUSY)
    ensures env.allocOk && env.pmRet >= 0 && s.tx[s.txNext % NUM_SKB].Free? ==>
              r.1 == (if !env.mapOk then Err(ENOMEM)
                      else if !env.submitOk then Err(EIO) else Ok(()))
  {
    if !env.allocOk then (s, Err(ENOMEM))
    else if env.pmRet < 0 then (s, Err(-env.pmRet))
    else
      var (s1, slot) := TxQueue(s, CmdFrame(cmd, ch));
      if slot.None? then (s1, Err(EBUSY))
      else if !env.mapOk then (TxQueueFail(s1, slot), Err(ENOMEM))
      else if !env.submitOk then (TxQueueFail(s1, slot), Err(EIO))
      else (SubmitTx(s1, slot.value, true), Ok(()))
  }

  /** `bam_dmux_netdev_open`: announce the channel to the modem, and start
      the interface's queue only if that succeeded. */
  function NetdevOpen(s: State, ch: nat, env: CmdEnv): (r: (State, Result<()>))
    requires Valid(s) && ch < NUM_CH && s.netdevs[ch].Some?
    ensures Valid(r.0)
    ensures r.1 == SendCmd(WithNetdev(s, ch, s.netdevs[ch].value.(running := true)),
                           ch, CMD_OPEN, env).1
    ensures r.1.Ok? ==> r.0.netdevs[ch].Some? && r.0.netdevs[ch].value.running
                        && !r.0.netdevs[ch].value.queueStopped
    ensures r.1.Err? ==> r.0.netdevs[ch].Some? && !r.0.netdevs[ch].value.running
  {
    // the network core marks the interface running before calling ndo_open
    // and clears the mark again when ndo_open fails
    var s0 := WithNetdev(s, ch, s.netdevs[ch].value.(running := true));
    var (s1, ret) := SendCmd(s0, ch, CMD_OPEN, env);
    var nd1 := s1.netdevs[ch].value;
    if ret.Err? then (WithNetdev(s1, ch, nd1.(running := false)), ret)
    else (WithNetdev(s1, ch, nd1.(queueStopped := false)), Ok(()))
  }

  /** `bam_dmux_netdev_stop`: stop the queue and tell the modem, ignoring
      whether the CLOSE frame could be sent. */
  function NetdevStop(s: State, ch: nat, env: CmdEnv): (r: State)
    requires Valid(s) && ch < NUM_CH && s.netdevs[ch].Some?
    ensures Valid(r)
    ensures r.netdevs[ch].Some?
    ensures !r.netdevs[ch].value.running && r.netdevs[ch].value.queueStopped
    // the CLOSE frame is sent at most once, and exactly when every step of
    // `bam_dmux_send_cmd` succeeds
    ensures r.wire == s.wire || r.wire == s.wire + [CmdFrame(CMD_CLOSE, ch)]
    ensures CmdSucceeds(s, env) ==> r.wire == s.wire + [CmdFrame(CMD_CLOSE, ch)]
    ensures !CmdSucceeds(s, env) ==> r.wire == s.wire
  {
    var s0 := StopLocal(s, ch);
    SendCmd(s0, ch, CMD_CLOSE, env).0
  }

  /** The local half of `bam_dmux_netdev_stop`: the interface is marked
      stopped and not running, and nothing else changes. */
  function StopLocal(s: State, ch: nat): (r: State)
    requires Valid(s) && ch < NUM_CH && s.netdevs[ch].Some?
    ensures Valid(r) && r == s.(netdevs := r.netdevs)
    ensures r.netdevs[ch].Some? && !r.netdevs[ch].value.running && r.netdevs[ch].value.queueStopped
    ensures var stopped := StopQueues(r.netdevs);
      stopped[ch].Some? && !stopped[ch].value.running && stopped[ch].value.queueStopped
  {
    WithNetdev(s, ch, s.netdevs[ch].value.(running := false, queueStopped := true))
  }

  /** Every call `bam_dmux_send_cmd` makes succeeds, and the ring slot it
      needs is free. */
  predicate CmdSucceeds(s: State, env: CmdEnv)
    requires Valid(s)
  {
    env.allocOk && env.pmRet >= 0 && s.tx[s.txNext % NUM_SKB].Free? && env.mapOk && env.submitOk
  }

  // ---------------------------------------------------------------------
  // Transmit path

  /** Outcomes of the calls `bam_dmux_netdev_start_xmit` makes that the
      driver does not control.  `active` is what `pm_runtime_get` returned:
      1 when the device is resumed, 0 or -EINPROGRESS while a resume is
      pending, another negative errno on failure. */
  datatype XmitEnv = XmitEnv(active: int, needsExpand: bool, expandErr: nat,
                             mapOk: bool, submitOk: bool)

  /** What became of a packet given to `start_xmit`. */
  datatype Xmit =
    | Dropped                               // NETDEV_TX_OK, packet freed
    | Busy                                  // NETDEV_TX_BUSY, packet restored
    | Deferred(slot: nat, scheduled: bool)  // NETDEV_TX_OK, waits for resume
    | Sent(slot: nat)                       // NETDEV_TX_OK, on the wire

  /** `atomic_fetch_or(BIT(n), &tx_deferred_skb)` and the `schedule_work`
      it triggers when the mask was empty. */
  function Defer(s: State, n: nat): (r: (State, bool))
    requires Valid(s) && n < NUM_SKB && s.tx[n].Held?
    ensures Valid(r.0)
    ensures forall i :: Bit(r.0.deferred, i) <==> i == n || Bit(s.deferred, i)
    ensures r.1 == (s.deferred == 0)
    ensures r.0 == s.(deferred := r.0.deferred, wakeupPending := s.wakeupPending || r.1)
  {
    SetBitSpec(s.deferred, n);
    Pow2Widths();
    SetBitBound(s.deferred, n, NUM_SKB);
    var sched := s.deferred == 0;
    (s.(deferred := SetBit(s.deferred, n), wakeupPending := s.wakeupPending || sched), sched)
  }

  /** The runtime-PM request did not fail outright. */
  predicate XmitQueued(env: XmitEnv) {
    !(env.active < 0 && env.active != -EINPROGRESS)
  }

  /** ... and the data frame could be built. */
  predicate XmitPrepared(env: XmitEnv) {
    XmitQueued(env) && !(env.needsExpand && env.expandErr != 0)
  }

  /** What `start_xmit` does once its frame holds slot `n`: a failed DMA
      mapping drops it; while the device is still resuming the slot is
      deferred; otherwise it is submitted, and a failed submission drops it. */
  function XmitSlot(s: State, n: nat, env: XmitEnv): (r: (State, Xmit))
    requires Valid(s) && n < NUM_SKB && s.tx[n].Held? && !Bit(s.deferred, n)
    ensures Valid(r.0)
    ensures r.1 == (if !env.mapOk then Dropped
                    else if env.active <= 0 then Deferred(n, s.deferred == 0)
                    else if env.submitOk then Sent(n)
                    else Dropped)
    ensures r.0.txNext == s.txNext
    ensures r.1.Dropped? ==>
              && r.0.tx[n] == Free
              && (forall j :: 0 <= j < NUM_SKB && j != n ==> r.0.tx[j] == s.tx[j])
              && r.0.wire == s.wire && r.0.deferred == s.deferred
    ensures r.1.Deferred? ==>
              && r.0.tx == s.tx
              && (forall i :: Bit(r.0.deferred, i) <==> i == n || Bit(s.deferred, i))
              && r.0.wakeupPending == (s.wakeupPending || s.deferred == 0)
              && r.0.wire == s.wire
    ensures r.1.Sent? ==>
              && r.0.tx[n] == InFlight(s.tx[n].frame)
              && r.0.wire == s.wire + [s.tx[n].frame]
              && r.0.deferred == s.deferred
  {
    if !env.mapOk then (TxQueueFail(s, Some(n)), Dropped)
    else if env.active <= 0 then
      var (s2, sched) := Defer(s, n);
      (s2, Deferred(n, sched))
    else if !env.submitOk then (TxQueueFail(s, Some(n)), Dropped)
    else (SubmitTx(s, n, true), Sent(n))
  }

  /** `start_xmit` from the ring on, for a prepared frame. */
  function XmitFrame(s: State, frame: seq<byte>, env: XmitEnv): (r: (State, Xmit))
    requires Valid(s)
    ensures Valid(r.0)
    ensures !s.tx[s.txNext % NUM_SKB].Free? ==>
              r == (s.(netdevs := StopQueues(s.netdevs)), Busy)
    ensures s.tx[s.txNext % NUM_SKB].Free? ==>
              && r.0.txNext == U32(s.txNext + 1)
              && r.1 == (if !env.mapOk then Dropped
                         else if env.active <= 0 then Deferred(s.txNext % NUM_SKB, s.deferred == 0)
                         else if env.submitOk then Sent(s.txNext % NUM_SKB)
                         else Dropped)
    ensures r.1.Deferred? || r.1.Sent? ==> r.1.slot == s.txNext % NUM_SKB
    ensures r.1.Deferred? ==>
              && r.0.tx[r.1.slot] == Held(frame)
              && (forall i :: Bit(r.0.deferred, i) <==> i == r.1.slot || Bit(s.deferred, i))
              && r.0.wakeupPending == (s.wakeupPending || s.deferred == 0)
              && r.0.wire == s.wire
    ensures r.1.Sent? ==>
              && r.0.tx[r.1.slot] == InFlight(frame)
              && r.0.wire == s.wire + [frame]
              && r.0.deferred == s.deferred
    ensures r.1.Dropped? ==> r.0.wire == s.wire && r.0.deferred == s.deferred
                             && r.0.tx == s.tx
  {
    var (s1, slot) := TxQueue(s, frame);
    if slot.None? then
      assert s1 == s.(netdevs := StopQueues(s.netdevs));
      (s1, Busy)
    else
      var n := slot.value;
      var r := XmitSlot(s1, n, env);
      if r.1.Dropped? then
        QueueFailRestores(s, frame);
        assert r.0.tx == TxQueueFail(s1, slot).tx;
        r
      else r
  }

  /** `bam_dmux_netdev_start_xmit` for a payload sent on channel `ch`. */
  function StartXmit(s: State, ch: byte, payload: seq<byte>, env: XmitEnv): (r: (State, Xmit))
    requires Valid(s)
    ensures Valid(r.0)
    // which outcome each combination of the environment's answers gives
    ensures !XmitQueued(env) ==> r == (s, Dropped)
    ensures XmitQueued(env) && !XmitPrepared(env) ==> r == (s, Dropped)
    ensures XmitPrepared(env) && !s.tx[s.txNext % NUM_SKB].Free? ==>
              r == (s.(netdevs := StopQueues(s.netdevs)), Busy)
    ensures XmitPrepared(env) && s.tx[s.txNext % NUM_SKB].Free? ==>
              && r.0.txNext == U32(s.txNext + 1)
              && r.1 == (if !env.mapOk then Dropped
                         else if env.active <= 0 then Deferred(s.txNext % NUM_SKB, s.deferred == 0)
                         else if env.submitOk then Sent(s.txNext % NUM_SKB)
                         else Dropped)
    ensures r.1.Deferred? || r.1.Sent? ==> r.1.slot == s.txNext % NUM_SKB
    // what each outcome leaves behind
    ensures r.1.Deferred? ==>
              && r.0.tx[r.1.slot] == Held(DataFrame(ch, payload))
              && (forall i :: Bit(r.0.deferred, i) <==> i == r.1.slot || Bit(s.deferred, i))
              // the wake work is scheduled by the first deferral only
              && r.0.wakeupPending == (s.wakeupPending || s.deferred == 0)
              && r.0.wire == s.wire
    ensures r.1.Sent? ==>
              && r.0.tx[r.1.slot] == InFlight(DataFrame(ch, payload))
              && r.0.wire == s.wire + [DataFrame(ch, payload)]
              && r.0.deferred == s.deferred
    ensures r.1.Dropped? ==> r.0.wire == s.wire && r.0.deferred == s.deferred
                             && r.0.tx == s.tx
  {
    if !XmitQueued(env) then (s, Dropped)
    else
      var prep := TxPrepare(ch, payload, env.needsExpand, env.expandErr);
      if prep.Err? then (s, Dropped)
      else
        var r := XmitFrame(s, prep.value, env);
        // on Busy, bam_dmux_tx_unprepare_skb gives the stack back its packet
        PrepareUnprepare(ch, payload);
        r
  }

  /** The mask's low 32 bits, lowest first: what `for_each_set_bit` visits. */
  function MaskBits(m: nat): (b: seq<bool>)
    ensures |b| == NUM_SKB && forall i :: 0 <= i < NUM_SKB ==> b[i] == Bit(m, i)
  {
    seq(NUM_SKB, i requires 0 <= i < NUM_SKB => Bit(m, i))
  }

  /** The frames the wake work hands to the DMA engine from the first `k`
      slots: those whose bit is set in `pending` and whose submission
      succeeds, lowest slot first. */
  function PendingSubmits(tx: seq<TxSlot>, pending: seq<bool>, ok: seq<bool>, k: nat)
    : seq<seq<byte>>
    requires |tx| == NUM_SKB && |pending| == NUM_SKB && |ok| == NUM_SKB && k <= NUM_SKB
  {
    if k == 0 then []
    else
      PendingSubmits(tx, pending, ok, k - 1)
      + (if pending[k - 1] && ok[k - 1] && !tx[k - 1].Free? then [tx[k - 1].frame] else [])
  }

  /** A frame is among those submitted from the first `k` slots exactly when
      one of those slots is pending, accepted and holds it. */
  lemma {:induction false} PendingSubmitsMembers(tx: seq<TxSlot>, pending: seq<bool>, ok: seq<bool>, k: nat)
    requires |tx| == NUM_SKB && |pending| == NUM_SKB && |ok| == NUM_SKB && k <= NUM_SKB
    requires forall i :: 0 <= i < NUM_SKB && pending[i] ==> tx[i].Held?
    ensures forall f :: f in PendingSubmits(tx, pending, ok, k) <==>
              exists i :: 0 <= i < k && pending[i] && ok[i] && tx[i] == Held(f)
  {
    if k > 0 {
      PendingSubmitsMembers(tx, pending, ok, k - 1);
      forall f ensures f in PendingSubmits(tx, pending, ok, k) <==>
                       exists i :: 0 <= i < k && pending[i] && ok[i] && tx[i] == Held(f)
      {
        if exists i :: 0 <= i < k && pending[i] && ok[i] && tx[i] == Held(f) {
          var i :| 0 <= i < k && pending[i] && ok[i] && tx[i] == Held(f);
          if i < k - 1 {
            assert f in PendingSubmits(tx, pending, ok, k - 1);
          }
        }
      }
    }
  }

  /** The `for_each_set_bit` loop of `bam_dmux_tx_wakeup_work`: submit, in
      slot order, every slot whose bit is set in `pending`. */
  method SubmitPending(tx0: seq<TxSlot>, pending: seq<bool>, submitOk: seq<bool>)
    returns (tx: seq<TxSlot>, sent: seq<seq<byte>>)
    requires |tx0| == NUM_SKB && |pending| == NUM_SKB && |submitOk| == NUM_SKB
    requires forall i :: 0 <= i < NUM_SKB && pending[i] ==> tx0[i].Held?
    ensures |tx| == NUM_SKB && forall i :: 0 <= i < NUM_SKB ==>
              tx[i] == if pending[i] && submitOk[i] then InFlight(tx0[i].frame) else tx0[i]
    ensures sent == PendingSubmits(tx0, pending, submitOk, NUM_SKB)
    // the frames sent are exactly those of the pending slots that were accepted
    ensures forall f :: f in sent <==>
              exists i :: 0 <= i < NUM_SKB && pending[i] && submitOk[i] && tx0[i] == Held(f)
  {
    tx := tx0;
    sent := [];
    var i := 0;
    while i < NUM_SKB
      invariant 0 <= i <= NUM_SKB
      invariant |tx| == NUM_SKB
      invariant forall j :: 0 <= j < NUM_SKB ==>
                  tx[j] == if j < i && pending[j] && submitOk[j]
                           then InFlight(tx0[j].frame) else tx0[j]
      invariant sent == PendingSubmits(tx0, pending, submitOk, i)
    {
      if pending[i] && submitOk[i] {
        tx := tx[i := InFlight(tx0[i].frame)];
        sent := sent + [tx0[i].frame];
      }
      i := i + 1;
    }
    PendingSubmitsMembers(tx0, pending, submitOk, NUM_SKB);
  }

  /** `bam_dmux_tx_wakeup_work`.  If the resume fails the work returns and
      the deferred mask is left as it is; otherwise it takes the whole mask
      (leaving 0) and submits every slot in it.  A failed submission is
      ignored and leaves its slot held. */
  method WakeupWork(s: State, resumeOk: bool, submitOk: seq<bool>) returns (t: State)
    requires Valid(s) && |submitOk| == NUM_SKB
    ensures Valid(t)
    ensures !resumeOk ==> t == s.(wakeupPending := false)
    ensures resumeOk ==> t.deferred == 0
    ensures resumeOk ==>
              t.wire == s.wire + PendingSubmits(s.tx, MaskBits(s.deferred), submitOk, NUM_SKB)
    ensures resumeOk ==> forall i :: 0 <= i < NUM_SKB ==>
              t.tx[i] == if Bit(s.deferred, i) && submitOk[i]
                         then InFlight(s.tx[i].frame) else s.tx[i]
    ensures t == s.(deferred := t.deferred, wakeupPending := false, tx := t.tx, wire := t.wire)
  {
    if !resumeOk {
      return s.(wakeupPending := false);
    }
    var tx, sent := SubmitPending(s.tx, MaskBits(s.deferred), submitOk);
    t := s.(deferred := 0, wakeupPending := false, tx := tx, wire := s.wire + sent);
    forall j | 0 <= j ensures !Bit(t.deferred, j) {
      ZeroNoBits(j);
    }
  }

  /** After a failed resume nothing will submit the deferred frames: the mask
      stays nonzero, so the next deferral does not schedule the work again. */
  lemma WakeupFailureStalls(s: State, ch: byte, payload: seq<byte>, env: XmitEnv)
    requires Valid(s) && s.deferred != 0 && !s.wakeupPending
    ensures var r := StartXmit(s, ch, payload, env);
            r.1.Deferred? ==> !r.1.scheduled && !r.0.wakeupPending
  {
  }

  // ---------------------------------------------------------------------
  // Receive path

  function ProtoOf(b: byte): (p: Proto)
    ensures p == IPv4 <==> b / 16 == 4
    ensures p == IPv6 <==> b / 16 == 6
  {
    if b / 16 == 4 then IPv4 else if b / 16 == 6 then IPv6 else Map
  }

  /** `bam_dmux_cmd_data` on a DMA-filled receive buffer.  The first
      component says whether the packet was delivered (and a fresh buffer
      queued in its place); `requeueOk` is whether queuing that buffer
      succeeded. */
  function CmdData(s: State, buf: seq<byte>, requeueOk: bool): (r: (bool, State))
    requires Valid(s) && |buf| == BUFFER_SIZE && DecodeHdr(buf).ch < NUM_CH
    requires s.rxPosted < NUM_SKB  // this buffer is off the DMA engine
    ensures Valid(r.1)
    ensures var h := DecodeHdr(buf); var nd := s.netdevs[h.ch];
      r.0 <==> nd.Some? && nd.value.running
    ensures !r.0 ==> r.1 == s
    ensures r.0 ==> var h := DecodeHdr(buf); var len := Min(h.len, MAX_DATA_SIZE);
      && len <= MAX_DATA_SIZE
      && r.1.received == s.received +
           [Packet(h.ch, ProtoOf(buf[HDR_SIZE]), buf[HDR_SIZE..HDR_SIZE + len])]
      && r.1 == s.(received := r.1.received, rxPosted := r.1.rxPosted)
  {
    var h := DecodeHdr(buf);
    var nd := s.netdevs[h.ch];
    if nd.None? || !nd.value.running then (false, s)
    else
      // an oversized length is clamped to what the buffer can hold
      var len := if h.len > MAX_DATA_SIZE then MAX_DATA_SIZE else h.len;
      var p := Packet(h.ch, ProtoOf(buf[HDR_SIZE]), buf[HDR_SIZE..HDR_SIZE + len]);
      (true, s.(received := s.received + [p],
                rxPosted := if requeueOk then s.rxPosted + 1 else s.rxPosted))
  }

  /** `netif_device_attach`: mark the interface present again; a running
      interface that was detached gets its transmit queue woken. */
  function Attach(nd: Netdev): (r: Netdev)
    ensures r.attached && r.running == nd.running
    ensures nd.running && !nd.attached ==> !r.queueStopped
    ensures !nd.running || nd.attached ==> r == nd.(attached := true)
  {
    if nd.running && !nd.attached then nd.(attached := true, queueStopped := false)
    else nd.(attached := true)
  }

  /** `netif_device_detach`: mark the interface absent; a running interface
      that was present gets its transmit queue stopped. */
  function Detach(nd: Netdev): (r: Netdev)
    ensures !r.attached && r.running == nd.running
    ensures nd.running && nd.attached ==> r.queueStopped
    ensures !nd.running || !nd.attached ==> r == nd.(attached := false)
  {
    if nd.running && nd.attached then nd.(attached := false, queueStopped := true)
    else nd.(attached := false)
  }

  /** `bam_dmux_cmd_open`. */
  function CmdOpen(s: State, ch: nat): (r: State)
    requires Valid(s) && ch < NUM_CH
    ensures Valid(r)
    ensures r.received == s.received && r.rxPosted == s.rxPosted
    // an OPEN for a channel already open is refused and changes nothing
    ensures Bit(s.remote, ch) ==> r == s
    ensures !Bit(s.remote, ch) ==>
              && r.remote == SetBit(s.remote, ch)
              && (forall c :: 0 <= c < NUM_CH && c != ch ==> r.netdevs[c] == s.netdevs[c])
              && r == s.(remote := r.remote, netdevs := r.netdevs,
                         registerPending := r.registerPending)
    // an existing interface is attached, and a running one can transmit again
    ensures !Bit(s.remote, ch) && s.netdevs[ch].Some? ==>
              var nd := s.netdevs[ch].value;
              && r.netdevs[ch].Some? && r.netdevs[ch].value.attached
              && r.netdevs[ch].value.running == nd.running
              && (nd.running && !nd.attached ==> !r.netdevs[ch].value.queueStopped)
              && r.registerPending == s.registerPending
    // without an interface, registration is scheduled
    ensures !Bit(s.remote, ch) && s.netdevs[ch].None? ==>
              r.netdevs[ch].None? && r.registerPending
  {
    if Bit(s.remote, ch) then s
    else
      Pow2Widths();
      SetBitBound(s.remote, ch, NUM_CH);
      var s1 := s.(remote := SetBit(s.remote, ch));
      if s.netdevs[ch].Some?
      then s1.(netdevs := s.netdevs[ch := Some(Attach(s.netdevs[ch].value))])
      else s1.(registerPending := true)
  }

  /** `bam_dmux_cmd_close`. */
  function CmdClose(s: State, ch: nat): (r: State)
    requires Valid(s) && ch < NUM_CH
    ensures Valid(r)
    ensures r.received == s.received && r.rxPosted == s.rxPosted
    // a CLOSE for a channel not open is refused and changes nothing
    ensures !Bit(s.remote, ch) ==> r == s
    ensures Bit(s.remote, ch) ==>
              && r.remote == ClearBit(s.remote, ch)
              && (forall c :: 0 <= c < NUM_CH && c != ch ==> r.netdevs[c] == s.netdevs[c])
              && r == s.(remote := r.remote, netdevs := r.netdevs)
    // an existing interface is detached, and a running one stops transmitting
    ensures Bit(s.remote, ch) && s.netdevs[ch].Some? ==>
              var nd := s.netdevs[ch].value;
              && r.netdevs[ch].Some? && !r.netdevs[ch].value.attached
              && r.netdevs[ch].value.running == nd.running
              && (nd.running && nd.attached ==> r.netdevs[ch].value.queueStopped)
    ensures Bit(s.remote, ch) && s.netdevs[ch].None? ==> r.netdevs[ch].None?
  {
    if !Bit(s.remote, ch) then s
    else
      ClearBitBound(s.remote, ch);
      var s1 := s.(remote := ClearBit(s.remote, ch));
      if s.netdevs[ch].Some?
      then s1.(netdevs := s.netdevs[ch := Some(Detach(s.netdevs[ch].value))])
      else s1
  }

  /** OPEN and CLOSE move exactly the channel's own bit of
      `remote_channels`: OPEN leaves it set, CLOSE leaves it clear, and no
      other channel's bit changes. */
  lemma OpenCloseBits(s: State, ch: nat)
    requires Valid(s) && ch < NUM_CH
    ensures Bit(CmdOpen(s, ch).remote, ch)
    ensures !Bit(CmdClose(s, ch).remote, ch)
    ensures forall j :: j != ch ==>
              Bit(CmdOpen(s, ch).remote, j) == Bit(s.remote, j) &&
              Bit(CmdClose(s, ch).remote, j) == Bit(s.remote, j)
  {
    SetBitSpec(s.remote, ch);
    ClearBitSpec(s.remote, ch);
  }

  /** Outcomes of the DMA engine calls an RX completion makes. */
  datatype RxEnv = RxEnv(resubmitOk: bool, requeueOk: bool)

  /** How the receive buffer went back to the DMA engine. */
  datatype RxRecycle = SameBuffer | FreshBuffer

  /** The OPEN and CLOSE arms of the dispatch; any other command only logs. */
  function Control(s: State, cmd: byte, ch: nat): (r: State)
    requires Valid(s) && ch < NUM_CH
    ensures Valid(r)
    ensures r.received == s.received && r.rxPosted == s.rxPosted
    ensures cmd == CMD_OPEN ==> r == CmdOpen(s, ch)
    ensures cmd == CMD_CLOSE ==> r == CmdClose(s, ch)
    ensures cmd > CMD_CLOSE || cmd == CMD_DATA ==> r == s
    // after OPEN the modem's channel is open, after CLOSE it is closed, and
    // no other channel's bit moves
    ensures cmd == CMD_OPEN ==> Bit(r.remote, ch)
    ensures cmd == CMD_CLOSE ==> !Bit(r.remote, ch)
    ensures forall j :: j != ch ==> Bit(r.remote, j) == Bit(s.remote, j)
  {
    OpenCloseBits(s, ch);
    if cmd == CMD_OPEN then CmdOpen(s, ch)
    else if cmd == CMD_CLOSE then CmdClose(s, ch)
    else s
  }

  /** `bam_dmux_skb_dma_submit_rx` on the buffer just completed. */
  function Resubmit(t: State, ok: bool): (r: State)
    requires Valid(t) && t.rxPosted < NUM_SKB
    ensures Valid(r) && r.rxPosted <= t.rxPosted + 1
    ensures r.rxPosted > t.rxPosted <==> ok
    ensures r == t.(rxPosted := r.rxPosted)
  {
    t.(rxPosted := if ok then t.rxPosted + 1 else t.rxPosted)
  }

  /** The completed buffer is no longer posted to the DMA engine. */
  function Taken(s: State): (r: State)
    requires Valid(s) && s.rxPosted > 0
    ensures Valid(r) && r.rxPosted < NUM_SKB && r.rxPosted + 1 == s.rxPosted
    ensures r == s.(rxPosted := r.rxPosted)
  {
    s.(rxPosted := s.rxPosted - 1)
  }

  /** `bam_dmux_rx_callback`: one receive buffer of `BUFFER_SIZE` bytes has
      been filled by the modem. */
  function RxCallback(s: State, buf: seq<byte>, env: RxEnv): (r: (State, RxRecycle))
    requires Valid(s) && |buf| == BUFFER_SIZE && s.rxPosted > 0
    ensures Valid(r.0)
    // a frame that fails validation changes nothing but the buffer count
    ensures var h := DecodeHdr(buf);
      (h.magic != HDR_MAGIC || h.ch >= NUM_CH || h.cmd > CMD_CLOSE) ==>
        r.1 == SameBuffer &&
        r.0 == s.(rxPosted := if env.resubmitOk then s.rxPosted else s.rxPosted - 1)
    // a valid OPEN or CLOSE runs its handler, then the buffer is resubmitted
    ensures var h := DecodeHdr(buf);
      h.magic == HDR_MAGIC && h.ch < NUM_CH && h.cmd == CMD_OPEN ==>
        r == (Resubmit(CmdOpen(Taken(s), h.ch), env.resubmitOk), SameBuffer)
    ensures var h := DecodeHdr(buf);
      h.magic == HDR_MAGIC && h.ch < NUM_CH && h.cmd == CMD_CLOSE ==>
        r == (Resubmit(CmdClose(Taken(s), h.ch), env.resubmitOk), SameBuffer)
    // DATA on a channel without a running interface is dropped
    ensures var h := DecodeHdr(buf);
      h.magic == HDR_MAGIC && h.ch < NUM_CH && h.cmd == CMD_DATA &&
      !(s.netdevs[h.ch].Some? && s.netdevs[h.ch].value.running) ==>
        r == (Resubmit(Taken(s), env.resubmitOk), SameBuffer)
    ensures r.1 == FreshBuffer ==> |r.0.received| == |s.received| + 1
    ensures r.1 == SameBuffer ==> r.0.received == s.received
  {
    var h := DecodeHdr(buf);
    var s0 := Taken(s);
    if h.magic != HDR_MAGIC || h.ch >= NUM_CH then (Resubmit(s0, env.resubmitOk), SameBuffer)
    else Dispatch(s0, buf, env)
  }

  /** The `switch (hdr->cmd)` of `bam_dmux_rx_callback`, for a frame whose
      magic and channel are valid. */
  function Dispatch(s: State, buf: seq<byte>, env: RxEnv): (r: (State, RxRecycle))
    requires Valid(s) && |buf| == BUFFER_SIZE && s.rxPosted < NUM_SKB
    requires DecodeHdr(buf).magic == HDR_MAGIC && DecodeHdr(buf).ch < NUM_CH
    ensures Valid(r.0)
    ensures var h := DecodeHdr(buf);
      h.cmd == CMD_OPEN ==> r == (Resubmit(CmdOpen(s, h.ch), env.resubmitOk), SameBuffer)
    ensures var h := DecodeHdr(buf);
      h.cmd == CMD_CLOSE ==> r == (Resubmit(CmdClose(s, h.ch), env.resubmitOk), SameBuffer)
    ensures DecodeHdr(buf).cmd > CMD_CLOSE ==> r == (Resubmit(s, env.resubmitOk), SameBuffer)
    // DATA takes a fresh buffer exactly when the channel's interface is
    // running; otherwise the same buffer goes back untouched
    ensures var h := DecodeHdr(buf); var nd := s.netdevs[h.ch];
      h.cmd == CMD_DATA ==> (r.1 == FreshBuffer <==> nd.Some? && nd.value.running)
    ensures var h := DecodeHdr(buf); var nd := s.netdevs[h.ch];
      h.cmd == CMD_DATA && !(nd.Some? && nd.value.running) ==>
        r == (Resubmit(s, env.resubmitOk), SameBuffer)
    ensures r.1 == FreshBuffer ==> |r.0.received| == |s.received| + 1
    ensures r.1 == SameBuffer ==> r.0.received == s.received
  {
    var h := DecodeHdr(buf);
    if h.cmd == CMD_DATA then
      var (delivered, s1) := CmdData(s, buf, env.requeueOk);
      if delivered then (s1, FreshBuffer) else (Resubmit(s, env.resubmitOk), SameBuffer)
    else (Resubmit(Control(s, h.cmd, h.ch), env.resubmitOk), SameBuffer)
  }

  /** A data frame built by the transmit path, as the peer's DMA engine
      writes it into a receive buffer, reaches the stack intact on the
      channel it was sent on. */
  lemma DataFrameDelivered(s: State, ch: byte, payload: seq<byte>, rest: seq<byte>, env: RxEnv)
    requires Valid(s) && s.rxPosted > 0
    requires ch < NUM_CH && s.netdevs[ch].Some? && s.netdevs[ch].value.running
    requires |payload| <= MAX_DATA_SIZE
    requires |DataFrame(ch, payload) + rest| == BUFFER_SIZE
    ensures var buf := DataFrame(ch, payload) + rest;
            var r := RxCallback(s, buf, env);
            && r.1 == FreshBuffer
            && r.0.received == s.received + [Packet(ch, ProtoOf(buf[HDR_SIZE]), payload)]
  {
    var f := DataFrame(ch, payload);
    var buf := f + rest;
    DataFrameHeader(ch, payload);
    assert buf[..HDR_SIZE] == f[..HDR_SIZE];
    assert DecodeHdr(buf) == DecodeHdr(f[..HDR_SIZE]);
    HdrRoundTrip(Hdr(HDR_MAGIC, 0, CMD_DATA, PadFor(|payload|), ch, U16(|payload|)));
    assert DecodeHdr(buf).len == |payload|;
    assert buf[HDR_SIZE..HDR_SIZE + |payload|] == f[HDR_SIZE..HDR_SIZE + |payload|];
  }

  /** An OPEN frame as `bam_dmux_send_cmd` builds it, received on any
      buffer, leaves the modem's channel open and every other channel as it
      was. */
  lemma OpenFrameOpens(s: State, ch: byte, rest: seq<byte>, env: RxEnv)
    requires Valid(s) && s.rxPosted > 0 && ch < NUM_CH
    requires |CmdFrame(CMD_OPEN, ch) + rest| == BUFFER_SIZE
    ensures var r := RxCallback(s, CmdFrame(CMD_OPEN, ch) + rest, env);
            && r.1 == SameBuffer && r.0.received == s.received
            && Bit(r.0.remote, ch)
            && (forall j :: j != ch ==> Bit(r.0.remote, j) == Bit(s.remote, j))
  {
    var f := CmdFrame(CMD_OPEN, ch);
    var buf := f + rest;
    assert buf[..HDR_SIZE] == f;
    assert DecodeHdr(buf) == DecodeHdr(f);
    OpenCloseBits(Taken(s), ch);
  }

  /** A CLOSE frame leaves the modem's channel closed and every other
      channel as it was. */
  lemma CloseFrameCloses(s: State, ch: byte, rest: seq<byte>, env: RxEnv)
    requires Valid(s) && s.rxPosted > 0 && ch < NUM_CH
    requires |CmdFrame(CMD_CLOSE, ch) + rest| == BUFFER_SIZE
    ensures var r := RxCallback(s, CmdFrame(CMD_CLOSE, ch) + rest, env);
            && r.1 == SameBuffer && r.0.received == s.received
            && !Bit(r.0.remote, ch)
            && (forall j :: j != ch ==> Bit(r.0.remote, j) == Bit(s.remote, j))
  {
    var f := CmdFrame(CMD_CLOSE, ch);
    var buf := f + rest;
    assert buf[..HDR_SIZE] == f;
    assert DecodeHdr(buf) == DecodeHdr(f);
    OpenCloseBits(Taken(s), ch);
  }

  // ---------------------------------------------------------------------
  // Netdev registration

  /** `bam_dmux_register_netdev_work` from channel `ch` on: each open
      channel without an interface gets one, until an allocation or
      registration fails; `okLeft` is how many more succeed. */
  function RegisterFrom(s: State, ch: nat, okLeft: nat): (r: State)
    requires Valid(s) && ch <= NUM_CH
    ensures Valid(r)
    ensures r == s.(netdevs := r.netdevs)
    ensures forall c :: 0 <= c < NUM_CH ==>
              (c < ch || s.netdevs[c].Some? ==> r.netdevs[c] == s.netdevs[c])
    ensures forall c :: ch <= c < NUM_CH && r.netdevs[c].Some? && s.netdevs[c].None? ==>
              Bit(s.remote, c)
    ensures okLeft >= NUM_CH - ch ==>
              forall c :: ch <= c < NUM_CH && Bit(s.remote, c) ==> r.netdevs[c].Some?
    decreases NUM_CH - ch
  {
    if ch == NUM_CH then s
    else if !Bit(s.remote, ch) || s.netdevs[ch].Some? then RegisterFrom(s, ch + 1, okLeft)
    else if okLeft == 0 then s
    else
      var s1 := s.(netdevs := s.netdevs[ch := Some(Netdev(false, false, true))]);
      RegisterFrom(s1, ch + 1, okLeft - 1)
  }

  function RegisterNetdevWork(s: State, okCount: nat): (r: State)
    requires Valid(s)
    ensures Valid(r)
    ensures !r.registerPending
    // an interface is only ever created for a channel the modem opened
    ensures forall c :: 0 <= c < NUM_CH && r.netdevs[c].Some? && s.netdevs[c].None? ==>
              Bit(s.remote, c)
    ensures forall c :: 0 <= c < NUM_CH && s.netdevs[c].Some? ==> r.netdevs[c] == s.netdevs[c]
  {
    RegisterFrom(s.(registerPending := false), 0, okCount)
  }

  // ---------------------------------------------------------------------
  // Power-collapse handshake

  /** `bam_dmux_power_off`: release the RX channel and buffers. */
  function PowerOff(s: State): (r: State)
    requires Valid(s)
    ensures Valid(r) && !r.rxChan && r.rxPosted == 0
    ensures r == s.(rxChan := r.rxChan, rxPosted := r.rxPosted)
  {
    s.(rxChan := false, rxPosted := 0)
  }

  /** `bam_dmux_pc_irq`: the modem toggled its power-control line.
      `powerOnOk` is whether requesting the RX channel and posting all 32
      receive buffers succeeded. */
  function PcIrq(s: State, powerOnOk: bool): (r: State)
    requires Valid(s)
    ensures Valid(r)
    ensures r.pcState == !s.pcState
    // rising edge: ack and link-up only after a successful power-on
    ensures r.pcState ==>
              if powerOnOk
              then r.pcAckState == !s.pcAckState && r.linkUp && r.rxChan
                   && r.rxPosted == NUM_SKB
              else r.pcAckState == s.pcAckState && r.linkUp == s.linkUp
                   && !r.rxChan && r.rxPosted == 0
    // falling edge: link down, torn down, then acked
    ensures !r.pcState ==> r.pcAckState == !s.pcAckState && !r.linkUp
                           && !r.rxChan && r.rxPosted == 0
    ensures r.tx == s.tx && r.deferred == s.deferred && r.remote == s.remote
  {
    var pc := !s.pcState;
    var s0 := s.(pcState := pc);
    if pc then
      if powerOnOk
      then s0.(rxChan := true, rxPosted := NUM_SKB, pcAckState := !s.pcAckState,
               linkUp := true)
      else PowerOff(s0)
    else
      PowerOff(s0.(linkUp := false)).(pcAckState := !s.pcAckState)
  }

  /** A sequence of power-control edges, each with its power-on outcome
      (which only matters on a rising edge). */
  function PcEdges(s: State, ons: seq<bool>): (r: State)
    requires Valid(s)
    ensures Valid(r)
    ensures r.pcState == (s.pcState != (|ons| % 2 == 1))
    decreases |ons|
  {
    if |ons| == 0 then s else PcEdges(PcIrq(s, ons[0]), ons[1..])
  }

  /** How many of those edges are rising edges whose power-on fails. */
  function FailedRises(s: State, ons: seq<bool>): nat
    requires Valid(s)
    decreases |ons|
  {
    if |ons| == 0 then 0
    else (if !s.pcState && !ons[0] then 1 else 0) + FailedRises(PcIrq(s, ons[0]), ons[1..])
  }

  /** Every edge flips the ack line except a rising edge whose power-on
      fails, so whether ack mirrors the power-control line changes exactly
      at each such failure.  In particular, while power-ons succeed, a
      mirrored pair stays mirrored. */
  lemma {:induction false} AckTracksPc(s: State, ons: seq<bool>)
    requires Valid(s)
    ensures var r := PcEdges(s, ons);
            (r.pcAckState == r.pcState)
              == ((s.pcAckState == s.pcState) == (FailedRises(s, ons) % 2 == 0))
    decreases |ons|
  {
    if |ons| > 0 {
      AckTracksPc(PcIrq(s, ons[0]), ons[1..]);
    }
  }

  lemma {:induction false} NoFailedRises(s: State, ons: seq<bool>)
    requires Valid(s) && forall k :: 0 <= k < |ons| ==> ons[k]
    ensures FailedRises(s, ons) == 0
    decreases |ons|
  {
    if |ons| > 0 {
      NoFailedRises(PcIrq(s, ons[0]), ons[1..]);
    }
  }

  // ---------------------------------------------------------------------
  // Probe

  /** The record right after `bam_dmux_probe`: nothing queued or open, and,
      when the modem's line was already high, the same power-on as a rising
      edge. */
  function Probe(pcLevel: bool, powerOnOk: bool): (r: State)
    ensures Valid(r)
    ensures r.pcState == pcLevel
    ensures r.pcAckState == (pcLevel && powerOnOk)
    ensures r.linkUp == (pcLevel && powerOnOk)
    ensures forall i :: 0 <= i < NUM_SKB ==> r.tx[i] == Free
    ensures r.deferred == 0 && r.remote == 0 && r.wire == [] && r.received == []
  {
    var s := State(pcLevel, false, false, false, 0,
                   seq(NUM_SKB, _ => Free), 0, 0, false,
                   0, seq(NUM_CH, _ => None), false, [], []);
    assert Valid(s) by {
      forall i | 0 <= i ensures !Bit(0, i) { ZeroNoBits(i); }
    }
    if pcLevel && powerOnOk
    then s.(rxChan := true, rxPosted := NUM_SKB, pcAckState := true, linkUp := true)
    else s
  }
}
