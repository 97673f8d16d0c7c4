# MSM8916 driver logic in Dafny

This project models the integer and bit-field logic at the heart of seven
MSM8916 mainline drivers. Each driver is a Dafny module of pure functions
over immutable records, and the module's contracts and lemmas state what
the driver promises.

- `Dmux` and `DmuxFrame` (bam-dmux.c) model the BAM-DMUX network multiplexer.
  - `DmuxFrame` holds the 8-byte header codec, data frames with their 1..4 padding bytes, and header-only OPEN/CLOSE frames.
  - `Dmux` holds one `State` record: the 32-slot TX ring, the deferred-TX mask, the `remote_channels` mask, the nine network interfaces and the power-control and ack lines. The driver's step functions move this record: queueing, TX completion, `start_xmit`, the wake work, the RX dispatch, OPEN/CLOSE/DATA and the power-collapse interrupt.
  - `Bits` reads a C `unsigned int` mask one bit at a time.
- `SmbFloat` and `Smb1360` (smb1360.c) model the SMB1360 charger and fuel gauge.
  - `SmbFloat` is the 16-bit float format of the OTP gain registers.
  - `Smb1360` holds the property decoders and scalings, the device-tree-to-register mappings and the shutdown-polarity rule.
- `BmsVm` (pm8916_bms_vm.c) models the voltage-mode battery monitor's OCV estimator, together with its health and status properties and its probe and resume initialisation.
- `Lbc` (pm8916_lbc.c) models the linear charger's limit clamping and register codes, and its probe checks.
- `Himax` (himax_852xES.c) models the Himax 852xES touchscreen: the event buffer layout, the configuration decoding and the interrupt's finger/key state machine.
- `Msg2638` (msg2638.c) models the MStar MSG2638 touchscreen frame: its checksum and its parse loop. An encoder for frames lets the model state the round trip.
- `Qdsp6` (msm8916-qdsp6.c) models the sound card: MI2S DAI ids, the iomux selection, jack creation, the per-port bit-clock reference counts and the back-end fixup.
- `Kernel` holds the C integer types with explicit wrap-around (`U32`, `S32`, `U16`), errno values, `Result`/`Option`, and the kernel's rounding divisions.

Register reads, DMA engine and runtime-PM outcomes, device-tree properties and
charger queries all become parameters. Register writes are returned as lists of
writes or `regmap_update_bits` calls. Where the OPEN/CLOSE command frames or data
frames leave the device, they are appended to `wire`, and received packets are
appended to `received`.

One point where the code differs from the prose description of the protocol:
the data padding is `4 - len % 4`, in 1..4, so an aligned payload still gets
four zero bytes. The model follows the code (`DmuxFrame.PadFor`). Also,
`hw_params_fixup` only adds S16_LE to the format mask and does not clear the
other formats, and `Qdsp6.HwParamsFixup` says exactly that.

## Model

| member | source | states |
|---|---|---|
| DmuxFrame.HdrRoundTrip | drivers/net/ethernet/qualcomm/bam-dmux.c:49-56 | reading back the 8 little-endian bytes of a header gives the same six fields |
| DmuxFrame.HdrBytesRoundTrip | drivers/net/ethernet/qualcomm/bam-dmux.c:49-56 | re-encoding the header read from a buffer reproduces its first 8 bytes |
| DmuxFrame.EncodeHdr | drivers/net/ethernet/qualcomm/bam-dmux.c:49-56 | the 8 bytes hold the magic and the length little-endian at 0-1 and 6-7, and the signal, command, pad and channel bytes at 2-5 |
| DmuxFrame.DecodeHdr | drivers/net/ethernet/qualcomm/bam-dmux.c:49-56 | the header read from a buffer is the one whose encoding is the buffer's first 8 bytes |
| DmuxFrame.PadFor | drivers/net/ethernet/qualcomm/bam-dmux.c:315 | the pad is in 1..4, makes the length a multiple of 4, and is 4 exactly when the payload is already aligned |
| DmuxFrame.TxPrepare | drivers/net/ethernet/qualcomm/bam-dmux.c:312-337 | a failed buffer expansion returns its error; otherwise the result is the data frame for the channel and payload |
| DmuxFrame.DataFrameHeader | drivers/net/ethernet/qualcomm/bam-dmux.c:312-337 | the data frame carries magic 0x33fc, signal 0, DATA, the pad, the channel and the length, then the payload, then pad zero bytes, for a total that is a multiple of 4 |
| DmuxFrame.TxUnprepare | drivers/net/ethernet/qualcomm/bam-dmux.c:339-346 | the header and `pad` trailing bytes are dropped, and every remaining byte is the frame's byte after the header |
| DmuxFrame.PrepareUnprepare | drivers/net/ethernet/qualcomm/bam-dmux.c:312-346 | unpreparing a prepared frame gives back exactly the payload |
| DmuxFrame.CmdFrame | drivers/net/ethernet/qualcomm/bam-dmux.c:240-247 | a command frame is a bare 8-byte header with magic, the command and the channel, and zero signal, pad and length |
| Dmux.StopQueues | drivers/net/ethernet/qualcomm/bam-dmux.c:140-152 | every registered interface ends with its queue stopped and keeps its running and attached flags, and empty channels stay empty |
| Dmux.WakeQueues | drivers/net/ethernet/qualcomm/bam-dmux.c:126-138 | a registered interface's queue stays stopped exactly when it was stopped and is not running; its other flags are kept and empty channels stay empty |
| Dmux.StopThenWake | drivers/net/ethernet/qualcomm/bam-dmux.c:126-152 | stopping every queue and then waking them leaves stopped exactly the registered interfaces that are not running |
| Dmux.NextSlotWraps | drivers/net/ethernet/qualcomm/bam-dmux.c:211-214 | wrapping the 32-bit slot counter does not disturb the slot sequence modulo 32 |
| Dmux.RingQueue | drivers/net/ethernet/qualcomm/bam-dmux.c:195-220 | an occupied slot `next % 32` fails and stops the queues with the counter unchanged; otherwise the frame is held there, the counter advances, and the queues stop exactly when the following slot is occupied |
| Dmux.TxQueue | drivers/net/ethernet/qualcomm/bam-dmux.c:195-220 | a free slot at `tx_next_skb % 32` receives the frame, the counter advances modulo 2^32 and no other slot changes; an occupied slot is refused with ring and counter unchanged; the queues are stopped exactly when the slot now at the counter is occupied |
| Dmux.QueueAll | drivers/net/ethernet/qualcomm/bam-dmux.c:195-220 | queueing several frames gives one slot and one stop flag per frame |
| Dmux.QueueRun | drivers/net/ethernet/qualcomm/bam-dmux.c:195-220 | frames queued one after another take the consecutive free slots in order, and only the frame that fills the last free slot stops the queues |
| Dmux.RingExhaustion | drivers/net/ethernet/qualcomm/bam-dmux.c:195-220 | from an empty ring, 32 frames take all 32 distinct slots, the 32nd stops the queues, and a 33rd is refused |
| Dmux.TxQueueFail | drivers/net/ethernet/qualcomm/bam-dmux.c:222-229 | the failed frame's slot becomes free and every other slot and field keeps its value |
| Dmux.QueueFailRestores | drivers/net/ethernet/qualcomm/bam-dmux.c:195-229 | queueing a frame and then taking the failure path gives back the original ring |
| Dmux.SubmitTx | drivers/net/ethernet/qualcomm/bam-dmux.c:176-193 | a successful submission puts that slot in flight and appends its frame to the wire; a failed one changes nothing; every other slot and field keeps its value |
| Dmux.TxCallback | drivers/net/ethernet/qualcomm/bam-dmux.c:154-174 | completion frees that slot only, and wakes the queues exactly when it is the slot at `tx_next_skb % 32`; nothing else changes |
| Dmux.SendComplete | drivers/net/ethernet/qualcomm/bam-dmux.c:154-229 | queueing a frame into a free slot, submitting it and completing it restores the ring, puts the frame on the wire once and advances the counter by one |
| Dmux.SendCmd | drivers/net/ethernet/qualcomm/bam-dmux.c:231-281 | allocation, runtime-PM, ring, DMA-map and submit failures give ENOMEM, the PM error, EBUSY, ENOMEM and EIO; only success puts the command frame on the wire |
| Dmux.NetdevOpen | drivers/net/ethernet/qualcomm/bam-dmux.c:283-294 | open succeeds iff the OPEN command is sent, and the interface is running exactly after a success |
| Dmux.NetdevStop | drivers/net/ethernet/qualcomm/bam-dmux.c:296-303 | the interface ends stopped and not running whatever becomes of the CLOSE command; the CLOSE frame goes on the wire once exactly when allocation, the runtime-PM get, the ring slot, the mapping and the submission all succeed, and otherwise nothing is sent |
| Dmux.Defer | drivers/net/ethernet/qualcomm/bam-dmux.c:377-381 | the slot's bit joins the deferred mask, and the wake work is scheduled exactly when the mask was empty |
| Dmux.XmitSlot | drivers/net/ethernet/qualcomm/bam-dmux.c:360-397 | a held slot is freed and its frame dropped on a map failure, deferred with its bit set (the work scheduled iff the mask was empty) while the link is inactive, and put in flight on the wire when active and submitted |
| Dmux.XmitFrame | drivers/net/ethernet/qualcomm/bam-dmux.c:348-397 | an occupied slot is busy with only the queues stopped; otherwise the frame takes slot `tx_next_skb % 32`, the counter advances, and the outcome is the one that slot gets |
| Dmux.StartXmit | drivers/net/ethernet/qualcomm/bam-dmux.c:348-397 | a failed PM query or buffer expansion drops the packet with nothing changed; an occupied slot is busy and only stops the queues; otherwise the data frame takes slot `tx_next_skb % 32`, and is dropped on a map failure, deferred while the link is inactive, and sent or dropped by the submit result while it is active |
| Dmux.SubmitPending | drivers/net/ethernet/qualcomm/bam-dmux.c:412-420 | every deferred slot is submitted; the frames put on the wire are exactly those of deferred slots whose submission succeeded, and those slots go in flight |
| Dmux.PendingSubmitsMembers | drivers/net/ethernet/qualcomm/bam-dmux.c:412-420 | a frame is among those submitted iff some deferred slot held it and its submission succeeded |
| Dmux.WakeupWork | drivers/net/ethernet/qualcomm/bam-dmux.c:399-425 | a failed resume leaves the mask as it was; otherwise the whole mask is taken and cleared and every set slot is submitted |
| Dmux.WakeupFailureStalls | drivers/net/ethernet/qualcomm/bam-dmux.c:377-381 | after a failed resume the mask stays nonzero, so a later deferral schedules no new work |
| Dmux.ProtoOf | drivers/net/ethernet/qualcomm/bam-dmux.c:561-571 | a high nibble of 4 is IPv4, 6 is IPv6, anything else MAP |
| Dmux.CmdData | drivers/net/ethernet/qualcomm/bam-dmux.c:528-579 | data for a channel without a running interface is refused with the record unchanged; otherwise the length is clamped to 2040 and the payload is delivered with the protocol of its first byte |
| Dmux.CmdOpen | drivers/net/ethernet/qualcomm/bam-dmux.c:581-600 | OPEN on a set bit changes nothing; otherwise it sets only that bit and either re-attaches the channel's interface, waking the transmit queue of a running interface that was detached, or, when there is none, schedules its registration |
| Dmux.CmdClose | drivers/net/ethernet/qualcomm/bam-dmux.c:602-616 | CLOSE on a clear bit changes nothing; otherwise it clears only that bit and detaches the channel's interface, if there is one, stopping the transmit queue of a running attached interface |
| Dmux.OpenCloseBits | drivers/net/ethernet/qualcomm/bam-dmux.c:581-616 | after OPEN the channel is open and after CLOSE it is closed, and no other channel's bit moves |
| Dmux.Control | drivers/net/ethernet/qualcomm/bam-dmux.c:638-653 | OPEN runs the OPEN handler and leaves the channel open, CLOSE runs the CLOSE handler and leaves it closed, no other channel's bit moves, and any other command leaves the record as it was |
| Dmux.RxCallback | drivers/net/ethernet/qualcomm/bam-dmux.c:618-658 | a bad magic, a channel of 9 or more or an unknown command only resubmits the same buffer; a valid OPEN or CLOSE runs its handler before the resubmission; DATA for a channel without a running interface is dropped and the same buffer resubmitted; a fresh buffer means exactly one packet was delivered |
| Dmux.Dispatch | drivers/net/ethernet/qualcomm/bam-dmux.c:638-653 | OPEN and CLOSE run their handlers and then resubmit the same buffer; an unknown command only resubmits it; DATA takes a fresh buffer exactly when the channel's interface is running, and otherwise resubmits the same buffer with nothing else changed |
| Dmux.DataFrameDelivered | drivers/net/ethernet/qualcomm/bam-dmux.c:528-579 | a data frame built by the transmit path and received on a running channel delivers exactly its payload |
| Dmux.OpenFrameOpens | drivers/net/ethernet/qualcomm/bam-dmux.c:618-658 | an OPEN frame as the transmit side builds it, received in any buffer, leaves that channel open and every other channel as it was, with no packet delivered |
| Dmux.CloseFrameCloses | drivers/net/ethernet/qualcomm/bam-dmux.c:618-658 | a CLOSE frame as the transmit side builds it leaves that channel closed and every other channel as it was, with no packet delivered |
| Dmux.RegisterFrom | drivers/net/ethernet/qualcomm/bam-dmux.c:464-493 | interfaces are created only for open channels that have none, existing ones are kept, and enough successes create all of them |
| Dmux.RegisterNetdevWork | drivers/net/ethernet/qualcomm/bam-dmux.c:456-494 | the work clears its pending flag, creates interfaces only for open channels, and keeps the existing ones |
| Dmux.PcIrq | drivers/net/ethernet/qualcomm/bam-dmux.c:715-737 | each edge flips `pc_state`; a rising edge that powers on flips the ack and brings the link up, a failed one tears down without acking; a falling edge tears down and flips the ack |
| Dmux.PcEdges | drivers/net/ethernet/qualcomm/bam-dmux.c:715-737 | after a series of edges `pc_state` has flipped once per edge |
| Dmux.AckTracksPc | drivers/net/ethernet/qualcomm/bam-dmux.c:97-102 | after a series of edges the ack line differs from the power-control line exactly by the parity of failed rising edges |
| Dmux.NoFailedRises | drivers/net/ethernet/qualcomm/bam-dmux.c:715-737 | when every power-on succeeds there are no failed rising edges, so the ack follows `pc_state` |
| Dmux.Probe | drivers/net/ethernet/qualcomm/bam-dmux.c:861-880 | the initial record has an empty ring, no deferred or open channel, and an acked, powered link exactly when the line was high and power-on succeeded |
| SmbFloat.Decode | drivers/power/supply/smb1360.c:351-381 | a decoded value is never zero and is negative exactly when bit 10 is set; its magnitude is 10^6 * 2^(e-15) plus m * 10^6 * 2^(e-25), each term truncated toward zero when its exponent is negative |
| SmbFloat.ShiftRightDiv | drivers/power/supply/smb1360.c:365-373 | shifting right by n bits is truncating division by 2^n |
| SmbFloat.DecodeExact | drivers/power/supply/smb1360.c:361-375 | with an exponent field of 25 or more no shift truncates, and the magnitude is (1024 + m) * 10^6 * 2^(e-25) |
| SmbFloat.Reduce | drivers/power/supply/smb1360.c:397-401 | the reduction loop leaves the mantissa below 1023 * 10^6 and never lowers the exponent |
| SmbFloat.Grow | drivers/power/supply/smb1360.c:403-407 | the growth loop stops at exponent -25 or once the mantissa reaches 1023 * 10^6 |
| SmbFloat.Pack | drivers/power/supply/smb1360.c:409-429 | the packed word's sign bit is the sign of the input |
| SmbFloat.Encode | drivers/power/supply/smb1360.c:384-430 | 0 encodes as 0, and a nonzero value's bit 10 is set exactly when the value is negative |
| SmbFloat.ReduceShift | drivers/power/supply/smb1360.c:397-401 | reducing c * 2^j is reducing c with j more in the exponent |
| SmbFloat.Normalize | drivers/power/supply/smb1360.c:397-407 | the two loops bring an exact (1024 + m) * 10^6 * 2^k mantissa down to the same (1024 + m) * 10^6 / 2 |
| SmbFloat.DecodeBound | drivers/power/supply/smb1360.c:351-381 | an exactly decoded value fits the s64 that `float_encode` takes |
| SmbFloat.EncodeDecode | drivers/power/supply/smb1360.c:351-430 | encoding an exactly decoded value gives back the same word with the mantissa one higher, except that mantissa 1023 is kept |
| Smb1360.Apply | drivers/power/supply/smb1360.c:1251-1252 | after an update the bits under the mask come from the new value and all others from the old one |
| Smb1360.BattStatus | drivers/power/supply/smb1360.c:467-497 | FULL iff the termination bit is set; otherwise a failed read is UNKNOWN with its error, hold-off is NOT_CHARGING, and without hold-off a charge type of 0 is DISCHARGING and any other CHARGING |
| Smb1360.ChgType | drivers/power/supply/smb1360.c:489 | the charge type is below 4 and is 0 exactly when bits 2:1 of STATUS_3 are clear |
| Smb1360.ChargeType | drivers/power/supply/smb1360.c:499-528 | a failed read is UNKNOWN and returns that read's error code; bit 2 means FAST, and charge type 1 means TRICKLE |
| Smb1360.StatusAgreesWithChargeType | drivers/power/supply/smb1360.c:467-528 | without termination or hold-off, the status is DISCHARGING iff the charge type is NONE, and CHARGING iff it is TRICKLE or FAST |
| Smb1360.BattHealth | drivers/power/supply/smb1360.c:530-545 | hot-hard gives HOT first, then hot-soft WARM, cold-hard COLD, cold-soft COOL, and GOOD iff none of the four bits is set |
| Smb1360.Online | drivers/power/supply/smb1360.c:626-628 | online iff bit 0 of IRQ_E, the USB-in under-voltage bit, is clear |
| Smb1360.OnlineOnlyUnderVoltage | drivers/power/supply/smb1360.c:192-193 | the over-voltage bit does not change the answer; setting the under-voltage bit reads offline and clearing it online |
| Smb1360.VoltageNow | drivers/power/supply/smb1360.c:453-465 | the result is the floor of raw * 5000 / 32767 mV, and at most 10000 |
| Smb1360.CurrentNow | drivers/power/supply/smb1360.c:547-560 | a whole number of mA, with the reading's sign inverted, and a magnitude of truncated s16 * 2500 / 32767 mA |
| Smb1360.ChargeFullDesign | drivers/power/supply/smb1360.c:562-574 | the 16-bit mAh capacity reported in uAh |
| Smb1360.Capacity | drivers/power/supply/smb1360.c:576-595 | 0 when empty-SoC is flagged; otherwise a read error is passed on, and the value is round-closest(reg * 100 / 255), within [0, 100] |
| Smb1360.CapacityClampInactive | drivers/power/supply/smb1360.c:591-592 | the clamp to [0, 100] never changes a rounded 8-bit SoC |
| Smb1360.BattTemp | drivers/power/supply/smb1360.c:597-611 | a whole number of degrees in decidegrees: the reading's sixteenths of a kelvin, truncated, minus 273 |
| Smb1360.FloatMv | drivers/power/supply/smb1360.c:1240-1241 | a read-back float voltage is on the 10 mV grid from 3460 to 4730 mV |
| Smb1360.FloatVoltageSet | drivers/power/supply/smb1360.c:1229-1253 | no property reads the register back; a value outside [3460, 4730] is EINVAL; otherwise it is kept and its code (mV - 3460) / 10 is written under the 7-bit mask |
| Smb1360.FloatVoltageReadBack | drivers/power/supply/smb1360.c:1229-1253 | writing a configured float voltage and reading the register back gives the same value rounded down to the 10 mV grid |
| Smb1360.ItermCode | drivers/power/supply/smb1360.c:1267-1271 | the code is ceil(v / 25) - 1 for the clamped, optionally halved current v, within [0, 7] |
| Smb1360.ItermSet | drivers/power/supply/smb1360.c:1255-1284 | disabled sets only the disable bit; no value writes nothing; otherwise the code is written and the disable bit cleared |
| Smb1360.ChgTime | drivers/power/supply/smb1360.c:1288 | the timer table is 192 minutes doubled i times |
| Smb1360.SafetyTimeSet | drivers/power/supply/smb1360.c:1286-1322 | above 1536 is EINVAL; 0 writes only the disable bit; otherwise the code is the first table entry at least the value |
| Smb1360.RechargeThresholdSet | drivers/power/supply/smb1360.c:1324-1344 | both disables set, or a value outside [50, 300], is EINVAL; otherwise (mV / 100) goes into bits 6:5 |
| Smb1360.TempThreSet | drivers/power/supply/smb1360.c:294 | the threshold is (x + 300) / 10 truncated toward zero: rounded down from -300 up, rounded up below -300, and taken on the wrapped sum when x + 300 overflows an `int` |
| Smb1360.UpdateTempThresh | drivers/power/supply/smb1360.c:1346-1358 | a configured threshold is written to its register as the low byte of `TEMP_THRE_SET`, and no property writes nothing |
| Smb1360.FindFastchgCurrent | drivers/power/supply/smb1360.c:1360-1374 | the index of the largest table current not above the request, or EINVAL below 450 mA |
| Smb1360.FastchgMa | drivers/power/supply/smb1360.c:1362-1364 | the table runs from 450 mA in 150 mA steps |
| Smb1360.SetShutdown | drivers/power/supply/smb1360.c:1194-1217 | a read error is passed on; without the command-use bit nothing is written; otherwise the command bit is set iff the polarity equals the request |
| Smb1360.PowerOffOnOpposite | drivers/power/supply/smb1360.c:1219-1227 | power-off and power-on drive the command bit to opposite values and leave the other bits alone |
| Smb1360.HardJeitaAsWritten | drivers/power/supply/smb1360.c:906-925 | a missing property is EINVAL; otherwise bytes 0 and 2 are the hot and cold register addresses and bytes 1 and 3 the low bytes of their `TEMP_THRE_SET` thresholds |
| Smb1360.HardJeitaNegativeAccepted | drivers/power/supply/smb1360.c:917-922 | a -40.0 C limit passes the check and is programmed as byte 246 |
| Smb1360.HardJeita | drivers/power/supply/smb1360.c:906-925 | accepted iff both limits are present and their thresholds are not negative, and then the bytes are the addresses and thresholds |
| Smb1360.HardJeitaInRange | drivers/power/supply/smb1360.c:906-925 | every limit from -30.0 C to 225.9 C is accepted and programmed exactly |
| BmsVm.SampleUv | drivers/power/supply/pm8916_bms_vm.c:153 | a sample is raw * 300 - 100000 uV, wrapping modulo 2^32 below raw 334 |
| BmsVm.ReadSamples | drivers/power/supply/pm8916_bms_vm.c:152-158 | after the loop `vbat_now` is the last sample and the summed delta is the net change, in s32 |
| BmsVm.DeltaStep | drivers/power/supply/pm8916_bms_vm.c:155-156 | one iteration keeps the running delta equal to the net change so far |
| BmsVm.FsmState | drivers/power/supply/pm8916_bms_vm.c:22 | the state is bits 5:3 of STATUS1, below 8, and STATUS1 is rebuilt from it and its other bits |
| BmsVm.EstimateOcv | drivers/power/supply/pm8916_bms_vm.c:176-192 | with a charger the estimate is capped at the design maximum and never goes below the old one; without a charger it is at least `vbat_now` and at most the older values plus 4 mV |
| BmsVm.FifoUpdate | drivers/power/supply/pm8916_bms_vm.c:131-197 | a failed read or a charger error other than ENODEV leaves the state unchanged; otherwise `vbat_now` and the estimate move and the boot and last OCV stay |
| BmsVm.LargeJumpIgnored | drivers/power/supply/pm8916_bms_vm.c:176-178 | a jump of 25 mV or more is not added to the estimate |
| BmsVm.ChargingFollowsRise | drivers/power/supply/pm8916_bms_vm.c:176-192 | while charging, a small rise is added to the estimate and a fall leaves it alone |
| BmsVm.DischargeFollowsFall | drivers/power/supply/pm8916_bms_vm.c:176-181 | without a charger a small fall lowers the estimate by the same amount but not below `vbat_now`, and a rise leaves it, at least `vbat_now` |
| BmsVm.S2Creep | drivers/power/supply/pm8916_bms_vm.c:184-192 | in state S2 with a charger, an unmoved estimate more than 10 mV below `vbat_now` rises by 4 mV, up to the design maximum |
| BmsVm.S2IdleWithoutCharger | drivers/power/supply/pm8916_bms_vm.c:180-189 | without a charger the S2 state makes no difference to the estimate |
| BmsVm.BmsHealth | drivers/power/supply/pm8916_bms_vm.c:81-88 | DEAD iff `vbat_now` is below the minimum, OVERVOLTAGE iff not below it and above the maximum, otherwise GOOD, with the limits compared as unsigned |
| BmsVm.HealthGoodInside | drivers/power/supply/pm8916_bms_vm.c:81-88 | with non-negative design limits the health is GOOD exactly inside them |
| BmsVm.BmsStatus | drivers/power/supply/pm8916_bms_vm.c:66-79 | a charger error other than ENODEV is returned; no charger is DISCHARGING; with one it is FULL iff the capacity is above 98 and CHARGING otherwise |
| BmsVm.OcvOf | drivers/power/supply/pm8916_bms_vm.c:256-260 | a word whose upper half is clear gives raw * 300 uV without wrap-around |
| BmsVm.Probe | drivers/power/supply/pm8916_bms_vm.c:229-263 | a wrong peripheral type is ENODEV, read errors are passed on, and boot, last and estimated OCV and `vbat_now` all start at the OCV of the word read |
| BmsVm.Resume | drivers/power/supply/pm8916_bms_vm.c:321-329 | the last and estimated OCV are reset to the OCV of the word read only when it differs from the last one |
| BmsVm.ResumeIdempotent | drivers/power/supply/pm8916_bms_vm.c:323-329 | resuming twice with the same reading is resuming once |
| Lbc.VoltageCode | drivers/power/supply/pm8916_lbc.c:187-188 | the code is the number of whole 25 mV steps above 4.0 V, at most 31 |
| Lbc.CurrentCode | drivers/power/supply/pm8916_lbc.c:202 | the code is the number of whole 90 mA steps above 90 mA, at most 15 |
| Lbc.ProbeDt | drivers/power/supply/pm8916_lbc.c:170-212 | a safe voltage below 4.0 V is EINVAL; otherwise it is capped at 4.775 V, the safe current is clamped to [90 mA, 1.44 A], the maxima start at the safe values, and the codes are written |
| Lbc.ChargerEnable | drivers/power/supply/pm8916_lbc.c:81-117 | the maximum voltage lies in [4.0 V, safe voltage], equals the design maximum when that is in range, is 4.0 V below it and the safe voltage above it, the design value being read as unsigned so that a negative one gives the safe voltage; the maximum current is capped at the safe current, and IBAT_MAX is written from the safe current |
| Lbc.Probe | drivers/power/supply/pm8916_lbc.c:254-334 | the first failed or mismatched peripheral type gives its error or ENODEV; then a charger-option read error is passed on and a wrong option is ENODEV; then the device-tree, battery-info and USB-status errors in that order; success is the charger enable on the device-tree limits with the battery's design maximum, configured and with the maximum voltage in [4.0 V, safe voltage] |
| Lbc.CheckTypes | drivers/power/supply/pm8916_lbc.c:254-276 | the checks pass iff every read succeeds with the expected type; otherwise the first bad one gives its read error, or ENODEV for a wrong type |
| Lbc.ProbeCurrentCodesAgree | drivers/power/supply/pm8916_lbc.c:96-103 | after probe IBAT_MAX holds the same code as IBAT_SAFE, which is also the code of the overwritten clamp |
| Lbc.Online | drivers/power/supply/pm8916_lbc.c:128-133 | a read error is passed on; online iff the USB-in valid bit (bit 1) of the status is set |
| Lbc.OnlineOnlyValidBit | drivers/power/supply/pm8916_lbc.c:128-133 | clearing the valid bit reads offline, and clearing any other bit changes nothing |
| Himax.KeyMapping | drivers/input/touchscreen/himax_852xES.c:97 | key i is reported as bit i |
| Himax.BufSize | drivers/input/touchscreen/himax_852xES.c:24-32 | the size is a multiple of 4 holding 4 bytes per finger, a width byte per finger padded by fewer than 4 bytes, and the 4 info bytes |
| Himax.BufSizeBound | drivers/input/touchscreen/himax_852xES.c:24-32 | no finger count up to 12 needs more than the 64 bytes of 12 fingers |
| Himax.ReadConfigAsWritten | drivers/input/touchscreen/himax_852xES.c:190-206 | more than 12 fingers is EINVAL; the axes are set iff neither resolution is 1, and then to the resolutions minus 1, so a zero resolution passes as -1 |
| Himax.ZeroResolutionApplied | drivers/input/touchscreen/himax_852xES.c:198-206 | a zero resolution sets both axis maxima to -1 |
| Himax.ReadConfig | drivers/input/touchscreen/himax_852xES.c:190-206 | more than 12 fingers is EINVAL; the axes are set iff both resolutions exceed 1, and then to the resolutions minus 1 |
| Himax.ParseProperties | drivers/input/touchscreen/himax_852xES.c:409-434 | a count of 0 or less gives no keys, more than 3 is EINVAL, otherwise the keycodes are read |
| Himax.CurrentKey | drivers/input/touchscreen/himax_852xES.c:342-345 | the key is the top nibble of the pressed word, and "no key" 0x0F reads as 0 |
| Himax.FingerMask | drivers/input/touchscreen/himax_852xES.c:346-349 | the pressed word is zeroed iff the finger count is 0xFF or its low nibble is 0 |
| Himax.Contacts | drivers/input/touchscreen/himax_852xES.c:294-306 | only slots below `max_fingers` with their bit set are reported, with their coordinates and width, in ascending slot order |
| Himax.ContactsComplete | drivers/input/touchscreen/himax_852xES.c:294-306 | every pressed slot below `max_fingers` is reported |
| Himax.DisplayTouch | drivers/input/touchscreen/himax_852xES.c:285-313 | the events are the contacts of the pressed slots below `max_fingers` followed by a frame sync, and `had_finger_pressed` becomes true iff some such slot is pressed |
| Himax.KeyEvents | drivers/input/touchscreen/himax_852xES.c:271-283 | key i is pressed iff its mapping is the current key, and released iff it is the last key and not the current one |
| Himax.BtnTouch | drivers/input/touchscreen/himax_852xES.c:271-283 | the events are the key events for the current key against the last key, and the last key becomes the current one |
| Himax.OnePressAtMost | drivers/input/touchscreen/himax_852xES.c:271-283 | at most one key is reported pressed in a frame |
| Himax.Interrupt | drivers/input/touchscreen/himax_852xES.c:315-359 | nothing happens without users or on a read error; if a finger is or was pressed the touch contacts, a frame sync and a sync are reported; otherwise, with keys and a current or last key, the key events and a sync; otherwise only a sync |
| Himax.FrameFields | drivers/input/touchscreen/himax_852xES.c:327-349 | the mask and key come from the last four bytes of the buffer: the finger count, then the little-endian pressed word whose top nibble is the key |
| Himax.LiftReportedOnce | drivers/input/touchscreen/himax_852xES.c:351-354 | after a frame with no finger the touch path is not taken again |
| Himax.Suspend | drivers/input/touchscreen/himax_852xES.c:532-562 | a held key is released, no key is pressed, `last_key` becomes 0 and `had_finger_pressed` false |
| Msg2638.Sum | drivers/input/touchscreen/msg2638.c:98-107 | the byte sum is at most 255 per byte |
| Msg2638.Checksum | drivers/input/touchscreen/msg2638.c:98-107 | the byte sum plus the checksum is 0 modulo 256 |
| Msg2638.ChecksumUnique | drivers/input/touchscreen/msg2638.c:98-107 | the checksum is the only byte that does so |
| Msg2638.CoordX | drivers/input/touchscreen/msg2638.c:149 | x takes the high nibble of `xy_hi` above `x_low`, and is below 4096 |
| Msg2638.CoordY | drivers/input/touchscreen/msg2638.c:150 | y takes the low nibble of `xy_hi` above `y_low`, and is below 4096 |
| Msg2638.Contacts | drivers/input/touchscreen/msg2638.c:143-152 | every report comes from a non-blank packet, with its slot equal to the packet index and the unpacked coordinates, in ascending slot order, at most 5 |
| Msg2638.ContactsComplete | drivers/input/touchscreen/msg2638.c:143-152 | every non-blank packet is reported |
| Msg2638.HandleIrq | drivers/input/touchscreen/msg2638.c:109-159 | a frame is reported iff it is read, its mode is 0x5A and its checksum matches, and then the report is the parse loop's contacts, at most 5, each in range |
| Msg2638.InitInput | drivers/input/touchscreen/msg2638.c:232-237 | a zero maximum on either axis is EINVAL |
| Msg2638.PacketDecodes | drivers/input/touchscreen/msg2638.c:143-150 | a packet encoded from a touch in range decodes back to it, and an empty one is blank |
| Msg2638.ContactsOfEncoded | drivers/input/touchscreen/msg2638.c:143-152 | the parse loop over an encoded frame reports exactly the present touches |
| Msg2638.FrameRoundTrip | drivers/input/touchscreen/msg2638.c:109-159 | the handler reports exactly the touches an encoded frame carries |
| Msg2638.CorruptionDetected | drivers/input/touchscreen/msg2638.c:138-141 | changing any one checked byte of an accepted frame makes the checksum fail |
| Msg2638.SumUpdate | drivers/input/touchscreen/msg2638.c:98-107 | replacing one byte changes the sum by the difference |
| Qdsp6.Mi2sId | sound/soc/qcom/msm8916-qdsp6.c:46-57 | ids outside PRIMARY_MI2S_RX..QUATERNARY_MI2S_TX are EINVAL, and the others map to one of four ports |
| Qdsp6.Mi2sIdPorts | sound/soc/qcom/msm8916-qdsp6.c:46-57 | an id maps to a port exactly when it is that port's RX or TX DAI |
| Qdsp6.Iomux | sound/soc/qcom/msm8916-qdsp6.c:72-93 | secondary is ENOTSUPP; primary sets the speaker bits; tertiary and quaternary set their mic bits plus SCLK enable; the other register is untouched |
| Qdsp6.SetBits | sound/soc/qcom/msm8916-qdsp6.c:74-86 | the bits end up set and every other bit keeps its value |
| Qdsp6.IomuxIdempotent | sound/soc/qcom/msm8916-qdsp6.c:72-93 | a second selection of the same port changes nothing |
| Qdsp6.CodecSetup | sound/soc/qcom/msm8916-qdsp6.c:120-135 | setup succeeds iff every codec call succeeds or returns ENOTSUPP; otherwise the result is the first other error, in codec order with the clock call before the jack call |
| Qdsp6.CodecSetupAppend | sound/soc/qcom/msm8916-qdsp6.c:120-135 | the loop over two runs of codecs is the loop over the first, continued with the second only on success |
| Qdsp6.DaiInit | sound/soc/qcom/msm8916-qdsp6.c:59-140 | an unknown id is EINVAL and the secondary port ENOTSUPP, both with the card unchanged; otherwise the iomux registers take the selection's values, a failed jack creation is returned with no jack, and else the jack exists, is created iff it did not, and the result is the codec loop's; the clocks are untouched |
| Qdsp6.DaiInitRepeat | sound/soc/qcom/msm8916-qdsp6.c:59-140 | initialising a port again after a success changes nothing on the card, creates no jack, and returns the codec loop's result |
| Qdsp6.JackCreatedOnce | sound/soc/qcom/msm8916-qdsp6.c:95-118 | over any sequence of DAI inits the jack is created at most once, and never when it already exists |
| Qdsp6.StartupAsWritten | sound/soc/qcom/msm8916-qdsp6.c:142-161 | the count is incremented modulo 2^32; on the first user a working clock is programmed to 1.536 MHz and a failed one is returned with the clock untouched but the count kept; later users change no clock |
| Qdsp6.StartupFailureLeavesClockOff | sound/soc/qcom/msm8916-qdsp6.c:154-160 | after a failed startup a later successful one sees a count of 1, skips the clock, and leaves the port with a stream and no bit clock |
| Qdsp6.Startup | sound/soc/qcom/msm8916-qdsp6.c:142-161 | a failed clock enable leaves the card as it was; a success increments the count and programs 1.536 MHz exactly on the first user |
| Qdsp6.Shutdown | sound/soc/qcom/msm8916-qdsp6.c:163-181 | the count is decremented as an unsigned int; the clock changes only when the count goes from 1 to 0 and the disable succeeds, and it is then off |
| Qdsp6.ShutdownUnderflowWraps | sound/soc/qcom/msm8916-qdsp6.c:175 | a shutdown without startup wraps the count to 2^32 - 1 |
| Qdsp6.StartupBalanced | sound/soc/qcom/msm8916-qdsp6.c:142-161 | startup keeps every port's clock running exactly while its count is nonzero |
| Qdsp6.ShutdownBalanced | sound/soc/qcom/msm8916-qdsp6.c:163-181 | a successful shutdown keeps the same relation |
| Qdsp6.StartupShutdownRoundTrip | sound/soc/qcom/msm8916-qdsp6.c:142-181 | a successful startup followed by a successful shutdown restores the card |
| Qdsp6.HwParamsFixup | sound/soc/qcom/msm8916-qdsp6.c:188-202 | rate is pinned to 48000, channels to 2, and S16_LE is added to the formats, which otherwise stay |
| Qdsp6.HwParamsFixupIdempotent | sound/soc/qcom/msm8916-qdsp6.c:188-202 | applying the fixup twice is applying it once |

## Left out

- `bam_dmux_runtime_resume` and `bam_dmux_runtime_suspend`: blocking waits with timeouts. The TX check in `bam_dmux_runtime_resume` tests `dmux->rx` where `dmux->tx` is meant (bam-dmux.c:792), and the model does not treat it as correct. Only their outcome reaches the model, as the `active` and `resumeOk` parameters.
- DMA mapping, the DMA engine, spinlocks, atomics, workqueues, completions and net, input, power-supply and ASoC registration: these become parameters or are left out. The deferred mask is a plain number, with no atomicity.
- Dmux.CmdOpen / Dmux.CmdClose: `netif_device_attach` and `netif_device_detach` belong to the kernel's network core, which is not part of this model. Only their effect on the interface is modelled, in `Dmux.Attach` and `Dmux.Detach`: the present flag, and waking or stopping the transmit queue of a running interface whose present flag changes. The TX watchdog that attach restarts is left out.
- Bam-dmux power-on: it is modelled only by its outcome (`powerOnOk`); buffer allocation inside it is left out.
- The three MIPI-DSI panel drivers and `extcon-usb-dummy`: command-byte sequences and registration, with no logic to state.
- SMB1360 fuel-gauge access handshake, OTP reconfiguration except the hard JEITA thresholds, battery-profile polling, the delayed-init retry, IRQ configuration, regulator and debug dumps: sleeps and completions around register I/O.
- `smb1360_update_le16`: its result depends on u32 overflow of device-tree values, which the model does not cover.
- `smb1360_get_property`: the switch is left out, and each arm is modelled separately.
- SmbFloat.Encode: its requires excludes S64_MIN (-2^63), whose negation in `float_encode` overflows; it is proved for every other s64 input, but its exponent field is shown to match only for inputs that decode exactly (exponent field 25 or more). A huge or tiny input whose exponent leaves 0..31 is not characterised further.
- SmbFloat.EncodeDecode: states the one-step upward rounding of `float_encode` for exact decodings (the `+ MICRO_UNIT` before the division); it is not a round trip for other words.
- `power_supply_batinfo_ocv2cap`: a table lookup outside these files, passed to `BmsVm.BmsStatus` as a function.
- BmsVm.Resume: the mode writes after the OCV read are assumed to succeed. The OCV read's result is not checked and fills only the low half of `tmp`, so the model takes the whole word `tmp` holds afterwards as a parameter; what an uninitialised word holds is not modelled.
- BmsVm.EstimateOcv: its bounds, and the lemmas DischargeFollowsFall and S2Creep, are stated for voltages where no unsigned subtraction wraps (`Sane`); outside that range only the charger cap is stated.
- Register writes and regmap I/O errors in BMS and LBC probe: each write is assumed to succeed, and only the reads that decide a branch are parameters.
- Pm8916_lbc probe: the `reg` count error path (pm8916_lbc.c:238) returns an uninitialised `ret`, and is left out together with IRQ, extcon and power-supply registration.
- Lbc.Probe: `power_supply_get_battery_info` is outside these files, so its outcome (an error or the design maximum voltage) comes in as a parameter; the other battery-info fields are not used by this driver.
- Himax I2C transfers, regulators, reset GPIOs and `touchscreen_report_pos` axis inversion and swap: I/O and a helper outside these files.
- Msg2638 power and regulator sequencing and the I2C transfer: I/O. The checksum's `s32` sum cannot overflow for a 22-byte frame and is modelled unbounded.
- Msg2638.FrameRoundTrip: stated for touches with coordinates below 4096 other than (4095, 4095), because that corner encodes as a blank packet, which the protocol skips.
- Qdsp6 probe, `ioremap` of the iomux registers, `snd_soc_dai_set_fmt` and the card's link setup: I/O and ASoC plumbing. The DAI id constants 16 to 23 come from the q6afe dt-bindings header, which is not part of this model.
- Qdsp6.DaiInit: the codec calls and the jack creation come in as outcomes, and the jack pins' names and types are left out.

## Findings

| source | as written | input that shows it | evidently intended | confidence | as-written member | corrected member |
|---|---|---|---|---|---|---|
| drivers/power/supply/smb1360.c:917-922 | `val[1] < 0 \|\| val[3] < 0` is evaluated on a `u8`, which is never negative, so a threshold below -30.0 C is not rejected | hot limit -400 (-40.0 C) with cold limit 0: the check passes and 246 is programmed as the hot threshold | reject a limit whose `TEMP_THRE_SET` is negative | high, not executed | Smb1360.HardJeitaNegativeAccepted | Smb1360.HardJeita |
| drivers/input/touchscreen/himax_852xES.c:198-206 | the axis maxima are the 16-bit resolutions minus 1 in `int`, and are applied when both are nonzero, so a zero resolution gives -1 and is applied | configuration with `max_pt` 0xA0 and both resolutions 0: the axes are set to (-1, -1) | apply the axes only when both maxima are positive, that is both resolutions above 1 | medium, not executed | Himax.ZeroResolutionApplied | Himax.ReadConfig |
| sound/soc/qcom/msm8916-qdsp6.c:154-160 | the port count is incremented before the clock is enabled and stays incremented when the enable fails, while no shutdown follows a failed startup | a failed startup and then a successful one on the same port: the count goes to 2, the clock is never programmed, and the stream runs without a bit clock | undo the increment when enabling the clock fails | medium, not executed | Qdsp6.StartupFailureLeavesClockOff | Qdsp6.Startup |
