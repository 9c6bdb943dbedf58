/** The firmware's two loops and its start-up (src/main.cpp), over the
    shared globals: the register bank, the two byte queues, the slave and the
    `core1idle` / `useUsb` flags. Each loop body is one sequential step; the
    interleaving of the two cores and the interrupt is not modelled. */
module Core {
  import opened Hardware
  import opened Register
  import opened Queue
  import opened SlaveDispatch
  import opened InitUtils
  import opened Sensor

  /** Timeout given to `sync` in bus mode. */
  const SYNC_TIMEOUT_US: nat := 5000
  /** Power-saving nap of the command loop while core 1 sleeps. */
  const IDLE_NAP_US: nat := 10

  // ------------------------------------------------------------ start-up

  /** The bank start-up hands to the sensor's `init`: the restored (or
      default) bank with its error word cleared and the watchdog bit flagged,
      or the factory defaults when the user button is held. `restored` is
      the bank as the flash restore left it; `usrButton` is the level read
      from the (pulled-up) user button, low when pressed. */
  function ResetImage(restored: Bank, flashValid: bool, watchdogCausedReboot: bool, usrButton: bool): Bank
  {
    var initialised := if flashValid then restored else DefaultImage();
    var cleared := WithErrorClear(initialised, 0xFFFF_FFFF);
    var flagged := if watchdogCausedReboot then WithErrorSet(cleared, ERROR_MASK_WATCHDOG_TIMEOUT) else cleared;
    if !usrButton then DefaultImage() else flagged
  }

  /** The bank after start-up; `init` is the sensor's `init`. */
  function BootImage(restored: Bank, init: Bank -> Bank, flashValid: bool, watchdogCausedReboot: bool,
                     usrSwitch: bool, usrButton: bool): Bank
  {
    var sensing := init(ResetImage(restored, flashValid, watchdogCausedReboot, usrButton));
    if usrSwitch then WithConfigBits(WithConfigBits(sensing, CONFIG_FREE_RUN), CONFIG_CALC_STAT) else sensing
  }

  /** After start-up the error word is 0 except for the watchdog bit, which
      is set iff the reboot was caused by the watchdog and no factory reset
      was requested: the factory reset runs after the bit is set and wipes
      it. */
  lemma BootErrorWord(restored: Bank, init: Bank -> Bank, flashValid: bool, watchdogCausedReboot: bool,
                      usrSwitch: bool, usrButton: bool)
    requires InitFrame(init)
    ensures Error(BootImage(restored, init, flashValid, watchdogCausedReboot, usrSwitch, usrButton))
            == if watchdogCausedReboot && usrButton then ERROR_MASK_WATCHDOG_TIMEOUT else 0
  {
    DefaultImageFields();
    var sensing := init(ResetImage(restored, flashValid, watchdogCausedReboot, usrButton));
    assert KeepsStatus(ResetImage(restored, flashValid, watchdogCausedReboot, usrButton), sensing);
    if usrSwitch {
      SameWordAfterConfig(sensing, CONFIG_FREE_RUN, ERROR_OFFSET);
      SameWordAfterConfig(WithConfigBits(sensing, CONFIG_FREE_RUN), CONFIG_CALC_STAT, ERROR_OFFSET);
    }
  }

  /** Setting configuration bits leaves a 32-bit field that does not cover
      the configuration byte unchanged. */
  lemma SameWordAfterConfig(s: Bank, bits: bv8, off: nat)
    requires off + 4 <= REGISTER_SIZE && !(off <= OFFSET_CONFIG_BITS < off + 4)
    ensures LoadU32(WithConfigBits(s, bits), off) == LoadU32(s, off)
  {
    LoadU32Congruent(WithConfigBits(s, bits), s, off);
  }

  /** The configuration bits after start-up: USB mode turns on free-run and
      statistics; a bank rebuilt from defaults (no valid flash image, or a
      factory reset) otherwise has every configuration bit clear; a restored
      bank keeps its own. */
  lemma BootConfig(restored: Bank, init: Bank -> Bank, flashValid: bool, watchdogCausedReboot: bool,
                   usrSwitch: bool, usrButton: bool)
    requires InitFrame(init)
    ensures var b := BootImage(restored, init, flashValid, watchdogCausedReboot, usrSwitch, usrButton);
            && (usrSwitch ==> FreeRun(b) && CalcStat(b))
            && (!usrSwitch && (!flashValid || !usrButton) ==> ConfigBits(b) == 0)
            && (!usrSwitch && flashValid && usrButton ==> ConfigBits(b) == ConfigBits(restored))
  {
    DefaultImageFields();
    var reset := ResetImage(restored, flashValid, watchdogCausedReboot, usrButton);
    assert KeepsStatus(reset, init(reset));
  }

  /** With the SCL3400 fitted, the desired cycle time after start-up is the
      sensor's 100 ms, whatever the flash image or the factory defaults held:
      the sensor's `init` runs after both, and the USB configuration bits do
      not touch it. */
  lemma BootDesiredCycleTime(restored: Bank, flashValid: bool, watchdogCausedReboot: bool,
                             usrSwitch: bool, usrButton: bool)
    ensures DesiredCycleTimeUs(BootImage(restored, Scl3400Init, flashValid, watchdogCausedReboot, usrSwitch, usrButton))
            == SCL3400_CYCLE_TIME_US
  {
    var sensing := Scl3400Init(ResetImage(restored, flashValid, watchdogCausedReboot, usrButton));
    if usrSwitch {
      SameWordAfterConfig(sensing, CONFIG_FREE_RUN, OFFSET_DESIRED_CYCLE_TIME);
      SameWordAfterConfig(WithConfigBits(sensing, CONFIG_FREE_RUN), CONFIG_CALC_STAT, OFFSET_DESIRED_CYCLE_TIME);
    }
  }

  /** `while(!queue_is_empty(q)) queue_remove_blocking(q, NULL);` */
  method Discard(q: ByteQueue)
    requires q.Valid()
    modifies q
    ensures q.Valid() && q.contents == []
  {
    var empty := q.IsEmpty();
    while !empty
      invariant q.Valid()
      invariant empty <==> q.contents == []
      decreases |q.contents|
    {
      var _ := q.RemoveBlocking();
      empty := q.IsEmpty();
    }
  }

  // ------------------------------------------------------- core 1 cycle

  /** `cycleDuration = endOfCycle - startOfCycle` in uint64_t. */
  function CycleDuration(startOfCycle: nat, endOfCycle: nat): (d: nat)
    requires startOfCycle < U64 && endOfCycle < U64
    ensures d < U64
    ensures startOfCycle <= endOfCycle ==> d == endOfCycle - startOfCycle
  {
    (endOfCycle - startOfCycle) % U64
  }

  /** The moving average of the net cycle time:
      `(uint32_t)(0.9 * net) + (uint32_t)(0.1 * (uint32_t)cycle)`. For
      operands below 2^32 the double products truncate to the integer
      quotients used here, and the sum fits in 32 bits. */
  function NextNetCycleTime(net: nat, cycleDuration: nat): (r: nat)
    requires net < U32
    ensures r < U32
    ensures var c := cycleDuration % U32;
            && 10 * r <= 9 * net + c
            && r <= (if net >= c then net else c)
            && r + 1 >= (if net <= c then net else c)
  {
    var c := cycleDuration % U32;
    AverageBounds(net, c);
    (9 * net) / 10 + c / 10
  }

  /** The net cycle time field after a cycle of `cycleDuration`. */
  function AveragedNet(s: Bank, cycleDuration: nat): bv32
  {
    NextNetCycleTime(NetCycleTimeUs(s) as int, cycleDuration) as bv32
  }

  /** The truncated average lies between the old average and the new
      sample, less at most 1 for the two truncations. */
  lemma AverageBounds(net: nat, c: nat)
    ensures var a := (9 * net) / 10 + c / 10;
            && 10 * a <= 9 * net + c
            && a <= (if net >= c then net else c)
            && a + 1 >= (if net <= c then net else c)
  {
    var q1, r1 := (9 * net) / 10, (9 * net) % 10;
    var q2, r2 := c / 10, c % 10;
    assert 9 * net == 10 * q1 + r1 && 0 <= r1 < 10;
    assert c == 10 * q2 + r2 && 0 <= r2 < 10;
  }

  /** `sleepFor = desiredCycleTimeUs - cycleDuration`: a uint64_t difference
      stored in an int64_t. It is the true difference unless the cycle
      overran the desired time by more than 2^63 us, and it is positive iff
      the cycle finished early (or overran by that impossible amount). */
  function SleepFor(desired: nat, cycleDuration: nat): (r: int)
    requires desired < U32 && cycleDuration < U64
    ensures cycleDuration <= desired + U64 / 2 ==> r == desired - cycleDuration
    ensures r > 0 <==> (cycleDuration < desired || cycleDuration > desired + U64 / 2)
  {
    var d := (desired - cycleDuration) % U64;
    if d >= U64 / 2 then d - U64 else d
  }

  /** The bank once the new average is stored. */
  function Averaged(s: Bank, cycleDuration: nat): Bank
  {
    StoreU32(s, OFFSET_NET_CYCLE_TIME, AveragedNet(s, cycleDuration))
  }

  /** Storing the average keeps the desired cycle time and the error word. */
  lemma AveragedKeeps(s: Bank, cycleDuration: nat)
    ensures DesiredCycleTimeUs(Averaged(s, cycleDuration)) == DesiredCycleTimeUs(s)
    ensures Error(Averaged(s, cycleDuration)) == Error(s)
  {
    StoreU32Elsewhere(s, OFFSET_NET_CYCLE_TIME, AveragedNet(s, cycleDuration), OFFSET_DESIRED_CYCLE_TIME);
    StoreU32Elsewhere(s, OFFSET_NET_CYCLE_TIME, AveragedNet(s, cycleDuration), ERROR_OFFSET);
  }

  /** The bank once the sensor has run: `update` is the sensor's `update`,
      called only when the free-run bit is set. */
  function Sensed(s: Bank, update: Bank -> Bank): Bank
  {
    if FreeRun(s) then update(s) else s
  }

  /** The sensor's run leaves the fields the cycle reads as they were. */
  lemma SensedKeeps(s: Bank, update: Bank -> Bank)
    requires UpdateFrame(update)
    ensures var t := Sensed(s, update);
            && KeepsStatus(s, t)
            && DesiredCycleTimeUs(t) == DesiredCycleTimeUs(s)
            && NetCycleTimeUs(t) == NetCycleTimeUs(s)
  {
  }

  /** The bank after one cycle of the sampling loop. */
  function CycleImage(s: Bank, update: Bank -> Bank, cycleDuration: nat): Bank
    requires cycleDuration < U64
  {
    var averaged := Averaged(Sensed(s, update), cycleDuration);
    if SleepFor(DesiredCycleTimeUs(averaged) as int, cycleDuration) > 0
    then WithErrorClear(averaged, ERROR_MASK_SENSOR_OVERLOAD)
    else WithErrorSet(averaged, ERROR_MASK_SENSOR_OVERLOAD)
  }

  /** The cycle's sleep decision, taken after the sensor ran and the
      average was stored, is the one the bank it started from implies. */
  lemma CycleImageByDecision(s: Bank, update: Bank -> Bank, cycleDuration: nat)
    requires UpdateFrame(update) && cycleDuration < U64
    ensures var averaged := Averaged(Sensed(s, update), cycleDuration);
            CycleImage(s, update, cycleDuration)
            == if SleepFor(DesiredCycleTimeUs(s) as int, cycleDuration) > 0
               then WithErrorClear(averaged, ERROR_MASK_SENSOR_OVERLOAD)
               else WithErrorSet(averaged, ERROR_MASK_SENSOR_OVERLOAD)
  {
    SensedKeeps(s, update);
    AveragedKeeps(Sensed(s, update), cycleDuration);
  }

  /** The effects of one cycle: the sensor update when free-running, then
      the idle-bracketed sleep when the cycle finished early. */
  function CycleEffects(s: Bank, cycleDuration: nat): seq<Effect>
    requires cycleDuration < U64
  {
    var sleepFor := SleepFor(DesiredCycleTimeUs(s) as int, cycleDuration);
    (if FreeRun(s) then [SensorUpdate] else [])
    + (if sleepFor > 0 then [Core1Idle(true), SleepUs(sleepFor), Core1Idle(false)] else [])
  }

  /** The sensor is updated in a cycle iff the free-run bit is set. */
  lemma CycleUpdatesIffFreeRun(s: Bank, cycleDuration: nat)
    requires cycleDuration < U64
    ensures SensorUpdate in CycleEffects(s, cycleDuration) <==> FreeRun(s)
  {
    if FreeRun(s) {
      assert CycleEffects(s, cycleDuration)[0] == SensorUpdate;
    }
  }

  /** Besides what the sensor writes, a cycle changes only the net cycle
      time and the error word; the net cycle time becomes the new moving
      average, and the desired cycle time and the configuration byte are
      kept. */
  lemma CycleFrame(s: Bank, update: Bank -> Bank, cycleDuration: nat)
    requires UpdateFrame(update) && cycleDuration < U64
    ensures var r := CycleImage(s, update, cycleDuration);
            && NetCycleTimeUs(r) == AveragedNet(s, cycleDuration)
            && DesiredCycleTimeUs(r) == DesiredCycleTimeUs(s)
            && ConfigBits(r) == ConfigBits(s)
    ensures forall i :: (0 <= i < REGISTER_SIZE && !(ERROR_OFFSET <= i < ERROR_OFFSET + 4)
                         && !(OFFSET_NET_CYCLE_TIME <= i < OFFSET_NET_CYCLE_TIME + 4))
                        ==> CycleImage(s, update, cycleDuration)[i] == Sensed(s, update)[i]
  {
    var t := Sensed(s, update);
    var averaged := Averaged(t, cycleDuration);
    var r := CycleImage(s, update, cycleDuration);
    SensedKeeps(s, update);
    assert SameOutsideError(r, averaged);
    LoadU32Congruent(r, averaged, OFFSET_NET_CYCLE_TIME);
    LoadU32Congruent(r, averaged, OFFSET_DESIRED_CYCLE_TIME);
    AveragedKeeps(t, cycleDuration);
  }

  /** A cycle that finishes before the desired time sleeps exactly the rest
      of it, with core 1 marked idle only around that sleep, and clears the
      sensor-overload bit, keeping the other error bits. */
  lemma CycleWithinBudget(s: Bank, update: Bank -> Bank, cycleDuration: nat)
    requires UpdateFrame(update)
    requires cycleDuration < DesiredCycleTimeUs(s) as int
    ensures var t := CycleEffects(s, cycleDuration);
            var idle := [Core1Idle(true), SleepUs(DesiredCycleTimeUs(s) as int - cycleDuration), Core1Idle(false)];
            && t == (if FreeRun(s) then [SensorUpdate] else []) + idle
    ensures Error(CycleImage(s, update, cycleDuration)) == Error(s) & !ERROR_MASK_SENSOR_OVERLOAD
  {
    CycleSleepsWhenEarly(s, cycleDuration);
    CycleClearsWhenEarly(s, update, cycleDuration);
    SensedKeeps(s, update);
    AveragedKeeps(Sensed(s, update), cycleDuration);
  }

  lemma CycleSleepsWhenEarly(s: Bank, cycleDuration: nat)
    requires cycleDuration < DesiredCycleTimeUs(s) as int
    ensures CycleEffects(s, cycleDuration)
            == (if FreeRun(s) then [SensorUpdate] else [])
               + [Core1Idle(true), SleepUs(DesiredCycleTimeUs(s) as int - cycleDuration), Core1Idle(false)]
  {
  }

  lemma CycleClearsWhenEarly(s: Bank, update: Bank -> Bank, cycleDuration: nat)
    requires UpdateFrame(update)
    requires cycleDuration < DesiredCycleTimeUs(s) as int
    ensures CycleImage(s, update, cycleDuration)
            == WithErrorClear(Averaged(Sensed(s, update), cycleDuration), ERROR_MASK_SENSOR_OVERLOAD)
  {
    SensedKeeps(s, update);
    AveragedKeeps(Sensed(s, update), cycleDuration);
  }

  /** A cycle that takes the desired time or longer (by less than 2^63 us)
      does not sleep, and sets the sensor-overload bit, keeping the other
      error bits. */
  lemma CycleOverBudget(s: Bank, update: Bank -> Bank, cycleDuration: nat)
    requires UpdateFrame(update)
    requires DesiredCycleTimeUs(s) as int <= cycleDuration <= DesiredCycleTimeUs(s) as int + U64 / 2
    requires cycleDuration < U64
    ensures forall e :: e in CycleEffects(s, cycleDuration) ==> !e.SleepUs? && !e.Core1Idle?
    ensures Error(CycleImage(s, update, cycleDuration)) == Error(s) | ERROR_MASK_SENSOR_OVERLOAD
  {
    CycleSetsWhenLate(s, update, cycleDuration);
    SensedKeeps(s, update);
    AveragedKeeps(Sensed(s, update), cycleDuration);
  }

  lemma CycleSetsWhenLate(s: Bank, update: Bank -> Bank, cycleDuration: nat)
    requires UpdateFrame(update)
    requires DesiredCycleTimeUs(s) as int <= cycleDuration <= DesiredCycleTimeUs(s) as int + U64 / 2
    requires cycleDuration < U64
    ensures CycleImage(s, update, cycleDuration)
            == WithErrorSet(Averaged(Sensed(s, update), cycleDuration), ERROR_MASK_SENSOR_OVERLOAD)
  {
    SensedKeeps(s, update);
    AveragedKeeps(Sensed(s, update), cycleDuration);
  }

  // ------------------------------------------------------ bus-mode step

  /** The bank after the queue-full check of a bus-mode iteration. */
  function OverloadCheck(s: Bank, txFull: bool, rxFull: bool): Bank
  {
    if txFull || rxFull then WithErrorSet(s, ERROR_MASK_UART_OVERLOAD) else s
  }

  /** The UART-overload bit is set whenever a queue is full, is never
      cleared by the loop, and no other error bit changes. */
  lemma UartOverloadSticky(s: Bank, txFull: bool, rxFull: bool)
    ensures var r := OverloadCheck(s, txFull, rxFull);
            && ((txFull || rxFull) ==> Error(r) & ERROR_MASK_UART_OVERLOAD != 0)
            && (Error(s) & ERROR_MASK_UART_OVERLOAD != 0 ==> Error(r) & ERROR_MASK_UART_OVERLOAD != 0)
            && Error(r) & !ERROR_MASK_UART_OVERLOAD == Error(s) & !ERROR_MASK_UART_OVERLOAD
            && SameOutsideError(r, s)
  {
  }

  /** The bytes a handler's replies put into a queue with room for them. */
  method Enqueue(q: ByteQueue, bytes: seq<bv8>)
    requires q.Valid() && |q.contents| + |bytes| <= q.capacity
    modifies q
    ensures q.Valid() && q.contents == old(q.contents) + bytes
  {
    for i := 0 to |bytes|
      invariant q.Valid() && q.contents == old(q.contents) + bytes[..i]
    {
      var _ := q.TryAdd(bytes[i]);
      assert bytes[..i + 1] == bytes[..i] + [bytes[i]];
    }
    assert bytes[..|bytes|] == bytes;
  }

  /** The bytes the protocol's `readMessage` takes off the receive queue
      while reading a frame: the first `n` queued bytes, in order. */
  method Consume(q: ByteQueue, n: nat) returns (taken: seq<bv8>)
    requires q.Valid() && n <= |q.contents|
    modifies q
    ensures q.Valid() && taken == old(q.contents)[..n] && q.contents == old(q.contents)[n..]
  {
    taken := [];
    for i := 0 to n
      invariant q.Valid() && q.contents == old(q.contents)[i..]
      invariant taken == old(q.contents)[..i]
    {
      var b := q.RemoveBlocking();
      taken := taken + [b];
    }
  }

  /** Bus mode's drain of the transmit queue: read its level, then remove
      that many bytes, in order, into the buffer handed to the UART. */
  method Drain(q: ByteQueue) returns (toSend: seq<bv8>)
    requires q.Valid()
    modifies q
    ensures q.Valid() && q.contents == [] && toSend == old(q.contents)
  {
    var txLen := q.Level();
    var buffer := new bv8[txLen];
    for i := 0 to txLen
      invariant q.Valid() && q.contents == old(q.contents)[i..]
      invariant buffer[..i] == old(q.contents)[..i]
    {
      var b := q.RemoveBlocking();
      buffer[i] := b;
    }
    toSend := buffer[..];
  }

  /** `if (freeRun) sensor.update();` on the live bank. */
  method RunSensor(reg: array<bv8>, update: Bank -> Bank)
    requires reg.Length == REGISTER_SIZE && UpdateFrame(update)
    modifies reg
    ensures reg[..] == Sensed(old(reg[..]), update)
    ensures DesiredCycleTimeUs(reg[..]) == DesiredCycleTimeUs(old(reg[..]))
  {
    SensedKeeps(reg[..], update);
    if FreeRun(reg[..]) {
      WriteBack(reg, update(reg[..]));
    }
  }

  /** The moving-average store of the net cycle time on the live bank. */
  method StoreAverage(reg: array<bv8>, cycleDuration: nat)
    requires reg.Length == REGISTER_SIZE
    modifies reg
    ensures reg[..] == Averaged(old(reg[..]), cycleDuration)
    ensures DesiredCycleTimeUs(reg[..]) == DesiredCycleTimeUs(old(reg[..]))
  {
    AveragedKeeps(reg[..], cycleDuration);
    PutU32(reg, OFFSET_NET_CYCLE_TIME, AveragedNet(reg[..], cycleDuration));
  }

  // ------------------------------------------------------- the globals

  class Firmware<H> {
    const mainRegister: array<bv8>
    const txFifo: ByteQueue
    const rxFifo: ByteQueue
    const xs: Slave<H>
    var core1idle: bool
    var useUsb: bool
    /** The flash writes start-up made, in order. */
    const bootEffects: seq<Effect>

    ghost predicate Valid()
      reads this, txFifo, rxFifo
    {
      && mainRegister.Length == REGISTER_SIZE
      && txFifo != rxFifo
      && txFifo.Valid() && rxFifo.Valid()
      && txFifo.capacity == RX_TX_QUEUE_SIZE && rxFifo.capacity == RX_TX_QUEUE_SIZE
    }

    /** The start-up part of `main`: initialise, clear the error register,
        flag a watchdog reboot, read the USB switch, load the factory
        defaults if the user button is held, initialise the sensor, set
        free-run and statistics in USB mode, and empty both queues. `slave`
        is the already-bound slave; `mainRegister` holds what the flash
        restore put there; `sensorInit` is the sensor's `init`. */
    constructor Boot(mainRegister: array<bv8>, slave: Slave<H>, sensorInit: Bank -> Bank, flashValid: bool,
                     watchdogCausedReboot: bool, usrSwitch: bool, usrButton: bool)
      requires mainRegister.Length == REGISTER_SIZE
      modifies mainRegister
      ensures Valid()
      ensures this.mainRegister == mainRegister && xs == slave
      ensures fresh(txFifo) && fresh(rxFifo) && txFifo.contents == [] && rxFifo.contents == []
      ensures core1idle && useUsb == usrSwitch
      ensures bootEffects == (if flashValid then [] else [FlashWrite(DefaultImage())])
                             + (if usrButton then [] else [FlashWrite(DefaultImage())])
      ensures mainRegister[..] == BootImage(old(mainRegister[..]), sensorInit, flashValid, watchdogCausedReboot, usrSwitch, usrButton)
    {
      var tx, rx, initEffects := UserInit(mainRegister, flashValid);
      ErrorClear(mainRegister, 0xFFFF_FFFF);
      if watchdogCausedReboot {
        ErrorSet(mainRegister, ERROR_MASK_WATCHDOG_TIMEOUT);
      }
      var resetEffects := [];
      if !usrButton {
        resetEffects := LoadDefaultValues(mainRegister);
      }
      WriteBack(mainRegister, sensorInit(mainRegister[..]));
      if usrSwitch {
        SetConfigBits(mainRegister, CONFIG_FREE_RUN);
        SetConfigBits(mainRegister, CONFIG_CALC_STAT);
      }
      Discard(tx);
      Discard(rx);
      this.mainRegister := mainRegister;
      txFifo, rxFifo := tx, rx;
      xs := slave;
      core1idle := true;
      useUsb := usrSwitch;
      bootEffects := initEffects + resetEffects;
    }

    /** One iteration of `core1Entry`'s loop, between the timestamps
        `startOfCycle` and `endOfCycle`; `sensorUpdate` is the sensor's
        `update`. */
    method Core1Step(startOfCycle: nat, endOfCycle: nat, sensorUpdate: Bank -> Bank) returns (effects: seq<Effect>)
      requires Valid() && startOfCycle < U64 && endOfCycle < U64 && UpdateFrame(sensorUpdate)
      modifies this, mainRegister
      ensures Valid() && useUsb == old(useUsb)
      ensures mainRegister[..] == CycleImage(old(mainRegister[..]), sensorUpdate, CycleDuration(startOfCycle, endOfCycle))
      ensures effects == CycleEffects(old(mainRegister[..]), CycleDuration(startOfCycle, endOfCycle))
      ensures core1idle == if SleepFor(DesiredCycleTimeUs(old(mainRegister[..])) as int, CycleDuration(startOfCycle, endOfCycle)) > 0
                           then false else old(core1idle)
    {
      ghost var s := mainRegister[..];
      effects := if FreeRun(mainRegister[..]) then [SensorUpdate] else [];
      RunSensor(mainRegister, sensorUpdate);
      var cycleDuration := CycleDuration(startOfCycle, endOfCycle);
      StoreAverage(mainRegister, cycleDuration);
      ghost var averaged := mainRegister[..];
      assert averaged == Averaged(Sensed(s, sensorUpdate), cycleDuration);
      var sleepFor := SleepFor(DesiredCycleTimeUs(mainRegister[..]) as int, cycleDuration);
      assert sleepFor == SleepFor(DesiredCycleTimeUs(s) as int, cycleDuration);
      CycleImageByDecision(s, sensorUpdate, cycleDuration);
      if sleepFor > 0 {
        core1idle := true;
        effects := effects + [Core1Idle(true), SleepUs(sleepFor), Core1Idle(false)];
        core1idle := false;
        ErrorClear(mainRegister, ERROR_MASK_SENSOR_OVERLOAD);
      } else {
        ErrorSet(mainRegister, ERROR_MASK_SENSOR_OVERLOAD);
      }
    }

    /** One bus-mode iteration of `main`'s loop: refresh the watchdog, sync
        one message (`readMessage` is the protocol's answer for a timeout),
        drain the transmit queue into one write, flag a full queue, and nap
        while core 1 is idle in a release build. Reading the frame takes
        `consumed` bytes off the receive queue. When a handler runs, its
        replies put `replies` into the transmit queue and its register
        writes leave the bank as `handlerWrites` of the bank it found. */
    method BusIteration(readMessage: nat -> Option<Message>, consumed: nat, replies: seq<bv8>,
                        handlerWrites: Bank -> Bank, releaseBuild: bool)
      returns (invoked: seq<Invocation<H>>, effects: seq<Effect>)
      requires Valid() && consumed <= |rxFifo.contents| && |txFifo.contents| + |replies| <= RX_TX_QUEUE_SIZE
      modifies txFifo, rxFifo, mainRegister
      ensures Valid()
      ensures rxFifo.contents == old(rxFifo.contents)[consumed..]
      ensures readMessage(SYNC_TIMEOUT_US).None? ==> invoked == []
      ensures readMessage(SYNC_TIMEOUT_US).Some? ==> invoked == Dispatch(xs.bindings, readMessage(SYNC_TIMEOUT_US).value)
      ensures txFifo.contents == []
      ensures var sent := old(txFifo.contents) + (if invoked != [] then replies else []);
              effects == [WatchdogUpdate]
                         + (if sent != [] then [UartWrite(sent)] else [])
                         + (if releaseBuild && core1idle then [SleepUs(IDLE_NAP_US)] else [])
      ensures mainRegister[..] == OverloadCheck(if invoked != [] then handlerWrites(old(mainRegister[..])) else old(mainRegister[..]),
                                                false, |old(rxFifo.contents)| - consumed == RX_TX_QUEUE_SIZE)
    {
      effects := [WatchdogUpdate];
      var _, calls := xs.Sync(SYNC_TIMEOUT_US, readMessage);
      invoked := calls;
      var _ := Consume(rxFifo, consumed);
      if calls != [] {
        WriteBack(mainRegister, handlerWrites(mainRegister[..]));
        Enqueue(txFifo, replies);
      }
      ghost var sent := txFifo.contents;
      ghost var handled := mainRegister[..];
      assert sent == old(txFifo.contents) + (if invoked != [] then replies else []);
      assert handled == if invoked != [] then handlerWrites(old(mainRegister[..])) else old(mainRegister[..]);

      var empty := txFifo.IsEmpty();
      if !empty {
        var toSend := Drain(txFifo);
        effects := effects + [UartWrite(toSend)];
      }
      assert effects == [WatchdogUpdate] + (if sent != [] then [UartWrite(sent)] else []);

      var txFull := txFifo.IsFull();
      assert !txFull;
      var rxFull := rxFifo.IsFull();
      if txFull || rxFull {
        ErrorSet(mainRegister, ERROR_MASK_UART_OVERLOAD);
      }

      if releaseBuild && core1idle {
        effects := effects + [SleepUs(IDLE_NAP_US)];
      }
    }
  }
}
