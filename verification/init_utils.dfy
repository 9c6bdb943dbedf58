/** Start-up helpers and the UART receive interrupt (src/InitUtils.cpp). */
module InitUtils {
  import opened Hardware
  import opened Register
  import opened Queue

  /** Capacity of each byte queue. Its value is defined outside this model;
      the proofs only use that it is positive. */
  const RX_TX_QUEUE_SIZE: nat := 512

  predicate InDefaultField(i: nat)
  {
    || GAIN_PV0_OFFSET <= i < GAIN_PV0_OFFSET + 4
    || GAIN_PV1_OFFSET <= i < GAIN_PV1_OFFSET + 4
    || OFFSET_DESIRED_CYCLE_TIME <= i < OFFSET_DESIRED_CYCLE_TIME + 4
  }

  /** The bank `userLoadDefaultValues` leaves: all zero, then gainPv0 = 1.0,
      gainPv1 = 1.0 written three times, the default cycle time, and the
      configuration byte cleared. */
  function DefaultImage(): Bank
  {
    var zero := seq(REGISTER_SIZE, _ => 0 as bv8);
    var g0 := StoreU32(zero, GAIN_PV0_OFFSET, F32_ONE);
    var g1 := StoreU32(StoreU32(StoreU32(g0, GAIN_PV1_OFFSET, F32_ONE), GAIN_PV1_OFFSET, F32_ONE), GAIN_PV1_OFFSET, F32_ONE);
    var d := StoreU32(g1, OFFSET_DESIRED_CYCLE_TIME, DEFAULT_CYCLE_TIME_US);
    d[OFFSET_CONFIG_BITS := 0]
  }

  lemma ZeroWord(s: seq<bv8>, off: nat)
    requires off + 4 <= |s| && s[off] == 0 && s[off + 1] == 0 && s[off + 2] == 0 && s[off + 3] == 0
    ensures LoadU32(s, off) == 0
  {
  }

  /** What the factory defaults hold: the two gains written are 1.0, gainPv2
      and gainPv3 stay 0 (gainPv1 is written three times instead), the cycle
      time is the default, every configuration bit (free-run, statistics) is
      clear, the error word and the net cycle time are 0, and every byte
      outside the written fields is 0. */
  lemma DefaultImageFields()
    ensures GainPv(DefaultImage(), 0) == F32_ONE && GainPv(DefaultImage(), 1) == F32_ONE
    ensures GainPv(DefaultImage(), 2) == 0 && GainPv(DefaultImage(), 3) == 0
    ensures DesiredCycleTimeUs(DefaultImage()) == DEFAULT_CYCLE_TIME_US
    ensures ConfigBits(DefaultImage()) == 0 && !FreeRun(DefaultImage()) && !CalcStat(DefaultImage())
    ensures Error(DefaultImage()) == 0 && NetCycleTimeUs(DefaultImage()) == 0
    ensures forall i :: 0 <= i < REGISTER_SIZE && !InDefaultField(i) ==> DefaultImage()[i] == 0
  {
    var d := DefaultImage();
    assert forall i :: 0 <= i < REGISTER_SIZE && !InDefaultField(i) ==> d[i] == 0;
    ZeroWord(d, GAIN_PV2_OFFSET);
    ZeroWord(d, GAIN_PV3_OFFSET);
    ZeroWord(d, ERROR_OFFSET);
    ZeroWord(d, OFFSET_NET_CYCLE_TIME);
  }

  /** `userLoadDefaultValues`: zero the whole bank in place, write the
      default fields, then persist the bank to flash. */
  method LoadDefaultValues(mainRegister: array<bv8>) returns (effects: seq<Effect>)
    requires mainRegister.Length == REGISTER_SIZE
    modifies mainRegister
    ensures mainRegister[..] == DefaultImage()
    ensures effects == [FlashWrite(DefaultImage())]
  {
    for i := 0 to REGISTER_SIZE
      invariant forall j :: 0 <= j < i ==> mainRegister[j] == 0
    {
      mainRegister[i] := 0;
    }
    assert mainRegister[..] == seq(REGISTER_SIZE, _ => 0 as bv8);
    PutU32(mainRegister, GAIN_PV0_OFFSET, F32_ONE);
    PutU32(mainRegister, GAIN_PV1_OFFSET, F32_ONE);
    PutU32(mainRegister, GAIN_PV1_OFFSET, F32_ONE);
    PutU32(mainRegister, GAIN_PV1_OFFSET, F32_ONE);
    PutU32(mainRegister, OFFSET_DESIRED_CYCLE_TIME, DEFAULT_CYCLE_TIME_US);
    mainRegister[OFFSET_CONFIG_BITS] := 0;
    effects := [FlashWrite(mainRegister[..])];
  }

  /** `userInitQueue`: two distinct, empty byte queues of element size 1. */
  method InitQueue() returns (txFifo: ByteQueue, rxFifo: ByteQueue)
    ensures fresh(txFifo) && fresh(rxFifo) && txFifo != rxFifo
    ensures txFifo.Valid() && txFifo.contents == [] && txFifo.elementSize == 1 && txFifo.capacity == RX_TX_QUEUE_SIZE
    ensures rxFifo.Valid() && rxFifo.contents == [] && rxFifo.elementSize == 1 && rxFifo.capacity == RX_TX_QUEUE_SIZE
  {
    txFifo := new ByteQueue.Init(1, RX_TX_QUEUE_SIZE);
    rxFifo := new ByteQueue.Init(1, RX_TX_QUEUE_SIZE);
  }

  /** `uart_interrupt_handler`. `received` is the byte `uart_getc` returns,
      or None when the UART is not readable. A byte that fits is appended to
      the receive queue; a byte that does not is dropped and the CPU-overload
      bit is OR-ed into the error word through a 64-bit pointer. */
  method UartInterruptHandler(rxFifo: ByteQueue, mainRegister: array<bv8>, received: Option<bv8>)
    requires rxFifo.Valid() && mainRegister.Length == REGISTER_SIZE
    modifies rxFifo, mainRegister
    ensures rxFifo.Valid()
    ensures received.None? ==> rxFifo.contents == old(rxFifo.contents) && mainRegister[..] == old(mainRegister[..])
    ensures received.Some? && |old(rxFifo.contents)| < rxFifo.capacity ==>
              rxFifo.contents == old(rxFifo.contents) + [received.value] && mainRegister[..] == old(mainRegister[..])
    ensures received.Some? && |old(rxFifo.contents)| == rxFifo.capacity ==>
              rxFifo.contents == old(rxFifo.contents)
              && mainRegister[..] == WithErrorSet(old(mainRegister[..]), ERROR_MASK_CPU_OVERLOAD)
  {
    if received.Some? {
      var success := rxFifo.TryAdd(received.value);
      if !success {
        ErrorSetWide(mainRegister, ERROR_MASK_CPU_OVERLOAD);
      }
    }
  }

  /** `userInit`: create the queues, then keep the bank the flash restore
      left when it reports a valid image, or load the factory defaults. */
  method UserInit(mainRegister: array<bv8>, flashValid: bool)
    returns (txFifo: ByteQueue, rxFifo: ByteQueue, effects: seq<Effect>)
    requires mainRegister.Length == REGISTER_SIZE
    modifies mainRegister
    ensures fresh(txFifo) && fresh(rxFifo) && txFifo != rxFifo
    ensures txFifo.Valid() && txFifo.contents == [] && txFifo.elementSize == 1 && txFifo.capacity == RX_TX_QUEUE_SIZE
    ensures rxFifo.Valid() && rxFifo.contents == [] && rxFifo.elementSize == 1 && rxFifo.capacity == RX_TX_QUEUE_SIZE
    ensures flashValid ==> mainRegister[..] == old(mainRegister[..]) && effects == []
    ensures !flashValid ==> mainRegister[..] == DefaultImage() && effects == [FlashWrite(DefaultImage())]
  {
    txFifo, rxFifo := InitQueue();
    effects := [];
    if !flashValid {
      effects := LoadDefaultValues(mainRegister);
    }
  }
}
