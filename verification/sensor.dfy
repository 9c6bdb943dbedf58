/** The sensor driver as the core sees it (include/Sensor.hpp): `init` and
    `update` write the measurement into the register bank. The model takes
    each of them as the bank it leaves behind and constrains only which
    fields it may touch; the measured values are not modelled. */
module Sensor {
  import opened Register

  /** The fields no sensor driver writes: the error word and the
      configuration byte. */
  predicate KeepsStatus(before: Bank, after: Bank)
  {
    Error(after) == Error(before) && ConfigBits(after) == ConfigBits(before)
  }

  /** `init` may set up the cycle time, but leaves the status fields alone. */
  ghost predicate InitFrame(init: Bank -> Bank)
  {
    forall s: Bank :: KeepsStatus(s, init(s))
  }

  /** `update` writes process values and statistics only: the status fields
      and both cycle times are left as they were. */
  ghost predicate UpdateFrame(update: Bank -> Bank)
  {
    forall s: Bank :: KeepsStatus(s, update(s))
      && DesiredCycleTimeUs(update(s)) == DesiredCycleTimeUs(s)
      && NetCycleTimeUs(update(s)) == NetCycleTimeUs(s)
  }

  /** The SCL3400 inclinometer samples at 10 Hz. */
  const SCL3400_CYCLE_TIME_US: bv32 := 100000

  /** The register writes of `SCL3400::init`: the desired cycle time. */
  function Scl3400Init(s: Bank): Bank
  {
    StoreU32(s, OFFSET_DESIRED_CYCLE_TIME, SCL3400_CYCLE_TIME_US)
  }

  /** The SCL3400's `init` keeps to the frame every driver's `init` keeps,
      and leaves the desired cycle time at 100 ms whatever it was. */
  lemma Scl3400InitFrame()
    ensures InitFrame(Scl3400Init)
    ensures forall s: Bank :: DesiredCycleTimeUs(Scl3400Init(s)) == SCL3400_CYCLE_TIME_US
  {
    forall s: Bank
      ensures KeepsStatus(s, Scl3400Init(s))
    {
      StoreU32Elsewhere(s, OFFSET_DESIRED_CYCLE_TIME, SCL3400_CYCLE_TIME_US, ERROR_OFFSET);
    }
  }
}
