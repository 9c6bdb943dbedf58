/** Watchdog-safe sleeping (`sleep_hp`, `sleep_lp`): a sleep longer than the
    watchdog allows is cut into half-window chunks with a keep-alive after
    each, and the remainder is slept last. */
module Sleep {
  import opened Hardware

  /** The watchdog window in microseconds. */
  const WINDOW_US: nat := DEFAULT_WATCHDOG_DELAY * 1000
  /** One in-loop chunk: half the window. */
  const CHUNK_US: nat := DEFAULT_WATCHDOG_DELAY * 500

  /** The effects of the chunking loop and the final sleep, for a request of
      `us` microseconds. The loop runs while `us + 1000 > DELAY * 1000`, read
      as a mathematical inequality. */
  function Chunks(us: nat): seq<Effect>
    decreases us
  {
    if us + 1000 > WINDOW_US then [SleepUs(CHUNK_US), WatchdogUpdate] + Chunks(us - CHUNK_US)
    else [SleepUs(us)]
  }

  /** No single sleep, together with the 1 ms margin, reaches the watchdog
      window, and a keep-alive follows every sleep but the last. */
  predicate WatchdogSafe(t: seq<Effect>)
  {
    && (forall i :: 0 <= i < |t| && t[i].SleepUs? ==> t[i].us + 1000 <= WINDOW_US)
    && (forall i :: 0 <= i < |t| - 1 && t[i].SleepUs? ==> t[i + 1] == WatchdogUpdate)
  }

  /** The chunks add up to the request, each in-loop chunk is half the
      window and the trace ends with the remainder. */
  lemma {:induction false} ChunksShape(us: nat)
    ensures SleptUs(Chunks(us)) == us
    ensures |Chunks(us)| % 2 == 1 && Chunks(us)[|Chunks(us)| - 1].SleepUs?
    ensures forall i :: 0 <= i < |Chunks(us)| - 1 && Chunks(us)[i].SleepUs? ==> Chunks(us)[i].us == CHUNK_US
    decreases us
  {
    if us + 1000 > WINDOW_US {
      var rest := Chunks(us - CHUNK_US);
      ChunksShape(us - CHUNK_US);
      SleptUsAppend([SleepUs(CHUNK_US), WatchdogUpdate], rest);
      var t := Chunks(us);
      assert t == [SleepUs(CHUNK_US), WatchdogUpdate] + rest;
      assert forall i :: 2 <= i < |t| ==> t[i] == rest[i - 2];
    }
  }

  lemma {:induction false} ChunksAreWatchdogSafe(us: nat)
    ensures WatchdogSafe(Chunks(us))
    decreases us
  {
    if us + 1000 > WINDOW_US {
      var rest := Chunks(us - CHUNK_US);
      ChunksAreWatchdogSafe(us - CHUNK_US);
      var t := Chunks(us);
      assert t == [SleepUs(CHUNK_US), WatchdogUpdate] + rest;
      assert forall i :: 2 <= i < |t| ==> t[i] == rest[i - 2];
      assert rest[0].SleepUs?;
    }
  }

  /** The loop guard exactly as compiled: `us + 1000` is a uint64_t sum and
      wraps for requests within 1000 of 2^64. */
  function ChunksAsWritten(us: nat): seq<Effect>
    requires us < U64
    decreases us
  {
    if (us + 1000) % U64 > WINDOW_US then
      assert us + 1000 < U64;
      [SleepUs(CHUNK_US), WatchdogUpdate] + ChunksAsWritten(us - CHUNK_US)
    else [SleepUs(us)]
  }

  /** Below the wrap-around point the compiled guard behaves as intended. */
  lemma {:induction false} AsWrittenAgreesBelowWrap(us: nat)
    requires us + 1000 < U64
    ensures ChunksAsWritten(us) == Chunks(us)
    decreases us
  {
    if us + 1000 > WINDOW_US {
      AsWrittenAgreesBelowWrap(us - CHUNK_US);
    }
  }

  /** With the compiled guard, a request of 2^64 - 1 microseconds (what
      `printIntervalUs - (end - timestamp) - 10` becomes when printing overruns
      the interval) skips the chunking and is slept in one piece, without any
      keep-alive. */
  lemma AsWrittenWrapSkipsChunking()
    ensures ChunksAsWritten(U64 - 1) == [SleepUs(U64 - 1)]
    ensures !WatchdogSafe(ChunksAsWritten(U64 - 1))
  {
    assert (U64 - 1 + 1000) % U64 == 999;
    assert ChunksAsWritten(U64 - 1)[0] == SleepUs(U64 - 1);
  }

  /** The compiled loop also sleeps exactly the requested time in total. */
  lemma {:induction false} AsWrittenSum(us: nat)
    requires us < U64
    ensures SleptUs(ChunksAsWritten(us)) == us
    decreases us
  {
    if (us + 1000) % U64 > WINDOW_US {
      AsWrittenSum(us - CHUNK_US);
      SleptUsAppend([SleepUs(CHUNK_US), WatchdogUpdate], ChunksAsWritten(us - CHUNK_US));
    }
  }

  /** `sleep_hp(us)`: chunked sleep at full clock speed, with the loop guard
      evaluated in `uint64_t` as compiled. Its sleeps add up to the request;
      for every request that does not wrap the guard it is the intended,
      watchdog-safe chunking. */
  method SleepHp(us: nat) returns (effects: seq<Effect>)
    requires us < U64
    ensures effects == ChunksAsWritten(us)
    ensures SleptUs(effects) == us
    ensures us + 1000 < U64 ==> effects == Chunks(us) && WatchdogSafe(effects)
  {
    var rest: nat := us;
    effects := [];
    while (rest + 1000) % U64 > WINDOW_US
      invariant rest <= us
      invariant effects + ChunksAsWritten(rest) == ChunksAsWritten(us)
      decreases rest
    {
      assert rest + 1000 < U64;
      effects := effects + [SleepUs(CHUNK_US)];
      rest := rest - CHUNK_US;
      effects := effects + [WatchdogUpdate];
    }
    effects := effects + [SleepUs(rest)];
    AsWrittenSum(us);
    if us + 1000 < U64 {
      AsWrittenAgreesBelowWrap(us);
      ChunksAreWatchdogSafe(us);
    }
  }

  /** `sleep_lp(us)`: the same chunked sleep, with the bus transceiver
      disabled, the user LED released and the clocks lowered around it. */
  method SleepLp(us: nat) returns (effects: seq<Effect>)
    requires us < U64
    ensures effects == [RsEnable(false), UserLedOutput(false), ClocksLowPower]
                       + ChunksAsWritten(us)
                       + [ClocksHighPower, UserLedOutput(true), RsEnable(true)]
    ensures SleptUs(effects) == us
    ensures us + 1000 < U64 ==> ChunksAsWritten(us) == Chunks(us)
  {
    var sleeping := SleepHp(us);
    effects := [RsEnable(false), UserLedOutput(false), ClocksLowPower]
               + sleeping
               + [ClocksHighPower, UserLedOutput(true), RsEnable(true)];
    SleptUsAppend([RsEnable(false), UserLedOutput(false), ClocksLowPower], sleeping);
    SleptUsAppend([RsEnable(false), UserLedOutput(false), ClocksLowPower] + sleeping,
                  [ClocksHighPower, UserLedOutput(true), RsEnable(true)]);
  }
}
