/** Observable effects of the firmware on the world outside its own memory:
    sleeps, watchdog refreshes, GPIO writes, clock switches, bus writes,
    flash writes and sensor updates. The model records them, in order, as a
    trace that the operations return. */
module Hardware {

  /** 2^64: every timestamp and microsecond count in the firmware is a uint64_t. */
  const U64: nat := 0x1_0000_0000_0000_0000
  /** 2^32 */
  const U32: nat := 0x1_0000_0000

  /** Watchdog window in milliseconds (200 ms, as `watchdog_enable` is called). */
  const DEFAULT_WATCHDOG_DELAY: nat := 200

  datatype Option<T> = None | Some(value: T)

  datatype Effect =
    | SleepUs(us: nat)                 // sleep_us
    | WatchdogUpdate                   // watchdog_update
    | RsEnable(high: bool)             // gpio_put(RS_EN_PIN, ...)
    | UserLedOutput(output: bool)      // gpio_set_dir(USR_LED_PIN, GPIO_OUT / GPIO_IN)
    | ClocksLowPower                   // setClocksLP
    | ClocksHighPower                  // setClocksHP
    | UartWrite(bytes: seq<bv8>)       // uart_write_blocking
    | FlashWrite(image: seq<bv8>)      // updateFlash
    | SensorUpdate                     // sensor.update()
    | Core1Idle(idle: bool)            // write of the shared core1idle flag

  /** Total time asked of `sleep_us` along a trace. */
  function SleptUs(t: seq<Effect>): nat
  {
    if t == [] then 0
    else (if t[0].SleepUs? then t[0].us else 0) + SleptUs(t[1..])
  }

  lemma {:induction false} SleptUsAppend(a: seq<Effect>, b: seq<Effect>)
    ensures SleptUs(a + b) == SleptUs(a) + SleptUs(b)
  {
    if a == [] {
      assert a + b == b;
    } else {
      assert (a + b)[1..] == a[1..] + b;
      SleptUsAppend(a[1..], b);
    }
  }
}
