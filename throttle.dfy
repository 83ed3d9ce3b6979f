/**
 * The publish throttle of the main loop: a static 16-bit counter that is
 * pre-incremented on every pass, and that is reset to 0, with the report
 * sent, once it reaches 10.
 */
module Throttle {
  import opened CInt

  /** Passes of the main loop per report. */
  const PUBLISH_PERIOD := 10

  /** The counter after one pass, and whether that pass sends the report. */
  datatype Tick = Tick(counter: u16, publish: bool)

  /** `if (++uartCounter >= 10) { uartCounter = 0; UART_SendBMSData(); }` with 16-bit wrap-around. */
  function Step(c: u16): (t: Tick)
    ensures c < PUBLISH_PERIOD ==> t.counter < PUBLISH_PERIOD
    ensures c < PUBLISH_PERIOD ==> (t.publish <==> c == PUBLISH_PERIOD - 1)
    ensures c < PUBLISH_PERIOD && !t.publish ==> t.counter == c + 1
    ensures t.publish ==> t.counter == 0
  {
    var next: u16 := (c + 1) % 0x1_0000;
    if next >= PUBLISH_PERIOD then Tick(0, true) else Tick(next, false)
  }

  /** The counter after `k` passes, starting from its static initial value 0. */
  function CounterAfter(k: nat): (c: u16)
    ensures c < PUBLISH_PERIOD
  {
    if k == 0 then 0 else Step(CounterAfter(k - 1)).counter
  }

  /** Whether pass `k` (counting from 1) sends the report. */
  predicate PublishesOn(k: nat)
    requires k >= 1
  {
    Step(CounterAfter(k - 1)).publish
  }

  /** The counter counts the passes modulo 10. */
  lemma {:induction false} CounterIsRemainder(k: nat)
    ensures CounterAfter(k) == k % PUBLISH_PERIOD
  {
    if k > 0 {
      CounterIsRemainder(k - 1);
      RemainderSucc(k - 1);
    }
  }

  /** Pass `k` publishes exactly when `k` is a multiple of 10. */
  lemma PublishesExactlyEveryTenth(k: nat)
    requires k >= 1
    ensures PublishesOn(k) <==> k % PUBLISH_PERIOD == 0
  {
    CounterIsRemainder(k - 1);
    RemainderSucc(k - 1);
  }

  lemma RemainderSucc(m: nat)
    ensures (m + 1) % PUBLISH_PERIOD == if m % PUBLISH_PERIOD == PUBLISH_PERIOD - 1 then 0 else m % PUBLISH_PERIOD + 1
  {
    var q, r := m / PUBLISH_PERIOD, m % PUBLISH_PERIOD;
    assert m == PUBLISH_PERIOD * q + r;
    if r == PUBLISH_PERIOD - 1 {
      assert m + 1 == PUBLISH_PERIOD * (q + 1);
    } else {
      assert m + 1 == PUBLISH_PERIOD * q + (r + 1);
    }
  }

  /** The first nine passes never publish. */
  lemma NoPublishBeforeTenth(k: nat)
    requires 1 <= k < PUBLISH_PERIOD
    ensures !PublishesOn(k)
  {
    PublishesExactlyEveryTenth(k);
  }

  /** How many of the passes 1..n sent the report. */
  function Publications(n: nat): nat
  {
    if n == 0 then 0 else Publications(n - 1) + (if PublishesOn(n) then 1 else 0)
  }

  /** After `n` passes the report has been sent `n / 10` times. */
  lemma {:induction false} PublicationsCount(n: nat)
    ensures Publications(n) == n / PUBLISH_PERIOD
  {
    if n > 0 {
      PublicationsCount(n - 1);
      PublishesExactlyEveryTenth(n);
    }
  }
}
