/** The `networkTick` counter of the game loop: a snapshot goes out once every TICK_RATE / NETWORK_RATE ticks. */
module Cadence {
  import opened Config

  /** The counter after one game-loop pass. */
  function NextTick(t: int): (r: int)
    ensures 0 <= t ==> 0 <= r < TicksPerSnapshot
  {
    if t + 1 < TicksPerSnapshot then t + 1 else 0
  }

  /** Whether the pass that starts with counter `t` sends snapshots. */
  predicate Emits(t: int)
  {
    !(t + 1 < TicksPerSnapshot)
  }

  /** The counter after `n` passes from server start. */
  function CounterAfter(n: nat): (r: int)
  {
    if n == 0 then 0 else NextTick(CounterAfter(n - 1))
  }

  /** After n passes the counter is n mod TICK_RATE / NETWORK_RATE. */
  lemma {:induction false} CounterAfterIsMod(n: nat)
    ensures CounterAfter(n) == n % TicksPerSnapshot
  {
    if n > 0 {
      CounterAfterIsMod(n - 1);
    }
  }

  /** Pass number n + 1 (counting from one) sends snapshots exactly when n + 1 is a multiple of three. */
  lemma EmitsEveryThird(n: nat)
    ensures Emits(CounterAfter(n)) <==> (n + 1) % TicksPerSnapshot == 0
  {
    CounterAfterIsMod(n);
  }
}
