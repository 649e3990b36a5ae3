/** The doubling that both kinds of backoff are made of. */
module Arithmetic {
  function Pow2(n: nat): nat { if n == 0 then 1 else 2 * Pow2(n - 1) }
}
