/** The replay's 128-bit counters: two 64-bit words with the machine's wrap-around. */
module Uint128 {
  import opened Common

  datatype U128 = U128(hi: int, lo: int)

  predicate Valid(n: U128) {
    0 <= n.hi < WORD && 0 <= n.lo < WORD
  }

  function Value(n: U128): int {
    n.hi * WORD + n.lo
  }

  const ZERO := U128(0, 0)

  /** Adds a signed 64-bit amount, ignoring negative ones; exact until 128 bits are full. */
  function AddInt64(n: U128, value: int): (r: U128)
    requires Valid(n) && value <= MAX_INT64
    ensures Valid(r)
    ensures Value(r) == (if Value(n) + Max(value, 0) < WORD * WORD then Value(n) + Max(value, 0)
                         else Value(n) + Max(value, 0) - WORD * WORD)
  {
    if value <= 0 then n
    else
      var lo := (n.lo + value) % WORD;
      if lo < n.lo then U128((n.hi + 1) % WORD, lo) else U128(n.hi, lo)
  }

  /** Subtracts with borrow; a larger subtrahend wraps. */
  function Sub(n: U128, other: U128): (r: U128)
    requires Valid(n) && Valid(other)
    ensures Valid(r)
    ensures Value(r) == (if Value(n) >= Value(other) then Value(n) - Value(other)
                         else Value(n) - Value(other) + WORD * WORD)
  {
    var borrow := if n.lo < other.lo then 1 else 0;
    U128((n.hi - other.hi - borrow) % WORD, (n.lo - other.lo) % WORD)
  }

  predicate GreaterThanInt64(n: U128, value: int)
    requires Valid(n) && value <= MAX_INT64
    ensures GreaterThanInt64(n, value) <==> Value(n) > value
  {
    value < 0 || n.hi != 0 || n.lo > value
  }

  function ClampedInt64(n: U128): (r: int)
    requires Valid(n)
    ensures r == Min(MAX_INT64, Value(n))
  {
    if n.hi != 0 || n.lo > MAX_INT64 then MAX_INT64 else n.lo
  }
}
