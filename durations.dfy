/**
 * time.Duration as a signed 64-bit count of nanoseconds, and the two
 * conversions PersistentKeepalive goes through: seconds to a duration when
 * decoding, `toSeconds` when encoding.
 */
module Durations {
  import opened StrConv

  const SECOND: int := 1_000_000_000
  const TWO_64: int := 0x1_0000_0000_0000_0000

  /** Two's-complement wrap-around of a 64-bit signed multiplication. */
  function Wrap64(x: int): (r: int)
    ensures InInt64(r)
    ensures InInt64(x) ==> r == x
    ensures (r - x) % TWO_64 == 0
  {
    (x - MIN_INT64) % TWO_64 + MIN_INT64
  }

  /** `time.Duration(t * int64(time.Second))`: the product wraps around past the 64-bit range. */
  function FromSeconds(t: int): (d: int)
    ensures InInt64(d)
    ensures InInt64(t * SECOND) ==> d == t * SECOND
  {
    Wrap64(t * SECOND)
  }

  /** toSeconds: `duration / time.Second`, Go's division, which truncates toward zero. */
  function ToSeconds(d: int): (t: int)
    ensures d >= 0 ==> 0 <= d - t * SECOND < SECOND
    ensures d < 0 ==> -SECOND < d - t * SECOND <= 0
  {
    if d >= 0 then d / SECOND else -((-d) / SECOND)
  }

  /** A whole number of seconds is never further from zero than the duration it is taken from. */
  lemma ToSecondsInRange(d: int)
    requires InInt64(d)
    ensures InInt64(ToSeconds(d)) && InInt64(ToSeconds(d) * SECOND)
  {
    var t := ToSeconds(d);
    if d >= 0 {
      assert 0 <= t * SECOND <= d;
    } else {
      assert d <= t * SECOND <= 0;
    }
  }

  /** toSeconds inverts the conversion of a seconds count that does not overflow. */
  lemma ToSecondsFromSeconds(t: int)
    requires InInt64(t * SECOND)
    ensures ToSeconds(FromSeconds(t)) == t
  {
  }

  /** A whole number of seconds survives toSeconds followed by the conversion back. */
  lemma FromSecondsToSeconds(d: int)
    requires InInt64(d) && d % SECOND == 0
    ensures FromSeconds(ToSeconds(d)) == d
  {
    var q := d / SECOND;
    assert d == q * SECOND;
    assert ToSeconds(d) == q;
  }

  /** A seconds count past the 64-bit range wraps around to a different duration. */
  lemma FromSecondsOverflows()
    ensures FromSeconds(10_000_000_000) != 10_000_000_000 * SECOND
  {
  }
}
