/** Types shared by the components. */
module Common {

  datatype Option<+T> = None | Some(value: T)

  /** A 64-bit peer identifier. */
  newtype NetworkId = x: int | 0 <= x < 0x1_0000_0000_0000_0000

  newtype byte = x: int | 0 <= x < 256
  type Bytes = seq<byte>

  /** A clock reading in nanoseconds. */
  type Time = int

  const MILLISECOND: Time := 1_000_000
  const SECOND: Time := 1_000_000_000

  /** std::chrono::duration_cast to a coarser unit: division that truncates toward zero. */
  function WholeUnits(d: Time, unit: Time): int
    requires unit > 0
  {
    if d >= 0 then d / unit else -(-d / unit)
  }

  lemma DividesDown(m: nat, unit: Time)
    requires unit > 0
    ensures m / unit * unit <= m < m / unit * unit + unit
  {
    assert m == m / unit * unit + m % unit;
  }

  /** The whole units are the most that fit, with the sign of the duration. */
  lemma TruncatesTowardZero(d: Time, unit: Time)
    requires unit > 0
    ensures var n := WholeUnits(d, unit);
            if d >= 0 then n * unit <= d < n * unit + unit else n * unit - unit < d <= n * unit
  {
    if d >= 0 {
      DividesDown(d, unit);
    } else {
      DividesDown(-d, unit);
      assert -(-d / unit) * unit == -(-d / unit * unit);
    }
  }
}
