/** Fixed-width integers of the contracts (Rust `u128`/`Balance`, `i128`),
    their saturating operations, and the abort outcome shared by every module.

    A Rust panic inside a NEAR contract call reverts the whole call, so every
    panic of the source is modelled as an `Abort` carrying the reason, and the
    methods that change state promise that nothing changed when they abort.
    Arithmetic overflow (`+`, `-` on `u128`, `-= 1` on `u32`) is modelled as a
    panic, as in a build with overflow checks enabled. */
module Base {

  const U128_MAX: int := 0xffff_ffff_ffff_ffff_ffff_ffff_ffff_ffff
  const I128_MIN: int := -0x8000_0000_0000_0000_0000_0000_0000_0000
  const I128_MAX: int := 0x7fff_ffff_ffff_ffff_ffff_ffff_ffff_ffff

  /** `u128`, also NEAR's `Balance`. */
  type u128 = x: int | 0 <= x <= U128_MAX

  /** `i128`, the type of a vote and of the median. */
  type i128 = x: int | I128_MIN <= x <= I128_MAX

  /** `u128::saturating_add`: the exact sum, clamped at the largest value. */
  function SatAdd(a: u128, b: u128): (r: u128)
    ensures a + b <= U128_MAX ==> r == a + b
    ensures a + b > U128_MAX ==> r == U128_MAX
    ensures a <= r && b <= r
  {
    if a + b <= U128_MAX then a + b else U128_MAX
  }

  /** `u128::saturating_sub`: the exact difference, clamped at zero. */
  function SatSub(a: u128, b: u128): (r: u128)
    ensures b <= a ==> r == a - b
    ensures a < b ==> r == 0
    ensures r <= a
  {
    if b <= a then a - b else 0
  }

  /** `i128::saturating_add`: the exact sum, clamped to the `i128` range. */
  function SatAddI(a: i128, b: i128): (r: i128)
    ensures I128_MIN <= a + b <= I128_MAX ==> r == a + b
    ensures a + b > I128_MAX ==> r == I128_MAX
    ensures a + b < I128_MIN ==> r == I128_MIN
  {
    if a + b > I128_MAX then I128_MAX
    else if a + b < I128_MIN then I128_MIN
    else a + b
  }

  /** `x / 2` on `i128` (through `checked_div`, which cannot fail for the
      divisor 2): Rust truncates toward zero, unlike Dafny's `/`. */
  function HalfTowardZero(x: i128): (r: i128)
    ensures 0 <= x ==> 0 <= r && x - 1 <= 2 * r <= x
    ensures x < 0 ==> r <= 0 && x <= 2 * r <= x + 1
  {
    var n: int := x;
    if n >= 0 then n / 2 else -((-n) / 2)
  }

  /** A NEAR account name. */
  type AccountId = string

  /** Why a call aborts (the panics of the source). */
  datatype Fault =
    | LengthMismatch          // "Wrong Weights Length"
    | MissingOldVote          // binary_search of old_vote failed, then panic!()
    | PointerUnderflow        // `k -= 1` on a `u32` holding 0
    | WeightOutOfRange        // `w[k]` with k past the end
    | VoteOutOfRange          // `y[k]` or `y[k + 1]` past the end
    | WrongDeposit            // attached deposit is not 16 storage bytes
    | NonPositiveVote         // "Vote cannot be negative"
    | NotSelf                 // a #[private] callback called from outside
    | NoStaking               // "ERR_NO_STAKING"
    | InvalidCaller           // "ERR_INVALID_CALLER"
    | NotRegistered           // "ERR_NOT_REGISTERED"
    | Overflow                // `+` or `-` on `u128` out of range

  /** The result of a call that may panic. */
  datatype Outcome<+T> = Done(value: T) | Abort(fault: Fault)

  datatype Option<+T> = None | Some(value: T)
}
