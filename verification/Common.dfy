/** Vocabulary shared by every component: optional values, machine-width numbers,
    byte strings and ledger addresses. */
module Common {

  datatype Option<+T> = None | Some(value: T)

  datatype Result<+T, +E> = Ok(value: T) | Err(error: E)

  const U64_MAX: int := 0xFFFF_FFFF_FFFF_FFFF
  const TWO_127: int := 0x8000_0000_0000_0000_0000_0000_0000_0000
  const TWO_128: int := 0x1_0000_0000_0000_0000_0000_0000_0000_0000
  const I128_MAX: int := TWO_127 - 1
  const I128_MIN: int := -TWO_127

  type U64 = x: int | 0 <= x <= U64_MAX
  type I128 = x: int | I128_MIN <= x <= I128_MAX

  type Byte = x: int | 0 <= x < 256
  type Bytes = seq<Byte>
  type Bytes32 = b: Bytes | |b| == 32 witness seq(32, i => 0)

  /** A Stellar address: an ordinary account (its text form starts with `G`) or a
      contract (its text form starts with `C`). */
  datatype Address = Account(key: nat) | ContractAddress(id: nat)

  ghost predicate Distinct<T>(xs: seq<T>) {
    forall i, j | 0 <= i < j < |xs| :: xs[i] != xs[j]
  }
}
