/** Value types shared by the indexer, the store and the configuration:
    fixed-width integers, byte strings of fixed length, and the `Transfer`
    record handed from the indexer to the store (src/types.rs). */
module Types {

  type Byte = x: int | 0 <= x < 256

  type U8 = x: int | 0 <= x < 256

  const TWO_32: int := 0x1_0000_0000
  const TWO_63: int := 0x8000_0000_0000_0000
  const TWO_64: int := 0x1_0000_0000_0000_0000

  type U64 = x: int | 0 <= x < TWO_64

  /** A 20-byte account or contract address. */
  type Address = s: seq<Byte> | |s| == 20 witness seq(20, i => 0)

  /** A 32-byte word: an event topic or a transaction hash. */
  type H256 = s: seq<Byte> | |s| == 32 witness seq(32, i => 0)

  /** `H256::default()`: the all-zero word. */
  const ZeroHash: H256 := seq(32, i => 0)

  datatype Option<T> = None | Some(value: T) {
    function GetOr(default: T): T {
      match this
      case Some(v) => v
      case None => default
    }
  }

  datatype Result<T, E> = Ok(value: T) | Err(error: E)

  datatype Outcome<E> = Pass | Fail(error: E)

  /** One decoded ERC-20 transfer, as built by the indexer. The raw amount is
      the unbounded integer read from the log; `amount` is the normalised
      display amount (an f64 in the source, a real here). */
  datatype Transfer = Transfer(
    blockNumber: U64,
    txHash: H256,
    logIndex: U64,
    token: Address,
    from: Address,
    to: Address,
    amountRaw: nat,
    amount: real,
    timestamp: U64)
}
