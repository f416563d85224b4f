/** Machine words of the modelled program.

    The source computes on bytes, 64-bit and 256-bit unsigned integers. Here they are subset types of
    `int`, and every operation that may wrap around is written with `Wrap64` or `Wrap256`.
 */
module Words {

  const TWO_64: int := 0x1_0000_0000_0000_0000
  const TWO_256: int := 0x1_0000000000000000_0000000000000000_0000000000000000_0000000000000000

  type byte = x: int | 0 <= x < 256
  type u64 = x: int | 0 <= x < TWO_64
  type u256 = x: int | 0 <= x < TWO_256

  // The largest value of the source's `int`, which bounds the length of every slice.
  const MAX_INT: int := 0x7fff_ffff_ffff_ffff

  function Wrap64(x: int): u64 { x % TWO_64 }

  function Wrap256(x: int): u256 { x % TWO_256 }

  lemma Wrap64Small(x: int)
    ensures 0 <= x < TWO_64 <==> Wrap64(x) == x
  {
  }

  lemma Wrap256Small(x: int)
    ensures 0 <= x < TWO_256 <==> Wrap256(x) == x
  {
  }

  lemma Wrap64Add(x: int, y: int)
    ensures Wrap64(Wrap64(x) + y) == Wrap64(x + y)
  {
  }

  lemma Wrap256Add(x: int, y: int)
    ensures Wrap256(Wrap256(x) + y) == Wrap256(x + y)
  {
  }

  function Min(a: int, b: int): int { if a < b then a else b }

  function Max(a: int, b: int): int { if a < b then b else a }

  datatype Option<+T> = None | Some(value: T)
}
