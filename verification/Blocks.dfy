/** Disk blocks as byte strings, and the 32-bit little-endian words that the
    kernel reads and writes inside them (log header, indirect blocks). */
module Blocks {
  const BSIZE := 512
  const WORDS := 128
  const ROOTDEV := 1

  type byte = b: int | 0 <= b < 256
  type uint = u: int | 0 <= u < 0x1_0000_0000

  type Block = s: seq<byte> | |s| == BSIZE witness seq(BSIZE, _ => 0)

  function ZeroBlock(): (r: Block) {
    seq(BSIZE, _ => 0)
  }

  /** Word k of a block, as an x86 load of a uint at byte offset 4 * k. */
  function Word(b: Block, k: nat): (v: uint)
    requires k < WORDS
  {
    b[4 * k] as int + 0x100 * b[4 * k + 1] as int +
    0x1_0000 * b[4 * k + 2] as int + 0x100_0000 * b[4 * k + 3] as int
  }

  /** An x86 store of v at word k: that word reads back as v, every other word is unchanged. */
  function PutWord(b: Block, k: nat, v: uint): (r: Block)
    requires k < WORDS
    ensures forall j: nat | j < WORDS :: Word(r, j) == if j == k then v else Word(b, j)
  {
    var v1 := v / 0x100;
    var v2 := v1 / 0x100;
    var v3 := v2 / 0x100;
    var r := b[4 * k := v % 0x100][4 * k + 1 := v1 % 0x100][4 * k + 2 := v2 % 0x100][4 * k + 3 := v3];
    assert v == v % 0x100 + 0x100 * v1 && v1 == v1 % 0x100 + 0x100 * v2 && v2 == v2 % 0x100 + 0x100 * v3;
    assert Word(r, k) == v;
    assert forall j: nat | j < WORDS && j != k :: Word(r, j) == Word(b, j);
    r
  }
}
