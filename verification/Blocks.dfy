/** Disk blocks as arrays of 32-bit words, and the log header that overlays the first words of one. */
module Blocks {
  import opened Prelude

  const BLOCKWORDS: nat := 1024 // BSIZE / size_of::<u32>()
  const MAXOPBLOCKS: nat := 10
  const LOGSIZE: nat := 30 // MAXOPBLOCKS * 3

  type Block = b: seq<nat> | |b| == BLOCKWORDS witness Zeros(BLOCKWORDS)

  /** `LogHeader`: only the first `n` block numbers mean anything. */
  datatype Header = Header(n: nat, blocknos: seq<nat>) {
    ghost predicate Valid() {
      |blocknos| == LOGSIZE && n <= LOGSIZE
    }

    function Logged(): (r: seq<nat>)
      requires n <= |blocknos|
      ensures |r| == n
    {
      blocknos[..n]
    }
  }

  const NoHeader := Header(0, Zeros(LOGSIZE))

  function GetHeader(b: Block): (h: Header)
    ensures |h.blocknos| == LOGSIZE
  {
    Header(b[0], b[1..1 + LOGSIZE])
  }

  /** Copying the header over the block keeps the rest of the block. */
  function PutHeader(b: Block, h: Header): (r: Block)
    requires |h.blocknos| == LOGSIZE
    ensures GetHeader(r) == h && r[1 + LOGSIZE..] == b[1 + LOGSIZE..]
  {
    var r := [h.n] + h.blocknos + b[1 + LOGSIZE..];
    assert r[1..1 + LOGSIZE] == h.blocknos;
    r
  }
}
