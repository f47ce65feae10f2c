/** Bytes on the wire: the 8-byte header of src/lib/frl_util_socket_pipe.h and the
    stream that one message becomes. */
module Wire {
  import opened Basics

  type U32 = x: int | 0 <= x < 0x1_0000_0000
  type Bytes = seq<Byte>

  const HEADER := 8               // SIZEOF_FRL_PIPE_HEADER_T
  const PACKAGE := 4092           // SOCKET_PACKAGE_SIZE
  const BLOCK := PACKAGE - HEADER // SIZEOF_FRL_PIPE_BLOCK_BUFFER

  /** A 32-bit integer as it lies in memory on a little-endian machine. */
  function Enc32(n: U32): (r: Bytes)
    ensures |r| == 4
  {
    var n1 := n / 256;
    var n2 := n1 / 256;
    [n % 256, n1 % 256, n2 % 256, n2 / 256]
  }

  function Dec32(b: Bytes): U32
    requires |b| == 4
  {
    var b0: int, b1: int, b2: int, b3: int := b[0], b[1], b[2], b[3];
    b0 + 256 * (b1 + 256 * (b2 + 256 * b3))
  }

  lemma DecEnc(n: U32)
    ensures Dec32(Enc32(n)) == n
  {
  }

  /** frl_pipe_header_t: size, then hash. */
  function Header(size: U32, hash: U32): (r: Bytes)
    ensures |r| == HEADER
  {
    Enc32(size) + Enc32(hash)
  }

  function SizeIn(header: Bytes): U32
    requires |header| >= HEADER
  {
    Dec32(header[..4])
  }

  function HashIn(header: Bytes): U32
    requires |header| >= HEADER
  {
    Dec32(header[4..8])
  }

  lemma HeaderFields(b: Bytes, size: U32, hash: U32)
    requires |b| >= HEADER && b[..HEADER] == Header(size, hash)
    ensures SizeIn(b) == size && HashIn(b) == hash
  {
    assert b[..4] == b[..HEADER][..4] == Enc32(size);
    assert b[4..8] == b[..HEADER][4..8] == Enc32(hash);
    DecEnc(size);
    DecEnc(hash);
  }

  /** How much of a message of `n` bytes goes into the block that starts at `off`. */
  function BlockLen(n: nat, off: nat): (r: nat)
    requires off <= n
    ensures r <= BLOCK && off + r <= n
  {
    if n - off < BLOCK then n - off else BLOCK
  }

  /** One block: header and payload. */
  function Block(m: Bytes, off: nat, h: Bytes -> U32): (r: Bytes)
    requires off <= |m|
    ensures |r| == HEADER + BlockLen(|m|, off)
  {
    var n := BlockLen(|m|, off);
    Header(n, h(m[off..off + n])) + m[off..off + n]
  }

  /** All blocks from `off` on; nothing if the message is exhausted. */
  function Blocks(m: Bytes, off: nat, h: Bytes -> U32): Bytes
    requires off <= |m|
    decreases |m| - off
  {
    if off == |m| then []
    else Block(m, off, h) + Blocks(m, off + BlockLen(|m|, off), h)
  }

  /** The block that starts at `off`, even if it is empty, and all after it. */
  function FromBlock(m: Bytes, off: nat, h: Bytes -> U32): Bytes
    requires off <= |m|
  {
    Block(m, off, h) + Blocks(m, off + BlockLen(|m|, off), h)
  }

  /** Everything sent for a message: its header, a first block even if the message is
      empty, and the remaining blocks. */
  function Stream(m: Bytes, h: Bytes -> U32): Bytes
    requires |m| < 0x1_0000_0000
  {
    Header(|m|, h(m)) + FromBlock(m, 0, h)
  }

  /** Where a block starts in the message: BLOCK bytes for each one before it. */
  function StartOf(block: nat): nat { 4084 * block }

  /** `blocks` blocks are just enough for `n` bytes. */
  predicate Enough(n: nat, blocks: nat)
  {
    blocks >= 1 && n <= StartOf(blocks) && (StartOf(blocks - 1) < n || blocks == 1)
  }

  /** max(1, ceil(n / 4084)) */
  function NumBlocks(n: nat): nat
  {
    if n == 0 then 1 else (n + BLOCK - 1) / BLOCK
  }

  lemma EnoughIsExact(n: nat, blocks: nat)
    requires Enough(n, blocks)
    ensures blocks == NumBlocks(n)
  {
  }
}
