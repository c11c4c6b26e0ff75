/** Domain primitives shared by the engine, the stores and the streaming server:
    block ids, heights, finality envelopes, and the events the engine emits. */
module Types {

  datatype Option<+T> = None | Some(value: T)

  datatype Result<+T, +E> = Ok(value: T) | Err(error: E)

  type byte = x: int | 0 <= x < 256

  const U64_MAX: int := 0xFFFF_FFFF_FFFF_FFFF
  const U32_SIZE: int := 0x1_0000_0000

  /** A block height, a 64-bit unsigned integer. */
  type Height = x: int | 0 <= x <= U64_MAX

  type u32 = x: int | 0 <= x < U32_SIZE

  type Bytes32 = s: seq<byte> | |s| == 32 witness seq(32, _ => 0)

  /** A 32-byte block identifier. Its first 8 bytes are the height, big-endian. */
  datatype BlockId = BlockId(bytes: Bytes32)

  /** Everything in a block the engine carries along but never inspects. */
  datatype Payload = Payload(transactions: seq<byte>, txInfos: seq<byte>)

  /** A block as the source delivers it. */
  datatype Block = Block(height: Height, blockId: BlockId, parentId: BlockId, payload: Payload)

  /** A block the engine has accepted, tagged with the fork id it was given. */
  datatype BufferedBlock = BufferedBlock(
    height: Height, blockId: BlockId, parentId: BlockId, forkId: u32, payload: Payload)

  datatype Step = StepNew | StepUndo | StepIrreversible

  datatype FinalityTier = Seen | Confirmed | Finalized

  datatype BlockFinality = BlockFinality(tier: FinalityTier, solidifiedHead: Option<Height>)

  datatype Cursor = Cursor(height: Height, blockId: BlockId)

  datatype StreamableBlock = StreamableBlock(
    step: Step, block: BufferedBlock, cursor: Cursor, finality: BlockFinality)

  datatype ForkObservation = ForkObservation(
    observedAtHeight: Height, keptTip: BlockId, orphanedTips: seq<BlockId>)

  datatype Output =
    | New(streamable: StreamableBlock)
    | Undo(streamable: StreamableBlock)
    | Irreversible(streamable: StreamableBlock)
    | ForkObserved(observed: ForkObservation)
    | ForkResolved(resolved: ForkObservation, finalizedHead: Height)

  function DeriveTier(height: Height, head: Option<Height>, hasDescendant: bool): FinalityTier {
    if head.Some? && height <= head.value then Finalized
    else if hasDescendant then Confirmed
    else Seen
  }

  function ForBlock(height: Height, head: Option<Height>, hasDescendant: bool): BlockFinality {
    BlockFinality(DeriveTier(height, head, hasDescendant), head)
  }

  function CursorOf(b: BufferedBlock): Cursor {
    Cursor(b.height, b.blockId)
  }

  function Min(a: int, b: int): int { if a <= b then a else b }

  function Max(a: int, b: int): int { if a >= b then a else b }

  // Big-endian integers

  function BigEndian(s: seq<byte>): nat {
    if s == [] then 0 else BigEndian(s[..|s| - 1]) * 256 + s[|s| - 1]
  }

  function ToBigEndian(n: nat, width: nat): (s: seq<byte>)
    ensures |s| == width
  {
    if width == 0 then [] else ToBigEndian(n / 256, width - 1) + [n % 256]
  }

  function Pow256(n: nat): nat {
    if n == 0 then 1 else 256 * Pow256(n - 1)
  }

  /** Writing a number and reading it back is the identity when it fits the width. */
  lemma {:induction false} BigEndianOfTo(n: nat, width: nat)
    requires n < Pow256(width)
    ensures BigEndian(ToBigEndian(n, width)) == n
  {
    if width > 0 {
      BigEndianOfTo(n / 256, width - 1);
      var s := ToBigEndian(n, width);
      assert s[..|s| - 1] == ToBigEndian(n / 256, width - 1);
    }
  }

  /** Reading a byte string and writing it back is the identity, and the number fits the width. */
  lemma {:induction false} ToBigEndianOf(s: seq<byte>)
    ensures BigEndian(s) < Pow256(|s|)
    ensures ToBigEndian(BigEndian(s), |s|) == s
  {
    if s != [] {
      var t := s[..|s| - 1];
      ToBigEndianOf(t);
      assert s == t + [s[|s| - 1]];
    }
  }

  lemma Pow256Eight()
    ensures Pow256(8) == U64_MAX + 1
  {
    assert Pow256(4) == U32_SIZE;
  }

  function Weighed(digit: int, weight: int): int {
    digit * weight
  }

  /** Eight bytes as a number, the first the most significant. */
  predicate IsBigEndian(s: seq<byte>, n: int) {
    && |s| == 8
    && n == Weighed(s[0], 0x100_0000_0000_0000) + Weighed(s[1], 0x1_0000_0000_0000) + Weighed(s[2], 0x100_0000_0000)
      + Weighed(s[3], 0x1_0000_0000) + Weighed(s[4], 0x100_0000) + Weighed(s[5], 0x1_0000) + Weighed(s[6], 0x100)
      + Weighed(s[7], 1)
  }

  lemma EightBytes(s: seq<byte>)
    requires |s| == 8
    ensures IsBigEndian(s, BigEndian(s))
  {
    BigEndianStep(s, 7);
    BigEndianStep(s, 6);
    BigEndianStep(s, 5);
    BigEndianStep(s, 4);
    BigEndianStep(s, 3);
    BigEndianStep(s, 2);
    BigEndianStep(s, 1);
    BigEndianStep(s, 0);
    assert s[..8] == s && s[..0] == [];
  }

  lemma BigEndianStep(s: seq<byte>, k: nat)
    requires k < |s|
    ensures BigEndian(s[..k + 1]) == BigEndian(s[..k]) * 256 + s[k]
  {
    assert s[..k + 1][..k] == s[..k];
  }

  /** The height an id carries in its first 8 bytes. */
  ghost function HeightOf(id: BlockId): (h: Height)
  {
    ToBigEndianOf(id.bytes[..8]);
    Pow256Eight();
    BigEndian(id.bytes[..8])
  }

  lemma HeightOfBytes(id: BlockId)
    ensures IsBigEndian(id.bytes[..8], HeightOf(id))
  {
    EightBytes(id.bytes[..8]);
  }

  /** A header whose id and parent id both carry the heights they should. */
  ghost predicate WellFormedHeader(height: Height, blockId: BlockId, parentId: BlockId) {
    HeightOf(blockId) == height && HeightOf(parentId) + 1 == height
  }

  ghost predicate WellFormed(b: BufferedBlock) {
    WellFormedHeader(b.height, b.blockId, b.parentId)
  }
}
