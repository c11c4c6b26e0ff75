/** The reorg engine as a state machine on values: one function per public step, and runs of steps. */
module EngineSpec {
  import opened Types

  datatype Config = Config(bufferWindow: nat, finalityDepth: nat) {
    /** What the constructor asserts. */
    predicate Valid() { bufferWindow > finalityDepth }
  }

  /** The engine's fields. The id set is left out: it is `Ids(canonical)`. */
  datatype State = State(
    canonical: seq<BufferedBlock>,
    lastIrreversible: Option<Height>,
    solidifiedHead: Option<Height>,
    forkHistory: seq<ForkObservation>,
    nextForkId: u32)

  datatype ReorgError =
    | ParentNotInBuffer(height: Height, parent: BlockId, tipHeight: Height, window: nat)
    | ReorgBelowFinality(height: Height, lastIrreversibleHeight: Height)
    | DuplicateBlock(blockId: BlockId)

  type Answer = Result<seq<Output>, ReorgError>

  datatype Input = Deliver(block: Block) | Solidify(head: Height)

  const FRESH := State([], None, None, [], 0)

  function Ids(blocks: seq<BufferedBlock>): set<BlockId> {
    set b | b in blocks :: b.blockId
  }

  predicate Differ(blocks: seq<BufferedBlock>, i: nat, j: nat)
    requires i < |blocks| && j < |blocks|
  {
    blocks[i].blockId != blocks[j].blockId
  }

  ghost predicate DistinctIds(blocks: seq<BufferedBlock>) {
    forall i, j :: 0 <= i < j < |blocks| ==> Differ(blocks, i, j)
  }

  lemma DistinctGrown(blocks: seq<BufferedBlock>, kept: nat, nb: BufferedBlock)
    requires DistinctIds(blocks) && kept <= |blocks| && nb.blockId !in Ids(blocks)
    ensures DistinctIds(blocks[..kept] + [nb])
  {
    var grown := blocks[..kept] + [nb];
    forall i, j | 0 <= i < j < |grown| ensures Differ(grown, i, j) {
      assert blocks[i].blockId in Ids(blocks);
      if j < kept {
        assert Differ(blocks, i, j);
      }
    }
  }

  lemma IdsGrown(blocks: seq<BufferedBlock>, nb: BufferedBlock)
    ensures Ids(blocks + [nb]) == Ids(blocks) + {nb.blockId}
  {
    assert forall b :: b in blocks + [nb] <==> b in blocks || b == nb;
  }

  /** Dropping one block drops exactly its id. */
  lemma DropOne(blocks: seq<BufferedBlock>, rest: seq<BufferedBlock>, dropped: BufferedBlock)
    requires DistinctIds(blocks) && blocks != []
    requires (rest == blocks[..|blocks| - 1] && dropped == blocks[|blocks| - 1])
      || (rest == blocks[1..] && dropped == blocks[0])
    ensures DistinctIds(rest) && Ids(rest) == Ids(blocks) - {dropped.blockId}
  {
    var shift := if dropped == blocks[0] && rest == blocks[1..] then 1 else 0;
    assert forall i :: 0 <= i < |rest| ==> rest[i] == blocks[i + shift];
    forall i, j | 0 <= i < j < |rest| ensures Differ(rest, i, j) {
      assert Differ(blocks, i + shift, j + shift);
    }
    forall i | 0 <= i < |rest| ensures rest[i].blockId != dropped.blockId && rest[i] in blocks {
      assert if shift == 1 then Differ(blocks, 0, i + 1) else Differ(blocks, i, |blocks| - 1);
    }
    assert forall b :: b in blocks ==> b == dropped || b in rest;
  }

  function Tip(blocks: seq<BufferedBlock>): BufferedBlock
    requires blocks != []
  {
    blocks[|blocks| - 1]
  }

  predicate EndsWith(blocks: seq<BufferedBlock>, id: BlockId) {
    blocks != [] && Tip(blocks).blockId == id
  }

  /** The last position holding the id. */
  function RPosition(blocks: seq<BufferedBlock>, id: BlockId): (i: nat)
    requires id in Ids(blocks)
    ensures i < |blocks| && blocks[i].blockId == id
    ensures forall j :: i < j < |blocks| ==> blocks[j].blockId != id
  {
    if Tip(blocks).blockId == id then |blocks| - 1 else RPosition(blocks[..|blocks| - 1], id)
  }

  function Buffer(b: Block, forkId: u32): BufferedBlock {
    BufferedBlock(b.height, b.blockId, b.parentId, forkId, b.payload)
  }

  function Emit(step: Step, b: BufferedBlock, head: Option<Height>): StreamableBlock {
    StreamableBlock(step, b, CursorOf(b), ForBlock(b.height, head, false))
  }

  /** Undo events for the orphans, tip first. */
  function Undos(orphans: seq<BufferedBlock>, head: Option<Height>): seq<Output> {
    if orphans == [] then []
    else [Undo(Emit(StepUndo, Tip(orphans), head))] + Undos(orphans[..|orphans| - 1], head)
  }

  /** Ids of the orphans, tip first. */
  function OrphanIds(orphans: seq<BufferedBlock>): seq<BlockId> {
    if orphans == [] then []
    else [Tip(orphans).blockId] + OrphanIds(orphans[..|orphans| - 1])
  }

  // Finality

  predicate Above(h: Height, mark: Option<Height>) {
    mark.Some? ==> mark.value < h
  }

  /** The blocks that become irreversible on a front-to-back walk. */
  function Finalizing(blocks: seq<BufferedBlock>, head: Height, mark: Option<Height>): seq<BufferedBlock> {
    if blocks == [] || blocks[0].height > head then []
    else if !Above(blocks[0].height, mark) then Finalizing(blocks[1..], head, mark)
    else [blocks[0]] + Finalizing(blocks[1..], head, Some(blocks[0].height))
  }

  function MarkAfter(fired: seq<BufferedBlock>, mark: Option<Height>): Option<Height> {
    if fired == [] then mark else Some(Tip(fired).height)
  }

  function Finalize(b: BufferedBlock, head: Height): Output {
    Irreversible(StreamableBlock(StepIrreversible, b, CursorOf(b), BlockFinality(Finalized, Some(head))))
  }

  function Irreversibles(fired: seq<BufferedBlock>, head: Height): seq<Output> {
    if fired == [] then [] else Irreversibles(fired[..|fired| - 1], head) + [Finalize(Tip(fired), head)]
  }

  // Fork observations

  /** How many observations at the front of the queue the head has reached. */
  function ResolvedCount(forks: seq<ForkObservation>, head: Height): (n: nat)
    ensures n <= |forks|
  {
    if forks == [] || forks[0].observedAtHeight > head then 0 else 1 + ResolvedCount(forks[1..], head)
  }

  function Resolutions(forks: seq<ForkObservation>, head: Height): seq<Output> {
    if forks == [] then []
    else Resolutions(forks[..|forks| - 1], head) + [ForkResolved(forks[|forks| - 1], head)]
  }

  /** Emit what the solidified head finalizes, then drain the observations it resolves. */
  function Settle(s: State): (State, seq<Output>) {
    if s.solidifiedHead.None? then (s, [])
    else
      var head := s.solidifiedHead.value;
      var fired := Finalizing(s.canonical, head, s.lastIrreversible);
      var n := ResolvedCount(s.forkHistory, head);
      (s.(lastIrreversible := MarkAfter(fired, s.lastIrreversible), forkHistory := s.forkHistory[n..]),
       Irreversibles(fired, head) + Resolutions(s.forkHistory[..n], head))
  }

  function Prune(window: nat, blocks: seq<BufferedBlock>): seq<BufferedBlock> {
    if |blocks| > window then blocks[|blocks| - window..] else blocks
  }

  function NextForkId(id: u32): u32 {
    (id + 1) % U32_SIZE
  }

  // Steps

  /** The state just after a block is appended on top of the first `kept` buffered blocks. */
  function Append(s: State, b: Block, kept: nat): State
    requires kept <= |s.canonical|
  {
    var orphans := s.canonical[kept..];
    State(
      s.canonical[..kept] + [Buffer(b, s.nextForkId)],
      s.lastIrreversible,
      s.solidifiedHead,
      if orphans == [] then s.forkHistory
      else s.forkHistory + [ForkObservation(b.height, b.blockId, OrphanIds(orphans))],
      NextForkId(s.nextForkId))
  }

  function AppendOutputs(s: State, b: Block, kept: nat): seq<Output>
    requires kept <= |s.canonical|
  {
    var orphans := s.canonical[kept..];
    Undos(orphans, s.solidifiedHead)
    + [New(Emit(StepNew, Buffer(b, s.nextForkId), s.solidifiedHead))]
    + (if orphans == [] then [] else [ForkObserved(ForkObservation(b.height, b.blockId, OrphanIds(orphans)))])
  }

  /** Settle, then prune. */
  function Finish(cfg: Config, s: State, outs: seq<Output>): (State, Answer) {
    var (s', tail) := Settle(s);
    (s'.(canonical := Prune(cfg.bufferWindow, s'.canonical)), Ok(outs + tail))
  }

  /** Append, settle, prune. */
  function Admit(cfg: Config, s: State, b: Block, kept: nat): (State, Answer)
    requires kept <= |s.canonical|
  {
    Finish(cfg, Append(s, b, kept), AppendOutputs(s, b, kept))
  }

  function HandleReorg(cfg: Config, s: State, b: Block): (State, Answer)
    requires b.parentId in Ids(s.canonical)
  {
    ReorgAt(cfg, s, b, RPosition(s.canonical, b.parentId) + 1)
  }

  /** Append on top of the first `kept` blocks unless that orphans a final one. */
  function ReorgAt(cfg: Config, s: State, b: Block, kept: nat): (State, Answer)
    requires kept <= |s.canonical|
  {
    if kept < |s.canonical| && !Above(s.canonical[kept].height, s.lastIrreversible) then
      (s, Err(ReorgBelowFinality(b.height, s.lastIrreversible.value)))
    else
      Admit(cfg, s, b, kept)
  }

  function Accept(cfg: Config, s: State, b: Block): (State, Answer) {
    if b.blockId in Ids(s.canonical) then (s, Err(DuplicateBlock(b.blockId)))
    else if s.canonical == [] then Admit(cfg, s, b, 0)
    else if b.parentId == Tip(s.canonical).blockId then Admit(cfg, s, b, |s.canonical|)
    else if b.parentId in Ids(s.canonical) then HandleReorg(cfg, s, b)
    else (s, Err(ParentNotInBuffer(b.height, b.parentId, Tip(s.canonical).height, cfg.bufferWindow)))
  }

  function SetSolidifiedHead(s: State, head: Height): (State, seq<Output>) {
    if s.solidifiedHead.Some? && head <= s.solidifiedHead.value then (s, [])
    else Settle(s.(solidifiedHead := Some(head)))
  }

  function Take(cfg: Config, s: State, input: Input): (State, Answer) {
    match input
    case Deliver(b) => Accept(cfg, s, b)
    case Solidify(head) => var (s', outs) := SetSolidifiedHead(s, head); (s', Ok(outs))
  }

  // Runs

  /** The state a fresh engine reaches on a sequence of inputs. */
  ghost function After(cfg: Config, inputs: seq<Input>): State {
    if inputs == [] then FRESH
    else Take(cfg, After(cfg, inputs[..|inputs| - 1]), inputs[|inputs| - 1]).0
  }

  ghost function Emitted(r: Answer): seq<Output> {
    if r.Ok? then r.value else []
  }

  /** Everything a fresh engine emits on a sequence of inputs, in order. */
  ghost function Emissions(cfg: Config, inputs: seq<Input>): seq<Output> {
    if inputs == [] then []
    else
      var before := inputs[..|inputs| - 1];
      Emissions(cfg, before) + Emitted(Take(cfg, After(cfg, before), inputs[|inputs| - 1]).1)
  }

  /** A run ends in this state, having emitted this. */
  ghost predicate Ran(cfg: Config, inputs: seq<Input>, s: State, outs: seq<Output>) {
    s == After(cfg, inputs) && outs == Emissions(cfg, inputs)
  }

  lemma RunNext(cfg: Config, inputs: seq<Input>, input: Input)
    ensures After(cfg, inputs + [input]) == Take(cfg, After(cfg, inputs), input).0
    ensures Emissions(cfg, inputs + [input]) == Emissions(cfg, inputs) + Emitted(Take(cfg, After(cfg, inputs), input).1)
  {
    assert (inputs + [input])[..|inputs|] == inputs;
  }

  /** Every delivered header carries the heights it should. */
  ghost predicate WellFormedInput(input: Input) {
    input.Deliver? ==> WellFormedHeader(input.block.height, input.block.blockId, input.block.parentId)
  }

  ghost predicate WellFormedInputs(inputs: seq<Input>) {
    forall i :: 0 <= i < |inputs| ==> WellFormedInput(inputs[i])
  }
}
