/** The reorg engine in its own form: fields updated in place, loops that append to an output vector.
    Every method is proved against the step functions of `EngineSpec`. */
module Engine {
  import opened Types
  import opened EngineSpec
  import opened Streams

  /** A walk that has emitted `fired`, up to position `i`: what it would still emit completes the whole. */
  ghost predicate Emitting(blocks: seq<BufferedBlock>, i: nat, head: Height, mark: Option<Height>, now: Option<Height>,
      fired: seq<BufferedBlock>, out: seq<Output>, out': seq<Output>)
  {
    && i <= |blocks|
    && out' == out + Irreversibles(fired, head)
    && now == MarkAfter(fired, mark)
    && fired + Finalizing(blocks[i..], head, now) == Finalizing(blocks, head, mark)
  }

  lemma EmitBegins(blocks: seq<BufferedBlock>, head: Height, mark: Option<Height>, out: seq<Output>)
    ensures Emitting(blocks, 0, head, mark, mark, [], out, out)
  {
    assert blocks[0..] == blocks && out + [] == out;
    assert [] + Finalizing(blocks, head, mark) == Finalizing(blocks, head, mark);
  }

  /** The walk stops above the head, skips what is not above the mark, and emits everything else. */
  lemma EmitStep(blocks: seq<BufferedBlock>, i: nat, head: Height, mark: Option<Height>, now: Option<Height>,
      fired: seq<BufferedBlock>, out: seq<Output>, out': seq<Output>)
    requires i < |blocks| && Emitting(blocks, i, head, mark, now, fired, out, out')
    ensures blocks[i].height > head ==> Finalizing(blocks[i..], head, now) == []
    ensures blocks[i].height <= head && !Above(blocks[i].height, now) ==>
      Emitting(blocks, i + 1, head, mark, now, fired, out, out')
    ensures blocks[i].height <= head && Above(blocks[i].height, now) ==>
      Emitting(blocks, i + 1, head, mark, Some(blocks[i].height), fired + [blocks[i]], out,
        out' + [Finalize(blocks[i], head)])
  {
    var (block, rest) := (blocks[i], blocks[i..]);
    assert rest[0] == block && rest[1..] == blocks[i + 1..];
    if block.height <= head && Above(block.height, now) {
      EmitFires(fired, block, Finalizing(blocks[i + 1..], head, Some(block.height)), head, out);
    }
  }

  lemma EmitFires(fired: seq<BufferedBlock>, block: BufferedBlock, more: seq<BufferedBlock>, head: Height,
      out: seq<Output>)
    ensures (fired + [block]) + more == fired + ([block] + more)
    ensures out + Irreversibles(fired + [block], head) == (out + Irreversibles(fired, head)) + [Finalize(block, head)]
  {
    Regroup(fired, [block], more);
    Regroup(out, Irreversibles(fired, head), [Finalize(block, head)]);
    assert (fired + [block])[..|fired|] == fired;
  }

  class ReorgEngine {
    var canonical: seq<BufferedBlock>
    var canonicalIds: set<BlockId>
    const config: Config
    var lastIrreversible: Option<Height>
    var solidifiedHead: Option<Height>
    var forkHistory: seq<ForkObservation>
    var nextForkId: u32

    /** The id set is exactly the buffered ids, and no id is buffered twice. */
    ghost predicate Valid()
      reads this
    {
      && config.Valid()
      && canonicalIds == Ids(canonical)
      && DistinctIds(canonical)
    }

    ghost function View(): State
      reads this
    {
      State(canonical, lastIrreversible, solidifiedHead, forkHistory, nextForkId)
    }

    constructor (config: Config)
      requires config.bufferWindow > config.finalityDepth
      ensures Valid() && View() == FRESH && this.config == config
    {
      this.config := config;
      canonical, canonicalIds := [], {};
      lastIrreversible, solidifiedHead := None, None;
      forkHistory, nextForkId := [], 0;
    }

    /** Whether the id is the current tip's. */
    predicate IsTip(id: BlockId)
      reads this
    {
      EndsWith(canonical, id)
    }

    method SetSolidifiedHead(newHead: Height) returns (out: seq<Output>)
      requires Valid()
      modifies this
      ensures Valid()
      ensures (View(), out) == EngineSpec.SetSolidifiedHead(old(View()), newHead)
    {
      if solidifiedHead.Some? && newHead <= solidifiedHead.value {
        return [];
      }
      solidifiedHead := Some(newHead);
      ghost var s := View();
      out := Settle([]);
      assert out == EngineSpec.Settle(s).1;
    }

    method Accept(b: Block) returns (r: Answer)
      requires Valid()
      modifies this
      ensures Valid()
      ensures (View(), r) == EngineSpec.Accept(config, old(View()), b)
    {
      if b.blockId in canonicalIds {
        return Err(DuplicateBlock(b.blockId));
      }
      if canonical == [] {
        var out := PushCanonicalFirst(b);
        return Ok(out);
      }
      var tip := canonical[|canonical| - 1];
      if b.parentId == tip.blockId {
        var out := ExtendCanonical(b);
        return Ok(out);
      }
      if b.parentId in canonicalIds {
        r := HandleReorg(b);
        return;
      }
      return Err(ParentNotInBuffer(b.height, b.parentId, tip.height, config.bufferWindow));
    }

    method PushCanonicalFirst(b: Block) returns (out: seq<Output>)
      requires Valid() && canonical == []
      modifies this
      ensures Valid()
      ensures (View(), Ok(out)) == Admit(config, old(View()), b, 0)
    {
      ghost var s := View();
      out := PushTip(b, []);
      assert View() == Append(s, b, 0);
      assert out == AppendOutputs(s, b, 0);
      out := Finish(out);
    }

    method ExtendCanonical(b: Block) returns (out: seq<Output>)
      requires Valid() && b.blockId !in canonicalIds
      modifies this
      ensures Valid()
      ensures (View(), Ok(out)) == Admit(config, old(View()), b, |old(canonical)|)
    {
      ghost var s := View();
      out := PushTip(b, []);
      assert View() == Append(s, b, |s.canonical|);
      assert out == AppendOutputs(s, b, |s.canonical|);
      out := Finish(out);
    }

    method HandleReorg(b: Block) returns (r: Answer)
      requires Valid() && b.blockId !in canonicalIds && b.parentId in canonicalIds
      modifies this
      ensures Valid()
      ensures (View(), r) == ReorgAt(config, old(View()), b, RPosition(old(canonical), b.parentId) + 1)
    {
      var ancestor := FindAncestor(b.parentId);
      r := ReorgFrom(b, ancestor);
    }

    method ReorgFrom(b: Block, ancestor: nat) returns (r: Answer)
      requires Valid() && b.blockId !in canonicalIds && ancestor < |canonical|
      modifies this
      ensures Valid()
      ensures (View(), r) == ReorgAt(config, old(View()), b, ancestor + 1)
    {
      var undoCount := |canonical| - 1 - ancestor;
      if undoCount == 0 {
        var ext := ExtendCanonical(b);
        return Ok(ext);
      }
      if lastIrreversible.Some? {
        if canonical[ancestor + 1].height <= lastIrreversible.value {
          return Err(ReorgBelowFinality(b.height, lastIrreversible.value));
        }
      }
      var out := Reorganize(b, ancestor);
      r := Ok(out);
    }

    method Reorganize(b: Block, ancestor: nat) returns (out: seq<Output>)
      requires Valid() && b.blockId !in canonicalIds && ancestor < |canonical| - 1
      modifies this
      ensures Valid()
      ensures (View(), Ok(out)) == Admit(config, old(View()), b, ancestor + 1)
    {
      out := SwitchBranch(b, ancestor);
      out := Finish(out);
    }

    /** Undo everything above the ancestor, push the block, record the fork. */
    method SwitchBranch(b: Block, ancestor: nat) returns (out: seq<Output>)
      requires Valid() && b.blockId !in canonicalIds && ancestor < |canonical| - 1
      modifies this
      ensures Valid()
      ensures View() == Append(old(View()), b, ancestor + 1) && out == AppendOutputs(old(View()), b, ancestor + 1)
    {
      ghost var orphans := canonical[ancestor + 1..];
      var undone, orphaned := CollectOrphans(ancestor);
      DropTail(|canonical| - 1 - ancestor);
      out := PushTip(b, undone);
      assert orphans != [];
      var observation := ForkObservation(b.height, b.blockId, orphaned);
      out := out + [ForkObserved(observation)];
      forkHistory := forkHistory + [observation];
    }

    /** Position of the buffered block with this id, searched from the back. */
    method FindAncestor(id: BlockId) returns (i: nat)
      requires Valid() && id in canonicalIds
      ensures i < |canonical| && i == RPosition(canonical, id)
    {
      i := |canonical| - 1;
      while canonical[i].blockId != id
        invariant i < |canonical|
        invariant RPosition(canonical, id) <= i
        decreases i
      {
        i := i - 1;
      }
    }

    /** The undo events and the ids of everything above the ancestor, tip first. */
    method CollectOrphans(ancestor: nat) returns (out: seq<Output>, orphaned: seq<BlockId>)
      requires ancestor < |canonical|
      ensures out == Undos(canonical[ancestor + 1..], solidifiedHead)
      ensures orphaned == OrphanIds(canonical[ancestor + 1..])
    {
      out, orphaned := [], [];
      var idx := |canonical|;
      ghost var all := canonical[ancestor + 1..];
      assert canonical[ancestor + 1..idx] == all;
      while idx > ancestor + 1
        invariant ancestor + 1 <= idx <= |canonical|
        invariant out + Undos(canonical[ancestor + 1..idx], solidifiedHead) == Undos(all, solidifiedHead)
        invariant orphaned + OrphanIds(canonical[ancestor + 1..idx]) == OrphanIds(all)
      {
        idx := idx - 1;
        ghost var rest := canonical[ancestor + 1..idx + 1];
        assert rest[..|rest| - 1] == canonical[ancestor + 1..idx];
        var orphan := canonical[idx];
        out := out + [Undo(Emit(StepUndo, orphan, solidifiedHead))];
        orphaned := orphaned + [orphan.blockId];
      }
    }

    method DropTail(count: nat)
      requires Valid() && count <= |canonical|
      modifies this`canonical, this`canonicalIds
      ensures Valid() && canonical == old(canonical[..|canonical| - count])
      ensures canonicalIds <= old(canonicalIds)
    {
      for k := 0 to count
        invariant Valid() && canonical == old(canonical)[..|old(canonical)| - k]
        invariant canonicalIds <= old(canonicalIds)
      {
        var dropped := canonical[|canonical| - 1];
        DropOne(canonical, canonical[..|canonical| - 1], dropped);
        canonical := canonical[..|canonical| - 1];
        canonicalIds := canonicalIds - {dropped.blockId};
      }
    }

    /** Buffer the block at the tip under a fresh fork id and emit its New event. */
    method PushTip(b: Block, out: seq<Output>) returns (out': seq<Output>)
      requires Valid() && b.blockId !in canonicalIds
      modifies this`canonical, this`canonicalIds, this`nextForkId
      ensures Valid()
      ensures canonical == old(canonical) + [Buffer(b, old(nextForkId))]
      ensures nextForkId == NextForkId(old(nextForkId))
      ensures out' == out + [New(Emit(StepNew, Buffer(b, old(nextForkId)), solidifiedHead))]
    {
      var forkId := AllocForkId();
      var buffered := Buffer(b, forkId);
      IdsGrown(canonical, buffered);
      assert canonical[..|canonical|] == canonical;
      DistinctGrown(canonical, |canonical|, buffered);
      canonicalIds := canonicalIds + {buffered.blockId};
      canonical := canonical + [buffered];
      out' := out + [New(Emit(StepNew, buffered, solidifiedHead))];
    }

    method AllocForkId() returns (id: u32)
      modifies this`nextForkId
      ensures id == old(nextForkId) && nextForkId == NextForkId(id)
    {
      id := nextForkId;
      nextForkId := (nextForkId + 1) % U32_SIZE;
    }

    /** What follows every append. */
    method Finish(out: seq<Output>) returns (out': seq<Output>)
      requires Valid()
      modifies this
      ensures Valid()
      ensures (View(), Ok(out')) == EngineSpec.Finish(config, old(View()), out)
    {
      out' := Settle(out);
      MaybePruneBuffer();
    }

    /** The two walks that follow every change of the tip or of the solidified head. */
    method Settle(out: seq<Output>) returns (out': seq<Output>)
      requires Valid()
      modifies this`lastIrreversible, this`forkHistory
      ensures Valid()
      ensures View() == EngineSpec.Settle(old(View())).0
      ensures out' == out + EngineSpec.Settle(old(View())).1
    {
      var out1 := MaybeEmitIrreversible(out);
      out' := MaybeResolveForks(out1);
      assert out1 == out + out1[|out|..];
      assert out' == out + (out1[|out|..] + out'[|out1|..]);
      assert forkHistory[0..] == forkHistory;
    }

    method MaybeEmitIrreversible(out: seq<Output>) returns (out': seq<Output>)
      modifies this`lastIrreversible
      ensures solidifiedHead.None? ==> out' == out && lastIrreversible == old(lastIrreversible)
      ensures solidifiedHead.Some? ==>
        var fired := Finalizing(canonical, solidifiedHead.value, old(lastIrreversible));
        out' == out + Irreversibles(fired, solidifiedHead.value)
          && lastIrreversible == MarkAfter(fired, old(lastIrreversible))
    {
      out' := out;
      if solidifiedHead.None? {
        return;
      }
      var head := solidifiedHead.value;
      ghost var (fired, mark) := ([], lastIrreversible);
      EmitBegins(canonical, head, mark, out);
      var i := 0;
      while i < |canonical|
        invariant Emitting(canonical, i, head, mark, lastIrreversible, fired, out, out')
      {
        var block := canonical[i];
        EmitStep(canonical, i, head, mark, lastIrreversible, fired, out, out');
        if block.height > head {
          break;
        }
        i := i + 1;
        if lastIrreversible.Some? && block.height <= lastIrreversible.value {
          continue;
        }
        lastIrreversible := Some(block.height);
        out' := out' + [Irreversible(StreamableBlock(
          StepIrreversible, block, CursorOf(block), BlockFinality(Finalized, Some(head))))];
        fired := fired + [block];
      }
      assert fired + [] == fired;
    }

    method MaybeResolveForks(out: seq<Output>) returns (out': seq<Output>)
      modifies this`forkHistory
      ensures solidifiedHead.None? ==> out' == out && forkHistory == old(forkHistory)
      ensures solidifiedHead.Some? ==>
        var n := ResolvedCount(old(forkHistory), solidifiedHead.value);
        out' == out + Resolutions(old(forkHistory)[..n], solidifiedHead.value) && forkHistory == old(forkHistory)[n..]
    {
      out' := out;
      if solidifiedHead.None? {
        return;
      }
      var head := solidifiedHead.value;
      ghost var forks := forkHistory;
      ghost var n := 0;
      while forkHistory != []
        invariant n <= |forks| && forkHistory == forks[n..]
        invariant n + ResolvedCount(forkHistory, head) == ResolvedCount(forks, head)
        invariant out' == out + Resolutions(forks[..n], head)
        decreases |forkHistory|
      {
        var front := forkHistory[0];
        if front.observedAtHeight > head {
          break;
        }
        forkHistory := forkHistory[1..];
        assert forks[..n + 1][..n] == forks[..n];
        n := n + 1;
        out' := out' + [ForkResolved(front, head)];
      }
    }

    method MaybePruneBuffer()
      requires Valid()
      modifies this`canonical, this`canonicalIds
      ensures Valid() && canonical == Prune(config.bufferWindow, old(canonical))
    {
      ghost var n := 0;
      while |canonical| > config.bufferWindow
        invariant Valid() && n <= |old(canonical)| && canonical == old(canonical)[n..]
        invariant n > 0 ==> |canonical| >= config.bufferWindow
      {
        var dropped := canonical[0];
        DropOne(canonical, canonical[1..], dropped);
        canonical := canonical[1..];
        canonicalIds := canonicalIds - {dropped.blockId};
        n := n + 1;
      }
    }
  }
}
