/** The relayer's loop: engine, cache and output channel moving together, cache write before send. */
module Service {
  import opened Types
  import opened EngineSpec
  import opened Engine
  import opened Cache
  import opened CacheChain
  import opened Finality
  import opened Replay

  datatype VerifyPolicy = Disabled | Lenient | Strict

  /** What checking a header's signature says; unchecked when no signer set is known. */
  datatype Signature = Unchecked | Good | WrongSigner | Bad

  datatype Fetched = Fetched(block: Block, signature: Signature)

  datatype ServiceError = SourceError | VerifyRejected | OutputChannelClosed

  /** Whether a fetched block goes on to the engine. */
  predicate Passes(policy: VerifyPolicy, signature: Signature) {
    policy.Disabled? || signature.Unchecked? || signature.Good? || (policy.Lenient? && signature.WrongSigner?)
  }

  class RelayerService {
    const engine: ReorgEngine
    const blockCache: BlockCache<BufferedBlock>
    const policy: VerifyPolicy
    /** How many events the reader of the output channel takes before it closes it; None if never. */
    const closesAfter: Option<nat>
    /** Everything sent on the output channel, in order. */
    var sent: seq<Output>
    /** Everything the engine was given, in order. */
    ghost var inputs: seq<Input>

    /** Engine, cache and channel all agree with one run of the engine. */
    ghost predicate Valid()
      reads this, engine, blockCache
    {
      && Running()
      && Ran(engine.config, inputs, engine.View(), sent)
      && blockCache.byHeight == WriteAll(blockCache.capacity, map[], sent)
    }

    /** The channel was closed: the cache holds exactly one event more than was sent, the one whose send
        failed. */
    ghost predicate Stopped()
      reads this, engine, blockCache
    {
      && Running()
      && exists all :: (
        Ran(engine.config, inputs, engine.View(), all) && OneAhead(sent, all, blockCache.capacity, blockCache.byHeight))
    }

    /** The run has more events than the reader of the channel takes. */
    ghost predicate Overran()
      reads this, engine
    {
      closesAfter.Some? && closesAfter.value < |Emissions(engine.config, inputs)|
    }

    ghost predicate Running()
      reads this, engine, blockCache
    {
      engine.Valid() && blockCache.Valid()
    }

    /** Verification lets the block through: nothing to check, a good signature, or, under the lenient policy, one
        by another signer. */
    ghost predicate Admits(fetched: Fetched) {
      || policy == Disabled
      || fetched.signature in {Unchecked, Good}
      || (policy == Lenient && fetched.signature == WrongSigner)
    }

    predicate HasRoom(n: nat) {
      closesAfter.Some? ==> n <= closesAfter.value
    }

    constructor (config: Config, capacity: nat, policy: VerifyPolicy, closesAfter: Option<nat>)
      requires config.Valid() && capacity > 0
      ensures Valid() && fresh(engine) && fresh(blockCache) && inputs == []
      ensures engine.config == config && blockCache.capacity == capacity
      ensures this.policy == policy && this.closesAfter == closesAfter
    {
      engine := new ReorgEngine(config);
      blockCache := new BlockCache(capacity);
      this.policy, this.closesAfter := policy, closesAfter;
      sent, inputs := [], [];
    }

    /** One poll: refresh the solidified head when the chain answered, then the head block, unless it could
        not be fetched or is already the tip. */
    method TickOnce(head: Option<Height>, fetched: Option<Fetched>) returns (r: Result<(), ServiceError>)
      requires Valid()
      modifies this, engine, blockCache
      ensures if r == Err(OutputChannelClosed) then Stopped() && Overran() else Valid()
      ensures r != Err(OutputChannelClosed) ==>
        var refreshed := old(inputs) + (match head case None => [] case Some(h) => [Solidify(h)]);
        var delivered := fetched.Some? && IsNews(old(engine.canonical), fetched.value.block) && Admits(fetched.value);
        inputs == (if delivered then refreshed + [Deliver(fetched.value.block)] else refreshed)
      ensures r != Err(OutputChannelClosed) ==>
        var news := fetched.Some? && IsNews(old(engine.canonical), fetched.value.block);
        && (r == Err(SourceError) <==> fetched.None?)
        && (r == Err(VerifyRejected) <==> news && policy == Strict && !Admits(fetched.value))
    {
      var refreshed := RefreshHead(head);
      if !refreshed {
        return Err(OutputChannelClosed);
      }
      if fetched.None? {
        return Err(SourceError);
      }
      if engine.IsTip(fetched.value.block.blockId) {
        return Ok(());
      }
      r := ProcessOne(fetched.value);
    }

    /** A reported head is given to the engine as it is; none is not. */
    method RefreshHead(head: Option<Height>) returns (ok: bool)
      requires Valid()
      modifies this, engine, blockCache
      ensures engine.canonical == old(engine.canonical)
      ensures inputs == old(inputs) + (match head case None => [] case Some(h) => [Solidify(h)])
      ensures if ok then Valid() else Stopped() && Overran()
    {
      ok := true;
      assert inputs + [] == inputs;
      if head.Some? {
        RunNext(engine.config, inputs, Solidify(head.value));
        var outs := engine.SetSolidifiedHead(head.value);
        assert engine.canonical == engine.View().canonical;
        ok := Forward(outs, inputs + [Solidify(head.value)]);
      }
    }

    /** A block that passes verification is delivered, whether the engine accepts it or not; a strict policy
        reports a bad signature, a lenient one skips the block. */
    method ProcessOne(fetched: Fetched) returns (r: Result<(), ServiceError>)
      requires Valid()
      modifies this, engine, blockCache
      ensures inputs == (if Admits(fetched) then old(inputs) + [Deliver(fetched.block)] else old(inputs))
      ensures if r == Err(OutputChannelClosed) then Stopped() && Overran() else Valid()
      ensures r == Err(VerifyRejected) <==> policy == Strict && !Admits(fetched)
      ensures r != Err(SourceError)
    {
      if !Passes(policy, fetched.signature) {
        return if policy.Strict? then Err(VerifyRejected) else Ok(());
      }
      var ok := FeedEngine(fetched.block);
      return if ok then Ok(()) else Err(OutputChannelClosed);
    }

    method FeedEngine(block: Block) returns (ok: bool)
      requires Valid()
      modifies this, engine, blockCache
      ensures inputs == old(inputs) + [Deliver(block)]
      ensures if ok then Valid() else Stopped() && Overran()
    {
      RunNext(engine.config, inputs, Deliver(block));
      var answer := engine.Accept(block);
      match answer
      case Ok(outs) => ok := Forward(outs, inputs + [Deliver(block)]);
      case Err(_) => ok := Forward([], inputs + [Deliver(block)]);
    }

    /** Forward the events of the engine call that brought the run to `next`. */
    method Forward(outs: seq<Output>, ghost next: seq<Input>) returns (ok: bool)
      requires Running() && Ran(engine.config, next, engine.View(), sent + outs)
      requires blockCache.byHeight == WriteAll(blockCache.capacity, map[], sent)
      modifies this, blockCache
      ensures inputs == next
      ensures if ok then Valid() else Stopped() && Overran()
    {
      ghost var before := sent;
      ok := SendAll(outs);
      if !ok {
        ghost var n: nat :| CutAt(before, outs, n);
        CutIsOneAhead(before, outs, n, sent, blockCache.capacity, blockCache.byHeight);
      }
      inputs := next;
      assert Ran(engine.config, inputs, engine.View(), before + outs);
      assert !ok ==> OneAhead(sent, before + outs, blockCache.capacity, blockCache.byHeight);
    }

    /** Write each event to the cache, then send it; stop at the first send that fails. */
    method SendAll(outs: seq<Output>) returns (ok: bool)
      requires blockCache.Valid() && blockCache.byHeight == WriteAll(blockCache.capacity, map[], sent)
      modifies this`sent, blockCache
      ensures blockCache.Valid()
      ensures ok <==> HasRoom(|old(sent)| + |outs|) || outs == []
      ensures ok ==> sent == old(sent) + outs && blockCache.byHeight == WriteAll(blockCache.capacity, map[], sent)
      ensures !ok ==> exists n: nat :: CutAt(old(sent), outs, n)
    {
      for i := 0 to |outs|
        invariant blockCache.Valid()
        invariant i > 0 ==> HasRoom(|sent|)
        invariant sent == old(sent) + outs[..i]
        invariant blockCache.byHeight == WriteAll(blockCache.capacity, map[], sent)
      {
        FeedCache(outs[i]);
        WriteAppend(blockCache.capacity, map[], sent, [outs[i]]);
        assert [outs[i]][1..] == [];
        assert sent + [outs[i]] == old(sent) + outs[..i + 1];
        if !HasRoom(|sent| + 1) {
          assert CutAt(old(sent), outs, i);
          return false;
        }
        sent := sent + [outs[i]];
      }
      assert outs[..|outs|] == outs;
      ok := true;
    }

    /** The first `n` events were sent, and one more was written to the cache. */
    ghost predicate CutAt(before: seq<Output>, outs: seq<Output>, n: nat)
      reads this`sent, blockCache
    {
      && n < |outs| && sent == before + outs[..n]
      && blockCache.byHeight == WriteAll(blockCache.capacity, map[], before + outs[..n + 1])
    }

    method FeedCache(output: Output)
      requires blockCache.Valid()
      modifies blockCache
      ensures blockCache.Valid()
      ensures blockCache.byHeight == Write(blockCache.capacity, old(blockCache.byHeight), output)
    {
      match output
      case New(s) =>
        var _ := blockCache.Insert(s.block.height, s.block.blockId, s.block);
      case Undo(s) =>
        var _ := blockCache.RemoveById(s.block.blockId);
      case Irreversible(_) =>
      case ForkObserved(_) =>
      case ForkResolved(_, _) =>
    }

    /** What a reader of the shared cache sees between polls, for well-formed blocks: consecutive chain
        heights up to the tip, covering the engine's buffer when the cache is large enough. */
    lemma ReadersSeeTheChain()
      requires Valid() && WellFormedInputs(inputs)
      ensures var chain := Consumed(engine.config, inputs).chain;
        exists a: nat :: a <= |chain| && blockCache.byHeight == Suffix(chain, a)
      ensures blockCache.capacity >= engine.config.bufferWindow ==>
        forall b :: b in engine.canonical ==>
          b.height in blockCache.byHeight && blockCache.byHeight[b.height] == (b.blockId, b)
    {
      var cfg := engine.config;
      assert sent[..|sent|] == sent;
      CacheIsChainSuffix(cfg, inputs, blockCache.capacity, |sent|);
      if blockCache.capacity >= cfg.bufferWindow {
        CacheCoversBuffer(cfg, inputs, blockCache.capacity);
      }
    }

    /** Even after the channel was closed the cache holds consecutive chain heights only. */
    lemma StoppedSeesTheChain()
      requires Stopped() && WellFormedInputs(inputs)
      ensures exists n: nat, a: nat :: n <= |Emissions(engine.config, inputs)| && IsSuffixAt(n, a)
    {
      var n := |sent| + 1;
      CacheIsChainSuffix(engine.config, inputs, blockCache.capacity, n);
      assert IsSuffixAt(n, CacheStart(blockCache.capacity, START, 0, Emissions(engine.config, inputs)[..n]));
    }

    /** The cache is the chain of the first `n` events, from position `a` on. */
    ghost predicate IsSuffixAt(n: nat, a: nat)
      reads this, engine, blockCache
      requires n <= |Emissions(engine.config, inputs)|
    {
      var fed := Feed(START, Emissions(engine.config, inputs)[..n]);
      fed.Some? && a <= |fed.value.chain| && Contiguous(fed.value.chain)
        && blockCache.byHeight == Suffix(fed.value.chain, a)
    }
  }

  /** The cache was given exactly one event more than was sent. */
  ghost predicate OneAhead(sent: seq<Output>, all: seq<Output>, capacity: nat, cached: Cached) {
    sent < all && cached == WriteAll(capacity, map[], all[..|sent| + 1])
  }

  lemma CutIsOneAhead(before: seq<Output>, outs: seq<Output>, n: nat, sent: seq<Output>, capacity: nat, cached: Cached)
    requires n < |outs| && sent == before + outs[..n] && cached == WriteAll(capacity, map[], before + outs[..n + 1])
    ensures OneAhead(sent, before + outs, capacity, cached)
  {
    CutPrefix(before, outs, n);
  }

  lemma CutPrefix(before: seq<Output>, outs: seq<Output>, n: nat)
    requires n < |outs|
    ensures before + outs[..n] < before + outs
    ensures (before + outs)[..|before + outs[..n]| + 1] == before + outs[..n + 1]
  {
  }

  /** The block is not the newest one buffered. */
  ghost predicate IsNews(buffer: seq<BufferedBlock>, block: Block) {
    buffer == [] || buffer[|buffer| - 1].blockId != block.blockId
  }
}
