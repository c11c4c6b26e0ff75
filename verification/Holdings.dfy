/** What a subscriber holds when it pushes every New and pops every Undo it is sent, whatever reorgs happen while
    its request is served. */
module Holdings {
  import opened Types
  import opened EngineSpec
  import opened Streams
  import opened Replay
  import opened Finality
  import opened CacheChain
  import opened Archive
  import opened Archiver
  import opened Backfill
  import opened BackfillLaws
  import opened Hub
  import opened Pipeline
  import opened Delivery
  import opened Handoff

  // Folding responses

  function NameOf(r: Response): Name {
    (r.num, r.blockId)
  }

  /** New pushes; Undo pops exactly the top and is refused otherwise; Irreversible changes nothing. */
  function Hold(held: seq<Name>, r: Response): Option<seq<Name>> {
    match r.step
    case StepNew => Some(held + [NameOf(r)])
    case StepUndo =>
      if held != [] && held[|held| - 1] == NameOf(r) then Some(held[..|held| - 1]) else None
    case StepIrreversible => Some(held)
  }

  function Fold(rs: seq<Response>): Option<seq<Name>> {
    if rs == [] then Some([])
    else
      match Fold(rs[..|rs| - 1])
      case None => None
      case Some(held) => Hold(held, rs[|rs| - 1])
  }

  ghost predicate Folds(rs: seq<Response>, held: seq<Name>) {
    Fold(rs) == Some(held)
  }

  lemma FoldOne(rs: seq<Response>, r: Response)
    ensures Fold(rs + [r]) == match Fold(rs) case None => None case Some(held) => Hold(held, r)
  {
    assert (rs + [r])[..|rs|] == rs;
  }

  /** A backfill is held as it comes. */
  lemma {:induction false} FoldNews(rs: seq<Response>)
    requires AllNew(rs)
    ensures Folds(rs, NewNames(rs))
  {
    if rs != [] {
      FoldNews(rs[..|rs| - 1]);
    }
  }

  // The part of a chain above a height

  /** How many blocks of a contiguous chain are below a height. */
  function Below(chain: seq<BufferedBlock>, h: int): (n: nat)
    ensures n <= |chain|
  {
    if chain == [] then 0 else Min(|chain|, Max(0, h - chain[0].height))
  }

  function FromHeight(chain: seq<BufferedBlock>, h: int): seq<BufferedBlock> {
    chain[Below(chain, h)..]
  }

  /** The blocks of the heights from `lo` up to, not including, `hi`. */
  function Stretch(chain: seq<BufferedBlock>, lo: int, hi: int): seq<BufferedBlock>
    requires lo <= hi
  {
    chain[Below(chain, lo)..Below(chain, hi)]
  }

  /** The blocks the live filter lets through. */
  function Over(chain: seq<BufferedBlock>, tip: Option<Height>): seq<BufferedBlock> {
    if chain == [] then []
    else Over(chain[..|chain| - 1], tip) + (if Above(Tip(chain).height, tip) then [Tip(chain)] else [])
  }

  lemma OverPush(chain: seq<BufferedBlock>, b: BufferedBlock, tip: Option<Height>)
    ensures Over(chain + [b], tip) == Over(chain, tip) + (if Above(b.height, tip) then [b] else [])
  {
  }

  /** In a contiguous chain these are the blocks from one height on. */
  ghost predicate OverTop(chain: seq<BufferedBlock>, tip: Height) {
    Over(chain, Some(tip)) == FromHeight(chain, tip + 1)
  }

  lemma {:induction false} OverIsTop(chain: seq<BufferedBlock>, tip: Height)
    requires Contiguous(chain)
    ensures OverTop(chain, tip)
  {
    if chain != [] {
      var before := chain[..|chain| - 1];
      assert chain == before + [Tip(chain)];
      OverIsTop(before, tip);
      OverTopPush(before, Tip(chain), tip);
    }
  }

  lemma OverTopPush(chain: seq<BufferedBlock>, b: BufferedBlock, tip: Height)
    requires OverTop(chain, tip) && Contiguous(chain + [b])
    ensures OverTop(chain + [b], tip)
  {
    OverPush(chain, b, Some(tip));
    assert (chain + [b])[|chain|].height == (chain + [b])[0].height + |chain|;
  }

  // The live tail, event by event

  lemma SaneChain(w: seq<Output>, i: nat)
    requires Sane(w) && i <= |w|
    ensures Contiguous(ChainAt(w, i)) && Linked(ChainAt(w, i))
  {
    var _ := SaneCache(w, 1, i);
  }

  /** What one event does to the chain. */
  lemma ChainStep(w: seq<Output>, i: nat)
    requires Sane(w) && i < |w|
    ensures var (chain, chain', o) := (ChainAt(w, i), ChainAt(w, i + 1), w[i]);
      match o
      case New(s) => chain' == chain + [s.block]
      case Undo(s) => chain != [] && Tip(chain) == s.block && chain' == chain[..|chain| - 1]
      case Irreversible(_) => chain' == chain
      case ForkObserved(_) => chain' == chain
      case ForkResolved(_, _) => chain' == chain
  {
    FeedPrefix(START, w, i + 1);
    FeedPrefix(START, w[..i + 1], i);
    assert w[..i + 1][..i] == w[..i] && w[..i + 1][i..] == [w[i]];
    FeedOne(Feed(START, w[..i]).value, w[i]);
  }

  /** The blocks above the tip that were there at the subscription are still there. */
  ghost predicate Kept(w: seq<Output>, m: nat, i: nat, tip: Option<Height>)
    requires m <= |w| && i <= |w|
  {
    Over(ChainAt(w, m), tip) <= Over(ChainAt(w, i), tip)
  }

  /** And have been ever since. */
  ghost predicate Undisturbed(w: seq<Output>, m: nat, r: nat, tip: Option<Height>)
    requires m <= |w| && r <= |w|
  {
    forall i :: m <= i <= r ==> Kept(w, m, i, tip)
  }

  /** What was gained above the tip. */
  ghost function Gained(w: seq<Output>, m: nat, i: nat, tip: Option<Height>): seq<BufferedBlock>
    requires m <= |w| && i <= |w| && Kept(w, m, i, tip)
  {
    Over(ChainAt(w, i), tip)[|Over(ChainAt(w, m), tip)|..]
  }

  /** What was held before the live tail is at or below the tip; without a tip it is nothing. */
  ghost predicate Fits(held: seq<Name>, tip: Option<Height>) {
    if tip.None? then held == [] else held != [] ==> held[|held| - 1].0 <= tip.value
  }

  /** What the subscriber then has: what was held and the blocks gained, unless a block above the tip that it was
      never sent was undone, which its fold refuses. */
  ghost function Outcome(held: seq<Name>, w: seq<Output>, m: nat, i: nat, tip: Option<Height>): Option<seq<Name>>
    requires m <= i <= |w|
  {
    if Undisturbed(w, m, i, tip) then Some(held + ChainNames(Gained(w, m, i, tip))) else None
  }

  ghost predicate HasOutcome(rs: seq<Response>, held: seq<Name>, w: seq<Output>, m: nat, i: nat, tip: Option<Height>)
    requires m <= i <= |w|
  {
    Fold(rs) == Outcome(held, w, m, i, tip)
  }

  /** What the filter passes of one event about block `b`. */
  ghost predicate IsPassed(passed: seq<Response>, step: Step, b: BufferedBlock, tip: Option<Height>) {
    if Above(b.height, tip)
    then |passed| == 1 && passed[0].step == step && NameOf(passed[0]) == (b.height, b.blockId)
    else passed == []
  }

  lemma FoldPassed(rs: seq<Response>, passed: seq<Response>)
    requires |passed| == 1
    ensures Fold(rs + passed) == match Fold(rs) case None => None case Some(held) => Hold(held, passed[0])
  {
    assert passed == [passed[0]];
    FoldOne(rs, passed[0]);
  }

  lemma PushGained(held: seq<Name>, gained: seq<BufferedBlock>, b: BufferedBlock)
    ensures (held + ChainNames(gained)) + [(b.height, b.blockId)] == held + ChainNames(gained + [b])
  {
    ChainNamesOne(gained, b);
    Regroup(held, ChainNames(gained), [(b.height, b.blockId)]);
  }

  /** A New, passed or not, with the blocks over the tip before and after it. */
  lemma PushHeld(rs: seq<Response>, passed: seq<Response>, held: seq<Name>, sub: seq<BufferedBlock>,
      over: seq<BufferedBlock>, over': seq<BufferedBlock>, b: BufferedBlock, tip: Option<Height>)
    requires sub <= over && over' == over + (if Above(b.height, tip) then [b] else [])
    requires Folds(rs, held + ChainNames(over[|sub|..])) && IsPassed(passed, StepNew, b, tip)
    ensures sub <= over' && Folds(rs + passed, held + ChainNames(over'[|sub|..]))
  {
    var gained := over[|sub|..];
    if Above(b.height, tip) {
      assert over'[|sub|..] == gained + [b];
      PushGained(held, gained, b);
      FoldPassed(rs, passed);
    } else {
      assert rs + passed == rs && over' == over;
    }
  }

  /** An Undo pops the last block gained; one of a block that is not held is refused. */
  lemma PopHeld(rs: seq<Response>, passed: seq<Response>, held: seq<Name>, sub: seq<BufferedBlock>,
      over: seq<BufferedBlock>, over': seq<BufferedBlock>, b: BufferedBlock, tip: Option<Height>)
    requires sub <= over && over == over' + (if Above(b.height, tip) then [b] else []) && Fits(held, tip)
    requires Folds(rs, held + ChainNames(over[|sub|..])) && IsPassed(passed, StepUndo, b, tip)
    ensures if sub <= over' then Folds(rs + passed, held + ChainNames(over'[|sub|..])) else Fold(rs + passed).None?
  {
    if !Above(b.height, tip) {
      assert rs + passed == rs && over' == over;
    } else if |over| > |sub| {
      PopLast(rs, passed, held, sub, over, over', b);
    } else {
      PopBefore(rs, passed, held, b, tip);
      assert over[|sub|..] == [] && held + ChainNames([]) == held;
      assert |over'| < |sub|;
    }
  }

  lemma PopLast(rs: seq<Response>, passed: seq<Response>, held: seq<Name>, sub: seq<BufferedBlock>,
      over: seq<BufferedBlock>, over': seq<BufferedBlock>, b: BufferedBlock)
    requires sub <= over && |sub| < |over| && over == over' + [b]
    requires Folds(rs, held + ChainNames(over[|sub|..]))
    requires |passed| == 1 && passed[0].step == StepUndo && NameOf(passed[0]) == (b.height, b.blockId)
    ensures sub <= over' && Folds(rs + passed, held + ChainNames(over'[|sub|..]))
  {
    assert over[|sub|..] == over'[|sub|..] + [b];
    PopGained(held, over[|sub|..], over'[|sub|..], b);
    FoldPassed(rs, passed);
  }

  /** What is held is not above the tip, the block undone is. */
  lemma PopBefore(rs: seq<Response>, passed: seq<Response>, held: seq<Name>, b: BufferedBlock, tip: Option<Height>)
    requires Fits(held, tip) && Above(b.height, tip)
    requires |passed| == 1 && passed[0].step == StepUndo && NameOf(passed[0]) == (b.height, b.blockId)
    ensures Folds(rs, held + ChainNames([])) ==> Fold(rs + passed).None?
  {
    assert held + ChainNames([]) == held;
    FoldPassed(rs, passed);
  }

  lemma PopGained(held: seq<Name>, gained: seq<BufferedBlock>, gained': seq<BufferedBlock>, b: BufferedBlock)
    requires gained == gained' + [b]
    ensures var all := held + ChainNames(gained);
      && all != [] && all[|all| - 1] == (b.height, b.blockId) && all[..|all| - 1] == held + ChainNames(gained')
  {
    ChainNamesOne(gained', b);
  }

  /** A backfill and what the filter passed of the events between two positions. */
  function Sent(encode: Encoder, base: seq<Response>, w: seq<Output>, m: nat, r: nat,
      tip: Option<Height>): seq<Response>
    requires m <= r <= |w|
  {
    base + LiveTail(encode, w[m..r], tip)
  }

  /** One event more. */
  lemma SentOne(encode: Encoder, base: seq<Response>, w: seq<Output>, m: nat, i: nat, n: nat, tip: Option<Height>)
    requires m <= i < |w| && n == i + 1
    ensures Sent(encode, base, w, m, n, tip)
      == Sent(encode, base, w, m, i, tip) + Passed(OutputToResponse(encode, w[i]), tip)
  {
    assert w[m..i + 1] == w[m..i] + [w[i]];
    LiveTailOne(encode, w[m..i], w[i], tip);
  }

  lemma SentNone(encode: Encoder, base: seq<Response>, w: seq<Output>, m: nat, tip: Option<Height>)
    requires m <= |w|
    ensures Sent(encode, base, w, m, m, tip) == base
  {
    assert w[m..m] == [] && base + [] == base;
  }

  lemma UndisturbedStep(w: seq<Output>, m: nat, i: nat, tip: Option<Height>)
    requires m <= i < |w|
    ensures Undisturbed(w, m, i + 1, tip) <==> Undisturbed(w, m, i, tip) && Kept(w, m, i + 1, tip)
  {
  }

  lemma PassedOf(encode: Encoder, o: Output, tip: Option<Height>)
    requires o.New? || o.Undo?
    ensures var step := if o.New? then StepNew else StepUndo;
      IsPassed(Passed(OutputToResponse(encode, o), tip), step, o.streamable.block, tip)
  {
  }

  lemma PassedOther(encode: Encoder, o: Output, tip: Option<Height>)
    requires !o.New? && !o.Undo?
    ensures var passed := Passed(OutputToResponse(encode, o), tip);
      |passed| <= 1 && (passed != [] ==> passed[0].step == StepIrreversible)
  {
  }

  lemma NewHeld(rs: seq<Response>, passed: seq<Response>, held: seq<Name>, w: seq<Output>, m: nat, i: nat,
      tip: Option<Height>)
    requires Sane(w) && m <= i < |w| && w[i].New? && IsPassed(passed, StepNew, w[i].streamable.block, tip)
    requires Undisturbed(w, m, i, tip) && HasOutcome(rs, held, w, m, i, tip)
    ensures HasOutcome(rs + passed, held, w, m, i + 1, tip)
  {
    var b := w[i].streamable.block;
    var (sub, over, over') := (Over(ChainAt(w, m), tip), Over(ChainAt(w, i), tip), Over(ChainAt(w, i + 1), tip));
    ChainStep(w, i);
    OverPush(ChainAt(w, i), b, tip);
    UndisturbedStep(w, m, i, tip);
    assert Kept(w, m, i, tip);
    PushHeld(rs, passed, held, sub, over, over', b, tip);
  }

  lemma UndoHeld(rs: seq<Response>, passed: seq<Response>, held: seq<Name>, w: seq<Output>, m: nat, i: nat,
      tip: Option<Height>)
    requires Sane(w) && m <= i < |w| && w[i].Undo? && IsPassed(passed, StepUndo, w[i].streamable.block, tip)
    requires Undisturbed(w, m, i, tip) && HasOutcome(rs, held, w, m, i, tip) && Fits(held, tip)
    ensures HasOutcome(rs + passed, held, w, m, i + 1, tip)
  {
    var b := w[i].streamable.block;
    UndoneOver(w, i, tip);
    UndisturbedStep(w, m, i, tip);
    assert Kept(w, m, i, tip);
    PopHeld(rs, passed, held, Over(ChainAt(w, m), tip), Over(ChainAt(w, i), tip), Over(ChainAt(w, i + 1), tip), b, tip);
  }

  lemma UndoneOver(w: seq<Output>, i: nat, tip: Option<Height>)
    requires Sane(w) && i < |w| && w[i].Undo?
    ensures var b := w[i].streamable.block;
      Over(ChainAt(w, i), tip) == Over(ChainAt(w, i + 1), tip) + (if Above(b.height, tip) then [b] else [])
  {
    ChainStep(w, i);
  }

  lemma OtherHeld(rs: seq<Response>, passed: seq<Response>, held: seq<Name>, w: seq<Output>, m: nat, i: nat,
      tip: Option<Height>)
    requires Sane(w) && m <= i < |w| && !w[i].New? && !w[i].Undo?
    requires |passed| <= 1 && (passed != [] ==> passed[0].step == StepIrreversible)
    requires Undisturbed(w, m, i, tip) && HasOutcome(rs, held, w, m, i, tip)
    ensures HasOutcome(rs + passed, held, w, m, i + 1, tip)
  {
    ChainStep(w, i);
    UndisturbedStep(w, m, i, tip);
    assert Kept(w, m, i, tip) && Kept(w, m, i + 1, tip) && Gained(w, m, i + 1, tip) == Gained(w, m, i, tip);
    IdleHeld(rs, passed, held + ChainNames(Gained(w, m, i, tip)));
  }

  lemma IdleHeld(rs: seq<Response>, passed: seq<Response>, held: seq<Name>)
    requires Folds(rs, held) && |passed| <= 1 && (passed != [] ==> passed[0].step == StepIrreversible)
    ensures Folds(rs + passed, held)
  {
    if passed == [] {
      assert rs + passed == rs;
    } else {
      FoldPassed(rs, passed);
    }
  }

  lemma RefusedStays(rs: seq<Response>, more: seq<Response>)
    requires Fold(rs).None? && |more| <= 1
    ensures Fold(rs + more).None?
  {
    if more == [] {
      assert rs + more == rs;
    } else {
      assert more == [more[0]];
      FoldOne(rs, more[0]);
    }
  }

  lemma HoldsNext(encode: Encoder, rs: seq<Response>, rs': seq<Response>, held: seq<Name>, w: seq<Output>, m: nat,
      i: nat, n: nat, tip: Option<Height>)
    requires Sane(w) && m <= i < |w| && n == i + 1 && HasOutcome(rs, held, w, m, i, tip) && Fits(held, tip)
    requires rs' == rs + Passed(OutputToResponse(encode, w[i]), tip)
    ensures HasOutcome(rs', held, w, m, n, tip)
  {
    var passed := Passed(OutputToResponse(encode, w[i]), tip);
    if !Undisturbed(w, m, i, tip) {
      UndisturbedStep(w, m, i, tip);
      RefusedStays(rs, passed);
    } else if w[i].New? {
      PassedOf(encode, w[i], tip);
      NewHeld(rs, passed, held, w, m, i, tip);
    } else if w[i].Undo? {
      PassedOf(encode, w[i], tip);
      UndoHeld(rs, passed, held, w, m, i, tip);
    } else {
      PassedOther(encode, w[i], tip);
      OtherHeld(rs, passed, held, w, m, i, tip);
    }
  }

  lemma HoldsFirst(base: seq<Response>, held: seq<Name>, w: seq<Output>, m: nat, tip: Option<Height>)
    requires m <= |w| && Folds(base, held)
    ensures HasOutcome(base, held, w, m, m, tip)
  {
    assert Kept(w, m, m, tip) && Gained(w, m, m, tip) == [];
    assert held + [] == held;
  }

  lemma SentHolds(encode: Encoder, base: seq<Response>, held: seq<Name>, w: seq<Output>, m: nat, i: nat, n: nat,
      tip: Option<Height>)
    requires Sane(w) && m <= i < |w| && n == i + 1 && Fits(held, tip)
    requires HasOutcome(Sent(encode, base, w, m, i, tip), held, w, m, i, tip)
    ensures HasOutcome(Sent(encode, base, w, m, n, tip), held, w, m, n, tip)
  {
    SentOne(encode, base, w, m, i, n, tip);
    HoldsNext(encode, Sent(encode, base, w, m, i, tip), Sent(encode, base, w, m, n, tip), held, w, m, i, n, tip);
  }

  lemma SentFirst(encode: Encoder, base: seq<Response>, held: seq<Name>, w: seq<Output>, m: nat, n: nat,
      tip: Option<Height>)
    requires m == n <= |w| && Folds(base, held)
    ensures HasOutcome(Sent(encode, base, w, m, n, tip), held, w, m, n, tip)
  {
    SentNone(encode, base, w, m, tip);
    HoldsFirst(base, held, w, m, tip);
  }

  /** Whatever is undone and redone while the tail is live, the subscriber is refused exactly when a block above
      the tip that was there before it subscribed is undone, and otherwise holds what it held before and all that
      the chain has gained above the tip. */
  lemma {:induction false} TailHolds(encode: Encoder, base: seq<Response>, held: seq<Name>, w: seq<Output>, m: nat,
      r: nat, tip: Option<Height>)
    requires Sane(w) && m <= r <= |w| && Folds(base, held) && Fits(held, tip)
    ensures HasOutcome(Sent(encode, base, w, m, r, tip), held, w, m, r, tip)
    decreases r
  {
    if r == m {
      SentFirst(encode, base, held, w, m, r, tip);
    } else {
      TailHolds(encode, base, held, w, m, r - 1, tip);
      SentHolds(encode, base, held, w, m, r - 1, r, tip);
    }
  }

  // A request

  /** A well-formed run with a served request. Whatever is undone, and whenever. */
  ghost predicate ServedThrough(p: Setup, s: Sys) {
    p.cfg.Valid() && WellFormedInputs(s.history) && s.phase.Serving?
  }

  ghost function Backfilled(s: Sys): seq<Response>
    requires s.phase.Serving?
  {
    s.phase.archived + s.phase.cached
  }

  /** What the events heard so far leave a subscriber with that started from `backfill`. */
  ghost function HeldSince(s: Sys, m: nat, backfill: seq<Response>): Option<seq<Name>>
    requires m <= |s.hub.history|
  {
    Outcome(NewNames(backfill), s.hub.history, m, |s.hub.history|, LastNum(backfill))
  }

  lemma RunIsSane(p: Setup, s: Sys)
    requires Inv(p, s) && p.cfg.Valid() && WellFormedInputs(s.history)
    ensures Sane(Written(s)) && Sane(s.hub.history) && s.hub.history <= Written(s)
  {
    HistoryIsWritten(s);
    RunIsCalm(p, s, Written(s), |Written(s)|);
    RunIsCalm(p, s, s.hub.history, |s.hub.history|);
  }

  lemma CachedAreNew(p: Setup, window: Window, m: Cached, archived: seq<Response>, head: Option<Height>)
    requires CacheStage(p.encode, window, m, archived, p.start, head).Ok?
    ensures AllNew(CacheStage(p.encode, window, m, archived, p.start, head).value)
  {
  }

  lemma BackfillIsNew(p: Setup, s: Sys)
    requires Inv(p, s) && s.phase.Serving?
    ensures AllNew(Backfilled(s))
  {
    StageNames(p.decode, s.phase.reading.archive, s.phase.window, p.start);
    CachedAreNew(p, s.phase.window, WriteAll(p.capacity, map[], Written(s)[..s.phase.walkAt]), s.phase.archived,
      s.phase.head);
  }

  lemma BackfillFits(rows: seq<Response>)
    requires AllNew(rows)
    ensures Folds(rows, NewNames(rows)) && Fits(NewNames(rows), LastNum(rows))
  {
    FoldNews(rows);
    NamesOfNews(rows);
  }

  /** A backfill, if any, and then everything heard since position `m`, folded. */
  lemma ShippedHolds(encode: Encoder, backfill: seq<Response>, w: seq<Output>, m: nat, heard: seq<Output>)
    requires Sane(w) && m <= |w| && heard == w[m..] && AllNew(backfill)
    ensures Fold(Shipped(encode, backfill, heard)) == Outcome(NewNames(backfill), w, m, |w|, LastNum(backfill))
  {
    BackfillFits(backfill);
    assert heard == w[m..|w|];
    TailHolds(encode, backfill, NewNames(backfill), w, m, |w|, LastNum(backfill));
  }

  /** Every served request, in every interleaving and through every reorg: a subscriber that pushes each New and
      pops each Undo has its backfill and what the chain gained above it since it subscribed; it finds that an
      Undo does not fit exactly when a block above the backfill that it was never sent was undone. */
  lemma SubscriberHolds(p: Setup, actions: seq<Action>)
    requires ServedThrough(p, Exec(p, actions))
    ensures var s := Exec(p, actions);
      && s.phase.seat.joinedAt <= |s.hub.history|
      && Fold(Delivered(p, s)) == HeldSince(s, s.phase.seat.joinedAt, Backfilled(s))
  {
    var s := Exec(p, actions);
    ExecKeeps(p, actions);
    RunIsSane(p, s);
    HeardTail(p, s);
    BackfillIsNew(p, s);
    ShippedHolds(p.encode, Backfilled(s), s.hub.history, s.phase.seat.joinedAt, Heard(s.hub, s.phase.seat));
  }

  /** The same without a start, hence without a backfill. */
  lemma TailingHolds(p: Setup, actions: seq<Action>)
    requires var s := Exec(p, actions); p.cfg.Valid() && WellFormedInputs(s.history) && s.phase.Tailing?
    ensures var s := Exec(p, actions);
      && s.phase.seat.joinedAt <= |s.hub.history|
      && Fold(Shipped(p.encode, [], Heard(s.hub, s.phase.seat))) == HeldSince(s, s.phase.seat.joinedAt, [])
  {
    var s := Exec(p, actions);
    ExecKeeps(p, actions);
    RunIsSane(p, s);
    assert s.hub.HasTail(s.phase.seat.id);
    ShippedHolds(p.encode, [], s.hub.history, s.phase.seat.joinedAt, Heard(s.hub, s.phase.seat));
  }

  // Against a cache, with at least one row

  ghost predicate ServedWarm(p: Setup, s: Sys) {
    && ServedThrough(p, s) && p.capacity > 0
    && s.phase.window.Some? && (s.phase.archived != [] || s.phase.cached != [])
  }

  /** The cache rows, whatever was undone between snapshot and walk: the chain at the walk, from the start or the
      cache's floor up to the snapshot's highest height. */
  ghost predicate IsCachePart(cached: seq<Response>, walk: seq<BufferedBlock>, first: Height, mx: Height) {
    && cached != [] && cached[|cached| - 1].num == mx && first <= mx
    && Contiguous(walk) && walk != [] && walk[0].height <= first && mx < walk[0].height + |walk|
    && Ships(cached, Stretch(walk, first, mx + 1))
  }

  lemma StretchIs(chain: seq<BufferedBlock>, lo: int, hi: int)
    requires chain != [] && chain[0].height <= lo <= hi <= chain[0].height + |chain|
    ensures Stretch(chain, lo, hi) == chain[lo - chain[0].height..hi - chain[0].height]
  {
  }

  /** A cache walk succeeds only within the chain. */
  lemma WalkWithin(walk: seq<BufferedBlock>, aw: nat, first: Height, mx: Height)
    requires aw <= |walk| && first <= mx && CacheWalked(Suffix(walk, aw), first, mx).Ok?
    ensures walk != [] && walk[0].height <= first && mx < walk[0].height + |walk|
  {
    CacheWalkedExact(Suffix(walk, aw), first, mx);
    assert first in Suffix(walk, aw) && mx in Suffix(walk, aw);
  }

  lemma WalkShips(encode: Encoder, walk: seq<BufferedBlock>, aw: nat, first: Height, mx: Height, head: Option<Height>)
    requires Contiguous(walk) && aw <= |walk| && first <= mx && CacheWalked(Suffix(walk, aw), first, mx).Ok?
    ensures IsCachePart(CachedResponses(encode, CacheWalked(Suffix(walk, aw), first, mx).value, head), walk, first, mx)
  {
    WalkWithin(walk, aw, first, mx);
    SliceNames(encode, walk, aw, first, mx, head, mx + 1 - walk[0].height);
    StretchIs(walk, first, mx + 1);
  }

  lemma CacheStretch(encode: Encoder, walk: seq<BufferedBlock>, aw: nat, m: Cached, mn: Height, mx: Height,
      archived: seq<Response>, cached: seq<Response>, h: Height, head: Option<Height>)
    requires Contiguous(walk) && aw <= |walk| && m == Suffix(walk, aw) && mn <= mx
    requires CacheStage(encode, Some((mn, mx)), m, archived, h, head) == Ok(cached)
    requires (archived != [] || cached != []) && Meets(archived, h, mn)
    ensures IsCachePart(cached, walk, Max(h, mn), mx)
  {
    KeyedSuffix(walk, aw);
    ResumesAt(encode, mn, mx, m, archived, cached, h, head);
    WalkShips(encode, walk, aw, Max(h, mn), mx, head);
  }

  lemma CacheRows(p: Setup, s: Sys)
    requires Inv(p, s) && ServedWarm(p, s)
    ensures s.phase.walkAt <= |Written(s)|
    ensures IsCachePart(s.phase.cached, ChainAt(Written(s), s.phase.walkAt), First(p, s), s.phase.window.value.1)
  {
    var (mn, mx) := s.phase.window.value;
    RunIsSane(p, s);
    var aw := SaneCache(Written(s), p.capacity, s.phase.walkAt);
    WindowOrdered(WriteAll(p.capacity, map[], Written(s)[..s.phase.snapAt]));
    ServedArchive(p, s);
    CacheStretch(p.encode, ChainAt(Written(s), s.phase.walkAt), aw,
      WriteAll(p.capacity, map[], Written(s)[..s.phase.walkAt]), mn, mx, s.phase.archived, s.phase.cached, p.start,
      s.phase.head);
  }

  /** The chain when the request walked the cache, and when it subscribed. */
  ghost function Walked(s: Sys): seq<BufferedBlock>
    requires s.phase.Serving?
  {
    if s.phase.walkAt <= |Written(s)| then ChainAt(Written(s), s.phase.walkAt) else []
  }

  ghost function Before(s: Sys): seq<BufferedBlock>
    requires s.phase.Serving?
  {
    if s.phase.seat.joinedAt <= |s.hub.history| then ChainAt(s.hub.history, s.phase.seat.joinedAt) else []
  }

  /** The subscriber holds the archive rows and then the chain broadcast so far, from the start or the cache's
      floor on. */
  ghost predicate HoldsChain(p: Setup, s: Sys)
    requires s.phase.Serving? && s.phase.window.Some?
  {
    Folds(Delivered(p, s), NewNames(s.phase.archived) + ChainNames(FromHeight(ChainHeard(s), First(p, s))))
  }

  /** Two chains carry the same blocks from `lo` up to `mx`. */
  ghost predicate SameStretch(a: seq<BufferedBlock>, b: seq<BufferedBlock>, lo: Height, mx: Height) {
    lo <= mx && ChainNames(Stretch(a, lo, mx + 1)) == ChainNames(Stretch(b, lo, mx + 1))
  }

  lemma FromSplits(chain: seq<BufferedBlock>, lo: int, hi: int)
    requires lo <= hi
    ensures FromHeight(chain, lo) == Stretch(chain, lo, hi) + FromHeight(chain, hi)
  {
  }

  lemma Cancel(a: seq<Name>, x: seq<Name>, y: seq<Name>, z: seq<Name>)
    ensures (a + x) + z == a + (y + z) <==> x == y
  {
    var (l, r) := ((a + x) + z, a + (y + z));
    assert l[|a|..|l| - |z|] == x && r[|a|..|r| - |z|] == y;
    if x == y {
      Regroup(a, x, z);
    }
  }

  lemma NamesSplit(here: seq<BufferedBlock>, first: Height, mx: Height)
    requires first <= mx && Contiguous(here)
    ensures ChainNames(FromHeight(here, first))
      == ChainNames(Stretch(here, first, mx + 1)) + ChainNames(Over(here, Some(mx)))
  {
    OverIsTop(here, mx);
    FromSplits(here, first, mx + 1);
    ChainNamesAppend(Stretch(here, first, mx + 1), FromHeight(here, mx + 1));
  }

  /** Nothing was above the tip at the subscription: the rows and everything above the tip now are the chain
      exactly when the rows still stand. */
  lemma StandsIff(a: seq<Name>, rows: seq<Name>, here: seq<BufferedBlock>, first: Height, mx: Height)
    requires first <= mx && Contiguous(here)
    ensures (a + rows) + ChainNames(Over(here, Some(mx))) == a + ChainNames(FromHeight(here, first))
      <==> rows == ChainNames(Stretch(here, first, mx + 1))
  {
    NamesSplit(here, first, mx);
    Cancel(a, rows, ChainNames(Stretch(here, first, mx + 1)), ChainNames(Over(here, Some(mx))));
  }

  lemma {:induction false} OverAbove(chain: seq<BufferedBlock>, tip: Height)
    ensures forall b :: b in Over(chain, Some(tip)) ==> b.height > tip
  {
    if chain != [] {
      OverAbove(chain[..|chain| - 1], tip);
    }
  }

  lemma EndsApart(a: seq<Name>, rows: seq<Name>, below: seq<Name>, sub: seq<Name>, gained: seq<Name>)
    requires rows != [] && sub != [] && rows[|rows| - 1].0 != sub[|sub| - 1].0
    ensures (a + rows) + gained != a + (below + (sub + gained))
  {
    Regroup(below, sub, gained);
    Cancel(a, rows, below + sub, gained);
    assert (below + sub)[|below + sub| - 1] == sub[|sub| - 1];
  }

  /** Blocks that were above the tip at the subscription are missing from what is held. */
  lemma MissingBefore(a: seq<Name>, rows: seq<Name>, sub: seq<BufferedBlock>, gained: seq<BufferedBlock>,
      here: seq<BufferedBlock>, first: Height, mx: Height)
    requires first <= mx && Contiguous(here) && sub != [] && Over(here, Some(mx)) == sub + gained
    requires rows != [] && rows[|rows| - 1].0 == mx
    ensures (a + rows) + ChainNames(gained) != a + ChainNames(FromHeight(here, first))
  {
    OverAbove(here, mx);
    assert Tip(sub) in Over(here, Some(mx));
    NamesOfChain(sub);
    NamesSplit(here, first, mx);
    ChainNamesAppend(sub, gained);
    EndsApart(a, rows, ChainNames(Stretch(here, first, mx + 1)), ChainNames(sub), ChainNames(gained));
  }

  lemma RowsOf(s: Sys, walk: seq<BufferedBlock>, first: Height, mx: Height)
    requires s.phase.Serving? && IsCachePart(s.phase.cached, walk, first, mx)
    ensures LastNum(Backfilled(s)) == Some(mx)
    ensures NewNames(Backfilled(s)) == NewNames(s.phase.archived) + ChainNames(Stretch(walk, first, mx + 1))
  {
    LastOfBackfill(s.phase.archived, s.phase.cached);
    NewNamesAppend(s.phase.archived, s.phase.cached);
  }

  lemma PartEndsAtTip(walk: seq<BufferedBlock>, first: Height, mx: Height)
    requires Contiguous(walk) && walk != [] && walk[0].height <= first <= mx < walk[0].height + |walk|
    ensures var rows := ChainNames(Stretch(walk, first, mx + 1)); rows != [] && rows[|rows| - 1].0 == mx
  {
    StretchIs(walk, first, mx + 1);
    NamesOfChain(Stretch(walk, first, mx + 1));
  }

  /** What the outcome is of rows that end at the tip, exactly. */
  lemma OutcomeIff(a: seq<Name>, rows: seq<Name>, w: seq<Output>, m: nat, walk: seq<BufferedBlock>, first: Height,
      mx: Height)
    requires Sane(w) && m <= |w| && first <= mx && rows != [] && rows[|rows| - 1].0 == mx
    requires rows == ChainNames(Stretch(walk, first, mx + 1))
    ensures Outcome(a + rows, w, m, |w|, Some(mx)) == Some(a + ChainNames(FromHeight(ChainAt(w, |w|), first)))
      <==> Over(ChainAt(w, m), Some(mx)) == [] && SameStretch(walk, ChainAt(w, |w|), first, mx)
  {
    var (sub, here) := (Over(ChainAt(w, m), Some(mx)), ChainAt(w, |w|));
    SaneChain(w, |w|);
    if sub == [] {
      assert Undisturbed(w, m, |w|, Some(mx)) && Gained(w, m, |w|, Some(mx)) == Over(here, Some(mx));
      StandsIff(a, rows, here, first, mx);
    } else if Undisturbed(w, m, |w|, Some(mx)) {
      assert Kept(w, m, |w|, Some(mx));
      MissingBefore(a, rows, sub, Gained(w, m, |w|, Some(mx)), here, first, mx);
    }
  }

  /** The hand-off through any reorgs, against a cache, with at least one row. What the subscriber holds are the
      archive rows and then the chain broadcast so far, exactly when no block above the backfill had been broadcast
      before it subscribed, and what it was sent from the cache is still on that chain. */
  lemma ReorgHandoffIff(p: Setup, actions: seq<Action>)
    requires ServedWarm(p, Exec(p, actions))
    ensures var s := Exec(p, actions);
      var mx := s.phase.window.value.1;
      HoldsChain(p, s) <==>
        Over(Before(s), Some(mx)) == [] && SameStretch(Walked(s), ChainHeard(s), First(p, s), mx)
  {
    ExecKeeps(p, actions);
    SubscriberHolds(p, actions);
    RunIsSane(p, Exec(p, actions));
    CacheRows(p, Exec(p, actions));
    HoldsIff(p, Exec(p, actions));
  }

  lemma HoldsIff(p: Setup, s: Sys)
    requires ServedWarm(p, s) && s.phase.seat.joinedAt <= |s.hub.history| && Sane(s.hub.history)
    requires IsCachePart(s.phase.cached, Walked(s), First(p, s), s.phase.window.value.1)
    requires Fold(Delivered(p, s)) == HeldSince(s, s.phase.seat.joinedAt, Backfilled(s))
    ensures var mx := s.phase.window.value.1;
      HoldsChain(p, s) <==>
        Over(Before(s), Some(mx)) == [] && SameStretch(Walked(s), ChainHeard(s), First(p, s), mx)
  {
    RowsOf(s, Walked(s), First(p, s), s.phase.window.value.1);
    PartIff(s.phase.archived, s.phase.cached, Walked(s), s.hub.history, s.phase.seat.joinedAt, First(p, s),
      s.phase.window.value.1, NewNames(Backfilled(s)));
  }

  lemma PartIff(archived: seq<Response>, cached: seq<Response>, walk: seq<BufferedBlock>, w: seq<Output>, m: nat,
      first: Height, mx: Height, rows: seq<Name>)
    requires Sane(w) && m <= |w| && IsCachePart(cached, walk, first, mx)
    requires rows == NewNames(archived) + ChainNames(Stretch(walk, first, mx + 1))
    ensures Outcome(rows, w, m, |w|, Some(mx))
      == Some(NewNames(archived) + ChainNames(FromHeight(ChainAt(w, |w|), first)))
      <==> Over(ChainAt(w, m), Some(mx)) == [] && SameStretch(walk, ChainAt(w, |w|), first, mx)
  {
    PartEndsAtTip(walk, first, mx);
    OutcomeIff(NewNames(archived), ChainNames(Stretch(walk, first, mx + 1)), w, m, walk, first, mx);
  }

  // When the rows still stand

  /** No block below height `hi` is undone between two positions. */
  ghost predicate Spares(w: seq<Output>, i: nat, j: nat, hi: int)
    requires i <= j <= |w|
  {
    forall k :: i <= k < j && w[k].Undo? ==> w[k].streamable.block.height >= hi
  }

  ghost predicate Spans(chain: seq<BufferedBlock>, hi: int) {
    chain != [] && hi <= chain[0].height + |chain|
  }

  lemma StretchPush(chain: seq<BufferedBlock>, b: BufferedBlock, lo: int, hi: int)
    requires Spans(chain, hi) && lo <= hi
    ensures Spans(chain + [b], hi) && Stretch(chain + [b], lo, hi) == Stretch(chain, lo, hi)
  {
  }

  lemma StretchPop(chain: seq<BufferedBlock>, lo: int, hi: int)
    requires Spans(chain, hi) && Contiguous(chain) && Tip(chain).height >= hi && lo <= hi && chain[0].height < hi
    ensures Spans(chain[..|chain| - 1], hi) && Stretch(chain[..|chain| - 1], lo, hi) == Stretch(chain, lo, hi)
    ensures chain[..|chain| - 1][0] == chain[0]
  {
  }

  lemma {:induction false} StretchSurvives(w: seq<Output>, i: nat, j: nat, lo: int, hi: int)
    requires Sane(w) && i <= j <= |w| && lo <= hi && Spares(w, i, j, hi)
    requires var chain := ChainAt(w, i); Spans(chain, hi) && chain[0].height < hi
    ensures var chain := ChainAt(w, j);
      Spans(chain, hi) && chain[0].height < hi && Stretch(chain, lo, hi) == Stretch(ChainAt(w, i), lo, hi)
    decreases j
  {
    if i < j {
      StretchSurvives(w, i, j - 1, lo, hi);
      StretchStep(w, j - 1, j, lo, hi);
    }
  }

  lemma StretchStep(w: seq<Output>, i: nat, j: nat, lo: int, hi: int)
    requires Sane(w) && j == i + 1 <= |w| && lo <= hi && (w[i].Undo? ==> w[i].streamable.block.height >= hi)
    requires var chain := ChainAt(w, i); Spans(chain, hi) && chain[0].height < hi
    ensures var chain := ChainAt(w, j);
      Spans(chain, hi) && chain[0].height < hi && Stretch(chain, lo, hi) == Stretch(ChainAt(w, i), lo, hi)
  {
    ChainStep(w, i);
    SaneChain(w, i);
    if w[i].New? {
      StretchPush(ChainAt(w, i), w[i].streamable.block, lo, hi);
    } else if w[i].Undo? {
      StretchPop(ChainAt(w, i), lo, hi);
    }
  }

  /** Once everything the cache walk saw has been broadcast, and as long as nothing at or below the backfill was
      undone after it, a subscriber behind which nothing above the backfill had been broadcast holds the chain,
      however often the blocks above were replaced. */
  lemma ReorgHandoff(p: Setup, actions: seq<Action>)
    requires var s := Exec(p, actions);
      && ServedWarm(p, s) && s.phase.walkAt <= |s.hub.history|
      && Spares(s.hub.history, s.phase.walkAt, |s.hub.history|, s.phase.window.value.1 + 1)
      && Over(Before(s), Some(s.phase.window.value.1)) == []
    ensures HoldsChain(p, Exec(p, actions))
  {
    ExecKeeps(p, actions);
    ReorgHandoffIff(p, actions);
    RowsStand(p, Exec(p, actions));
  }

  lemma RowsStand(p: Setup, s: Sys)
    requires Inv(p, s) && ServedWarm(p, s) && s.phase.walkAt <= |s.hub.history|
    requires Spares(s.hub.history, s.phase.walkAt, |s.hub.history|, s.phase.window.value.1 + 1)
    ensures SameStretch(Walked(s), ChainHeard(s), First(p, s), s.phase.window.value.1)
  {
    RunIsSane(p, s);
    CacheRows(p, s);
    PrefixOfPrefix(s.hub.history, Written(s), s.phase.walkAt);
    StretchStands(s.hub.history, s.phase.walkAt, First(p, s), s.phase.window.value.1);
  }

  lemma StretchStands(w: seq<Output>, i: nat, first: Height, mx: Height)
    requires Sane(w) && i <= |w| && Spares(w, i, |w|, mx + 1)
    requires var walk := ChainAt(w, i); walk != [] && walk[0].height <= first <= mx < walk[0].height + |walk|
    ensures SameStretch(ChainAt(w, i), ChainAt(w, |w|), first, mx)
  {
    StretchSurvives(w, i, |w|, first, mx + 1);
  }
}
