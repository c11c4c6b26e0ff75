/** The archiver: every Irreversible event becomes a row, and the rows are a final stretch of the chain. */
module Archiver {
  import opened Types
  import opened EngineSpec
  import opened Streams
  import opened Replay
  import opened Finality
  import opened FinalStream
  import opened Archive

  /** How a finalized block is encoded into a payload; left abstract. */
  type Encoder = (BufferedBlock, BlockFinality) -> seq<byte>

  /** What happens to the archive: an event is received, or the retention task runs. */
  datatype ArchiveEvent = Received(output: Output) | Retained(floor: Height)

  function StoreRow(encode: Encoder, table: Table, s: StreamableBlock): Table {
    table[s.block.height := PackValue(s.block.blockId, encode(s.block, s.finality))]
  }

  function Archived(encode: Encoder, table: Table, e: ArchiveEvent): Table {
    match e
    case Received(o) => if o.Irreversible? then StoreRow(encode, table, o.streamable) else table
    case Retained(floor) => KeepFrom(table, floor)
  }

  function ArchiveAll(encode: Encoder, table: Table, events: seq<ArchiveEvent>): Table {
    if events == [] then table
    else Archived(encode, ArchiveAll(encode, table, events[..|events| - 1]), events[|events| - 1])
  }

  /** What the archiver's receiver yields: an event, whose write may fail, or the news that it lagged. */
  datatype Arrival = Event(output: Output, writable: bool) | Lagged(skipped: nat)

  /** What comes of it: a failed write and a lag leave no trace. */
  function Taken(rx: seq<Arrival>): seq<ArchiveEvent> {
    if rx == [] then []
    else
      var rest := Taken(rx[..|rx| - 1]);
      match rx[|rx| - 1]
      case Event(o, writable) => if o.Irreversible? && !writable then rest else rest + [Received(o)]
      case Lagged(_) => rest
  }

  /** One arrival's effect on the table. */
  function Arrived(encode: Encoder, table: Table, a: Arrival): Table {
    if a.Event? && a.output.Irreversible? && a.writable then StoreRow(encode, table, a.output.streamable) else table
  }

  lemma ArrivalStep(encode: Encoder, table: Table, rx: seq<Arrival>, i: nat)
    requires i < |rx|
    ensures ArchiveAll(encode, table, Taken(rx[..i + 1]))
      == Arrived(encode, ArchiveAll(encode, table, Taken(rx[..i])), rx[i])
  {
    assert rx[..i + 1][..i] == rx[..i];
    if rx[i].Event? && (rx[i].output.Irreversible? ==> rx[i].writable) {
      ArchiveOne(encode, table, Taken(rx[..i]), Received(rx[i].output));
    }
  }

  lemma ArchiveOne(encode: Encoder, table: Table, events: seq<ArchiveEvent>, e: ArchiveEvent)
    ensures ArchiveAll(encode, table, events + [e]) == Archived(encode, ArchiveAll(encode, table, events), e)
  {
    assert (events + [e])[..|events|] == events;
  }

  /** Arrival `i` is the last Irreversible event that arrived and could be written for its height. */
  ghost predicate Lasts(rx: seq<Arrival>, i: nat) {
    && i < |rx| && IsWrite(rx[i])
    && forall j :: i < j < |rx| && IsWrite(rx[j]) ==> HeightIn(rx[j]) != HeightIn(rx[i])
  }

  predicate IsWrite(a: Arrival) {
    a.Event? && a.output.Irreversible? && a.writable
  }

  function HeightIn(a: Arrival): Height
    requires IsWrite(a)
  {
    a.output.streamable.block.height
  }

  ghost predicate WrittenAt(rx: seq<Arrival>, k: Height) {
    exists i :: 0 <= i < |rx| && IsWrite(rx[i]) && HeightIn(rx[i]) == k
  }

  /** The row of an event: the block's id, and behind it the encoded block with its finality. */
  ghost predicate HasRow(encode: Encoder, table: Table, s: StreamableBlock) {
    HasItem(table, Row(s.block.height, s.block.blockId, encode(s.block, s.finality)))
  }

  /** Nothing written is missing: each height with a write has its last one, every other is as it was. */
  ghost predicate WroteLast(encode: Encoder, before: Table, rx: seq<Arrival>, after: Table) {
    && (forall i: nat :: Lasts(rx, i) ==> HasRow(encode, after, rx[i].output.streamable))
    && (forall k :: !WrittenAt(rx, k) ==> SameAt(before, after, k))
  }

  lemma LastsBefore(rx: seq<Arrival>, a: Arrival, i: nat)
    requires Lasts(rx + [a], i) && i < |rx|
    ensures Lasts(rx, i) && (rx + [a])[i] == rx[i] && (IsWrite(a) ==> HeightIn(a) != HeightIn(rx[i]))
  {
    assert (rx + [a])[|rx|] == a;
    forall j | i < j < |rx| && IsWrite(rx[j]) ensures HeightIn(rx[j]) != HeightIn(rx[i]) {
      assert (rx + [a])[j] == rx[j];
    }
  }

  lemma NotWrittenBefore(rx: seq<Arrival>, a: Arrival, k: Height)
    requires !WrittenAt(rx + [a], k)
    ensures !WrittenAt(rx, k) && (IsWrite(a) ==> HeightIn(a) != k)
  {
    assert (rx + [a])[|rx|] == a;
    forall i | 0 <= i < |rx| && IsWrite(rx[i]) ensures HeightIn(rx[i]) != k {
      assert (rx + [a])[i] == rx[i];
    }
  }

  lemma ArrivalWrites(encode: Encoder, before: Table, rx: seq<Arrival>, mid: Table, a: Arrival)
    requires WroteLast(encode, before, rx, mid)
    ensures WroteLast(encode, before, rx + [a], Arrived(encode, mid, a))
  {
    var (all, after) := (rx + [a], Arrived(encode, mid, a));
    if IsWrite(a) {
      var s := a.output.streamable;
      PackRoundTrip(s.block.height, s.block.blockId, encode(s.block, s.finality), []);
    }
    forall i: nat | Lasts(all, i) ensures HasRow(encode, after, all[i].output.streamable) {
      if i < |rx| {
        LastsBefore(rx, a, i);
        assert HasRow(encode, mid, rx[i].output.streamable);
      }
    }
    forall k | !WrittenAt(all, k) ensures SameAt(before, after, k) {
      NotWrittenBefore(rx, a, k);
    }
  }

  lemma {:induction false} TakenWrites(encode: Encoder, table: Table, rx: seq<Arrival>)
    ensures WroteLast(encode, table, rx, ArchiveAll(encode, table, Taken(rx)))
  {
    if rx != [] {
      var n := |rx| - 1;
      TakenWrites(encode, table, rx[..n]);
      ArrivalStep(encode, table, rx, n);
      ArrivalWrites(encode, table, rx[..n], ArchiveAll(encode, table, Taken(rx[..n])), rx[n]);
      assert rx[..n] + [rx[n]] == rx && rx[..|rx|] == rx;
    }
  }

  /** The archiver's receive loop. */
  method RunArchiver(rx: seq<Arrival>, archive: BlockArchive, encode: Encoder)
    modifies archive
    ensures archive.table == ArchiveAll(encode, old(archive.table), Taken(rx))
    ensures WroteLast(encode, old(archive.table), rx, archive.table)
  {
    for i := 0 to |rx|
      invariant archive.table == ArchiveAll(encode, old(archive.table), Taken(rx[..i]))
    {
      ArrivalStep(encode, old(archive.table), rx, i);
      match rx[i] {
        case Event(output, writable) =>
          if output.Irreversible? && writable {
            var s := output.streamable;
            archive.Put(s.block.height, s.block.blockId, encode(s.block, s.finality));
          }
        case Lagged(_) =>
      }
    }
    assert rx[..|rx|] == rx;
    TakenWrites(encode, old(archive.table), rx);
  }

  // Rows

  function AsFinal(o: Output): Option<StreamableBlock> {
    if o.Irreversible? then Some(o.streamable) else None
  }

  function FinalEvents(outs: seq<Output>): seq<StreamableBlock> { Pick(outs, AsFinal) }

  function RowsOf(encode: Encoder, finals: seq<StreamableBlock>): Table {
    if finals == [] then map[]
    else StoreRow(encode, RowsOf(encode, finals[..|finals| - 1]), finals[|finals| - 1])
  }

  ghost predicate Rising(finals: seq<StreamableBlock>) {
    forall i, j :: 0 <= i < j < |finals| ==> finals[i].block.height < finals[j].block.height
  }

  /** How many of the rising finals lie below the floor. */
  function CountBelow(finals: seq<StreamableBlock>, floor: Height): (n: nat)
    ensures n <= |finals|
  {
    if finals == [] then 0
    else if finals[|finals| - 1].block.height < floor then |finals|
    else CountBelow(finals[..|finals| - 1], floor)
  }

  lemma {:induction false} RowsKeys(encode: Encoder, finals: seq<StreamableBlock>)
    ensures forall h :: h in RowsOf(encode, finals) ==> exists i :: 0 <= i < |finals| && finals[i].block.height == h
  {
    if finals != [] {
      var n := |finals| - 1;
      RowsKeys(encode, finals[..n]);
      var rows := RowsOf(encode, finals[..n]);
      forall h | h in RowsOf(encode, finals) ensures exists i :: 0 <= i < |finals| && finals[i].block.height == h {
        if h != finals[n].block.height {
          assert h in rows;
          var i :| 0 <= i < |finals[..n]| && finals[..n][i].block.height == h;
          assert finals[i].block.height == h;
        }
      }
    }
  }

  lemma KeepFromStore(encode: Encoder, table: Table, s: StreamableBlock, floor: Height)
    requires s.block.height >= floor
    ensures KeepFrom(StoreRow(encode, table, s), floor) == StoreRow(encode, KeepFrom(table, floor), s)
  {
  }

  /** Retention drops the lowest rows and touches no other. */
  lemma {:induction false} RowsKeepFrom(encode: Encoder, finals: seq<StreamableBlock>, floor: Height)
    requires Rising(finals)
    ensures KeepFrom(RowsOf(encode, finals), floor) == RowsOf(encode, finals[CountBelow(finals, floor)..])
  {
    if finals != [] {
      var n := |finals| - 1;
      var k := CountBelow(finals, floor);
      if finals[n].block.height < floor {
        RowsKeys(encode, finals);
        assert finals[k..] == [];
        assert KeepFrom(RowsOf(encode, finals), floor) == map[];
      } else {
        RowsKeepFrom(encode, finals[..n], floor);
        KeepFromStore(encode, RowsOf(encode, finals[..n]), finals[n], floor);
        assert finals[k..][..n - k] == finals[..n][k..];
      }
    }
  }

  // Any interleaving of events and retention

  function OutputsOf(events: seq<ArchiveEvent>): seq<Output> {
    if events == [] then []
    else
      var rest := OutputsOf(events[..|events| - 1]);
      var last := events[|events| - 1];
      if last.Received? then rest + [last.output] else rest
  }

  /** How many of the rows written so far retention has removed. */
  function Expired(events: seq<ArchiveEvent>): nat {
    if events == [] then 0
    else
      var before := events[..|events| - 1];
      ExpiredAfter(FinalEvents(OutputsOf(before)), Expired(before), events[|events| - 1])
  }

  function ExpiredAfter(finals: seq<StreamableBlock>, d: nat, e: ArchiveEvent): nat {
    match e
    case Received(_) => d
    case Retained(floor) => d + CountBelow(finals[Min(d, |finals|)..], floor)
  }

  function FinalsAfter(finals: seq<StreamableBlock>, e: ArchiveEvent): seq<StreamableBlock> {
    if e.Received? && e.output.Irreversible? then finals + [e.output.streamable] else finals
  }

  /** One more final extends the rows and overwrites none. */
  lemma RowsExtend(encode: Encoder, finals: seq<StreamableBlock>, s: StreamableBlock, d: nat)
    requires Rising(finals + [s]) && d <= |finals|
    ensures StoreRow(encode, RowsOf(encode, finals[d..]), s) == RowsOf(encode, (finals + [s])[d..])
    ensures s.block.height !in RowsOf(encode, finals[d..])
  {
    var all := finals + [s];
    assert all[d..][..|all[d..]| - 1] == finals[d..];
    RowsKeys(encode, finals[d..]);
    forall i | 0 <= i < |finals[d..]| ensures finals[d..][i].block.height < s.block.height {
      assert finals[d..][i] == all[d + i] && all[|finals|] == s;
    }
  }

  lemma RowsRetain(encode: Encoder, finals: seq<StreamableBlock>, floor: Height, d: nat)
    requires Rising(finals) && d <= |finals|
    ensures KeepFrom(RowsOf(encode, finals[d..]), floor) == RowsOf(encode, finals[d + CountBelow(finals[d..], floor)..])
  {
    RowsKeepFrom(encode, finals[d..], floor);
    assert finals[d..][CountBelow(finals[d..], floor)..] == finals[d + CountBelow(finals[d..], floor)..];
  }

  lemma FinalsOfEvents(events: seq<ArchiveEvent>)
    requires events != []
    ensures var (before, last) := (events[..|events| - 1], events[|events| - 1]);
      FinalEvents(OutputsOf(events)) == FinalsAfter(FinalEvents(OutputsOf(before)), last)
  {
    var (before, last) := (OutputsOf(events[..|events| - 1]), events[|events| - 1]);
    if last.Received? {
      PickAppend(before, [last.output], AsFinal);
      PickOne(last.output, AsFinal);
    }
  }

  lemma RisingPrefix(finals: seq<StreamableBlock>, more: seq<StreamableBlock>)
    requires Rising(finals + more)
    ensures Rising(finals)
  {
    assert forall i :: 0 <= i < |finals| ==> finals[i] == (finals + more)[i];
  }

  /** The rows are the finals received, less the oldest ones. */
  ghost predicate IsSuffix(encode: Encoder, events: seq<ArchiveEvent>) {
    HasRows(encode, ArchiveAll(encode, map[], events), FinalEvents(OutputsOf(events)), Expired(events))
  }

  ghost predicate HasRows(encode: Encoder, table: Table, finals: seq<StreamableBlock>, d: nat) {
    d <= |finals| && table == RowsOf(encode, finals[d..])
  }

  lemma RowsStep(encode: Encoder, table: Table, finals: seq<StreamableBlock>, d: nat, e: ArchiveEvent)
    requires HasRows(encode, table, finals, d) && Rising(finals) && Rising(FinalsAfter(finals, e))
    ensures HasRows(encode, Archived(encode, table, e), FinalsAfter(finals, e), ExpiredAfter(finals, d, e))
  {
    if e.Retained? {
      RowsRetain(encode, finals, e.floor, d);
    } else if e.output.Irreversible? {
      RowsExtend(encode, finals, e.output.streamable, d);
    }
  }

  lemma SuffixStep(encode: Encoder, events: seq<ArchiveEvent>)
    requires events != [] && Rising(FinalEvents(OutputsOf(events)))
      && Rising(FinalEvents(OutputsOf(events[..|events| - 1])))
    requires IsSuffix(encode, events[..|events| - 1])
    ensures IsSuffix(encode, events)
  {
    var (before, last) := (events[..|events| - 1], events[|events| - 1]);
    FinalsOfEvents(events);
    RowsStep(encode, ArchiveAll(encode, map[], before), FinalEvents(OutputsOf(before)), Expired(before), last);
  }

  /** However retention interleaves, the rows are the finals received, less the oldest ones. */
  lemma {:induction false} ArchiveIsSuffix(encode: Encoder, events: seq<ArchiveEvent>)
    requires Rising(FinalEvents(OutputsOf(events)))
    ensures IsSuffix(encode, events)
  {
    if events != [] {
      var (before, last) := (events[..|events| - 1], events[|events| - 1]);
      FinalsOfEvents(events);
      if last.Received? && last.output.Irreversible? {
        RisingPrefix(FinalEvents(OutputsOf(before)), [last.output.streamable]);
      }
      ArchiveIsSuffix(encode, before);
      SuffixStep(encode, events);
    }
  }

  /** No row is ever overwritten. */
  lemma NeverOverwrites(encode: Encoder, before: seq<ArchiveEvent>, s: StreamableBlock)
    requires Rising(FinalEvents(OutputsOf(before)) + [s])
    ensures s.block.height !in ArchiveAll(encode, map[], before)
  {
    RisingPrefix(FinalEvents(OutputsOf(before)), [s]);
    ArchiveIsSuffix(encode, before);
    RowsExtend(encode, FinalEvents(OutputsOf(before)), s, Expired(before));
  }

  // The engine's finals

  /** Finals a consumer accepted rise in height and sit on the final part of its chain. */
  lemma {:induction false} FinalsOnChain(outs: seq<Output>)
    requires Feed(START, outs).Some?
    ensures var c := Feed(START, outs).value;
      var finals := FinalEvents(outs);
      && Rising(finals)
      && c.locked <= |c.chain|
      && (if finals == [] then c.mark.None? else c.mark == Some(finals[|finals| - 1].block.height))
      && forall i :: 0 <= i < |finals| ==> finals[i].block in c.chain[..c.locked]
  {
    if outs != [] {
      var n := |outs| - 1;
      FeedPrefix(START, outs, n);
      FinalsOnChain(outs[..n]);
      var c := Feed(START, outs[..n]).value;
      assert outs[n..] == [outs[n]];
      FeedOne(c, outs[n]);
      FeedKeepsFinal(c, [outs[n]]);
      FinalStep(c, FinalEvents(outs[..n]), outs[n]);
    }
  }

  lemma RisingStep(finals: seq<StreamableBlock>, s: StreamableBlock)
    requires Rising(finals) && (finals != [] ==> finals[|finals| - 1].block.height < s.block.height)
    ensures Rising(finals + [s])
  {
  }

  lemma FinalStep(c: Consumer, finals: seq<StreamableBlock>, o: Output)
    requires Apply(c, o).Some? && Rising(finals) && c.locked <= |c.chain|
    requires if finals == [] then c.mark.None? else c.mark == Some(finals[|finals| - 1].block.height)
    requires forall i :: 0 <= i < |finals| ==> finals[i].block in c.chain[..c.locked]
    requires var c' := Apply(c, o).value;
      c.locked <= c'.locked <= |c'.chain| && c.chain[..c.locked] == c'.chain[..c.locked]
    ensures var c' := Apply(c, o).value;
      var finals' := finals + ToSeq(AsFinal(o));
      && Rising(finals')
      && (if finals' == [] then c'.mark.None? else c'.mark == Some(finals'[|finals'| - 1].block.height))
      && forall i :: 0 <= i < |finals'| ==> finals'[i].block in c'.chain[..c'.locked]
  {
    var c' := Apply(c, o).value;
    FinalsStay(c, c', finals);
    if o.Irreversible? {
      EndOfNames(c.chain, o.streamable.block);
      assert c'.chain[..c'.locked][c'.locked - 1] == o.streamable.block;
      RisingStep(finals, o.streamable);
    } else {
      assert finals + ToSeq(AsFinal(o)) == finals;
    }
  }

  lemma {:induction false} EndOfNames(chain: seq<BufferedBlock>, b: BufferedBlock)
    requires EndOf(chain, b) > 0
    ensures chain[EndOf(chain, b) - 1] == b
  {
    if Tip(chain) != b {
      EndOfNames(chain[..|chain| - 1], b);
    }
  }

  /** A final is tagged Finalized under the head that finalized it, which has not moved back since. */
  ghost predicate BelowHead(outs: seq<Output>, head: Option<Height>) {
    forall i :: 0 <= i < |outs| && outs[i].Irreversible? ==>
      var s := outs[i].streamable;
      s.finality.tier == Finalized && s.finality.solidifiedHead.Some? && head.Some?
      && s.block.height <= s.finality.solidifiedHead.value <= head.value
  }

  lemma {:induction false} FinalizingBelow(blocks: seq<BufferedBlock>, head: Height, mark: Option<Height>)
    ensures forall i :: 0 <= i < |Finalizing(blocks, head, mark)| ==> Finalizing(blocks, head, mark)[i].height <= head
    decreases |blocks|
  {
    if blocks != [] && blocks[0].height <= head {
      if Above(blocks[0].height, mark) {
        FinalizingBelow(blocks[1..], head, Some(blocks[0].height));
      } else {
        FinalizingBelow(blocks[1..], head, mark);
      }
    }
  }

  lemma SettleBelow(s: State)
    ensures BelowHead(Settle(s).1, s.solidifiedHead)
  {
    if s.solidifiedHead.Some? {
      var head := s.solidifiedHead.value;
      var fired := Finalizing(s.canonical, head, s.lastIrreversible);
      FinalizingBelow(s.canonical, head, s.lastIrreversible);
      AllIrreversible(fired, head);
      AllResolved(s.forkHistory[..ResolvedCount(s.forkHistory, head)], head);
    }
  }

  lemma AdmitBelow(cfg: Config, s: State, b: Block, kept: nat)
    requires kept <= |s.canonical|
    ensures BelowHead(Admit(cfg, s, b, kept).1.value, s.solidifiedHead)
  {
    SettleBelow(Append(s, b, kept));
    AllUndo(s.canonical[kept..], s.solidifiedHead);
  }

  lemma TakeBelow(cfg: Config, s: State, input: Input)
    ensures BelowHead(Emitted(Take(cfg, s, input).1), Take(cfg, s, input).0.solidifiedHead)
    ensures s.solidifiedHead.Some? ==>
      var head := Take(cfg, s, input).0.solidifiedHead; head.Some? && s.solidifiedHead.value <= head.value
  {
    match input
    case Solidify(head) => SettleBelow(s.(solidifiedHead := Some(head)));
    case Deliver(b) =>
      forall kept: nat | kept <= |s.canonical| ensures BelowHead(Admit(cfg, s, b, kept).1.value, s.solidifiedHead) {
        AdmitBelow(cfg, s, b, kept);
      }
  }

  lemma {:induction false} RunBelow(cfg: Config, inputs: seq<Input>)
    ensures BelowHead(Emissions(cfg, inputs), After(cfg, inputs).solidifiedHead)
  {
    if inputs != [] {
      var before := inputs[..|inputs| - 1];
      RunBelow(cfg, before);
      TakeBelow(cfg, After(cfg, before), inputs[|inputs| - 1]);
    }
  }

  /** The archive is a final part of the chain: on any run, whatever prefix of its events the archiver has
      received and however retention interleaves, the rows are its finals less the oldest; their heights
      rise, so each height is written once; every archived block is in the permanent part of the chain;
      and every row was written under a head at or above it. */
  lemma ArchiveIsFinal(cfg: Config, inputs: seq<Input>, encode: Encoder, events: seq<ArchiveEvent>)
    requires cfg.Valid() && OutputsOf(events) <= Emissions(cfg, inputs)
    ensures var finals := FinalEvents(OutputsOf(events));
      var c := Consumed(cfg, inputs);
      && Rising(finals) && Expired(events) <= |finals|
      && ArchiveAll(encode, map[], events) == RowsOf(encode, finals[Expired(events)..])
      && c.locked <= |c.chain|
      && (forall i :: 0 <= i < |finals| ==> finals[i].block in c.chain[..c.locked])
      && BelowHead(OutputsOf(events), After(cfg, inputs).solidifiedHead)
  {
    var outs := OutputsOf(events);
    var all := Emissions(cfg, inputs);
    ReplayNeverFails(cfg, inputs);
    assert all[..|outs|] == outs;
    FeedPrefix(START, all, |outs|);
    FinalsOnChain(outs);
    ArchiveIsSuffix(encode, events);
    FeedKeepsFinal(Feed(START, outs).value, all[|outs|..]);
    FinalsStay(Feed(START, outs).value, Consumed(cfg, inputs), FinalEvents(outs));
    RunBelow(cfg, inputs);
  }

  /** A row is some final event's, at its own height. */
  ghost predicate IsRowOf(encode: Encoder, k: Height, value: seq<byte>, o: Output) {
    o.Irreversible? && o.streamable.block.height == k
    && value == PackValue(o.streamable.block.blockId, encode(o.streamable.block, o.streamable.finality))
  }

  lemma {:induction false} RowsAreReceived(encode: Encoder, events: seq<ArchiveEvent>, k: Height)
    requires k in ArchiveAll(encode, map[], events)
    ensures exists o :: Received(o) in events && IsRowOf(encode, k, ArchiveAll(encode, map[], events)[k], o)
  {
    var n := |events| - 1;
    var (before, last) := (ArchiveAll(encode, map[], events[..n]), events[n]);
    if last.Received? && last.output.Irreversible? && last.output.streamable.block.height == k {
      assert IsRowOf(encode, k, ArchiveAll(encode, map[], events)[k], last.output);
    } else {
      RowsAreReceived(encode, events[..n], k);
      var o :| Received(o) in events[..n] && IsRowOf(encode, k, before[k], o);
      assert Received(o) in events;
    }
  }

  /** Whatever the archiver lost to lag or failed writes, in whatever order events reached it, no row is wrong:
      each is a final of the run and its block is in the permanent part of the chain. */
  lemma LossyArchiveIsFinal(cfg: Config, inputs: seq<Input>, encode: Encoder, events: seq<ArchiveEvent>, k: Height)
    requires cfg.Valid() && k in ArchiveAll(encode, map[], events)
    requires forall o :: Received(o) in events ==> o in Emissions(cfg, inputs)
    ensures var c := Consumed(cfg, inputs);
      && c.locked <= |c.chain|
      && exists o :: (
        && o in Emissions(cfg, inputs)
        && IsRowOf(encode, k, ArchiveAll(encode, map[], events)[k], o)
        && o.streamable.block in c.chain[..c.locked])
  {
    ReplayNeverFails(cfg, inputs);
    RowsAreReceived(encode, events, k);
    var o :| Received(o) in events && IsRowOf(encode, k, ArchiveAll(encode, map[], events)[k], o);
    FinalsOnChain(Emissions(cfg, inputs));
    FinalListed(Emissions(cfg, inputs), o);
  }

  lemma {:induction false} FinalListed(outs: seq<Output>, o: Output)
    requires o in outs && o.Irreversible?
    ensures o.streamable in FinalEvents(outs)
  {
    var n := |outs| - 1;
    if outs[n] != o {
      assert o in outs[..n];
      FinalListed(outs[..n], o);
    }
  }

  lemma FinalsStay(c: Consumer, c': Consumer, finals: seq<StreamableBlock>)
    requires c.locked <= |c.chain| && c.locked <= c'.locked <= |c'.chain| && c.chain[..c.locked] == c'.chain[..c.locked]
    requires forall i :: 0 <= i < |finals| ==> finals[i].block in c.chain[..c.locked]
    ensures forall i :: 0 <= i < |finals| ==> finals[i].block in c'.chain[..c'.locked]
  {
  }

  // Well-formed runs

  function BlocksOf(finals: seq<StreamableBlock>): seq<BufferedBlock> {
    seq(|finals|, i requires 0 <= i < |finals| => finals[i].block)
  }

  lemma {:induction false} FinalEventsAreFinals(outs: seq<Output>)
    ensures BlocksOf(FinalEvents(outs)) == Finals(outs)
  {
    if outs != [] {
      FinalEventsAreFinals(outs[..|outs| - 1]);
    }
  }

  lemma FinalsPrefix(outs: seq<Output>, n: nat)
    requires n <= |outs|
    ensures Finals(outs[..n]) <= Finals(outs)
  {
    assert outs[..n] + outs[n..] == outs;
    FinalsAppend(outs[..n], outs[n..]);
  }

  lemma FinalsBeginChain(cfg: Config, inputs: seq<Input>, n: nat)
    requires cfg.Valid() && WellFormedInputs(inputs) && n <= |Emissions(cfg, inputs)|
    requires NothingLost(cfg, inputs)
    ensures Finals(Emissions(cfg, inputs)[..n]) <= Consumed(cfg, inputs).chain
  {
    var (p, chain) := (Reached(Consumed(cfg, inputs).chain, After(cfg, inputs).solidifiedHead),
      Consumed(cfg, inputs).chain);
    IrreversibleStreamCompleteIff(cfg, inputs);
    FinalsPrefix(Emissions(cfg, inputs), n);
    assert chain[..p] <= chain;
  }

  lemma BlocksBeginChain(outs: seq<Output>, chain: seq<BufferedBlock>)
    requires Finals(outs) <= chain
    ensures var n := |FinalEvents(outs)|; n <= |chain| && BlocksOf(FinalEvents(outs)) == chain[..n]
  {
    FinalEventsAreFinals(outs);
    assert |BlocksOf(FinalEvents(outs))| == |FinalEvents(outs)|;
  }

  /** When no block at or below the head was pruned too early, the archived blocks are one stretch of the chain itself,
      starting at its first block less what retention removed: consecutive heights, parent-linked. */
  lemma ArchiveIsInterval(cfg: Config, inputs: seq<Input>, encode: Encoder, events: seq<ArchiveEvent>)
    requires cfg.Valid() && WellFormedInputs(inputs) && OutputsOf(events) <= Emissions(cfg, inputs)
    requires NothingLost(cfg, inputs)
    ensures var finals := FinalEvents(OutputsOf(events));
      var chain := Consumed(cfg, inputs).chain;
      var d := Expired(events);
      && d <= |finals| <= |chain|
      && BlocksOf(finals) == chain[..|finals|]
      && ArchiveAll(encode, map[], events) == RowsOf(encode, finals[d..])
      && Contiguous(chain) && Linked(chain)
  {
    var outs := OutputsOf(events);
    assert Emissions(cfg, inputs)[..|outs|] == outs;
    ArchiveIsFinal(cfg, inputs, encode, events);
    FinalsBeginChain(cfg, inputs, |outs|);
    BlocksBeginChain(outs, Consumed(cfg, inputs).chain);
    RunMarked(cfg, inputs);
    LinkedIsContiguous(Consumed(cfg, inputs).chain);
  }
}
