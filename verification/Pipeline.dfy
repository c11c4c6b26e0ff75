/** Relayer, cache, hub, archiver and one stream request as a state machine of atomic steps, in any
    interleaving. */
module Pipeline {
  import opened Types
  import opened EngineSpec
  import opened Cache
  import opened CacheChain
  import opened Archive
  import opened Archiver
  import opened Backfill
  import opened Hub

  datatype Setup = Setup(cfg: Config, capacity: nat, encode: Encoder, decode: Decoder, start: Height)

  /** Which archive a request's walk reads: none, some table, or the one this relayer's archiver keeps. */
  datatype ArchiveSource = Detached | Foreign(table: Table) | Own

  /** A receiver of the hub, and how much had been broadcast when it was attached. */
  datatype Seat = Seat(id: nat, joinedAt: nat)

  /** What the archive walk read, and when: `stored` counts the archiver's steps. */
  datatype Reading = Reading(source: ArchiveSource, stored: nat, archive: Option<Table>)

  /** Where the stream request stands. `snapAt` and `walkAt` count the events the cache had been given when it
      was snapshotted and walked. A request without a start is tailing: it has no backfill at all. */
  datatype Phase =
    | Idle
    | Subscribed(seat: Seat)
    | Tailing(seat: Seat)
    | Snapshotted(seat: Seat, window: Window, snapAt: nat)
    | ArchiveRead(seat: Seat, window: Window, snapAt: nat, reading: Reading, archived: seq<Response>)
    | Serving(seat: Seat, window: Window, snapAt: nat, reading: Reading, archived: seq<Response>,
        walkAt: nat, head: Option<Height>, cached: seq<Response>)
    | Refused(status: Status)

  /** `pending` are the events of the current engine call not yet cached, `unsent` the one cached but not
      yet sent, `channel` the relayer's queue into the hub. Receiver 0 of the hub is the archiver; `events`
      are its steps so far and `table` what it stored. `history` is every input of the engine. */
  datatype Sys = Sys(
    engine: State, pending: seq<Output>, unsent: Option<Output>, channel: seq<Output>, cache: Cached,
    hub: HubState, events: seq<ArchiveEvent>, table: Table, phase: Phase, history: seq<Input>)

  datatype Action =
    | Call(input: Input)
    | WriteCache
    | Send
    | Pump
    | Store
    | Retain(floor: Height)
    | OtherSubscribes
    | Subscribe
    | Tail
    | Snapshot
    | ReadArchive(source: ArchiveSource)
    | WalkCache(head: Option<Height>)

  const INITIAL := Sys(FRESH, [], None, [], map[], HubState([], [0], [[]]), [], map[], Idle, [])

  function One(o: Option<Output>): seq<Output> {
    if o.Some? then [o.value] else []
  }

  /** Every event the cache has been given, in order. */
  function Written(s: Sys): seq<Output> {
    s.hub.history + s.channel + One(s.unsent)
  }

  /** What a receiver was given. */
  function Heard(hub: HubState, seat: Seat): seq<Output> {
    if seat.id < |hub.receivers| then hub.receivers[seat.id] else []
  }

  /** The lowest and highest cached heights. */
  ghost function WindowOf(m: Cached): Window {
    if m.Keys == {} then None
    else
      LeastExists(m.Keys);
      GreatestExists(m.Keys);
      var mn :| IsLeast(m.Keys, mn);
      var mx :| IsGreatest(m.Keys, mx);
      Some((mn, mx))
  }

  function Opened(source: ArchiveSource, own: Table): Option<Table> {
    match source
    case Detached => None
    case Foreign(table) => Some(table)
    case Own => Some(own)
  }

  /** After the archive walk of a request. */
  ghost function AfterRead(p: Setup, seat: Seat, window: Window, snapAt: nat, reading: Reading): Phase {
    match ArchiveStage(p.decode, reading.archive, window, p.start)
    case Err(e) => Refused(e)
    case Ok(archived) => ArchiveRead(seat, window, snapAt, reading, archived)
  }

  /** After its cache walk, possibly much later. */
  function AfterWalk(p: Setup, phase: Phase, m: Cached, walkAt: nat, head: Option<Height>): Phase
    requires phase.ArchiveRead?
  {
    match CacheStage(p.encode, phase.window, m, phase.archived, p.start, head)
    case Err(e) => Refused(e)
    case Ok(cached) =>
      Serving(phase.seat, phase.window, phase.snapAt, phase.reading, phase.archived, walkAt, head, cached)
  }

  /** The next event for the archiver, if one is waiting. */
  function Waiting(s: Sys): Option<Output> {
    var taken := |OutputsOf(s.events)|;
    if |s.hub.receivers| > 0 && taken < |s.hub.receivers[0]| then Some(s.hub.receivers[0][taken]) else None
  }

  function Log(p: Setup, s: Sys, e: ArchiveEvent): Sys {
    s.(events := s.events + [e], table := Archived(p.encode, s.table, e))
  }

  /** One atomic step; a step that is not enabled changes nothing. */
  ghost function Do(p: Setup, s: Sys, a: Action): Sys {
    match a
    case Call(input) =>
      if s.pending != [] || s.unsent.Some? then s
      else
        var (engine', r) := Take(p.cfg, s.engine, input);
        s.(engine := engine', pending := Emitted(r), history := s.history + [input])
    case WriteCache =>
      if s.pending == [] || s.unsent.Some? then s
      else
        s.(cache := Write(p.capacity, s.cache, s.pending[0]), pending := s.pending[1..], unsent := Some(s.pending[0]))
    case Send =>
      if s.unsent.None? then s else s.(channel := s.channel + [s.unsent.value], unsent := None)
    case Pump =>
      if s.channel == [] then s else s.(channel := s.channel[1..], hub := Carry(s.hub, s.channel[0]))
    case Store =>
      if Waiting(s).None? then s else Log(p, s, Received(Waiting(s).value))
    case Retain(floor) => Log(p, s, Retained(floor))
    case OtherSubscribes => s.(hub := Attach(s.hub))
    case Subscribe =>
      if s.phase.Idle?
      then s.(hub := Attach(s.hub), phase := Subscribed(Seat(|s.hub.joined|, |s.hub.history|))) else s
    case Snapshot =>
      if s.phase.Subscribed? then s.(phase := Snapshotted(s.phase.seat, WindowOf(s.cache), |Written(s)|)) else s
    case Tail =>
      if s.phase.Subscribed? then s.(phase := Tailing(s.phase.seat)) else s
    case ReadArchive(source) =>
      if s.phase.Snapshotted?
      then s.(phase := AfterRead(p, s.phase.seat, s.phase.window, s.phase.snapAt, ReadingOf(s, source)))
      else s
    case WalkCache(head) =>
      if s.phase.ArchiveRead? then s.(phase := AfterWalk(p, s.phase, s.cache, |Written(s)|, head)) else s
  }

  function ReadingOf(s: Sys, source: ArchiveSource): Reading {
    Reading(source, |s.events|, Opened(source, s.table))
  }

  /** Any interleaving at all. */
  ghost function Exec(p: Setup, actions: seq<Action>): Sys {
    if actions == [] then INITIAL else Do(p, Exec(p, actions[..|actions| - 1]), actions[|actions| - 1])
  }

  // What always holds

  /** Engine, cache and queues agree with one run of the engine. */
  ghost predicate StreamSound(p: Setup, s: Sys) {
    && s.engine == After(p.cfg, s.history)
    && Written(s) + s.pending == Emissions(p.cfg, s.history)
    && s.cache == WriteAll(p.capacity, map[], Written(s))
  }

  ghost predicate HubSound(hub: HubState) {
    hub.Valid() && hub.joined != [] && hub.joined[0] == 0
  }

  /** The archiver has taken a prefix of what was broadcast. */
  ghost predicate ArchiverSound(p: Setup, table: Table, events: seq<ArchiveEvent>, broadcast: seq<Output>) {
    table == ArchiveAll(p.encode, map[], events) && OutputsOf(events) <= broadcast
  }

  ghost predicate Seated(seat: Seat, joined: seq<nat>) {
    seat.id < |joined| && joined[seat.id] == seat.joinedAt
  }

  ghost predicate SnapSound(p: Setup, seat: Seat, window: Window, snapAt: nat, w: seq<Output>, joined: seq<nat>) {
    && Seated(seat, joined)
    && seat.joinedAt <= snapAt <= |w|
    && window == WindowOf(WriteAll(p.capacity, map[], w[..snapAt]))
  }

  ghost predicate ReadingSound(p: Setup, reading: Reading, events: seq<ArchiveEvent>) {
    && reading.stored <= |events|
    && reading.archive == Opened(reading.source, ArchiveAll(p.encode, map[], events[..reading.stored]))
  }

  ghost predicate ArchivedSound(p: Setup, window: Window, reading: Reading, archived: seq<Response>,
      events: seq<ArchiveEvent>)
  {
    ReadingSound(p, reading, events) && ArchiveStage(p.decode, reading.archive, window, p.start) == Ok(archived)
  }

  ghost predicate CachedSound(p: Setup, window: Window, snapAt: nat, archived: seq<Response>, walkAt: nat,
      head: Option<Height>, cached: seq<Response>, w: seq<Output>)
  {
    && snapAt <= walkAt <= |w|
    && CacheStage(p.encode, window, WriteAll(p.capacity, map[], w[..walkAt]), archived, p.start, head) == Ok(cached)
  }

  /** What is known of the request, given the events written, the hub's receivers and the archiver's steps. */
  ghost predicate PhaseSound(p: Setup, phase: Phase, w: seq<Output>, joined: seq<nat>, events: seq<ArchiveEvent>) {
    match phase
    case Idle => true
    case Subscribed(seat) => Seated(seat, joined) && seat.joinedAt <= |w|
    case Tailing(seat) => Seated(seat, joined) && seat.joinedAt <= |w|
    case Snapshotted(seat, window, snapAt) => SnapSound(p, seat, window, snapAt, w, joined)
    case ArchiveRead(seat, window, snapAt, reading, archived) =>
      SnapSound(p, seat, window, snapAt, w, joined) && ArchivedSound(p, window, reading, archived, events)
    case Serving(seat, window, snapAt, reading, archived, walkAt, head, cached) =>
      && SnapSound(p, seat, window, snapAt, w, joined)
      && ArchivedSound(p, window, reading, archived, events)
      && CachedSound(p, window, snapAt, archived, walkAt, head, cached, w)
    case Refused(_) => true
  }

  ghost predicate Inv(p: Setup, s: Sys) {
    && StreamSound(p, s)
    && HubSound(s.hub)
    && ArchiverSound(p, s.table, s.events, s.hub.history)
    && PhaseSound(p, s.phase, Written(s), s.hub.joined, s.events)
  }

  // The parts, one at a time

  /** What is known of the request stays known however the rest goes on. */
  lemma PhaseExtends(p: Setup, phase: Phase, w: seq<Output>, w': seq<Output>, joined: seq<nat>, joined': seq<nat>,
      events: seq<ArchiveEvent>, events': seq<ArchiveEvent>)
    requires PhaseSound(p, phase, w, joined, events)
    requires w <= w' && joined <= joined' && events <= events'
    ensures PhaseSound(p, phase, w', joined', events')
  {
    assert forall n: nat :: n <= |w| ==> w'[..n] == w[..n];
    assert forall n: nat :: n <= |events| ==> events'[..n] == events[..n];
  }

  lemma CallStream(p: Setup, s: Sys, input: Input)
    requires StreamSound(p, s) && s.pending == [] && s.unsent.None?
    ensures var s' := Do(p, s, Call(input)); StreamSound(p, s') && Written(s') == Written(s)
  {
    var s' := Do(p, s, Call(input));
    assert s'.history[..|s'.history| - 1] == s.history;
    assert Written(s) + [] == Written(s);
  }

  lemma WriteOne(capacity: nat, outs: seq<Output>, o: Output)
    ensures WriteAll(capacity, map[], outs + [o]) == Write(capacity, WriteAll(capacity, map[], outs), o)
  {
    WriteAppend(capacity, map[], outs, [o]);
    assert [o][1..] == [];
  }

  lemma CutFirst(w: seq<Output>, pending: seq<Output>)
    requires pending != []
    ensures (w + [pending[0]]) + pending[1..] == w + pending
  {
    assert pending == [pending[0]] + pending[1..];
  }

  lemma WriteStream(p: Setup, s: Sys)
    requires StreamSound(p, s) && s.pending != [] && s.unsent.None?
    ensures var s' := Do(p, s, WriteCache); StreamSound(p, s') && Written(s) <= Written(s')
  {
    assert Written(s) == s.hub.history + s.channel;
    CutFirst(Written(s), s.pending);
    WriteOne(p.capacity, Written(s), s.pending[0]);
  }

  lemma QueueLast(broadcast: seq<Output>, channel: seq<Output>, o: Output)
    ensures broadcast + (channel + [o]) + [] == broadcast + channel + [o]
  {
  }

  lemma SendStream(p: Setup, s: Sys)
    requires StreamSound(p, s) && s.unsent.Some?
    ensures var s' := Do(p, s, Send); StreamSound(p, s') && Written(s') == Written(s)
  {
    QueueLast(s.hub.history, s.channel, s.unsent.value);
  }

  lemma PumpStream(p: Setup, s: Sys)
    requires StreamSound(p, s) && s.channel != []
    ensures var s' := Do(p, s, Pump); StreamSound(p, s') && Written(s') == Written(s)
  {
    CutFirst(s.hub.history, s.channel);
  }

  /** A step that leaves relayer, cache, channel and broadcast alone leaves the stream alone. */
  lemma SameStream(p: Setup, s: Sys, s': Sys)
    requires StreamSound(p, s)
    requires s'.engine == s.engine && s'.pending == s.pending && s'.unsent == s.unsent && s'.channel == s.channel
    requires s'.cache == s.cache && s'.history == s.history && s'.hub.history == s.hub.history
    ensures StreamSound(p, s') && Written(s') == Written(s)
  {
  }

  lemma LogKeeps(p: Setup, table: Table, events: seq<ArchiveEvent>, broadcast: seq<Output>, e: ArchiveEvent)
    requires ArchiverSound(p, table, events, broadcast)
    requires e.Received? ==> |OutputsOf(events)| < |broadcast| && e.output == broadcast[|OutputsOf(events)|]
    ensures ArchiverSound(p, Archived(p.encode, table, e), events + [e], broadcast)
  {
    assert (events + [e])[..|events|] == events;
  }

  // Every step keeps the invariant

  lemma CallKeeps(p: Setup, s: Sys, input: Input)
    requires Inv(p, s)
    ensures Inv(p, Do(p, s, Call(input)))
  {
    if s.pending == [] && s.unsent.None? {
      CallStream(p, s, input);
    }
  }

  lemma WriteKeeps(p: Setup, s: Sys)
    requires Inv(p, s)
    ensures Inv(p, Do(p, s, WriteCache))
  {
    if s.pending != [] && s.unsent.None? {
      WriteStream(p, s);
      PhaseExtends(p, s.phase, Written(s), Written(Do(p, s, WriteCache)), s.hub.joined, s.hub.joined, s.events,
        s.events);
    }
  }

  lemma SendKeeps(p: Setup, s: Sys)
    requires Inv(p, s)
    ensures Inv(p, Do(p, s, Send))
  {
    if s.unsent.Some? {
      SendStream(p, s);
    }
  }

  lemma PumpKeeps(p: Setup, s: Sys)
    requires Inv(p, s)
    ensures Inv(p, Do(p, s, Pump))
  {
    if s.channel != [] {
      PumpStream(p, s);
      CarryKeeps(s.hub, s.channel[0]);
    }
  }

  lemma StoreKeeps(p: Setup, s: Sys)
    requires Inv(p, s)
    ensures Inv(p, Do(p, s, Store))
  {
    if Waiting(s).Some? {
      assert s.hub.HasTail(0);
      RetainedOrStored(p, s, Received(Waiting(s).value));
    }
  }

  lemma RetainedOrStored(p: Setup, s: Sys, e: ArchiveEvent)
    requires Inv(p, s)
    requires e.Received? ==> |OutputsOf(s.events)| < |s.hub.history| && e.output == s.hub.history[|OutputsOf(s.events)|]
    ensures Inv(p, Log(p, s, e))
  {
    LogKeeps(p, s.table, s.events, s.hub.history, e);
    SameStream(p, s, Log(p, s, e));
    PhaseExtends(p, s.phase, Written(s), Written(s), s.hub.joined, s.hub.joined, s.events, s.events + [e]);
  }

  lemma AttachedKeeps(p: Setup, s: Sys)
    requires Inv(p, s)
    ensures Inv(p, s.(hub := Attach(s.hub)))
  {
    AttachKeeps(s.hub);
    SameStream(p, s, s.(hub := Attach(s.hub)));
    PhaseExtends(p, s.phase, Written(s), Written(s), s.hub.joined, Attach(s.hub).joined, s.events, s.events);
  }

  lemma PhaseMoves(p: Setup, s: Sys, s': Sys, phase: Phase)
    requires Inv(p, s) && PhaseSound(p, phase, Written(s), s.hub.joined, s.events) && s' == s.(phase := phase)
    ensures Inv(p, s')
  {
    SameStream(p, s, s');
  }

  lemma SubscribeKeeps(p: Setup, s: Sys)
    requires Inv(p, s)
    ensures Inv(p, Do(p, s, Subscribe))
  {
    if s.phase.Idle? {
      AttachedKeeps(p, s);
      PhaseMoves(p, s.(hub := Attach(s.hub)), Do(p, s, Subscribe), Subscribed(Seat(|s.hub.joined|, |s.hub.history|)));
    }
  }

  lemma WholePrefix<T>(w: seq<T>)
    ensures w[..|w|] == w
  {
  }

  lemma SnapshotIsSound(p: Setup, seat: Seat, w: seq<Output>, cache: Cached, joined: seq<nat>)
    requires Seated(seat, joined) && seat.joinedAt <= |w| && cache == WriteAll(p.capacity, map[], w)
    ensures SnapSound(p, seat, WindowOf(cache), |w|, w, joined)
  {
    WholePrefix(w);
  }

  lemma SnapshotKeeps(p: Setup, s: Sys)
    requires Inv(p, s)
    ensures Inv(p, Do(p, s, Snapshot))
  {
    if s.phase.Subscribed? {
      SnapshotIsSound(p, s.phase.seat, Written(s), s.cache, s.hub.joined);
      PhaseMoves(p, s, Do(p, s, Snapshot), Snapshotted(s.phase.seat, WindowOf(s.cache), |Written(s)|));
    }
  }

  lemma ReadIsSound(p: Setup, phase: Phase, w: seq<Output>, joined: seq<nat>, table: Table, events: seq<ArchiveEvent>,
      source: ArchiveSource)
    requires phase.Snapshotted? && PhaseSound(p, phase, w, joined, events)
    requires table == ArchiveAll(p.encode, map[], events)
    ensures var reading := Reading(source, |events|, Opened(source, table));
      PhaseSound(p, AfterRead(p, phase.seat, phase.window, phase.snapAt, reading), w, joined, events)
  {
    WholePrefix(events);
  }

  lemma ReadKeeps(p: Setup, s: Sys, source: ArchiveSource)
    requires Inv(p, s)
    ensures Inv(p, Do(p, s, ReadArchive(source)))
  {
    if s.phase.Snapshotted? {
      var phase := AfterRead(p, s.phase.seat, s.phase.window, s.phase.snapAt, ReadingOf(s, source));
      ReadIsSound(p, s.phase, Written(s), s.hub.joined, s.table, s.events, source);
      PhaseMoves(p, s, Do(p, s, ReadArchive(source)), phase);
    } else {
      assert Do(p, s, ReadArchive(source)) == s;
    }
  }

  lemma WalkIsSound(p: Setup, phase: Phase, w: seq<Output>, joined: seq<nat>, cache: Cached, events: seq<ArchiveEvent>,
      head: Option<Height>)
    requires phase.ArchiveRead? && PhaseSound(p, phase, w, joined, events)
    requires cache == WriteAll(p.capacity, map[], w)
    ensures PhaseSound(p, AfterWalk(p, phase, cache, |w|, head), w, joined, events)
  {
    WholePrefix(w);
  }

  lemma WalkKeeps(p: Setup, s: Sys, head: Option<Height>)
    requires Inv(p, s)
    ensures Inv(p, Do(p, s, WalkCache(head)))
  {
    if s.phase.ArchiveRead? {
      var phase := AfterWalk(p, s.phase, s.cache, |Written(s)|, head);
      WalkIsSound(p, s.phase, Written(s), s.hub.joined, s.cache, s.events, head);
      PhaseMoves(p, s, Do(p, s, WalkCache(head)), phase);
    } else {
      assert Do(p, s, WalkCache(head)) == s;
    }
  }

  lemma TailKeeps(p: Setup, s: Sys)
    requires Inv(p, s)
    ensures Inv(p, Do(p, s, Tail))
  {
    if s.phase.Subscribed? {
      PhaseMoves(p, s, Do(p, s, Tail), Tailing(s.phase.seat));
    }
  }

  lemma DoKeeps(p: Setup, s: Sys, a: Action)
    requires Inv(p, s)
    ensures Inv(p, Do(p, s, a))
  {
    match a
    case Call(input) => CallKeeps(p, s, input);
    case WriteCache => WriteKeeps(p, s);
    case Send => SendKeeps(p, s);
    case Pump => PumpKeeps(p, s);
    case Store => StoreKeeps(p, s);
    case Retain(floor) => RetainedOrStored(p, s, Retained(floor));
    case OtherSubscribes => AttachedKeeps(p, s);
    case Subscribe => SubscribeKeeps(p, s);
    case Snapshot => SnapshotKeeps(p, s);
    case Tail => TailKeeps(p, s);
    case ReadArchive(source) => ReadKeeps(p, s, source);
    case WalkCache(head) => WalkKeeps(p, s, head);
  }

  lemma InitialHolds(p: Setup)
    ensures Inv(p, INITIAL)
  {
    assert INITIAL.hub.HasTail(0);
  }

  /** The invariant holds after every interleaving. */
  lemma {:induction false} ExecKeeps(p: Setup, actions: seq<Action>)
    ensures Inv(p, Exec(p, actions))
  {
    if actions == [] {
      InitialHolds(p);
    } else {
      ExecKeeps(p, actions[..|actions| - 1]);
      DoKeeps(p, Exec(p, actions[..|actions| - 1]), actions[|actions| - 1]);
    }
  }
}
