/** Decoding a log against an event signature, the encoding it inverts, and the registry. */
module AbiLog {
  import opened Types
  import opened AbiSignature

  datatype Log = Log(topics: seq<Bytes32>, data: seq<byte>)

  type Address = s: seq<byte> | |s| == 21 witness seq(21, _ => 0)

  datatype AbiValue = AddressValue(address: Address) | BoolValue(flag: bool) | WordValue(word: Bytes32)

  datatype DecodedEvent = DecodedEvent(name: string, params: seq<(AbiParam, AbiValue)>)

  datatype DecodeError =
    | IndexedCountMismatch(expected: nat, got: nat)
    | DataLengthMismatch(expected: nat, got: nat, words: nat)

  // Words and values

  function WordToAddress(w: Bytes32): Address {
    [0x41] + w[12..]
  }

  function WordToBool(w: Bytes32): bool {
    w[31] != 0
  }

  function ValueOf(ty: AbiType, w: Bytes32): AbiValue {
    match ty
    case AddressType => AddressValue(WordToAddress(w))
    case BoolType => BoolValue(WordToBool(w))
    case UintType(_) => WordValue(w)
    case IntType(_) => WordValue(w)
    case BytesType(_) => WordValue(w)
  }

  function Zeros(n: nat): (s: seq<byte>)
    ensures |s| == n
  {
    seq(n, _ => 0)
  }

  /** The word a value is encoded as. */
  function WordOf(value: AbiValue): Bytes32 {
    match value
    case AddressValue(a) => Zeros(12) + a[1..]
    case BoolValue(flag) => Zeros(31) + [if flag then 1 else 0]
    case WordValue(w) => w
  }

  /** Values of the type, as a decoder may return them. */
  predicate HasType(value: AbiValue, ty: AbiType) {
    match ty
    case AddressType => value.AddressValue? && value.address[0] == 0x41
    case BoolType => value.BoolValue?
    case UintType(_) => value.WordValue?
    case IntType(_) => value.WordValue?
    case BytesType(_) => value.WordValue?
  }

  /** Words an encoder may produce for the type. */
  predicate CanonicalWord(ty: AbiType, w: Bytes32) {
    match ty
    case AddressType => forall i :: 0 <= i < 12 ==> w[i] == 0
    case BoolType => (forall i :: 0 <= i < 31 ==> w[i] == 0) && w[31] <= 1
    case UintType(_) => true
    case IntType(_) => true
    case BytesType(_) => true
  }

  lemma ValueOfWord(ty: AbiType, value: AbiValue)
    requires HasType(value, ty)
    ensures ValueOf(ty, WordOf(value)) == value
  {
  }

  lemma WordOfValue(ty: AbiType, w: Bytes32)
    ensures HasType(ValueOf(ty, w), ty)
    ensures WordOf(ValueOf(ty, w)) == w <==> CanonicalWord(ty, w)
  {
  }

  // Layout of a log

  /** How many of the parameters go to the topics. */
  function IndexedCount(params: seq<AbiParam>): (n: nat)
    ensures n <= |params|
  {
    if params == [] then 0
    else IndexedCount(params[..|params| - 1]) + (if params[|params| - 1].indexed then 1 else 0)
  }

  function PlainCount(params: seq<AbiParam>): nat {
    |params| - IndexedCount(params)
  }

  /** The encoding: indexed words become topics, the others are laid out in the data, in order. */
  function TopicWords(params: seq<AbiParam>, words: seq<Bytes32>): seq<Bytes32>
    requires |params| == |words|
  {
    if params == [] then []
    else
      var n := |params| - 1;
      TopicWords(params[..n], words[..n]) + (if params[n].indexed then [words[n]] else [])
  }

  function DataBytes(params: seq<AbiParam>, words: seq<Bytes32>): seq<byte>
    requires |params| == |words|
  {
    if params == [] then []
    else
      var n := |params| - 1;
      DataBytes(params[..n], words[..n]) + (if params[n].indexed then [] else words[n])
  }

  function EncodeWords(topic0: Bytes32, params: seq<AbiParam>, words: seq<Bytes32>): Log
    requires |params| == |words|
  {
    Log([topic0] + TopicWords(params, words), DataBytes(params, words))
  }

  function WordsOf(values: seq<AbiValue>): (r: seq<Bytes32>)
    ensures |r| == |values|
  {
    seq(|values|, i requires 0 <= i < |values| => WordOf(values[i]))
  }

  /** The Solidity event encoding for static types. */
  function Encode(sig: EventSignature, values: seq<AbiValue>): Log
    requires |values| == |sig.params|
  {
    EncodeWords(sig.topic0, sig.params, WordsOf(values))
  }

  // Decoding

  /** The topics after the first. */
  function ArgumentTopics(log: Log): nat {
    if log.topics == [] then 0 else |log.topics| - 1
  }

  /** Topics and data have the sizes the parameters call for. */
  predicate Fits(params: seq<AbiParam>, log: Log) {
    ArgumentTopics(log) == IndexedCount(params) && |log.data| == 32 * PlainCount(params)
  }

  /** How many of the first `n` parameters go to the topics, and how many to the data. */
  function IndexedIn(params: seq<AbiParam>, n: nat): nat
    requires n <= |params|
  {
    IndexedCount(params[..n])
  }

  function PlainIn(params: seq<AbiParam>, n: nat): nat
    requires n <= |params|
  {
    PlainCount(params[..n])
  }

  lemma {:induction false} CountsUpTo(params: seq<AbiParam>, i: nat)
    requires i < |params|
    ensures IndexedIn(params, i + 1) == IndexedIn(params, i) + (if params[i].indexed then 1 else 0)
    ensures PlainIn(params, i + 1) == PlainIn(params, i) + (if params[i].indexed then 0 else 1)
    ensures IndexedIn(params, i + 1) <= IndexedCount(params) && PlainIn(params, i + 1) <= PlainCount(params)
  {
    var n := |params| - 1;
    assert params[..i + 1][..i] == params[..i];
    if i < n {
      CountsUpTo(params[..n], i);
      assert params[..n][..i + 1] == params[..i + 1];
    } else {
      assert params[..i + 1] == params;
    }
  }

  /** The word of parameter `i`: the topic after those of the earlier indexed parameters, or the 32 bytes
      after those of the earlier plain ones. */
  function WordAt(params: seq<AbiParam>, log: Log, i: nat): Bytes32
    requires Fits(params, log) && i < |params|
  {
    CountsUpTo(params, i);
    if params[i].indexed then log.topics[1 + IndexedIn(params, i)]
    else log.data[32 * PlainIn(params, i)..32 * PlainIn(params, i) + 32]
  }

  function AllWords(params: seq<AbiParam>, log: Log): (r: seq<Bytes32>)
    requires Fits(params, log)
    ensures |r| == |params|
  {
    seq(|params|, i requires 0 <= i < |params| => WordAt(params, log, i))
  }

  function Valued(params: seq<AbiParam>, words: seq<Bytes32>): (r: seq<(AbiParam, AbiValue)>)
    requires |params| == |words|
    ensures |r| == |params|
  {
    seq(|params|, i requires 0 <= i < |params| => (params[i], ValueOf(params[i].ty, words[i])))
  }

  function Decode(sig: EventSignature, log: Log): Result<DecodedEvent, DecodeError> {
    var (indexed, plain) := (IndexedCount(sig.params), PlainCount(sig.params));
    if ArgumentTopics(log) != indexed then Err(IndexedCountMismatch(indexed, ArgumentTopics(log)))
    else if |log.data| != 32 * plain then Err(DataLengthMismatch(32 * plain, |log.data|, plain))
    else Ok(DecodedEvent(sig.name, Valued(sig.params, AllWords(sig.params, log))))
  }

  method CountIndexed(params: seq<AbiParam>) returns (n: nat)
    ensures n == IndexedCount(params)
  {
    n := 0;
    for i := 0 to |params|
      invariant n == IndexedCount(params[..i])
    {
      assert params[..i + 1][..i] == params[..i];
      if params[i].indexed {
        n := n + 1;
      }
    }
    assert params[..|params|] == params;
  }

  // What decoding answers, counted on the parameters themselves

  /** The positions before `n` whose parameter is indexed, or is not. */
  ghost function Marked(params: seq<AbiParam>, n: nat, indexed: bool): set<nat> {
    set i: nat | i < n && i < |params| && params[i].indexed == indexed
  }

  lemma {:induction false} MarkedCounts(params: seq<AbiParam>, n: nat)
    requires n <= |params|
    ensures |Marked(params, n, true)| == IndexedIn(params, n) && |Marked(params, n, false)| == PlainIn(params, n)
  {
    if n == 0 {
      assert Marked(params, 0, true) == {} && Marked(params, 0, false) == {};
      NoneTaken(params);
    } else {
      var i := n - 1;
      MarkedCounts(params, i);
      CountsUpTo(params, i);
      MarkedStep(params, i);
    }
  }

  lemma MarkedStep(params: seq<AbiParam>, i: nat)
    requires i < |params|
    ensures |Marked(params, i + 1, true)| == |Marked(params, i, true)| + (if params[i].indexed then 1 else 0)
    ensures |Marked(params, i + 1, false)| == |Marked(params, i, false)| + (if params[i].indexed then 0 else 1)
  {
    var indexed := params[i].indexed;
    assert Marked(params, i + 1, indexed) == Marked(params, i, indexed) + {i};
    assert Marked(params, i + 1, !indexed) == Marked(params, i, !indexed);
  }

  /** What a word says as a value of the type: the low 20 bytes behind the network prefix, whether the last byte is
      not zero, or the word itself. */
  ghost predicate Says(ty: AbiType, w: Bytes32, value: AbiValue) {
    match ty
    case AddressType => value.AddressValue? && value.address[0] == 0x41 && value.address[1..] == w[12..]
    case BoolType => value == BoolValue(w[31] != 0)
    case UintType(_) => value == WordValue(w)
    case IntType(_) => value == WordValue(w)
    case BytesType(_) => value == WordValue(w)
  }

  /** The parameter with what its own word says: the next topic, or the next 32 bytes of data. */
  ghost predicate IsEntry(params: seq<AbiParam>, log: Log, i: nat, entry: (AbiParam, AbiValue))
    requires i < |params|
  {
    && entry.0 == params[i]
    && if params[i].indexed
       then
         var k := 1 + |Marked(params, i, true)|;
         k < |log.topics| && Says(params[i].ty, log.topics[k], entry.1)
       else
         var k := 32 * |Marked(params, i, false)|;
         k + 32 <= |log.data| && Says(params[i].ty, log.data[k..k + 32], entry.1)
  }

  /** What decoding a log against a signature answers. The number of topics after the first is checked first, then
      the length of the data; each error says what was expected and what was found. */
  ghost predicate Answers(sig: EventSignature, log: Log, r: Result<DecodedEvent, DecodeError>) {
    var (indexed, plain) := (|Marked(sig.params, |sig.params|, true)|, |Marked(sig.params, |sig.params|, false)|);
    var found := if log.topics == [] then 0 else |log.topics| - 1;
    if found != indexed then r == Err(IndexedCountMismatch(indexed, found))
    else if |log.data| != 32 * plain then r == Err(DataLengthMismatch(32 * plain, |log.data|, plain))
    else
      && r.Ok? && r.value.name == sig.name && |r.value.params| == |sig.params|
      && forall i :: 0 <= i < |sig.params| ==> IsEntry(sig.params, log, i, r.value.params[i])
  }

  lemma EntryIsEntry(params: seq<AbiParam>, log: Log, i: nat)
    requires Fits(params, log) && i < |params|
    ensures IsEntry(params, log, i, Entry(params, log, i))
  {
    MarkedCounts(params, i);
    CountsUpTo(params, i);
  }

  lemma DecodeAnswers(sig: EventSignature, log: Log)
    ensures Answers(sig, log, Decode(sig, log))
  {
    var params := sig.params;
    MarkedCounts(params, |params|);
    assert params[..|params|] == params;
    if Fits(params, log) {
      forall i | 0 <= i < |params| ensures IsEntry(params, log, i, Decode(sig, log).value.params[i]) {
        EntryIsEntry(params, log, i);
      }
    }
  }

  method DecodeWithSignature(sig: EventSignature, log: Log) returns (r: Result<DecodedEvent, DecodeError>)
    ensures r == Decode(sig, log) && Answers(sig, log, r)
  {
    DecodeAnswers(sig, log);
    var params := sig.params;
    var expectedIndexed := CountIndexed(params);
    var got := if |log.topics| == 0 then 0 else |log.topics| - 1;
    if got != expectedIndexed {
      return Err(IndexedCountMismatch(expectedIndexed, got));
    }
    var plain := |params| - expectedIndexed;
    if |log.data| != 32 * plain {
      return Err(DataLengthMismatch(32 * plain, |log.data|, plain));
    }
    var out := TakeWords(params, log);
    r := Ok(DecodedEvent(sig.name, out));
  }

  function Entry(params: seq<AbiParam>, log: Log, i: nat): (AbiParam, AbiValue)
    requires Fits(params, log) && i < |params|
  {
    (params[i], ValueOf(params[i].ty, WordAt(params, log, i)))
  }

  lemma NoneTaken(params: seq<AbiParam>)
    ensures IndexedIn(params, 0) == 0 && PlainIn(params, 0) == 0
  {
  }

  /** Where the cursors stand before parameter `i`, what they read there, and where they go. */
  lemma CursorsStep(params: seq<AbiParam>, log: Log, i: nat, topic: nat, data: nat)
    requires Fits(params, log) && i < |params| && topic == 1 + IndexedIn(params, i) && data == 32 * PlainIn(params, i)
    ensures params[i].indexed ==> topic < |log.topics| && log.topics[topic] == WordAt(params, log, i)
    ensures !params[i].indexed ==> data + 32 <= |log.data| && log.data[data..data + 32] == WordAt(params, log, i)
    ensures (if params[i].indexed then topic + 1 else topic) == 1 + IndexedIn(params, i + 1)
    ensures (if params[i].indexed then data else data + 32) == 32 * PlainIn(params, i + 1)
  {
    CountsUpTo(params, i);
  }

  /** Two cursors, one in the topics and one in the data. */
  method TakeWords(params: seq<AbiParam>, log: Log) returns (out: seq<(AbiParam, AbiValue)>)
    requires Fits(params, log)
    ensures out == Valued(params, AllWords(params, log))
  {
    var topic, data := 1, 0;
    out := [];
    NoneTaken(params);
    for i := 0 to |params|
      invariant topic == 1 + IndexedIn(params, i) && data == 32 * PlainIn(params, i)
      invariant |out| == i && forall k :: 0 <= k < i ==> out[k] == Entry(params, log, k)
    {
      CursorsStep(params, log, i, topic, data);
      var word: Bytes32;
      if params[i].indexed {
        word := log.topics[topic];
        topic := topic + 1;
      } else {
        word := log.data[data..data + 32];
        data := data + 32;
      }
      out := out + [(params[i], ValueOf(params[i].ty, word))];
    }
  }

  // Decoding inverts the encoding

  lemma {:induction false} EncodedFits(params: seq<AbiParam>, words: seq<Bytes32>)
    requires |params| == |words|
    ensures |TopicWords(params, words)| == IndexedCount(params) && |DataBytes(params, words)| == 32 * PlainCount(params)
  {
    if params != [] {
      var n := |params| - 1;
      EncodedFits(params[..n], words[..n]);
    }
  }

  /** The word of each parameter is found where the encoding put it. */
  lemma {:induction false} TopicAt(params: seq<AbiParam>, words: seq<Bytes32>, i: nat)
    requires |params| == |words| && i < |params| && params[i].indexed
    ensures IndexedIn(params, i) < |TopicWords(params, words)|
      && TopicWords(params, words)[IndexedIn(params, i)] == words[i]
  {
    var n := |params| - 1;
    EncodedFits(params[..n], words[..n]);
    if i < n {
      TopicAt(params[..n], words[..n], i);
      assert params[..n][..i] == params[..i];
    }
  }

  /** The 32 bytes at `k`. */
  predicate WordIs(data: seq<byte>, k: nat, w: Bytes32) {
    k + 32 <= |data| && data[k..k + 32] == w
  }

  lemma WordStays(data: seq<byte>, more: seq<byte>, k: nat, w: Bytes32)
    requires WordIs(data, k, w)
    ensures WordIs(data + more, k, w)
  {
  }

  lemma {:induction false} DataAt(params: seq<AbiParam>, words: seq<Bytes32>, i: nat)
    requires |params| == |words| && i < |params| && !params[i].indexed
    ensures WordIs(DataBytes(params, words), 32 * PlainIn(params, i), words[i])
  {
    var n := |params| - 1;
    EncodedFits(params[..n], words[..n]);
    if i < n {
      DataAt(params[..n], words[..n], i);
      assert params[..n][..i] == params[..i];
      WordStays(DataBytes(params[..n], words[..n]), if params[n].indexed then [] else words[n],
        32 * PlainIn(params, i), words[i]);
    }
  }

  lemma EncodedWords(topic0: Bytes32, params: seq<AbiParam>, words: seq<Bytes32>)
    requires |params| == |words|
    ensures Fits(params, EncodeWords(topic0, params, words))
    ensures AllWords(params, EncodeWords(topic0, params, words)) == words
  {
    var log := EncodeWords(topic0, params, words);
    EncodedFits(params, words);
    forall i | 0 <= i < |params| ensures WordAt(params, log, i) == words[i] {
      if params[i].indexed {
        TopicAt(params, words, i);
      } else {
        DataAt(params, words, i);
      }
    }
  }

  /** `part` is the slice of `whole` between the two positions. */
  predicate IsSlice<T(==)>(part: seq<T>, whole: seq<T>, from: nat, to: nat) {
    from <= to <= |whole| && part == whole[from..to]
  }

  lemma SliceStep<T>(part: seq<T>, next: seq<T>, whole: seq<T>, from: nat, to: nat, upto: nat)
    requires IsSlice(part, whole, from, to) && IsSlice(next, whole, to, upto)
    ensures IsSlice(part + next, whole, from, upto)
  {
  }

  function FirstTopics(params: seq<AbiParam>, words: seq<Bytes32>, n: nat): seq<Bytes32>
    requires n <= |params| == |words|
  {
    TopicWords(params[..n], words[..n])
  }

  function FirstBytes(params: seq<AbiParam>, words: seq<Bytes32>, n: nat): seq<byte>
    requires n <= |params| == |words|
  {
    DataBytes(params[..n], words[..n])
  }

  predicate Laid(params: seq<AbiParam>, log: Log, words: seq<Bytes32>, n: nat)
    requires n <= |params| == |words|
  {
    && IsSlice(FirstTopics(params, words, n), log.topics, 1, 1 + IndexedIn(params, n))
    && IsSlice(FirstBytes(params, words, n), log.data, 0, 32 * PlainIn(params, n))
  }

  /** What the first `n` parameters take from a log. */
  lemma {:induction false} LaidOut(params: seq<AbiParam>, log: Log, words: seq<Bytes32>, n: nat)
    requires log.topics != [] && Fits(params, log) && n <= |params| && words == AllWords(params, log)
    ensures Laid(params, log, words, n)
  {
    if n == 0 {
      NothingLaid(params, log, words);
    } else {
      LaidOut(params, log, words, n - 1);
      LaidNext(params, log, words, n - 1);
    }
  }

  lemma NothingLaid(params: seq<AbiParam>, log: Log, words: seq<Bytes32>)
    requires log.topics != [] && |params| == |words|
    ensures Laid(params, log, words, 0)
  {
    assert params[..0] == [] && words[..0] == [];
  }

  lemma LaidNext(params: seq<AbiParam>, log: Log, words: seq<Bytes32>, n: nat)
    requires Fits(params, log) && n < |params| && words == AllWords(params, log)
    requires Laid(params, log, words, n)
    ensures Laid(params, log, words, n + 1)
  {
    LaidStep(params, log, words, n);
    var (t, d) := (1 + IndexedIn(params, n), 32 * PlainIn(params, n));
    if params[n].indexed {
      SliceStep(FirstTopics(params, words, n), [words[n]], log.topics, 1, t, t + 1);
    } else {
      SliceStep(FirstBytes(params, words, n), words[n], log.data, 0, d, d + 32);
    }
  }

  /** What the next parameter takes. */
  lemma LaidStep(params: seq<AbiParam>, log: Log, words: seq<Bytes32>, n: nat)
    requires Fits(params, log) && n < |params| && words == AllWords(params, log)
    ensures var (t, d) := (1 + IndexedIn(params, n), 32 * PlainIn(params, n));
      if params[n].indexed then
        && IsSlice([words[n]], log.topics, t, t + 1)
        && IndexedIn(params, n + 1) == IndexedIn(params, n) + 1 && PlainIn(params, n + 1) == PlainIn(params, n)
        && FirstTopics(params, words, n + 1) == FirstTopics(params, words, n) + [words[n]]
        && FirstBytes(params, words, n + 1) == FirstBytes(params, words, n)
      else
        && IsSlice(words[n], log.data, d, d + 32)
        && IndexedIn(params, n + 1) == IndexedIn(params, n) && PlainIn(params, n + 1) == PlainIn(params, n) + 1
        && FirstTopics(params, words, n + 1) == FirstTopics(params, words, n)
        && FirstBytes(params, words, n + 1) == FirstBytes(params, words, n) + words[n]
  {
    CountsUpTo(params, n);
    var (ps, ws) := (params[..n + 1], words[..n + 1]);
    assert ps[..n] == params[..n] && ws[..n] == words[..n];
    assert words[n] == WordAt(params, log, n);
  }

  /** Every topic and every data byte is consumed exactly once, in declaration order. */
  lemma DecodeConsumesAll(params: seq<AbiParam>, log: Log)
    requires log.topics != [] && Fits(params, log)
    ensures EncodeWords(log.topics[0], params, AllWords(params, log)) == log
  {
    LaidOut(params, log, AllWords(params, log), |params|);
    assert params[..|params|] == params && AllWords(params, log)[..|params|] == AllWords(params, log);
    assert [log.topics[0]] + log.topics[1..] == log.topics;
  }

  ghost predicate WellTyped(params: seq<AbiParam>, values: seq<AbiValue>) {
    |params| == |values| && forall i :: 0 <= i < |params| ==> HasType(values[i], params[i].ty)
  }

  function Values(decoded: DecodedEvent): (r: seq<AbiValue>)
    ensures |r| == |decoded.params|
  {
    seq(|decoded.params|, i requires 0 <= i < |decoded.params| => decoded.params[i].1)
  }

  /** Decoding an encoded event returns its values, each with its parameter. */
  lemma DecodeInvertsEncode(sig: EventSignature, values: seq<AbiValue>)
    requires WellTyped(sig.params, values)
    ensures var r := Decode(sig, Encode(sig, values));
      && r.Ok? && r.value.name == sig.name && |r.value.params| == |values|
      && forall i :: 0 <= i < |values| ==> r.value.params[i] == (sig.params[i], values[i])
  {
    EncodedWords(sig.topic0, sig.params, WordsOf(values));
    forall i | 0 <= i < |values| ensures ValueOf(sig.params[i].ty, WordsOf(values)[i]) == values[i] {
      ValueOfWord(sig.params[i].ty, values[i]);
    }
  }

  ghost predicate AllCanonical(params: seq<AbiParam>, words: seq<Bytes32>)
    requires |params| == |words|
  {
    forall i :: 0 <= i < |params| ==> CanonicalWord(params[i].ty, words[i])
  }

  /** Encoding what was decoded gives back the identical log exactly when every address and bool word is
      canonical; words of the other types are always preserved. */
  lemma EncodeInvertsDecode(sig: EventSignature, log: Log)
    requires log.topics != [] && log.topics[0] == sig.topic0 && Fits(sig.params, log)
    ensures Decode(sig, log).Ok? && WellTyped(sig.params, Values(Decode(sig, log).value))
    ensures Encode(sig, Values(Decode(sig, log).value)) == log <==> AllCanonical(sig.params, AllWords(sig.params, log))
  {
    var words := AllWords(sig.params, log);
    var values := Values(Decode(sig, log).value);
    forall i | 0 <= i < |words|
      ensures HasType(values[i], sig.params[i].ty)
      ensures WordsOf(values)[i] == words[i] <==> CanonicalWord(sig.params[i].ty, words[i])
    {
      assert values[i] == ValueOf(sig.params[i].ty, words[i]);
      WordOfValue(sig.params[i].ty, words[i]);
    }
    DecodeConsumesAll(sig.params, log);
    EncodedWords(sig.topic0, sig.params, WordsOf(values));
    if Encode(sig, values) == log {
      assert WordsOf(values) == words;
    }
    if AllCanonical(sig.params, words) {
      assert WordsOf(values) == words;
    }
  }

  // The registry

  class EventRegistry {
    var byTopic0: map<Bytes32, EventSignature>
    const hash: Hash

    /** Every signature is filed under its own topic. */
    ghost predicate Valid()
      reads this
    {
      forall t :: t in byTopic0 ==> byTopic0[t].topic0 == t
    }

    constructor (hash: Hash)
      ensures Valid() && byTopic0 == map[] && this.hash == hash
    {
      byTopic0 := map[];
      this.hash := hash;
    }

    /** The last registration for a topic wins; no other topic is touched. */
    method Register(sig: EventSignature)
      requires Valid()
      modifies this
      ensures Valid() && byTopic0 == old(byTopic0)[sig.topic0 := sig]
    {
      byTopic0 := byTopic0[sig.topic0 := sig];
    }

    method RegisterSignature(text: string) returns (r: Result<(), ParseError>)
      requires Valid()
      modifies this
      ensures Valid()
      ensures match Parse(hash, text)
        case Ok(sig) => r == Ok(()) && byTopic0 == old(byTopic0)[sig.topic0 := sig]
        case Err(e) => r == Err(e) && byTopic0 == old(byTopic0)
    {
      var sig := Parse(hash, text);
      match sig
      case Err(e) => r := Err(e);
      case Ok(s) =>
        Register(s);
        r := Ok(());
    }

    /** None for a log without topics or with an unregistered first topic; otherwise decoded, or refused
        on a count mismatch. */
    method DecodeLog(log: Log) returns (r: Result<Option<DecodedEvent>, DecodeError>)
      requires Valid()
      ensures r == Ok(None) <==> log.topics == [] || log.topics[0] !in byTopic0
      ensures log.topics != [] && log.topics[0] in byTopic0 ==>
        && (r.Ok? ==> r.value.Some?)
        && Answers(byTopic0[log.topics[0]], log, if r.Ok? then Ok(r.value.value) else Err(r.error))
    {
      if |log.topics| == 0 || log.topics[0] !in byTopic0 {
        return Ok(None);
      }
      var decoded := DecodeWithSignature(byTopic0[log.topics[0]], log);
      match decoded
      case Ok(event) => r := Ok(Some(event));
      case Err(e) => r := Err(e);
    }
  }
}
