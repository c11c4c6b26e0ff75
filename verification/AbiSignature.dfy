/** Event signatures: parsing, and printing in canonical form. */
module AbiSignature {
  import opened Types
  import opened AbiText

  datatype AbiType = AddressType | BoolType | UintType(bits: nat) | IntType(bits: nat) | BytesType(size: nat) {
    predicate Valid() {
      match this
      case AddressType => true
      case BoolType => true
      case UintType(bits) => 0 < bits <= 256 && bits % 8 == 0
      case IntType(bits) => 0 < bits <= 256 && bits % 8 == 0
      case BytesType(size) => 0 < size <= 32
    }
  }

  datatype AbiParam = AbiParam(name: string, ty: AbiType, indexed: bool)

  datatype EventSignature = EventSignature(name: string, params: seq<AbiParam>, topic0: Bytes32)

  datatype ParseError =
    | NoOpeningParenthesis
    | NoClosingParenthesis
    | EmptyName
    | BadParameter(text: string)
    | UnknownType(text: string)
    | UnsupportedType(text: string)

  /** The hash of a canonical string; nothing is known about it. */
  type Hash = string -> Bytes32

  function Print(ty: AbiType): string {
    match ty
    case AddressType => "address"
    case BoolType => "bool"
    case UintType(bits) => "uint" + Decimal(bits)
    case IntType(bits) => "int" + Decimal(bits)
    case BytesType(size) => "bytes" + Decimal(size)
  }

  function Prints(params: seq<AbiParam>): (r: seq<string>)
    ensures |r| == |params|
  {
    seq(|params|, i requires 0 <= i < |params| => Print(params[i].ty))
  }

  /** Name and types only: neither parameter names nor indexed marks. */
  function Canonical(name: string, params: seq<AbiParam>): string {
    name + ['('] + Join(Prints(params), ',') + [')']
  }

  lemma JoinStep(params: seq<AbiParam>, i: nat)
    requires i < |params|
    ensures var (before, after) := (Join(Prints(params[..i]), ','), Join(Prints(params[..i + 1]), ','));
      after == (if i > 0 then before + [','] else before) + Print(params[i].ty)
  {
    var prints := Prints(params[..i]);
    assert Prints(params[..i + 1]) == prints + [Print(params[i].ty)];
    if i > 0 {
      JoinLast(prints, Print(params[i].ty), ',');
    } else {
      assert prints == [] && prints + [Print(params[i].ty)] == [Print(params[i].ty)];
    }
  }

  method CanonicalSignature(name: string, params: seq<AbiParam>) returns (s: string)
    ensures s == Canonical(name, params)
  {
    s := name + ['('];
    for i := 0 to |params|
      invariant s == name + ['('] + Join(Prints(params[..i]), ',')
    {
      JoinStep(params, i);
      if i > 0 {
        s := s + [','];
      }
      s := s + Print(params[i].ty);
    }
    assert params[..|params|] == params;
    s := s + [')'];
  }

  // Parsing

  function ParseBits(digits: string): Option<nat> {
    var bits := if digits == "" then Some(256) else ParseUnsigned(digits, 0xFFFF);
    if bits.Some? && 0 < bits.value <= 256 && bits.value % 8 == 0 then bits else None
  }

  function ParseType(s: string): Result<AbiType, ParseError> {
    if '[' in s then Err(UnsupportedType(s))
    else if s == "address" then Ok(AddressType)
    else if s == "bool" then Ok(BoolType)
    else if "uint" <= s then
      match ParseBits(s[4..]) case Some(bits) => Ok(UintType(bits)) case None => Err(UnknownType(s))
    else if "int" <= s then
      match ParseBits(s[3..]) case Some(bits) => Ok(IntType(bits)) case None => Err(UnknownType(s))
    else if "bytes" <= s then
      if s[5..] == "" then Err(UnsupportedType(s))
      else
        var size := ParseUnsigned(s[5..], 0xFF);
        if size.Some? && 0 < size.value <= 32 then Ok(BytesType(size.value)) else Err(UnknownType(s))
    else if s == "string" then Err(UnsupportedType(s))
    else Err(UnknownType(s))
  }

  /** A type, then possibly the word "indexed", then possibly a name. */
  function ParseParam(s: string): Result<AbiParam, ParseError> {
    FromTokens(Words(s), s)
  }

  function FromTokens(tokens: seq<string>, s: string): Result<AbiParam, ParseError> {
    if |tokens| == 1 then TypedParam(tokens[0], false, "")
    else if |tokens| == 2 && tokens[1] == "indexed" then TypedParam(tokens[0], true, "")
    else if |tokens| == 2 then TypedParam(tokens[0], false, tokens[1])
    else if |tokens| == 3 && tokens[1] == "indexed" then TypedParam(tokens[0], true, tokens[2])
    else Err(BadParameter(s))
  }

  function TypedParam(typ: string, indexed: bool, name: string): Result<AbiParam, ParseError> {
    match ParseType(typ)
    case Ok(ty) => Ok(AbiParam(name, ty, indexed))
    case Err(e) => Err(e)
  }

  /** All parameters, or the first error. */
  function ParseEach(parts: seq<string>): Result<seq<AbiParam>, ParseError> {
    if parts == [] then Ok([])
    else
      match ParseParam(Trim(parts[0]))
      case Err(e) => Err(e)
      case Ok(p) =>
        match ParseEach(parts[1..])
        case Err(e) => Err(e)
        case Ok(rest) => Ok([p] + rest)
  }

  function ParseParams(body: string): Result<seq<AbiParam>, ParseError> {
    if Trim(body) == "" then Ok([]) else ParseEach(Split(Trim(body), ','))
  }

  function Parse(hash: Hash, text: string): Result<EventSignature, ParseError> {
    ParseTrimmed(hash, Trim(text))
  }

  function ParseTrimmed(hash: Hash, s: string): Result<EventSignature, ParseError> {
    if '(' !in s then Err(NoOpeningParenthesis)
    else if s[|s| - 1] != ')' then Err(NoClosingParenthesis)
    else ParseCut(hash, s, Find(s, '('))
  }

  /** Parse a trimmed text around its opening parenthesis. */
  function ParseCut(hash: Hash, s: string, open: nat): Result<EventSignature, ParseError>
    requires open + 1 < |s|
  {
    var name := Trim(s[..open]);
    if name == "" then Err(EmptyName) else Signed(hash, name, ParseParams(s[open + 1..|s| - 1]))
  }

  function Signed(hash: Hash, name: string, params: Result<seq<AbiParam>, ParseError>)
    : Result<EventSignature, ParseError>
  {
    match params
    case Err(e) => Err(e)
    case Ok(ps) => Ok(EventSignature(name, ps, hash(Canonical(name, ps))))
  }

  // Types

  predicate Plain(s: string) {
    forall i :: 0 <= i < |s| ==> 'a' <= s[i] <= 'z' || IsDigit(s[i])
  }

  lemma PlainWord(s: string)
    requires Plain(s) && s != ""
    ensures IsWord(s) && ',' !in s && '[' !in s
  {
  }

  lemma NumberedPlain(prefix: string, n: nat)
    requires Plain(prefix)
    ensures Plain(prefix + Decimal(n)) && prefix + Decimal(n) != ""
  {
    DecimalDigits(n);
  }

  lemma PrintPlain(ty: AbiType)
    ensures IsWord(Print(ty)) && ',' !in Print(ty) && '[' !in Print(ty)
  {
    match ty
    case AddressType => PlainWord("address");
    case BoolType => PlainWord("bool");
    case UintType(bits) => NumberedPlain("uint", bits); PlainWord("uint" + Decimal(bits));
    case IntType(bits) => NumberedPlain("int", bits); PlainWord("int" + Decimal(bits));
    case BytesType(size) => NumberedPlain("bytes", size); PlainWord("bytes" + Decimal(size));
  }

  lemma BitsParse(bits: nat)
    requires UintType(bits).Valid()
    ensures ParseBits(Decimal(bits)) == Some(bits) && Decimal(bits) != ""
  {
    DecimalDigits(bits);
    DecimalRoundTrip(bits, 0xFFFF);
  }

  lemma UintParses(s: string, digits: string)
    requires s == "uint" + digits && '[' !in s
    ensures ParseType(s) ==
      match ParseBits(digits) case Some(bits) => Ok(UintType(bits)) case None => Err(UnknownType(s))
  {
    assert s[0] == 'u' && s[4..] == digits;
  }

  lemma IntParses(s: string, digits: string)
    requires s == "int" + digits && '[' !in s
    ensures ParseType(s) ==
      match ParseBits(digits) case Some(bits) => Ok(IntType(bits)) case None => Err(UnknownType(s))
  {
    assert s[0] == 'i' && s[3..] == digits;
  }

  lemma BytesParses(s: string, digits: string, size: nat)
    requires s == "bytes" + digits && '[' !in s && digits != ""
    requires BytesType(size).Valid() && ParseUnsigned(digits, 0xFF) == Some(size)
    ensures ParseType(s) == Ok(BytesType(size))
  {
    assert s[0] == 'b' && s[1] == 'y' && s[5..] == digits;
  }

  /** A printed type parses back to itself, for every width. */
  lemma PrintParses(ty: AbiType)
    requires ty.Valid()
    ensures ParseType(Print(ty)) == Ok(ty)
  {
    PrintPlain(ty);
    match ty
    case AddressType =>
    case BoolType =>
    case UintType(bits) =>
      BitsParse(bits);
      UintParses(Print(ty), Decimal(bits));
    case IntType(bits) =>
      BitsParse(bits);
      IntParses(Print(ty), Decimal(bits));
    case BytesType(size) =>
      DecimalDigits(size);
      DecimalRoundTrip(size, 0xFF);
      BytesParses(Print(ty), Decimal(size), size);
  }

  lemma ParsedTypeValid(s: string)
    ensures ParseType(s).Ok? ==> ParseType(s).value.Valid()
  {
  }

  /** The width of an integer type as text: nothing for 256, or a number. */
  ghost predicate WidthText(digits: string, bits: nat) {
    && 8 <= bits <= 256 && bits % 8 == 0
    && if digits == "" then bits == 256 else NumberText(digits, bits)
  }

  /** The texts of a type. */
  ghost predicate TypeText(s: string, ty: AbiType) {
    match ty
    case AddressType => s == "address"
    case BoolType => s == "bool"
    case UintType(bits) => "uint" <= s && WidthText(s[4..], bits)
    case IntType(bits) => "int" <= s && WidthText(s[3..], bits)
    case BytesType(size) => "bytes" <= s && NumberText(s[5..], size) && 1 <= size <= 32
  }

  lemma BitsExact(digits: string, bits: nat)
    ensures ParseBits(digits) == Some(bits) <==> WidthText(digits, bits)
  {
    ParseUnsignedExact(digits, 0xFFFF, bits);
  }

  lemma NoBracket(s: string, bits: nat)
    requires NumberText(s, bits)
    ensures '[' !in s
  {
    var digits := if s != "" && s[0] == '+' then s[1..] else s;
    forall i | 0 <= i < |s| ensures s[i] != '[' {
      assert if digits == s then IsDigit(digits[i]) else i == 0 || (digits[i - 1] == s[i] && IsDigit(digits[i - 1]));
    }
  }

  lemma BracketFree(s: string, ty: AbiType)
    requires TypeText(s, ty)
    ensures '[' !in s
  {
    match ty
    case AddressType =>
    case BoolType =>
    case UintType(bits) => Bracketless("uint", s[4..], s, bits);
    case IntType(bits) => Bracketless("int", s[3..], s, bits);
    case BytesType(size) => Bracketless("bytes", s[5..], s, size);
  }

  lemma Bracketless(prefix: string, digits: string, s: string, n: nat)
    requires '[' !in prefix && s == prefix + digits && (digits == "" || NumberText(digits, n))
    ensures '[' !in s
  {
    if digits != "" {
      NoBracket(digits, n);
    }
  }

  /** A text with digits, or nothing, behind the prefix is none of the other types' texts. */
  lemma Prefixes(s: string)
    ensures "uint" <= s ==> s[0] == 'u' && s[1] == 'i'
    ensures "int" <= s ==> s[0] == 'i'
    ensures "bytes" <= s ==> s[0] == 'b' && s[1] == 'y'
  {
  }

  /** Exactly which texts are types, and of which type: a bare `uint` or `int` is 256 bits wide, a width is a multiple
      of 8 from 8 to 256, a size runs from 1 to 32. */
  lemma ParseTypeExact(s: string, ty: AbiType)
    ensures ParseType(s) == Ok(ty) <==> TypeText(s, ty)
  {
    Prefixes(s);
    if TypeText(s, ty) {
      BracketFree(s, ty);
    }
    match ty
    case AddressType =>
    case BoolType =>
    case UintType(bits) =>
      if "uint" <= s {
        BitsExact(s[4..], bits);
      }
    case IntType(bits) =>
      if "int" <= s {
        BitsExact(s[3..], bits);
      }
    case BytesType(size) =>
      if "bytes" <= s {
        ParseUnsignedExact(s[5..], 0xFF, size);
      }
  }

  /** Every other text is refused: arrays, `bytes` and `string` as unsupported, the rest as unknown. */
  lemma ParseTypeRefuses(s: string)
    requires forall ty :: !TypeText(s, ty)
    ensures ParseType(s)
      == Err(if '[' in s || s == "bytes" || s == "string" then UnsupportedType(s) else UnknownType(s))
  {
    Prefixes(s);
    if ParseType(s).Ok? {
      ParseTypeExact(s, ParseType(s).value);
    }
  }

  // Refusals

  lemma TrimmedRefuses(hash: Hash, s: string)
    ensures '(' !in s ==> ParseTrimmed(hash, s) == Err(NoOpeningParenthesis)
    ensures '(' in s && s[|s| - 1] != ')' ==> ParseTrimmed(hash, s) == Err(NoClosingParenthesis)
    ensures '(' in s && s[|s| - 1] == ')' && Blank(s[..Find(s, '(')]) ==> ParseTrimmed(hash, s) == Err(EmptyName)
  {
    if '(' in s && Blank(s[..Find(s, '(')]) {
      BlankTrims(s[..Find(s, '(')]);
    }
  }

  /** Which error a malformed text gets before its parameters are looked at: no opening parenthesis at all, no closing
      one at its very end, or nothing but whitespace for a name. */
  lemma ParseRefuses(hash: Hash, text: string)
    ensures var s := Trim(text);
      && ('(' !in s ==> Parse(hash, text) == Err(NoOpeningParenthesis))
      && ('(' in s && s[|s| - 1] != ')' ==> Parse(hash, text) == Err(NoClosingParenthesis))
      && ('(' in s && s[|s| - 1] == ')' && Blank(s[..Find(s, '(')]) ==> Parse(hash, text) == Err(EmptyName))
  {
    TrimmedRefuses(hash, Trim(text));
  }

  /** The first text on which `parse` fails, with its error. */
  ghost predicate FirstBad(parse: string -> Result<AbiParam, ParseError>, texts: seq<string>, i: nat, e: ParseError) {
    && i < |texts| && parse(texts[i]) == Err(e)
    && forall j :: 0 <= j < i ==> parse(texts[j]).Ok?
  }

  predicate AnyBad(parse: string -> Result<AbiParam, ParseError>, texts: seq<string>, e: ParseError) {
    texts != [] && (parse(texts[0]) == Err(e) || (parse(texts[0]).Ok? && AnyBad(parse, texts[1..], e)))
  }

  lemma {:induction false} FirstOfAny(parse: string -> Result<AbiParam, ParseError>, texts: seq<string>, e: ParseError)
      returns (i: nat)
    requires AnyBad(parse, texts, e)
    ensures FirstBad(parse, texts, i, e)
  {
    i := 0;
    if parse(texts[0]).Ok? {
      var k := FirstOfAny(parse, texts[1..], e);
      i := k + 1;
      assert forall j :: 0 < j <= i ==> texts[j] == texts[1..][j - 1];
    }
  }

  function ParsePart(part: string): Result<AbiParam, ParseError> {
    ParseParam(Trim(part))
  }

  predicate EachRefused(parts: seq<string>, e: ParseError) {
    ParseEach(parts) == Err(e)
  }

  lemma {:induction false} EachRefuses(parts: seq<string>, e: ParseError)
    requires EachRefused(parts, e)
    ensures AnyBad(ParsePart, parts, e)
  {
    if ParsePart(parts[0]).Ok? {
      EachRefuses(parts[1..], e);
    }
  }

  lemma NameKept(name: string)
    requires !Blank(name)
    ensures Trim(name) != ""
  {
    var a, b := TrimSplit(name);
    assert Trim(name) == "" ==> name == a + b;
  }

  predicate BodyRefused(body: string, e: ParseError) {
    ParseParams(body) == Err(e)
  }

  lemma CutRefused(hash: Hash, s: string, open: nat, e: ParseError)
    requires open + 1 < |s| && !Blank(s[..open]) && ParseCut(hash, s, open) == Err(e)
    ensures BodyRefused(s[open + 1..|s| - 1], e)
  {
    NameKept(s[..open]);
  }

  lemma BodyParts(body: string, e: ParseError) returns (i: nat)
    requires BodyRefused(body, e)
    ensures FirstBad(ParsePart, Split(Trim(body), ','), i, e)
  {
    EachRefuses(Split(Trim(body), ','), e);
    i := FirstOfAny(ParsePart, Split(Trim(body), ','), e);
  }

  predicate TrimmedRefused(hash: Hash, s: string, e: ParseError) {
    ParseTrimmed(hash, s) == Err(e)
  }

  lemma TrimmedParts(hash: Hash, s: string, open: nat, e: ParseError) returns (i: nat)
    requires TrimmedRefused(hash, s, e)
    requires '(' in s && s[|s| - 1] == ')' && open == Find(s, '(') && !Blank(s[..open])
    ensures FirstBad(ParsePart, Split(Trim(s[open + 1..|s| - 1]), ','), i, e)
  {
    CutRefused(hash, s, open, e);
    i := BodyParts(s[open + 1..|s| - 1], e);
  }

  /** Any other text that is refused gets the error of the first of its comma-separated parts that is not a
      parameter. */
  lemma FirstBadParameter(hash: Hash, text: string, s: string, open: nat, e: ParseError) returns (i: nat)
    requires Parse(hash, text) == Err(e) && s == Trim(text)
    requires '(' in s && s[|s| - 1] == ')' && open == Find(s, '(') && !Blank(s[..open])
    ensures FirstBad(ParsePart, Split(Trim(s[open + 1..|s| - 1]), ','), i, e)
  {
    assert TrimmedRefused(hash, s, e);
    i := TrimmedParts(hash, s, open, e);
  }

  lemma BlankTrims(s: string)
    requires Blank(s)
    ensures Trim(s) == ""
  {
    assert s + "" + "" == s;
    TrimPadded(s, "", "");
  }

  /** A parameter is one, two or three words: a type, then possibly "indexed", then possibly a name. Too few or too many
      are refused as such; otherwise its error is its type's. */
  lemma ParamRefuses(s: string)
    requires ParseParam(s).Err?
    ensures var words := Words(s);
      if words == [] || |words| > 3 || (|words| == 3 && words[1] != "indexed")
      then ParseParam(s) == Err(BadParameter(s)) else ParseType(words[0]) == Err(ParseParam(s).error)
  {
  }

  // The canonical form

  /** A number without sign or leading zeros. */
  ghost predicate PlainNumber(s: string, n: nat) {
    s != "" && AllDigits(s) && Numeral(s) == n && (s[0] == '0' ==> n == 0)
  }

  lemma {:induction false} DecimalPlain(n: nat)
    ensures PlainNumber(Decimal(n), n)
  {
    DecimalDigits(n);
    DigitsValueExact(Decimal(n));
    DecimalLeads(n);
  }

  lemma {:induction false} DecimalLeads(n: nat)
    ensures Decimal(n) != "" && (Decimal(n)[0] == '0' ==> n == 0)
  {
    if n >= 10 {
      DecimalLeads(n / 10);
    }
  }

  /** How a type is printed: always with its width or size, in plain digits. */
  lemma PrintIsPlain(ty: AbiType)
    ensures match ty
      case AddressType => Print(ty) == "address"
      case BoolType => Print(ty) == "bool"
      case UintType(bits) => "uint" <= Print(ty) && PlainNumber(Print(ty)[4..], bits)
      case IntType(bits) => "int" <= Print(ty) && PlainNumber(Print(ty)[3..], bits)
      case BytesType(size) => "bytes" <= Print(ty) && PlainNumber(Print(ty)[5..], size)
  {
    match ty
    case AddressType =>
    case BoolType =>
    case UintType(bits) => DecimalPlain(bits);
    case IntType(bits) => DecimalPlain(bits);
    case BytesType(size) => DecimalPlain(size);
  }

  lemma Reopened(name: string, body: string, x: string)
    ensures var before := name + ['('] + body + [')'];
      name + ['('] + (body + [','] + x) + [')'] == before[..|before| - 1] + "," + x + ")"
  {
    var before := name + ['('] + body + [')'];
    assert before[..|before| - 1] == name + ['('] + body;
  }

  /** The canonical string, one parameter after the other: the types separated by single commas, nothing else. */
  lemma CanonicalGrows(name: string, params: seq<AbiParam>, p: AbiParam)
    ensures Canonical(name, []) == name + "()"
    ensures Canonical(name, [p]) == name + "(" + Print(p.ty) + ")"
    ensures var before := Canonical(name, params);
      params != [] ==> Canonical(name, params + [p]) == before[..|before| - 1] + "," + Print(p.ty) + ")"
  {
    assert Prints([]) == [] && Prints([p]) == [Print(p.ty)];
    if params != [] {
      var all := params + [p];
      assert all[..|params|] == params && all[..|params| + 1] == all;
      JoinStep(all, |params|);
      Reopened(name, Join(Prints(params), ','), Print(p.ty));
    }
  }
}
