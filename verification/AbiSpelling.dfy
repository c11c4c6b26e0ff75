/** Exactly which strings parse, and that spelling never matters: a signature's canonical string depends
    on its name and types alone, and determines them. */
module AbiSpelling {
  import opened Types
  import opened AbiText
  import opened AbiSignature

  /** One way to write a parameter: a type, an optional "indexed" after a gap, an optional name after a gap. */
  datatype ParamSpelling = ParamSpelling(before: string, typ: string, mark: Option<string>,
      name: Option<(string, string)>, after: string)
  {
    predicate Valid() {
      && Blank(before) && Blank(after)
      && IsWord(typ) && ',' !in typ && ParseType(typ).Ok?
      && (mark.Some? ==> Blank(mark.value) && mark.value != "")
      && (name.Some? ==> Blank(name.value.0) && name.value.0 != "" && IsWord(name.value.1) && ',' !in name.value.1)
      && (name.Some? && mark.None? ==> name.value.1 != "indexed")
    }

    function NameText(): string {
      if name.Some? then name.value.0 + (name.value.1 + after) else after
    }

    function MarkText(): string {
      if mark.Some? then mark.value + ("indexed" + NameText()) else NameText()
    }

    function Text(): string {
      before + (typ + MarkText())
    }

    function Tokens(): seq<string> {
      [typ] + (if mark.Some? then ["indexed"] else []) + (if name.Some? then [name.value.1] else [])
    }

    function Meaning(): AbiParam
      requires Valid()
    {
      AbiParam(if name.Some? then name.value.1 else "", ParseType(typ).value, mark.Some?)
    }
  }

  /** One way to write a signature. `pad` stands between the parentheses when there is no parameter. */
  datatype Spelling = Spelling(before: string, name: string, gap: string, params: seq<ParamSpelling>, pad: string,
      after: string)
  {
    predicate Valid() {
      && Blank(before) && Blank(gap) && Blank(pad) && Blank(after)
      && name != "" && Trimmed(name) && '(' !in name
      && forall i :: 0 <= i < |params| ==> params[i].Valid()
    }

    function Body(): string {
      if params == [] then pad else Join(Texts(params), ',')
    }

    function Text(): string {
      before + Core(name, gap, Body()) + after
    }

    function Meaning(hash: Hash): EventSignature
      requires Valid()
    {
      var ps := Meanings(params);
      EventSignature(name, ps, hash(Canonical(name, ps)))
    }
  }

  function Texts(params: seq<ParamSpelling>): (r: seq<string>)
    ensures |r| == |params|
  {
    seq(|params|, i requires 0 <= i < |params| => params[i].Text())
  }

  function Meanings(params: seq<ParamSpelling>): (r: seq<AbiParam>)
    requires forall i :: 0 <= i < |params| ==> params[i].Valid()
    ensures |r| == |params|
  {
    seq(|params|, i requires 0 <= i < |params| => params[i].Meaning())
  }

  // One parameter

  /** A word after a gap. */
  lemma GapWord(gap: string, w: string, rest: string)
    requires Blank(gap) && IsWord(w) && Breaks(rest)
    ensures Words(gap + (w + rest)) == [w] + Words(rest)
    ensures gap != "" ==> Breaks(gap + (w + rest))
  {
    WordsBlank(gap, w + rest);
    WordsWord(w, rest);
  }

  lemma WordsOfBlank(s: string)
    requires Blank(s)
    ensures Words(s) == []
  {
    WordsBlank(s, "");
    assert s + "" == s;
  }

  lemma WordsOfName(p: ParamSpelling)
    requires p.Valid()
    ensures Words(p.NameText()) == (if p.name.Some? then [p.name.value.1] else []) && Breaks(p.NameText())
  {
    WordsOfBlank(p.after);
    if p.name.Some? {
      GapWord(p.name.value.0, p.name.value.1, p.after);
    }
  }

  lemma WordsOfMark(p: ParamSpelling)
    requires p.Valid()
    ensures Words(p.MarkText()) == p.Tokens()[1..] && Breaks(p.MarkText())
  {
    WordsOfName(p);
    if p.mark.Some? {
      GapWord(p.mark.value, "indexed", p.NameText());
    }
  }

  lemma WordsOfParam(p: ParamSpelling)
    requires p.Valid()
    ensures Words(p.Text()) == p.Tokens()
  {
    WordsOfMark(p);
    GapWord(p.before, p.typ, p.MarkText());
  }

  lemma NoComma(p: ParamSpelling)
    requires p.Valid()
    ensures ',' !in p.Text()
  {
    assert ',' !in p.NameText();
    assert ',' !in p.MarkText();
  }

  lemma TokensParse(p: ParamSpelling, s: string)
    requires p.Valid()
    ensures FromTokens(p.Tokens(), s) == Ok(p.Meaning())
  {
  }

  /** Every spelling of a parameter parses to its meaning. */
  lemma ParamParses(p: ParamSpelling)
    requires p.Valid()
    ensures ParseParam(Trim(p.Text())) == Ok(p.Meaning())
  {
    WordsOfParam(p);
    WordsOfTrim(p.Text());
    TokensParse(p, Trim(p.Text()));
  }

  lemma NextWord(s: string) returns (gap: string, rest: string)
    requires Words(s) != [] && Breaks(s)
    ensures Blank(gap) && gap != "" && s == gap + (Words(s)[0] + rest)
    ensures IsWord(Words(s)[0]) && Breaks(rest) && Words(rest) == Words(s)[1..]
  {
    gap, rest := FirstWord(s);
    assert gap + Words(s)[0] + rest == gap + (Words(s)[0] + rest);
  }

  lemma NameSpelled(s: string) returns (name: Option<(string, string)>, after: string)
    requires Breaks(s) && |Words(s)| <= 1 && ',' !in s
    ensures Blank(after) && (name.None? <==> Words(s) == [])
    ensures name.None? ==> s == after
    ensures name.Some? ==>
      s == name.value.0 + (name.value.1 + after) && name.value.1 == Words(s)[0] && ',' !in name.value.1
      && Blank(name.value.0) && name.value.0 != "" && IsWord(name.value.1)
  {
    if Words(s) == [] {
      NoWords(s);
      name, after := None, s;
    } else {
      var gap, rest := NextWord(s);
      NoWords(rest);
      assert forall c :: c in Words(s)[0] ==> c in s;
      name, after := Some((gap, Words(s)[0])), rest;
    }
  }

  /** Every text that parses as a parameter is a spelling of it. */
  lemma ParamSpelled(text: string) returns (p: ParamSpelling)
    requires ParseParam(Trim(text)).Ok? && ',' !in text
    ensures p.Valid() && p.Text() == text && Ok(p.Meaning()) == ParseParam(Trim(text))
  {
    WordsOfTrim(text);
    var tokens := Words(text);
    TokensShape(tokens, Trim(text));
    var before, rest := FirstWord(text);
    CommaFree(text, before, tokens[0], rest);
    p := RestSpelled(before, tokens[0], rest);
    assert tokens == [tokens[0]] + tokens[1..];
    TokensParse(p, Trim(text));
  }

  lemma TokensShape(tokens: seq<string>, s: string)
    requires FromTokens(tokens, s).Ok?
    ensures tokens != [] && ParseType(tokens[0]).Ok? && (|tokens| <= 2 || (|tokens| == 3 && tokens[1] == "indexed"))
  {
  }

  lemma CommaFree(text: string, before: string, typ: string, rest: string)
    requires text == before + typ + rest && ',' !in text
    ensures text == before + (typ + rest) && ',' !in typ && ',' !in rest
  {
  }

  lemma RestSpelled(before: string, typ: string, rest: string) returns (p: ParamSpelling)
    requires Blank(before) && IsWord(typ) && ',' !in typ && ParseType(typ).Ok?
    requires Breaks(rest) && ',' !in rest && (|Words(rest)| <= 1 || (|Words(rest)| == 2 && Words(rest)[0] == "indexed"))
    ensures p.Valid() && p.before == before && p.typ == typ && p.MarkText() == rest && p.Tokens() == [typ] + Words(rest)
  {
    if Words(rest) != [] && Words(rest)[0] == "indexed" {
      p := MarkedSpelled(before, typ, rest);
    } else {
      var name, after := NameSpelled(rest);
      p := ParamSpelling(before, typ, None, name, after);
    }
  }

  lemma MarkedSpelled(before: string, typ: string, rest: string) returns (p: ParamSpelling)
    requires Blank(before) && IsWord(typ) && ',' !in typ && ParseType(typ).Ok?
    requires Breaks(rest) && ',' !in rest && 0 < |Words(rest)| <= 2 && Words(rest)[0] == "indexed"
    ensures p.Valid() && p.before == before && p.typ == typ && p.MarkText() == rest && p.Tokens() == [typ] + Words(rest)
  {
    var gap, more := NextWord(rest);
    assert forall c :: c in more ==> c in rest;
    var name, after := NameSpelled(more);
    p := ParamSpelling(before, typ, Some(gap), name, after);
    assert p.NameText() == more && p.MarkText() == gap + ("indexed" + more);
    assert Words(rest) == ["indexed"] + Words(more);
  }

  // Parameter lists

  lemma {:induction false} ParseEachTrimmed(a: seq<string>, b: seq<string>)
    requires |a| == |b| && forall i :: 0 <= i < |a| ==> Trim(a[i]) == Trim(b[i])
    ensures ParseEach(a) == ParseEach(b)
  {
    if a != [] {
      ParseEachTrimmed(a[1..], b[1..]);
    }
  }

  /** Trimming the whole list first changes nothing. */
  lemma ParseEachOfTrim(body: string)
    ensures ParseEach(Split(Trim(body), ',')) == ParseEach(Split(body, ','))
  {
    var a, b := TrimSplit(body);
    var parts := Split(Trim(body), ',');
    SplitPadded(a, Trim(body), b, ',');
    forall i | 0 <= i < |parts| ensures Trim(Padded(parts, a, b)[i]) == Trim(parts[i]) {
      TrimPadded(if i == 0 then a else "", parts[i], if i == |parts| - 1 then b else "");
    }
    ParseEachTrimmed(Padded(parts, a, b), parts);
  }

  lemma ParseEachCons(parts: seq<string>, p: AbiParam, rest: seq<AbiParam>)
    requires parts != [] && ParseParam(Trim(parts[0])) == Ok(p) && ParseEach(parts[1..]) == Ok(rest)
    ensures ParseEach(parts) == Ok([p] + rest)
  {
  }

  lemma ConsSpelling(p: ParamSpelling, rest: seq<ParamSpelling>)
    requires p.Valid() && forall i :: 0 <= i < |rest| ==> rest[i].Valid()
    ensures forall i :: 0 <= i < |[p] + rest| ==> ([p] + rest)[i].Valid()
    ensures Texts([p] + rest) == [p.Text()] + Texts(rest) && Meanings([p] + rest) == [p.Meaning()] + Meanings(rest)
  {
    ConsTexts(p, rest);
    ConsMeanings(p, rest);
  }

  lemma ConsTexts(p: ParamSpelling, rest: seq<ParamSpelling>)
    ensures Texts([p] + rest) == [p.Text()] + Texts(rest)
  {
    var all := [p] + rest;
    forall i | 0 <= i < |all| ensures Texts(all)[i] == ([p.Text()] + Texts(rest))[i] {
      assert all[i] == if i == 0 then p else rest[i - 1];
    }
  }

  lemma ConsMeanings(p: ParamSpelling, rest: seq<ParamSpelling>)
    requires p.Valid() && forall i :: 0 <= i < |rest| ==> rest[i].Valid()
    ensures forall i :: 0 <= i < |[p] + rest| ==> ([p] + rest)[i].Valid()
    ensures Meanings([p] + rest) == [p.Meaning()] + Meanings(rest)
  {
    var all := [p] + rest;
    forall i | 0 <= i < |all| ensures all[i].Valid() {
      assert all[i] == if i == 0 then p else rest[i - 1];
    }
  }

  lemma {:induction false} EachParses(params: seq<ParamSpelling>)
    requires forall i :: 0 <= i < |params| ==> params[i].Valid()
    ensures ParseEach(Texts(params)) == Ok(Meanings(params))
  {
    if params != [] {
      var (p, rest) := (params[0], params[1..]);
      EachParses(rest);
      ParamParses(p);
      ConsSpelling(p, rest);
      assert params == [p] + rest;
      var parts := Texts(params);
      assert parts[0] == p.Text() && parts[1..] == Texts(rest);
      ParseEachCons(parts, p.Meaning(), Meanings(rest));
    }
  }

  lemma EachFree(params: seq<ParamSpelling>)
    requires forall i :: 0 <= i < |params| ==> params[i].Valid()
    ensures Free(Texts(params), ',')
  {
    forall i | 0 <= i < |params| ensures ',' !in Texts(params)[i] {
      NoComma(params[i]);
    }
  }

  lemma {:induction false} EachSpelled(parts: seq<string>) returns (params: seq<ParamSpelling>)
    requires ParseEach(parts).Ok? && Free(parts, ',')
    ensures |params| == |parts| && forall i :: 0 <= i < |params| ==> params[i].Valid()
    ensures Texts(params) == parts && Meanings(params) == ParseEach(parts).value
  {
    params := [];
    if parts != [] {
      var p := ParamSpelled(parts[0]);
      var rest := EachSpelled(parts[1..]);
      params := [p] + rest;
      ConsSpelling(p, rest);
      assert parts == [parts[0]] + parts[1..];
    }
  }

  lemma BlankBody(parts: seq<string>)
    requires parts != [] && Blank(Join(parts, ','))
    ensures Words(parts[0]) == []
  {
    assert forall i :: 0 <= i < |parts[0]| ==> parts[0][i] == Join(parts, ',')[i];
    WordsOfBlank(parts[0]);
  }

  lemma BodyParses(s: Spelling)
    requires s.Valid()
    ensures ParseParams(s.Body()) == Ok(Meanings(s.params))
  {
    var body := s.Body();
    var a, b := TrimSplit(body);
    if s.params == [] {
      TrimPadded(body, "", "");
      assert body + "" + "" == body;
    } else {
      EachParses(s.params);
      EachFree(s.params);
      SplitOfJoin(Texts(s.params), ',');
      ParseEachOfTrim(body);
      WordsOfParam(s.params[0]);
      if Trim(body) == "" {
        BlankBody(Texts(s.params));
      }
    }
  }

  // Signatures

  function Core(name: string, gap: string, body: string): string {
    (name + gap) + ['('] + (body + [')'])
  }

  lemma CoreSplits(name: string, gap: string, body: string)
    requires Blank(gap) && '(' !in name
    ensures var core := Core(name, gap, body);
      '(' in core && core[|core| - 1] == ')' && Find(core, '(') == |name + gap| < |core| - 1
  {
    FindAt(name + gap, '(', body + [')']);
  }

  lemma CoreTrimmed(name: string, gap: string, body: string)
    requires name != "" && Trimmed(name)
    ensures Trimmed(Core(name, gap, body))
  {
  }

  lemma CoreSlices(name: string, gap: string, body: string)
    ensures var (core, n) := (Core(name, gap, body), |name + gap|);
      n + 1 < |core| && core[..n] == name + gap && core[n + 1..|core| - 1] == body
  {
  }

  lemma CoreParses(hash: Hash, core: string, n: nat, name: string, gap: string, body: string)
    requires Blank(gap) && name != "" && Trimmed(name)
    requires n + 1 < |core| && core[..n] == name + gap && core[n + 1..|core| - 1] == body
    ensures ParseCut(hash, core, n) == Signed(hash, name, ParseParams(body))
  {
    NameTrims(name, gap);
  }

  /** What parsing does with a signature cut at its parentheses. */
  lemma CutParses(hash: Hash, text: string, name: string, gap: string, body: string)
    requires Trim(text) == Core(name, gap, body)
    requires Blank(gap) && name != "" && Trimmed(name) && '(' !in name
    ensures Parse(hash, text) == Signed(hash, name, ParseParams(body))
  {
    CoreSplits(name, gap, body);
    CoreSlices(name, gap, body);
    CoreParses(hash, Core(name, gap, body), |name + gap|, name, gap, body);
  }

  lemma NameTrims(name: string, gap: string)
    requires Blank(gap) && Trimmed(name)
    ensures Trim(name + gap) == name
  {
    TrimPadded("", name, gap);
    TrimIdle(name);
    assert "" + name + gap == name + gap;
  }

  /** Every spelling parses to its meaning. */
  lemma SpellingParses(hash: Hash, s: Spelling)
    requires s.Valid()
    ensures Parse(hash, s.Text()) == Ok(s.Meaning(hash))
  {
    var core := Core(s.name, s.gap, s.Body());
    CoreTrimmed(s.name, s.gap, s.Body());
    TrimPadded(s.before, core, s.after);
    TrimIdle(core);
    BodyParses(s);
    CutParses(hash, s.Text(), s.name, s.gap, s.Body());
  }

  lemma BodySpelled(body: string) returns (params: seq<ParamSpelling>)
    requires ParseParams(body).Ok?
    ensures forall i :: 0 <= i < |params| ==> params[i].Valid()
    ensures Meanings(params) == ParseParams(body).value
    ensures if params == [] then Blank(body) else body == Join(Texts(params), ',')
  {
    params := [];
    if Trim(body) == "" {
      var a, b := TrimSplit(body);
    } else {
      ParseEachOfTrim(body);
      JoinOfSplit(body, ',');
      params := EachSpelled(Split(body, ','));
    }
  }

  /** The parts of a text that parses. */
  lemma CutSpelled(hash: Hash, t: string, open: nat) returns (before: string, name: string, gap: string, body: string)
    requires open + 1 < |t| && t[open] == '(' && '(' !in t[..open] && t[|t| - 1] == ')' && ParseCut(hash, t, open).Ok?
    ensures Blank(before) && Blank(gap) && name != "" && Trimmed(name) && '(' !in name
    ensures before + Core(name, gap, body) == t && ParseParams(body).Ok?
    ensures ParseCut(hash, t, open) == Signed(hash, name, ParseParams(body))
  {
    before, gap := TrimSplit(t[..open]);
    name := Trim(t[..open]);
    body := t[open + 1..|t| - 1];
    assert forall x :: x in name ==> x in t[..open];
    CoreText(before, name, gap, body, t, open);
  }

  lemma TrimmedSpelled(hash: Hash, t: string, open: nat, a: string, b: string) returns (s: Spelling)
    requires open + 1 < |t| && t[open] == '(' && '(' !in t[..open] && t[|t| - 1] == ')' && ParseCut(hash, t, open).Ok?
    requires Blank(a) && Blank(b)
    ensures s.Valid() && s.Text() == a + t + b && Ok(s.Meaning(hash)) == ParseCut(hash, t, open)
  {
    var before, name, gap, body := CutSpelled(hash, t, open);
    var params := BodySpelled(body);
    s := Spelling(a + before, name, gap, params, if params == [] then body else "", b);
    SpellingOf(s, a, before, body);
  }

  /** Every string that parses is a spelling of what it parses to: together with `SpellingParses`, the
      accepted strings are exactly the spellings. */
  lemma ParsedIsSpelled(hash: Hash, text: string) returns (s: Spelling)
    requires Parse(hash, text).Ok?
    ensures s.Valid() && s.Text() == text && Ok(s.Meaning(hash)) == Parse(hash, text)
  {
    var a, b := TrimSplit(text);
    var open := ParseIsCut(hash, Trim(text));
    s := TrimmedSpelled(hash, Trim(text), open, a, b);
  }

  /** A trimmed text that parses is cut at its first opening parenthesis. */
  lemma ParseIsCut(hash: Hash, t: string) returns (open: nat)
    requires ParseTrimmed(hash, t).Ok?
    ensures open + 1 < |t| && t[open] == '(' && '(' !in t[..open] && t[|t| - 1] == ')'
    ensures ParseTrimmed(hash, t) == ParseCut(hash, t, open)
  {
    open := Find(t, '(');
  }

  lemma SpellingOf(s: Spelling, a: string, before: string, body: string)
    requires s.Body() == body && s.before == a + before
    ensures s.Text() == a + (before + Core(s.name, s.gap, body)) + s.after
  {
  }

  lemma CoreText(before: string, name: string, gap: string, body: string, t: string, open: nat)
    requires open < |t| - 1 && t[open] == '(' && t[|t| - 1] == ')'
    requires t[..open] == before + name + gap && body == t[open + 1..|t| - 1]
    ensures before + Core(name, gap, body) == t
  {
  }

  // The canonical spelling

  function Bare(ty: AbiType): ParamSpelling {
    ParamSpelling("", Print(ty), None, None, "")
  }

  function Bares(params: seq<AbiParam>): (r: seq<ParamSpelling>)
    ensures |r| == |params|
  {
    seq(|params|, i requires 0 <= i < |params| => Bare(params[i].ty))
  }

  /** The same parameters without names and marks. */
  function Stripped(params: seq<AbiParam>): (r: seq<AbiParam>)
    ensures |r| == |params|
  {
    seq(|params|, i requires 0 <= i < |params| => AbiParam("", params[i].ty, false))
  }

  ghost predicate ValidTypes(params: seq<AbiParam>) {
    forall i :: 0 <= i < |params| ==> params[i].ty.Valid()
  }

  lemma BareMeans(ty: AbiType)
    requires ty.Valid()
    ensures Bare(ty).Valid() && Bare(ty).Meaning() == AbiParam("", ty, false) && Bare(ty).Text() == Print(ty)
  {
    PrintPlain(ty);
    PrintParses(ty);
  }

  lemma BaresMean(params: seq<AbiParam>)
    requires ValidTypes(params)
    ensures forall i :: 0 <= i < |params| ==> Bares(params)[i].Valid()
    ensures Meanings(Bares(params)) == Stripped(params) && Texts(Bares(params)) == Prints(params)
  {
    forall i | 0 <= i < |params| ensures var b := Bares(params)[i];
      b.Valid() && b.Meaning() == Stripped(params)[i] && b.Text() == Prints(params)[i]
    {
      BareMeans(params[i].ty);
    }
  }

  lemma CanonicalText(s: Spelling)
    requires s.before == s.gap == s.pad == s.after == ""
    ensures s.Text() == s.name + ['('] + Join(Texts(s.params), ',') + [')']
  {
    assert s.name + s.gap == s.name;
    var core := Core(s.name, "", s.Body());
    assert "" + core + "" == core;
    assert core == s.name + ['('] + s.Body() + [')'];
  }

  lemma CanonicalParses(hash: Hash, name: string, params: seq<AbiParam>)
    requires name != "" && Trimmed(name) && '(' !in name && ValidTypes(params)
    ensures Parse(hash, Canonical(name, params))
      == Ok(EventSignature(name, Stripped(params), hash(Canonical(name, params))))
  {
    var s := Spelling("", name, "", Bares(params), "", "");
    BaresMean(params);
    CanonicalText(s);
    SpellingParses(hash, s);
    assert Prints(Stripped(params)) == Prints(params);
  }

  lemma ParsedIsCanonical(hash: Hash, text: string)
    requires Parse(hash, text).Ok?
    ensures var sig := Parse(hash, text).value;
      && sig.name != "" && Trimmed(sig.name) && '(' !in sig.name && ValidTypes(sig.params)
      && sig.topic0 == hash(Canonical(sig.name, sig.params))
  {
    var s := ParsedIsSpelled(hash, text);
    forall i | 0 <= i < |s.params| ensures s.params[i].Meaning().ty.Valid() {
      ParsedTypeValid(s.params[i].typ);
    }
  }

  /** Parse, print, parse again: the same name and types, unnamed and unmarked, the identical canonical
      string, hence the same topic. */
  lemma ParsePrintFixpoint(hash: Hash, text: string)
    requires Parse(hash, text).Ok?
    ensures var sig := Parse(hash, text).value;
      var canonical := Canonical(sig.name, sig.params);
      && Parse(hash, canonical) == Ok(EventSignature(sig.name, Stripped(sig.params), sig.topic0))
      && Canonical(sig.name, Stripped(sig.params)) == canonical
  {
    var sig := Parse(hash, text).value;
    ParsedIsCanonical(hash, text);
    CanonicalParses(hash, sig.name, sig.params);
    assert Prints(Stripped(sig.params)) == Prints(sig.params);
  }

  function TypesOf(params: seq<AbiParam>): (r: seq<AbiType>)
    ensures |r| == |params|
  {
    seq(|params|, i requires 0 <= i < |params| => params[i].ty)
  }

  lemma StrippedTypes(params: seq<AbiParam>)
    ensures TypesOf(Stripped(params)) == TypesOf(params)
  {
  }

  lemma SameTypesPrint(a: seq<AbiParam>, b: seq<AbiParam>)
    requires TypesOf(a) == TypesOf(b)
    ensures Prints(a) == Prints(b)
  {
    assert |a| == |TypesOf(a)| == |b|;
    forall i | 0 <= i < |a| ensures Prints(a)[i] == Prints(b)[i] {
      assert TypesOf(a)[i] == TypesOf(b)[i];
    }
  }

  lemma CanonicalDetermines(hash: Hash, x: EventSignature, y: EventSignature)
    requires Canonical(x.name, x.params) == Canonical(y.name, y.params)
    requires Parse(hash, Canonical(x.name, x.params)) == Ok(EventSignature(x.name, Stripped(x.params), x.topic0))
    requires Parse(hash, Canonical(y.name, y.params)) == Ok(EventSignature(y.name, Stripped(y.params), y.topic0))
    ensures x.name == y.name && TypesOf(x.params) == TypesOf(y.params)
  {
    assert Stripped(x.params) == Stripped(y.params);
    StrippedTypes(x.params);
    StrippedTypes(y.params);
  }

  /** Two strings that parse have the same canonical string exactly when they have the same event name
      and the same list of types. */
  lemma CanonicalIffSameEvent(hash: Hash, a: string, b: string)
    requires Parse(hash, a).Ok? && Parse(hash, b).Ok?
    ensures var (x, y) := (Parse(hash, a).value, Parse(hash, b).value);
      Canonical(x.name, x.params) == Canonical(y.name, y.params) <==>
        x.name == y.name && TypesOf(x.params) == TypesOf(y.params)
  {
    var (x, y) := (Parse(hash, a).value, Parse(hash, b).value);
    if x.name == y.name && TypesOf(x.params) == TypesOf(y.params) {
      SameTypesPrint(x.params, y.params);
    } else if Canonical(x.name, x.params) == Canonical(y.name, y.params) {
      ParsePrintFixpoint(hash, a);
      ParsePrintFixpoint(hash, b);
      CanonicalDetermines(hash, x, y);
    }
  }

  /** Spellings that agree on the name and on what each type word means share canonical string and topic,
      whatever their whitespace, parameter names and indexed marks. */
  lemma SpellingIsIrrelevant(hash: Hash, a: Spelling, b: Spelling)
    requires a.Valid() && b.Valid() && a.name == b.name && |a.params| == |b.params|
    requires forall i :: 0 <= i < |a.params| ==> ParseType(a.params[i].typ) == ParseType(b.params[i].typ)
    ensures var (x, y) := (Parse(hash, a.Text()), Parse(hash, b.Text()));
      x.Ok? && y.Ok? && x.value.topic0 == y.value.topic0
      && Canonical(x.value.name, x.value.params) == Canonical(y.value.name, y.value.params)
  {
    SpellingParses(hash, a);
    SpellingParses(hash, b);
    assert Prints(Meanings(a.params)) == Prints(Meanings(b.params));
  }
}
