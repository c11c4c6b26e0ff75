/** The string operations the signature parser is built on, and what undoes what. */
module AbiText {
  import opened Types

  /** Unicode White_Space. */
  predicate IsSpace(c: char) {
    || '\U{9}' <= c <= '\U{D}' || c == ' ' || c == '\U{85}' || c == '\U{A0}' || c == '\U{1680}'
    || '\U{2000}' <= c <= '\U{200A}' || c == '\U{2028}' || c == '\U{2029}' || c == '\U{202F}'
    || c == '\U{205F}' || c == '\U{3000}'
  }

  /** The 25 characters of Unicode that are whitespace. */
  lemma SpacesAre(c: char)
    ensures IsSpace(c) <==> c as int in {
      9, 10, 11, 12, 13, 32, 133, 160, 5760, 8192, 8193, 8194, 8195, 8196, 8197, 8198, 8199, 8200, 8201, 8202,
      8232, 8233, 8239, 8287, 12288}
  {
  }

  predicate Blank(s: string) {
    forall i :: 0 <= i < |s| ==> IsSpace(s[i])
  }

  predicate IsWord(s: string) {
    s != "" && forall i :: 0 <= i < |s| ==> !IsSpace(s[i])
  }

  // Trimming

  function TrimStart(s: string): string {
    if s != "" && IsSpace(s[0]) then TrimStart(s[1..]) else s
  }

  function TrimEnd(s: string): string {
    if s != "" && IsSpace(s[|s| - 1]) then TrimEnd(s[..|s| - 1]) else s
  }

  function Trim(s: string): string {
    TrimEnd(TrimStart(s))
  }

  /** No whitespace at either end. */
  predicate Trimmed(s: string) {
    s != "" ==> !IsSpace(s[0]) && !IsSpace(s[|s| - 1])
  }

  lemma {:induction false} TrimStartOf(w: string, s: string)
    requires Blank(w)
    ensures TrimStart(w + s) == TrimStart(s)
  {
    if w == "" {
      assert w + s == s;
    } else {
      assert (w + s)[1..] == w[1..] + s;
      TrimStartOf(w[1..], s);
    }
  }

  lemma {:induction false} TrimEndOf(s: string, w: string)
    requires Blank(w)
    ensures TrimEnd(s + w) == TrimEnd(s)
  {
    if w == "" {
      assert s + w == s;
    } else {
      var n := |w| - 1;
      assert (s + w)[..|s + w| - 1] == s + w[..n];
      TrimEndOf(s, w[..n]);
    }
  }

  lemma {:induction false} TrimStartSplit(s: string) returns (w: string)
    ensures Blank(w) && s == w + TrimStart(s)
    ensures TrimStart(s) != "" ==> !IsSpace(TrimStart(s)[0])
  {
    w := "";
    if s != "" && IsSpace(s[0]) {
      var v := TrimStartSplit(s[1..]);
      w := [s[0]] + v;
      assert s == [s[0]] + s[1..];
    }
  }

  lemma {:induction false} TrimEndSplit(s: string) returns (w: string)
    ensures Blank(w) && s == TrimEnd(s) + w
    ensures TrimEnd(s) != "" ==> !IsSpace(TrimEnd(s)[|TrimEnd(s)| - 1])
  {
    w := "";
    if s != "" && IsSpace(s[|s| - 1]) {
      var n := |s| - 1;
      var v := TrimEndSplit(s[..n]);
      w := v + [s[n]];
      assert s == s[..n] + [s[n]];
    }
  }

  /** What trimming removes is whitespace, and all of it. */
  lemma TrimSplit(s: string) returns (a: string, b: string)
    ensures Blank(a) && Blank(b) && s == a + Trim(s) + b && Trimmed(Trim(s))
  {
    a := TrimStartSplit(s);
    b := TrimEndSplit(TrimStart(s));
  }

  /** Whitespace around a string does not change what trimming leaves. */
  lemma TrimPadded(a: string, s: string, b: string)
    requires Blank(a) && Blank(b)
    ensures Trim(a + s + b) == Trim(s)
  {
    assert a + s + b == a + (s + b);
    TrimStartOf(a, s + b);
    TrimTail(s, b);
  }

  lemma TrimTail(s: string, b: string)
    requires Blank(b)
    ensures Trim(s + b) == Trim(s)
  {
    var w := TrimStartSplit(s);
    var t := TrimStart(s);
    assert s + b == w + (t + b);
    TrimStartOf(w, t + b);
    if t == "" {
      assert t + b == b + "";
      TrimStartOf(b, "");
    } else {
      TrimEndOf(t, b);
    }
  }

  lemma TrimIdle(s: string)
    requires Trimmed(s)
    ensures Trim(s) == s
  {
  }

  // Words

  function WordLength(s: string): (n: nat)
    ensures n <= |s|
  {
    if s == "" || IsSpace(s[0]) then 0 else 1 + WordLength(s[1..])
  }

  /** The maximal whitespace-free pieces, in order. */
  function Words(s: string): seq<string>
    decreases |s|
  {
    if s == "" then []
    else if IsSpace(s[0]) then Words(s[1..])
    else [s[..WordLength(s)]] + Words(s[WordLength(s)..])
  }

  lemma {:induction false} WordsBlank(w: string, s: string)
    requires Blank(w)
    ensures Words(w + s) == Words(s)
  {
    if w == "" {
      assert w + s == s;
    } else {
      assert (w + s)[1..] == w[1..] + s;
      WordsBlank(w[1..], s);
    }
  }

  /** Where a string may follow a word: at its end or at whitespace. */
  predicate Breaks(s: string) {
    s != "" ==> IsSpace(s[0])
  }

  lemma {:induction false} WordLengthOf(t: string, s: string)
    requires (forall i :: 0 <= i < |t| ==> !IsSpace(t[i])) && Breaks(s)
    ensures WordLength(t + s) == |t|
  {
    if t != "" {
      assert (t + s)[1..] == t[1..] + s;
      WordLengthOf(t[1..], s);
    } else {
      assert t + s == s;
    }
  }

  lemma WordsWord(t: string, s: string)
    requires IsWord(t) && Breaks(s)
    ensures Words(t + s) == [t] + Words(s)
  {
    WordLengthOf(t, s);
    assert (t + s)[..|t|] == t && (t + s)[|t|..] == s;
  }

  lemma {:induction false} WordLengthIs(s: string)
    ensures var n := WordLength(s);
      (forall i :: 0 <= i < n ==> !IsSpace(s[i])) && Breaks(s[n..])
  {
    if s != "" && !IsSpace(s[0]) {
      WordLengthIs(s[1..]);
      assert s[1..][WordLength(s[1..])..] == s[WordLength(s)..];
      forall i | 0 <= i < WordLength(s) ensures !IsSpace(s[i]) {
        if i > 0 {
          assert s[1..][i - 1] == s[i];
        }
      }
    } else {
      assert s[0..] == s;
    }
  }

  /** The string before its first word, that word, and the string after it. */
  lemma {:induction false} FirstWord(s: string) returns (gap: string, rest: string)
    requires Words(s) != []
    ensures Blank(gap) && s == gap + Words(s)[0] + rest
    ensures IsWord(Words(s)[0]) && Breaks(rest) && Words(rest) == Words(s)[1..]
    decreases |s|
  {
    if IsSpace(s[0]) {
      var g, r := FirstWord(s[1..]);
      gap, rest := [s[0]] + g, r;
      GapGrows(s, g, Words(s)[0], r);
    } else {
      WordLengthIs(s);
      gap, rest := "", s[WordLength(s)..];
    }
  }

  lemma GapGrows(s: string, gap: string, word: string, rest: string)
    requires s != "" && IsSpace(s[0]) && Blank(gap) && s[1..] == gap + word + rest
    ensures Blank([s[0]] + gap) && s == ([s[0]] + gap) + word + rest
  {
    assert s == [s[0]] + s[1..];
    assert [s[0]] + (gap + word + rest) == ([s[0]] + gap) + word + rest;
  }

  lemma {:induction false} NoWords(s: string)
    requires Words(s) == []
    ensures Blank(s)
  {
    if s != "" {
      NoWords(s[1..]);
      assert s == [s[0]] + s[1..];
    }
  }

  /** Whitespace at the end adds no word. */
  lemma {:induction false} WordsTail(s: string, w: string)
    requires Blank(w)
    ensures Words(s + w) == Words(s)
    decreases |Words(s)|
  {
    if Words(s) == [] {
      NoWords(s);
      WordsBlank(s, w);
      WordsBlank(w, "");
      assert w + "" == w;
      WordsBlank(s, "");
      assert s + "" == s;
    } else {
      var gap, rest := FirstWord(s);
      var t := Words(s)[0];
      WordsTail(rest, w);
      assert s + w == gap + (t + (rest + w));
      WordsBlank(gap, t + (rest + w));
      WordsWord(t, rest + w);
    }
  }

  lemma WordsOfTrim(s: string)
    ensures Words(Trim(s)) == Words(s)
  {
    var a, b := TrimSplit(s);
    assert s == a + (Trim(s) + b);
    WordsBlank(a, Trim(s) + b);
    WordsTail(Trim(s), b);
  }

  // Splitting at a character

  function Find(s: string, c: char): (i: nat)
    requires c in s
    ensures i < |s| && s[i] == c && c !in s[..i]
  {
    if s[0] == c then 0 else 1 + Find(s[1..], c)
  }

  lemma {:induction false} FindAt(a: string, c: char, b: string)
    requires c !in a
    ensures c in a + [c] + b && Find(a + [c] + b, c) == |a|
  {
    assert (a + [c] + b)[|a|] == c;
    if a != "" {
      FindAt(a[1..], c, b);
      assert (a + [c] + b)[1..] == a[1..] + [c] + b;
    }
  }

  function Split(s: string, c: char): (parts: seq<string>)
    ensures parts != []
    decreases |s|
  {
    if c !in s then [s] else [s[..Find(s, c)]] + Split(s[Find(s, c) + 1..], c)
  }

  function Join(parts: seq<string>, c: char): string {
    if parts == [] then ""
    else if |parts| == 1 then parts[0]
    else parts[0] + [c] + Join(parts[1..], c)
  }

  predicate Free(parts: seq<string>, c: char) {
    forall i :: 0 <= i < |parts| ==> c !in parts[i]
  }

  lemma {:induction false} JoinOfSplit(s: string, c: char)
    ensures Join(Split(s, c), c) == s && Free(Split(s, c), c)
    decreases |s|
  {
    if c in s {
      var i := Find(s, c);
      JoinOfSplit(s[i + 1..], c);
      assert Split(s, c)[1..] == Split(s[i + 1..], c);
      assert s == s[..i] + [c] + s[i + 1..];
    }
  }

  lemma {:induction false} SplitOfJoin(parts: seq<string>, c: char)
    requires parts != [] && Free(parts, c)
    ensures Split(Join(parts, c), c) == parts
  {
    if |parts| == 1 {
      assert parts == [parts[0]];
    } else {
      var rest := Join(parts[1..], c);
      assert forall i :: 0 <= i < |parts[1..]| ==> parts[1..][i] == parts[i + 1];
      SplitOfJoin(parts[1..], c);
      FindAt(parts[0], c, rest);
      var s := parts[0] + [c] + rest;
      assert s[..|parts[0]|] == parts[0] && s[|parts[0]| + 1..] == rest;
    }
  }

  lemma {:induction false} JoinLast(parts: seq<string>, p: string, c: char)
    requires parts != []
    ensures Join(parts + [p], c) == Join(parts, c) + [c] + p
  {
    if |parts| == 1 {
      assert (parts + [p])[1..] == [p];
    } else {
      assert (parts + [p])[1..] == parts[1..] + [p];
      JoinLast(parts[1..], p, c);
      var (h, t) := (parts[0] + [c], Join(parts[1..], c));
      assert h + (t + [c] + p) == (h + t) + [c] + p;
    }
  }

  /** Padding the first and the last part pads the whole. */
  lemma {:induction false} JoinPadded(parts: seq<string>, a: string, b: string, c: char)
    requires parts != []
    ensures Join(Padded(parts, a, b), c) == a + Join(parts, c) + b
    decreases |parts|
  {
    if |parts| == 2 {
      JoinPaddedTwo(parts, a, b, c);
    } else if |parts| > 2 {
      JoinPadded(parts[1..], "", b, c);
      PaddedTail(parts, a, b);
      JoinPaddedMore(parts[0], Join(parts[1..], c), a, b, c);
    }
  }

  lemma JoinPaddedTwo(parts: seq<string>, a: string, b: string, c: char)
    requires |parts| == 2
    ensures Join(Padded(parts, a, b), c) == a + Join(parts, c) + b
  {
    var (x, y) := (parts[0], parts[1]);
    assert Padded(parts, a, b)[0] == a + x + "" == a + x;
    assert Padded(parts, a, b)[1] == "" + y + b == y + b;
    assert Padded(parts, a, b)[1..] == [y + b] && parts[1..] == [y];
    assert (a + x) + [c] + (y + b) == a + (x + [c] + y) + b;
  }

  lemma PaddedTail(parts: seq<string>, a: string, b: string)
    requires |parts| > 2
    ensures Padded(parts, a, b)[0] == a + parts[0] && Padded(parts, a, b)[1..] == Padded(parts[1..], "", b)
  {
    assert a + parts[0] + "" == a + parts[0];
    var (left, right) := (Padded(parts, a, b)[1..], Padded(parts[1..], "", b));
    forall i | 0 <= i < |parts| - 1 ensures left[i] == right[i] {
      assert parts[1..][i] == parts[i + 1];
    }
  }

  lemma JoinPaddedMore(first: string, rest: string, a: string, b: string, c: char)
    ensures (a + first) + [c] + ("" + rest + b) == a + (first + [c] + rest) + b
  {
    assert "" + rest + b == rest + b;
    assert (a + first) + [c] + (rest + b) == a + (first + [c] + rest) + b;
  }

  function Padded(parts: seq<string>, a: string, b: string): (r: seq<string>)
    requires parts != []
    ensures |r| == |parts|
  {
    var n := |parts| - 1;
    seq(n + 1, i requires 0 <= i < n + 1 => (if i == 0 then a else "") + parts[i] + (if i == n then b else ""))
  }

  /** Splitting a padded string pads the first and the last part. */
  lemma SplitPadded(a: string, s: string, b: string, c: char)
    requires c !in a && c !in b
    ensures Split(a + s + b, c) == Padded(Split(s, c), a, b)
  {
    JoinOfSplit(s, c);
    var parts := Split(s, c);
    JoinPadded(parts, a, b, c);
    forall i | 0 <= i < |parts| ensures c !in Padded(parts, a, b)[i] {
      assert c !in parts[i];
    }
    SplitOfJoin(Padded(parts, a, b), c);
  }

  // Decimal numbers

  function DigitOf(d: nat): char
    requires d < 10
  {
    '0' + d as char
  }

  predicate IsDigit(c: char) {
    '0' <= c <= '9'
  }

  function Decimal(n: nat): string {
    (if n < 10 then "" else Decimal(n / 10)) + [DigitOf(n % 10)]
  }

  function DigitsValue(s: string): Option<nat> {
    if s == "" then Some(0)
    else
      var last := s[|s| - 1];
      var rest := DigitsValue(s[..|s| - 1]);
      if rest.Some? && IsDigit(last) then Some(rest.value * 10 + (last as int - '0' as int)) else None
  }

  /** Unsigned parsing: an optional plus sign, then at least one digit, and no overflow. */
  function ParseUnsigned(s: string, max: nat): Option<nat> {
    var digits := if s != "" && s[0] == '+' then s[1..] else s;
    if digits == "" then None
    else
      var value := DigitsValue(digits);
      if value.Some? && value.value <= max then value else None
  }

  /** A string of digits, not empty, with this value. */
  predicate Shows(s: string, n: nat) {
    s != "" && DigitsValue(s) == Some(n) && forall i :: 0 <= i < |s| ==> IsDigit(s[i])
  }

  lemma ShowsMore(s: string, n: nat, d: nat)
    requires d < 10 && (if s == "" then n == 0 else Shows(s, n))
    ensures Shows(s + [DigitOf(d)], n * 10 + d)
  {
    var t := s + [DigitOf(d)];
    assert t[..|t| - 1] == s;
  }

  lemma {:induction false} DecimalShows(n: nat)
    ensures Shows(Decimal(n), n)
  {
    if n >= 10 {
      DecimalShows(n / 10);
      ShowsMore(Decimal(n / 10), n / 10, n % 10);
    } else {
      ShowsMore("", 0, n);
    }
  }

  lemma DecimalDigits(n: nat)
    ensures Decimal(n) != "" && DigitsValue(Decimal(n)) == Some(n)
    ensures forall i :: 0 <= i < |Decimal(n)| ==> IsDigit(Decimal(n)[i])
  {
    DecimalShows(n);
  }

  /** A printed number reads back as itself. */
  lemma DecimalRoundTrip(n: nat, max: nat)
    requires n <= max
    ensures ParseUnsigned(Decimal(n), max) == Some(n)
  {
    DecimalDigits(n);
  }

  function Pow10(n: nat): nat {
    if n == 0 then 1 else 10 * Pow10(n - 1)
  }

  predicate AllDigits(s: string) {
    forall i :: 0 <= i < |s| ==> IsDigit(s[i])
  }

  /** A string of digits as a number, each digit with the weight of its place. */
  function Numeral(s: string): int
    requires AllDigits(s)
  {
    if s == "" then 0 else (s[0] as int - '0' as int) * Pow10(|s| - 1) + Numeral(s[1..])
  }

  lemma {:induction false} NumeralGrows(s: string, c: char)
    requires IsDigit(c) && AllDigits(s)
    ensures Numeral(s + [c]) == Numeral(s) * 10 + (c as int - '0' as int)
  {
    if s == "" {
      assert s + [c] == [c] && [c][1..] == "";
      assert Pow10(0) == 1 && Numeral([c]) == c as int - '0' as int;
    } else {
      assert (s + [c])[1..] == s[1..] + [c];
      NumeralGrows(s[1..], c);
      var d := s[0] as int - '0' as int;
      assert Pow10(|s|) == 10 * Pow10(|s| - 1);
      Weigh(d, Pow10(|s| - 1));
    }
  }

  lemma Weigh(d: int, p: nat)
    ensures d * (10 * p) == d * p * 10
  {
  }

  lemma {:induction false} DigitsValueExact(s: string)
    ensures DigitsValue(s).Some? <==> AllDigits(s)
    ensures DigitsValue(s).Some? ==> DigitsValue(s).value == Numeral(s)
  {
    if s != "" {
      var (t, c) := (s[..|s| - 1], s[|s| - 1]);
      assert s == t + [c];
      DigitsValueExact(t);
      if DigitsValue(s).Some? {
        NumeralGrows(t, c);
      }
    }
  }

  /** A number as text: at least one digit, after an optional plus sign. */
  ghost predicate NumberText(s: string, n: nat) {
    var digits := if s != "" && s[0] == '+' then s[1..] else s;
    digits != "" && AllDigits(digits) && Numeral(digits) == n
  }

  /** Exactly the texts of numbers up to the bound are read, each as its number. */
  lemma ParseUnsignedExact(s: string, max: nat, n: nat)
    ensures ParseUnsigned(s, max) == Some(n) <==> NumberText(s, n) && n <= max
  {
    var digits := if s != "" && s[0] == '+' then s[1..] else s;
    DigitsValueExact(digits);
  }
}
