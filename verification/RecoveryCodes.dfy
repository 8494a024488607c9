/**
Recovery codes: 160 bits of entropy written as 32 Crockford base-32 symbols. Both forms are the
digits of one number; the code converts them block by block, eight symbols against five bytes.
*/
module RecoveryCodes {
  import opened Wrappers

  const RECOVERY_CODE_ENTROPY_BYTES := 20
  const RECOVERY_CODE_CHARACTERS := 32
  const CROCKFORD_ALPHABET: string := "0123456789ABCDEFGHJKMNPQRSTVWXYZ"

  datatype CryptoError = MalformedRecoveryCode

  /* ---------- Positional numbers ---------- */

  function Pow(b: nat, n: nat): nat {
    if n == 0 then 1 else b * Pow(b, n - 1)
  }

  // The number whose base-`b` digits these are, most significant first.
  function Value(b: nat, digits: seq<nat>): nat {
    if digits == [] then 0
    else Value(b, digits[..|digits| - 1]) * b + digits[|digits| - 1]
  }

  // The last `n` base-`b` digits of a number, most significant first.
  function Digits(b: nat, n: nat, x: nat): (digits: seq<nat>)
    requires b > 0
    ensures |digits| == n
    ensures forall i :: 0 <= i < n ==> digits[i] < b
  {
    if n == 0 then [] else Digits(b, n - 1, x / b) + [x % b]
  }

  ghost predicate AreDigits(b: nat, digits: seq<nat>) {
    forall i :: 0 <= i < |digits| ==> digits[i] < b
  }

  lemma MulMono(a: nat, b: nat, c: nat)
    requires a <= b
    ensures a * c <= b * c
  {
  }

  lemma Identity(x: nat, b: nat)
    requires b > 0
    ensures x == x / b * b + x % b
  {
  }

  lemma HornerBelow(b: nat, v: nat, d: nat, p: nat)
    requires v < p && d < b
    ensures v * b + d < b * p
  {
    MulMono(v + 1, p, b);
    assert (v + 1) * b == v * b + b;
  }

  lemma DivMod(b: nat, q: nat, r: nat)
    requires r < b
    ensures (q * b + r) / b == q && (q * b + r) % b == r
  {
    var x := q * b + r;
    var q', r' := x / b, x % b;
    assert x == q' * b + r';
    if q' < q { MulMono(q' + 1, q, b); }
    if q < q' { MulMono(q + 1, q', b); }
  }

  lemma ValueSnoc(b: nat, digits: seq<nat>, d: nat)
    ensures Value(b, digits + [d]) == Value(b, digits) * b + d
  {
    assert (digits + [d])[..|digits|] == digits;
  }

  lemma {:induction false} DigitsOfValue(b: nat, digits: seq<nat>)
    requires b > 0 && AreDigits(b, digits)
    ensures Digits(b, |digits|, Value(b, digits)) == digits
  {
    if digits != [] {
      var last := |digits| - 1;
      DigitsOfValue(b, digits[..last]);
      DivMod(b, Value(b, digits[..last]), digits[last]);
    }
  }

  lemma {:induction false} ValueOfDigits(b: nat, n: nat, x: nat)
    requires b > 0 && x < Pow(b, n)
    ensures Value(b, Digits(b, n, x)) == x
  {
    if n > 0 {
      QuotientBelow(b, n, x);
      ValueOfDigits(b, n - 1, x / b);
      Identity(x, b);
      ValueSnoc(b, Digits(b, n - 1, x / b), x % b);
    }
  }

  lemma QuotientBelow(b: nat, n: nat, x: nat)
    requires b > 0 && n > 0 && x < Pow(b, n)
    ensures x / b < Pow(b, n - 1)
  {
    var p := Pow(b, n - 1);
    assert (x / b) * b <= x;
    if p <= x / b { MulMono(p, x / b, b); }
  }

  lemma {:induction false} ValueBelow(b: nat, digits: seq<nat>)
    requires b > 0 && AreDigits(b, digits)
    ensures Value(b, digits) < Pow(b, |digits|)
  {
    if digits != [] {
      var last := |digits| - 1;
      ValueBelow(b, digits[..last]);
      HornerBelow(b, Value(b, digits[..last]), digits[last], Pow(b, last));
    }
  }

  lemma {:induction false} ValueConcat(b: nat, x: seq<nat>, y: seq<nat>)
    ensures Value(b, x + y) == Value(b, x) * Pow(b, |y|) + Value(b, y)
  {
    if y == [] {
      assert x + y == x;
    } else {
      var last := |y| - 1;
      ValueConcat(b, x, y[..last]);
      assert (x + y)[..|x + y| - 1] == x + y[..last];
      Regroup(b, Value(b, x), Pow(b, last), Value(b, y[..last]), y[last]);
    }
  }

  lemma Regroup(b: nat, v: nat, p: nat, w: nat, d: nat)
    ensures (v * p + w) * b + d == v * (b * p) + (w * b + d)
  {
  }

  lemma LastDigit(b: nat, hi: nat, p: nat, lo: nat)
    requires b > 0
    ensures (hi * (b * p) + lo) / b == hi * p + lo / b && (hi * (b * p) + lo) % b == lo % b
  {
    Identity(lo, b);
    Regroup(b, hi, p, lo / b, lo % b);
    DivMod(b, hi * p + lo / b, lo % b);
  }

  lemma {:induction false} DigitsConcat(b: nat, n: nat, m: nat, hi: nat, lo: nat)
    requires b > 0 && lo < Pow(b, m)
    ensures Digits(b, n + m, hi * Pow(b, m) + lo) == Digits(b, n, hi) + Digits(b, m, lo)
    decreases m
  {
    if m > 0 {
      QuotientBelow(b, m, lo);
      DigitsConcat(b, n, m - 1, hi, lo / b);
      LastDigit(b, hi, Pow(b, m - 1), lo);
    }
  }

  lemma {:induction false} DigitByDivision(b: nat, n: nat, x: nat, i: nat)
    requires b > 0 && i < n
    ensures Pow(b, n - 1 - i) > 0
    ensures Digits(b, n, x)[i] == x / Pow(b, n - 1 - i) % b
    decreases n
  {
    PowPositive(b, n - 1 - i);
    if i < n - 1 {
      DigitByDivision(b, n - 1, x / b, i);
      DivDiv(x, b, Pow(b, n - 2 - i));
    }
  }

  lemma {:induction false} PowPositive(b: nat, n: nat)
    requires b > 0
    ensures Pow(b, n) > 0
  {
    if n > 0 { PowPositive(b, n - 1); }
  }

  lemma MulPositive(a: nat, b: nat)
    requires a > 0 && b > 0
    ensures a * b > 0
  {
  }

  lemma DivDiv(x: nat, b: nat, p: nat)
    requires b > 0 && p > 0
    ensures b * p > 0 && x / b / p == x / (b * p)
  {
    var y, s := x / b, x % b;
    var q, r := y / p, y % p;
    Identity(x, b);
    Identity(y, p);
    assert y * b == (q * p + r) * b;
    Regroup(b, q, p, r, s);
    HornerBelow(b, r, s, p);
    MulPositive(b, p);
    DivMod(b * p, q, r * b + s);
  }

  /* ---------- Characters ---------- */

  // The code points of the Unicode White_Space property.
  predicate IsWhitespace(c: char) {
    var p := c as int;
    9 <= p <= 13 || p == 0x20 || p == 0x85 || p == 0xA0 || p == 0x1680 || 0x2000 <= p <= 0x200A ||
    p == 0x2028 || p == 0x2029 || p == 0x202F || p == 0x205F || p == 0x3000
  }

  predicate IsSeparator(c: char) {
    IsWhitespace(c) || c == '-'
  }

  function AsciiUpper(c: char): char {
    if 'a' <= c <= 'z' then ((c as int) - 32) as char else c
  }

  function Confusable(c: char): char {
    match AsciiUpper(c)
    case 'I' => '1'
    case 'L' => '1'
    case 'O' => '0'
    case other => other
  }

  function Position(alphabet: string, c: char): (p: Option<nat>)
    ensures p.Some? ==> p.value < |alphabet| && alphabet[p.value] == c
    ensures p.Some? ==> forall i :: 0 <= i < p.value ==> alphabet[i] != c
    ensures p.None? ==> c !in alphabet
  {
    if alphabet == [] then None
    else if alphabet[0] == c then Some(0)
    else
      match Position(alphabet[1..], c)
      case None => None
      case Some(p) => Some(p + 1)
  }

  function CrockfordValue(c: char): Option<nat> {
    Position(CROCKFORD_ALPHABET, Confusable(c))
  }

  /* ---------- What a code means ---------- */

  // What the user typed: separators dropped, upper case, I and L read as 1 and O as 0.
  function Normalize(s: string): string {
    if s == [] then []
    else if IsSeparator(s[|s| - 1]) then Normalize(s[..|s| - 1])
    else Normalize(s[..|s| - 1]) + [Confusable(s[|s| - 1])]
  }

  predicate OverAlphabet(s: string) {
    forall i :: 0 <= i < |s| ==> s[i] in CROCKFORD_ALPHABET
  }

  function SymbolOf(c: char): (v: nat)
    requires c in CROCKFORD_ALPHABET
    ensures v < 32 && CROCKFORD_ALPHABET[v] == c
  {
    Position(CROCKFORD_ALPHABET, c).value
  }

  function Symbols(s: string): (v: seq<nat>)
    requires OverAlphabet(s)
    ensures |v| == |s| && forall i :: 0 <= i < |s| ==> v[i] < 32 && CROCKFORD_ALPHABET[v[i]] == s[i]
  {
    seq(|s|, i requires 0 <= i < |s| => SymbolOf(s[i]))
  }

  predicate Accepted(s: string) {
    OverAlphabet(Normalize(s)) && |Normalize(s)| == RECOVERY_CODE_CHARACTERS
  }

  // The 20 bytes of the number whose 32 base-32 digits the normalized code spells.
  function Entropy(s: string): seq<nat>
    requires Accepted(s)
  {
    Digits(256, RECOVERY_CODE_ENTROPY_BYTES, Value(32, Symbols(Normalize(s))))
  }

  function Letters(symbols: seq<nat>): (s: string)
    requires forall i :: 0 <= i < |symbols| ==> symbols[i] < 32
    ensures |s| == |symbols| && forall i :: 0 <= i < |s| ==> s[i] == CROCKFORD_ALPHABET[symbols[i]]
  {
    seq(|symbols|, i requires 0 <= i < |symbols| => CROCKFORD_ALPHABET[symbols[i]])
  }

  // Groups of four, joined by dashes.
  function Grouped(s: string): string {
    if |s| <= 4 then s else s[..4] + "-" + Grouped(s[4..])
  }

  predicate IsEntropy(e: seq<nat>) {
    |e| == RECOVERY_CODE_ENTROPY_BYTES && forall i :: 0 <= i < |e| ==> e[i] < 256
  }

  // The 32 base-32 digits of the number whose 20 bytes these are, in groups of four.
  function Formatted(e: seq<nat>): string
    requires IsEntropy(e)
  {
    Grouped(Letters(Digits(32, RECOVERY_CODE_CHARACTERS, Value(256, e))))
  }

  /* ---------- The code ---------- */

  // `x >> bits` on a block below 2^40.
  function ShiftRight(x: nat, bits: nat): nat {
    PowPositive(2, bits);
    x / Pow(2, bits)
  }

  lemma BlockSizes()
    ensures Pow(32, 8) == Pow(256, 5) == 0x100_0000_0000
    ensures Pow(2, 0) == Pow(256, 0) && Pow(2, 8) == Pow(256, 1) && Pow(2, 16) == Pow(256, 2)
    ensures Pow(2, 24) == Pow(256, 3) && Pow(2, 32) == Pow(256, 4)
    ensures Pow(2, 0) == Pow(32, 0) && Pow(2, 5) == Pow(32, 1) && Pow(2, 10) == Pow(32, 2)
    ensures Pow(2, 15) == Pow(32, 3) && Pow(2, 20) == Pow(32, 4) && Pow(2, 25) == Pow(32, 5)
    ensures Pow(2, 30) == Pow(32, 6) && Pow(2, 35) == Pow(32, 7)
  {
  }

  lemma ByteOfBlock(block: nat, byte: nat)
    requires byte < 5
    ensures ShiftRight(block, 32 - byte * 8) % 256 == Digits(256, 5, block)[byte]
  {
    BlockSizes();
    DigitByDivision(256, 5, block, byte);
    assert Pow(2, 32 - byte * 8) == Pow(256, 4 - byte);
  }

  lemma SymbolOfBlock(block: nat, index: nat)
    requires index < 8
    ensures ShiftRight(block, 35 - index * 5) % 32 == Digits(32, 8, block)[index]
  {
    BlockSizes();
    DigitByDivision(32, 8, block, index);
    assert Pow(2, 35 - index * 5) == Pow(32, 7 - index);
  }

  lemma NormalizeStep(s: string, i: nat)
    requires i < |s|
    ensures Normalize(s[..i + 1]) == Normalize(s[..i]) + if IsSeparator(s[i]) then [] else [Confusable(s[i])]
  {
    assert s[..i + 1][..i] == s[..i];
  }

  lemma {:induction false} NormalizeKeeps(s: string, i: nat)
    requires i <= |s|
    ensures Normalize(s[..i]) <= Normalize(s)
    decreases |s| - i
  {
    if i < |s| {
      NormalizeStep(s, i);
      NormalizeKeeps(s, i + 1);
    } else {
      assert s[..i] == s;
    }
  }

  method ReadSymbols(value: string) returns (r: Result<seq<nat>, CryptoError>)
    ensures r.Ok? <==> OverAlphabet(Normalize(value))
    ensures r.Ok? ==> r.value == Symbols(Normalize(value))
  {
    var symbols: seq<nat> := [];
    for i := 0 to |value|
      invariant OverAlphabet(Normalize(value[..i]))
      invariant symbols == Symbols(Normalize(value[..i]))
    {
      NormalizeStep(value, i);
      if !IsSeparator(value[i]) {
        var symbol := CrockfordValue(value[i]);
        if symbol.None? {
          NormalizeKeeps(value, i + 1);
          assert Normalize(value)[|Normalize(value[..i])|] == Confusable(value[i]);
          return Err(MalformedRecoveryCode);
        }
        symbols := symbols + [symbol.value];
      }
    }
    assert value[..|value|] == value;
    return Ok(symbols);
  }

  method BlockValue(base: nat, chunk: seq<nat>) returns (block: nat)
    ensures block == Value(base, chunk)
  {
    block := 0;
    for k := 0 to |chunk|
      invariant block == Value(base, chunk[..k])
    {
      block := block * base + chunk[k];
      assert chunk[..k + 1][..k] == chunk[..k];
    }
    assert chunk[..|chunk|] == chunk;
  }

  // The five bytes of a block, most significant first.
  method WriteBlock(entropy: array<nat>, offset: nat, block: nat)
    requires offset + 5 <= entropy.Length
    modifies entropy
    ensures entropy[..offset + 5] == old(entropy[..offset]) + Digits(256, 5, block)
  {
    for byte := 0 to 5
      invariant entropy[..offset] == old(entropy[..offset])
      invariant forall k :: 0 <= k < byte ==> entropy[offset + k] == Digits(256, 5, block)[k]
    {
      ByteOfBlock(block, byte);
      entropy[offset + byte] := ShiftRight(block, 32 - byte * 8) % 256;
    }
  }

  /** `RecoveryCode::parse`: tolerant of grouping, case and confusables, and of nothing else. */
  method Parse(value: string) returns (r: Result<seq<nat>, CryptoError>)
    ensures r.Ok? <==> Accepted(value)
    ensures r.Ok? ==> r.value == Entropy(value)
  {
    var read := ReadSymbols(value);
    if read.Err? || |read.value| != RECOVERY_CODE_CHARACTERS {
      return Err(MalformedRecoveryCode);
    }
    var entropy := WriteEntropy(read.value);
    return Ok(entropy);
  }

  // Eight symbols at a time become five bytes.
  method WriteEntropy(symbols: seq<nat>) returns (bytes: seq<nat>)
    requires |symbols| == RECOVERY_CODE_CHARACTERS && AreDigits(32, symbols)
    ensures bytes == Digits(256, RECOVERY_CODE_ENTROPY_BYTES, Value(32, symbols))
  {
    hide Digits, Value, Pow;
    var entropy := new nat[20](i => 0);
    for index := 0 to 4
      invariant entropy[..5 * index] == Digits(256, 5 * index, Value(32, symbols[..8 * index]))
    {
      var block := BlockValue(32, symbols[8 * index..8 * index + 8]);
      ParseBlock(symbols, index);
      hide *;
      WriteBlock(entropy, index * 5, block);
    }
    assert symbols[..32] == symbols;
    return entropy[..];
  }

  lemma ParseBlock(symbols: seq<nat>, index: nat)
    requires index < 4 && |symbols| == 32 && AreDigits(32, symbols)
    ensures Digits(256, 5 * index + 5, Value(32, symbols[..8 * index + 8])) ==
            Digits(256, 5 * index, Value(32, symbols[..8 * index])) +
            Digits(256, 5, Value(32, symbols[8 * index..8 * index + 8]))
  {
    var done, chunk := symbols[..8 * index], symbols[8 * index..8 * index + 8];
    BlockSizes();
    hide Digits, Value, Pow;
    BlockJoins(256, 5, 32, 8, done, chunk, 5 * index);
    assert done + chunk == symbols[..8 * index + 8];
  }

  lemma FormatBlock(e: seq<nat>, index: nat)
    requires index < 4 && |e| == 20 && AreDigits(256, e)
    ensures Digits(32, 8 * index + 8, Value(256, e[..5 * index + 5])) ==
            Digits(32, 8 * index, Value(256, e[..5 * index])) +
            Digits(32, 8, Value(256, e[5 * index..5 * index + 5]))
  {
    var done, chunk := e[..5 * index], e[5 * index..5 * index + 5];
    BlockSizes();
    hide Digits, Value, Pow;
    BlockJoins(32, 8, 256, 5, done, chunk, 8 * index);
    assert done + chunk == e[..5 * index + 5];
  }

  // Appending one block of digits in base `from` appends one block of digits in base `to`.
  lemma BlockJoins(to: nat, m: nat, from: nat, k: nat, done: seq<nat>, chunk: seq<nat>, n: nat)
    requires to > 0 && from > 0 && |chunk| == k && AreDigits(from, chunk) && Pow(from, k) == Pow(to, m)
    ensures Digits(to, n + m, Value(from, done + chunk)) ==
            Digits(to, n, Value(from, done)) + Digits(to, m, Value(from, chunk))
  {
    ValueConcat(from, done, chunk);
    ValueBelow(from, chunk);
    DigitsConcat(to, n, m, Value(from, done), Value(from, chunk));
  }

  /** `RecoveryCode::formatted`: eight groups of four symbols. */
  method Format(e: seq<nat>) returns (code: string)
    requires IsEntropy(e)
    ensures code == Formatted(e)
  {
    hide Digits, Value, Pow, Grouped;
    var symbols: string := [];
    ghost var digits: seq<nat> := [];
    assert AreDigits(256, e);
    for index := 0 to 4
      invariant digits == Digits(32, 8 * index, Value(256, e[..5 * index]))
      invariant symbols == Letters(digits)
    {
      var block := BlockValue(256, e[5 * index..5 * index + 5]);
      FormatBlock(e, index);
      var letters := BlockLetters(block);
      LettersConcat(digits, Digits(32, 8, block));
      hide *;
      symbols := symbols + letters;
      digits := digits + Digits(32, 8, block);
    }
    assert e[..5 * 4] == e;
    code := Group(symbols);
  }

  lemma LettersConcat(a: seq<nat>, b: seq<nat>)
    requires AreDigits(32, a) && AreDigits(32, b)
    ensures AreDigits(32, a + b) && Letters(a + b) == Letters(a) + Letters(b)
  {
  }

  // The eight symbols of a block, most significant first.
  method BlockLetters(block: nat) returns (letters: string)
    ensures letters == Letters(Digits(32, 8, block))
  {
    hide Digits, Pow;
    letters := "";
    for k := 0 to 8
      invariant letters == Letters(Digits(32, 8, block)[..k])
    {
      SymbolOfBlock(block, k);
      var symbol := ShiftRight(block, 35 - k * 5) % 32;
      letters := letters + [CROCKFORD_ALPHABET[symbol]];
    }
  }

  method Group(symbols: string) returns (code: string)
    ensures code == Grouped(symbols)
  {
    code := "";
    var rest := symbols;
    while |rest| > 4
      invariant code + Grouped(rest) == Grouped(symbols)
    {
      assert code + Grouped(rest) == (code + rest[..4] + "-") + Grouped(rest[4..]);
      code := code + rest[..4] + "-";
      rest := rest[4..];
    }
    code := code + rest;
  }

  /* ---------- Round trips ---------- */

  lemma AlphabetIsCanonical(i: nat)
    requires i < 32
    ensures !IsSeparator(CROCKFORD_ALPHABET[i]) && Confusable(CROCKFORD_ALPHABET[i]) == CROCKFORD_ALPHABET[i]
  {
  }

  // The alphabet in code points: digits, then letters without I, L, O and U.
  lemma AlphabetCode(i: nat)
    requires i < 32
    ensures CROCKFORD_ALPHABET[i] as int == i +
      if i < 10 then 48 else if i < 18 then 55 else if i < 20 then 56 else if i < 22 then 57 else if i < 27 then 58 else 59
  {
  }

  lemma AlphabetIsDistinct(i: nat, j: nat)
    requires i < 32 && j < 32 && CROCKFORD_ALPHABET[j] == CROCKFORD_ALPHABET[i]
    ensures j == i
  {
    AlphabetCode(i);
    AlphabetCode(j);
  }

  lemma {:induction false} NormalizeConcat(s: string, t: string)
    ensures Normalize(s + t) == Normalize(s) + Normalize(t)
  {
    if t == [] {
      assert s + t == s;
    } else {
      NormalizeConcat(s, t[..|t| - 1]);
      assert (s + t)[..|s + t| - 1] == s + t[..|t| - 1];
    }
  }

  lemma {:induction false} NormalizeLetters(s: string)
    requires OverAlphabet(s)
    ensures Normalize(s) == s
  {
    if s != [] {
      var last := |s| - 1;
      NormalizeLetters(s[..last]);
      AlphabetIsCanonical(SymbolOf(s[last]));
    }
  }

  lemma {:induction false} NormalizeGrouped(s: string)
    requires OverAlphabet(s)
    ensures Normalize(Grouped(s)) == s
  {
    if |s| <= 4 {
      NormalizeLetters(s);
    } else {
      NormalizeLetters(s[..4]);
      NormalizeGrouped(s[4..]);
      NormalizeConcat(s[..4] + "-", Grouped(s[4..]));
      NormalizeConcat(s[..4], "-");
      assert Normalize("-") == "";
    }
  }

  /** Grouping puts a dash after every four symbols but the last ones, and changes nothing else. */
  lemma {:induction false} GroupedAt(s: string, i: nat)
    requires s != [] && i < |Grouped(s)|
    ensures |Grouped(s)| == |s| + (|s| - 1) / 4
    ensures i % 5 == 4 ==> Grouped(s)[i] == '-'
    ensures i % 5 != 4 ==> i - i / 5 < |s| && Grouped(s)[i] == s[i - i / 5]
    decreases |s|
  {
    if |s| > 4 {
      var rest := s[4..];
      GroupedAt(rest, if i < 5 then 0 else i - 5);
      assert Grouped(s) == s[..4] + "-" + Grouped(rest);
      if i >= 5 {
        assert Grouped(s)[i] == Grouped(rest)[i - 5];
        assert (i - 5) / 5 == i / 5 - 1 && (i - 5) % 5 == i % 5;
      }
    }
  }

  /** A formatted code is eight groups of four alphabet symbols with dashes between them. */
  lemma FormattedShape(e: seq<nat>, i: nat)
    requires IsEntropy(e) && i < |Formatted(e)|
    ensures |Formatted(e)| == 39
    ensures Formatted(e)[i] == '-' <==> i % 5 == 4
    ensures i % 5 != 4 ==> Formatted(e)[i] in CROCKFORD_ALPHABET
  {
    hide Digits, Value, Grouped;
    var letters := Letters(Digits(32, RECOVERY_CODE_CHARACTERS, Value(256, e)));
    GroupedAt(letters, i);
    if i % 5 != 4 {
      var symbol := Digits(32, RECOVERY_CODE_CHARACTERS, Value(256, e))[i - i / 5];
      AlphabetCode(symbol);
    }
  }

  /** Which characters count: digits and letters for their place, I and L for 1, O for 0, and no U. */
  lemma CrockfordReadings(i: nat)
    requires i < 32
    ensures CrockfordValue(CROCKFORD_ALPHABET[i]) == Some(i)
    ensures 'A' <= CROCKFORD_ALPHABET[i] <= 'Z' ==>
      CrockfordValue(((CROCKFORD_ALPHABET[i] as int) + 32) as char) == Some(i)
    ensures CrockfordValue('I') == CrockfordValue('i') == CrockfordValue('L') == CrockfordValue('l') == Some(1)
    ensures CrockfordValue('O') == CrockfordValue('o') == Some(0)
    ensures CrockfordValue('U') == CrockfordValue('u') == None
  {
    hide Position;
    AlphabetIsCanonical(i);
    ReadsAt(CROCKFORD_ALPHABET[i], i);
    AlphabetCode(0);
    AlphabetCode(1);
    ReadsAt('1', 1);
    ReadsAt('0', 0);
    assert 'U' !in CROCKFORD_ALPHABET;
  }

  lemma ReadsAt(c: char, i: nat)
    requires i < 32 && CROCKFORD_ALPHABET[i] == c
    ensures Position(CROCKFORD_ALPHABET, c) == Some(i)
  {
    var p := Position(CROCKFORD_ALPHABET, c);
    assert c in CROCKFORD_ALPHABET;
    AlphabetIsDistinct(p.value, i);
  }

  lemma SymbolsOfLetters(symbols: seq<nat>)
    requires AreDigits(32, symbols)
    ensures OverAlphabet(Letters(symbols)) && Symbols(Letters(symbols)) == symbols
  {
    forall i | 0 <= i < |symbols| ensures Symbols(Letters(symbols))[i] == symbols[i] {
      AlphabetIsDistinct(symbols[i], Symbols(Letters(symbols))[i]);
    }
  }

  lemma SameRange()
    ensures Pow(256, 20) == Pow(32, 32)
  {
    BlockSizes();
    PowAdd(256, 5, 5);
    PowAdd(256, 10, 10);
    PowAdd(32, 8, 8);
    PowAdd(32, 16, 16);
  }

  lemma {:induction false} PowAdd(b: nat, m: nat, n: nat)
    ensures Pow(b, m + n) == Pow(b, m) * Pow(b, n)
  {
    if m > 0 {
      PowAdd(b, m - 1, n);
      MulAssociates(b, Pow(b, m - 1), Pow(b, n));
    }
  }

  lemma MulAssociates(a: nat, b: nat, c: nat)
    ensures a * (b * c) == (a * b) * c
  {
  }

  /** Every entropy survives being written down and typed in again. */
  lemma ParseOfFormatted(e: seq<nat>)
    requires IsEntropy(e)
    ensures Accepted(Formatted(e)) && Entropy(Formatted(e)) == e
  {
    hide Digits, Value, Pow;
    var n := Value(256, e);
    ValueBelow(256, e);
    SameRange();
    var digits := Digits(32, 32, n);
    SymbolsOfLetters(digits);
    NormalizeGrouped(Letters(digits));
    ValueOfDigits(32, 32, n);
    DigitsOfValue(256, e);
  }

  /** Writing down what was typed gives its canonical form: normalized, in groups of four. */
  lemma FormattedOfParse(s: string)
    requires Accepted(s)
    ensures IsEntropy(Entropy(s)) && Formatted(Entropy(s)) == Grouped(Normalize(s))
  {
    hide Digits, Value, Pow;
    var symbols := Symbols(Normalize(s));
    ValueBelow(32, symbols);
    SameRange();
    ValueOfDigits(256, 20, Value(32, symbols));
    DigitsOfValue(32, symbols);
    assert Letters(symbols) == Normalize(s);
  }

  /** Two accepted strings are the same code exactly when they agree after normalization. */
  lemma SameCodeIffSameNormalForm(s: string, t: string)
    requires Accepted(s) && Accepted(t)
    ensures Entropy(s) == Entropy(t) <==> Normalize(s) == Normalize(t)
  {
    if Entropy(s) == Entropy(t) {
      FormattedOfParse(s);
      FormattedOfParse(t);
      NormalizeGrouped(Normalize(s));
      NormalizeGrouped(Normalize(t));
    }
  }
}
