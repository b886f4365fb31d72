// The footnote and endnote number formats of the HTML viewer
// (crates/hwp-core/src/viewer/html/document/bodytext/mod.rs): a number and
// the footnote shape's number shape give the number's text, wrapped in the
// shape's front and back decoration characters. Roman numerals are the
// greedy subtractive numeral, letters are bijective base 26, the syllable,
// jamo and stem tables cycle, and the Korean and Chinese numerals spell a
// number with unit characters.

module NumberFormat {
  import opened Bytes
  import opened Errors
  import opened Text
  import FootnoteShape

  // `char::from_u32(code).unwrap_or(' ')`: a code that is not a Unicode
  // scalar value (a surrogate, or past U+10FFFF) becomes a space.
  function CharOfCode(code: nat): (c: char)
    ensures (code < 0xD800 || 0xE000 <= code < 0x11_0000) ==> c as int == code
    ensures (0xD800 <= code < 0xE000 || code >= 0x11_0000) ==> c == ' '
  {
    if code < 0xD800 || 0xE000 <= code < 0x11_0000 then code as char else ' '
  }

  // `to_lowercase` on the ASCII letters these formats produce.
  function LowerChar(c: char): char
  {
    if 'A' <= c <= 'Z' then (c as int + 32) as char else c
  }

  function ToLower(s: string): (r: string)
    ensures |r| == |s| && forall i :: 0 <= i < |s| ==> r[i] == LowerChar(s[i])
  {
    if |s| == 0 then "" else [LowerChar(s[0])] + ToLower(s[1..])
  }

  // ---------------------------------------------------------------------
  // Roman numerals.

  const RomanValues: seq<nat> := [1000, 900, 500, 400, 100, 90, 50, 40, 10, 9, 5, 4, 1]
  const RomanSymbols: seq<string> := ["M", "CM", "D", "CD", "C", "XC", "L", "XL", "X", "IX", "V", "IV", "I"]

  // The table entries the greedy loop emits for num, from entry k on: as
  // many of entry k as fit, then the next entry.
  function RomanTokens(num: nat, k: nat): (ts: seq<nat>)
    requires k <= 13
    ensures forall i :: 0 <= i < |ts| ==> k <= ts[i] < 13
    decreases 13 - k, num
  {
    if k == 13 then []
    else if num >= RomanValues[k] then [k] + RomanTokens(num - RomanValues[k], k)
    else RomanTokens(num, k + 1)
  }

  predicate Entries(ts: seq<nat>)
  {
    forall i :: 0 <= i < |ts| ==> ts[i] < 13
  }

  function TokenSum(ts: seq<nat>): nat
    requires Entries(ts)
  {
    if |ts| == 0 then 0 else RomanValues[ts[0]] + TokenSum(ts[1..])
  }

  function Spell(ts: seq<nat>): string
    requires Entries(ts)
  {
    if |ts| == 0 then "" else RomanSymbols[ts[0]] + Spell(ts[1..])
  }

  predicate NonDecreasing(ts: seq<nat>)
  {
    forall i, j :: 0 <= i < j < |ts| ==> ts[i] <= ts[j]
  }

  // number_to_roman_upper: empty for 0.
  function RomanUpper(n: u32): string
  {
    if n == 0 then "" else Spell(RomanTokens(n, 0))
  }

  function RomanLower(n: u32): string
  {
    ToLower(RomanUpper(n))
  }

  // The greedy tokens add up to the number; none are left for 0.
  lemma {:induction false} RomanTokensValue(num: nat, k: nat)
    requires k <= 12
    ensures TokenSum(RomanTokens(num, k)) == num
    ensures num == 0 ==> RomanTokens(num, k) == []
    decreases 13 - k, num
  {
    if num >= RomanValues[k] {
      var rest := RomanTokens(num - RomanValues[k], k);
      RomanTokensValue(num - RomanValues[k], k);
      assert RomanTokens(num, k)[1..] == rest;
    } else if k < 12 {
      RomanTokensValue(num, k + 1);
    }
  }

  // The greedy tokens come largest value first.
  lemma {:induction false} RomanTokensOrder(num: nat, k: nat)
    requires k <= 12
    ensures NonDecreasing(RomanTokens(num, k))
    decreases 13 - k, num
  {
    var ts := RomanTokens(num, k);
    if num >= RomanValues[k] {
      var rest := RomanTokens(num - RomanValues[k], k);
      RomanTokensOrder(num - RomanValues[k], k);
      assert ts == [k] + rest;
      forall i, j | 0 <= i < j < |ts|
        ensures ts[i] <= ts[j]
      {
        if i > 0 {
          assert ts[i] == rest[i - 1] && ts[j] == rest[j - 1];
        }
      }
    } else if k < 12 {
      RomanTokensOrder(num, k + 1);
    }
  }

  // The numeral of n is the spelling of tokens whose values add up to n,
  // taken from the largest entry down.
  lemma RomanValue(n: u32)
    ensures var ts := RomanTokens(n, 0);
      RomanUpper(n) == Spell(ts) && TokenSum(ts) == n && NonDecreasing(ts)
  {
    RomanTokensValue(n, 0);
    RomanTokensOrder(n, 0);
  }

  // number_to_roman_upper with its loop over the table.
  method NumberToRomanUpper(n: u32) returns (result: string)
    ensures result == RomanUpper(n)
  {
    if n == 0 {
      return "";
    }
    result := "";
    var num: nat := n;
    for k := 0 to 13
      invariant result + Spell(RomanTokens(num, k)) == RomanUpper(n)
    {
      while num >= RomanValues[k]
        invariant result + Spell(RomanTokens(num, k)) == RomanUpper(n)
        decreases num
      {
        var rest := RomanTokens(num - RomanValues[k], k);
        assert Spell(RomanTokens(num, k)) == RomanSymbols[k] + Spell(rest);
        result := result + RomanSymbols[k];
        num := num - RomanValues[k];
      }
    }
  }

  // ---------------------------------------------------------------------
  // Letters: bijective base 26, A to Z, then AA.

  function Letter(d: nat): (c: char)
    requires d < 26
    ensures 'A' <= c <= 'Z'
  {
    ('A' as int + d) as char
  }

  predicate Upper(s: string)
  {
    forall i :: 0 <= i < |s| ==> 'A' <= s[i] <= 'Z'
  }

  // The letters of m + 1, most significant first.
  function AlphaDigits(m: nat): (r: string)
    ensures |r| >= 1 && Upper(r)
  {
    if m < 26 then [Letter(m)] else AlphaDigits(m / 26 - 1) + [Letter(m % 26)]
  }

  // number_to_alpha_upper: empty for 0.
  function AlphaUpper(n: u32): string
  {
    if n == 0 then "" else AlphaDigits(n - 1)
  }

  function AlphaLower(n: u32): string
  {
    ToLower(AlphaUpper(n))
  }

  // The partner: the value of a letter string, A = 1 to Z = 26 per place.
  function AlphaValue(s: string): nat
    requires Upper(s)
  {
    if |s| == 0 then 0 else AlphaValue(s[..|s| - 1]) * 26 + (s[|s| - 1] as int - 'A' as int + 1)
  }

  lemma {:induction false} AlphaDigitsValue(m: nat)
    ensures AlphaValue(AlphaDigits(m)) == m + 1
  {
    if m >= 26 {
      AlphaDigitsValue(m / 26 - 1);
      var s := AlphaDigits(m);
      assert s[..|s| - 1] == AlphaDigits(m / 26 - 1);
    }
  }

  lemma {:induction false} AlphaValueDigits(s: string)
    requires Upper(s) && |s| >= 1
    ensures AlphaValue(s) >= 1 && AlphaDigits(AlphaValue(s) - 1) == s
  {
    var p := s[..|s| - 1];
    var d := s[|s| - 1] as int - 'A' as int;
    if |p| == 0 {
      assert s == [Letter(d)];
    } else {
      AlphaValueDigits(p);
      var m := AlphaValue(s) - 1;
      assert m == AlphaValue(p) * 26 + d;
      assert m / 26 == AlphaValue(p) && m % 26 == d;
      assert s == p + [s[|s| - 1]];
    }
  }

  // Letters and numbers correspond one to one: n >= 1 reads back from its
  // letters, and every non-empty letter string is the letters of its value.
  lemma AlphaRoundTrip(n: u32, s: string)
    ensures n >= 1 ==> Upper(AlphaUpper(n)) && AlphaValue(AlphaUpper(n)) == n
    ensures Upper(s) && 1 <= |s| ==> AlphaDigits(AlphaValue(s) - 1) == s
  {
    if n >= 1 {
      AlphaDigitsValue(n - 1);
    }
    if Upper(s) && 1 <= |s| {
      AlphaValueDigits(s);
    }
  }

  // The lowercase letters are the uppercase ones shifted to a to z.
  lemma AlphaLowerLetters(n: u32)
    ensures |AlphaLower(n)| == |AlphaUpper(n)|
    ensures forall i :: 0 <= i < |AlphaLower(n)| ==>
      'a' <= AlphaLower(n)[i] <= 'z' && AlphaLower(n)[i] as int == AlphaUpper(n)[i] as int + 32
  {
    if n > 0 {
      assert Upper(AlphaUpper(n));
    }
  }

  function Reverse(s: string): (r: string)
    ensures |r| == |s|
  {
    if |s| == 0 then "" else Reverse(s[1..]) + [s[0]]
  }

  lemma {:induction false} ReverseSnoc(s: string, c: char)
    ensures Reverse(s + [c]) == [c] + Reverse(s)
  {
    if |s| > 0 {
      assert (s + [c])[1..] == s[1..] + [c];
      ReverseSnoc(s[1..], c);
    } else {
      assert (s + [c])[1..] == [];
    }
  }

  // number_to_alpha_upper: the letters pushed least significant first,
  // then reversed.
  method NumberToAlphaUpper(n: u32) returns (r: string)
    ensures r == AlphaUpper(n)
  {
    if n == 0 {
      return "";
    }
    var num: nat := n - 1;
    var result := "";
    while true
      invariant AlphaDigits(n - 1) == AlphaDigits(num) + Reverse(result)
      decreases num
    {
      ReverseSnoc(result, Letter(num % 26));
      result := result + [Letter(num % 26)];
      if num < 26 {
        assert AlphaDigits(n - 1) == Reverse(result);
        break;
      }
      num := num / 26 - 1;
    }
    r := Reverse(result);
  }

  // ---------------------------------------------------------------------
  // Cyclic character tables.

  const HangulSyllables: seq<char> := ['\U{AC00}', '\U{B098}', '\U{B2E4}', '\U{B77C}', '\U{B9C8}', '\U{BC14}',
    '\U{C0AC}', '\U{C544}', '\U{C790}', '\U{CC28}', '\U{CE74}', '\U{D0C0}', '\U{D30C}', '\U{D558}']
  const HangulJamo: seq<char> := ['\U{3131}', '\U{3134}', '\U{3137}', '\U{3139}', '\U{3141}', '\U{3142}',
    '\U{3145}', '\U{3147}', '\U{3148}', '\U{314A}', '\U{314B}', '\U{314C}', '\U{314D}', '\U{314E}']
  const HeavenlyStems: seq<char> := ['\U{AC11}', '\U{C744}', '\U{BCD1}', '\U{C815}', '\U{BB34}',
    '\U{AE30}', '\U{ACBD}', '\U{C2E0}', '\U{C784}', '\U{ACC4}']
  const HeavenlyStemsChinese: seq<char> := ['\U{7532}', '\U{4E59}', '\U{4E19}', '\U{4E01}', '\U{620A}',
    '\U{5DF1}', '\U{5E9A}', '\U{8F9B}', '\U{58EC}', '\U{7678}']
  const FourChars: seq<char> := ['\U{25CF}', '\U{25CB}', '\U{25C6}', '\U{25C7}']

  // `TABLE[((n - 1) % len)]` as a string, and empty for 0.
  function Cyclic(table: seq<char>, n: nat): string
    requires |table| > 0
  {
    if n == 0 then "" else [table[(n - 1) % |table|]]
  }

  predicate Distinct(table: seq<char>)
  {
    forall i, j :: 0 <= i < j < |table| ==> table[i] != table[j]
  }

  // A cyclic table repeats with its length as period, and over one period
  // distinct numbers get distinct characters.
  lemma CyclicPeriod(table: seq<char>, n: nat)
    requires |table| > 0 && n >= 1
    ensures Cyclic(table, n + |table|) == Cyclic(table, n)
    ensures |Cyclic(table, n)| == 1 && Cyclic(table, n)[0] in table
  {
    ModPeriod(n - 1, |table|);
    assert n + |table| - 1 == (n - 1) + |table|;
  }

  lemma ModPeriod(x: nat, m: nat)
    requires m > 0
    ensures (x + m) % m == x % m
  {
    var q, t := x / m, x % m;
    assert x + m == m * (q + 1) + t;
    DivUnique(x + m, m, q + 1, t);
  }

  lemma ModSmall(x: nat, m: nat)
    requires x < m
    ensures x % m == x
  {
    DivUnique(x, m, 0, x);
  }

  lemma CyclicDistinct(table: seq<char>, m: nat, n: nat)
    requires Distinct(table) && 1 <= m <= |table| && 1 <= n <= |table|
    ensures Cyclic(table, m) == Cyclic(table, n) ==> m == n
  {
    ModSmall(m - 1, |table|);
    ModSmall(n - 1, |table|);
    if Cyclic(table, m) == Cyclic(table, n) {
      assert table[m - 1] == Cyclic(table, m)[0] == Cyclic(table, n)[0] == table[n - 1];
    }
  }

  lemma TablesDistinct()
    ensures Distinct(HangulSyllables) && Distinct(HangulJamo) && Distinct(HeavenlyStems)
    ensures Distinct(HeavenlyStemsChinese) && Distinct(FourChars)
  {
  }

  // number_to_hangul, number_to_hangul_jamo, number_to_heavenly_stem and
  // number_to_heavenly_stem_chinese.
  function HangulLetter(n: u32): string { Cyclic(HangulSyllables, n) }
  function HangulJamoLetter(n: u32): string { Cyclic(HangulJamo, n) }
  function HeavenlyStem(n: u32): string { Cyclic(HeavenlyStems, n) }
  function HeavenlyStemChinese(n: u32): string { Cyclic(HeavenlyStemsChinese, n) }

  // The circled digits U+2460 to U+2473 for 1 to 20, the decimal otherwise.
  function Circled(n: u32): (r: string)
    ensures 1 <= n <= 20 ==> |r| == 1 && r[0] as int == 0x2460 + n - 1
    ensures (n == 0 || n > 20) ==> r == Decimal(n)
  {
    if n > 0 && n <= 20 then [CharOfCode(0x2460 + n - 1)] else Decimal(n)
  }

  // FourCharRepeat: `CHARS[((number - 1) % 4)]` with the u32 subtraction
  // wrapping, as a release build does, so 0 gives the fourth character.
  function FourCharRepeat(n: u32): (r: string)
    ensures n >= 1 ==> r == Cyclic(FourChars, n)
    ensures n == 0 ==> r == [FourChars[3]]
  {
    var m := (n as int - 1) % 0x1_0000_0000;
    [FourChars[m % 4]]
  }

  // ---------------------------------------------------------------------
  // Korean and Chinese numerals.

  // A numeral system: ten digit characters and the unit characters of
  // ten, a hundred and a thousand. The Korean table has no unit past the
  // thousands, so reaching one panics; the Chinese loop is guarded there
  // (the ten-thousand character of its table is never reached, so it is
  // not part of the model).
  datatype Numerals = Numerals(digits: seq<char>, units: seq<char>, panicsPastThousands: bool)

  predicate ValidNumerals(t: Numerals)
  {
    |t.digits| == 10 && |t.units| == 3
  }

  const HangulNumerals: Numerals := Numerals(
    ['\U{C601}', '\U{C77C}', '\U{C774}', '\U{C0BC}', '\U{C0AC}', '\U{C624}', '\U{C721}', '\U{CE60}', '\U{D314}', '\U{AD6C}'],
    ['\U{C2ED}', '\U{BC31}', '\U{CC9C}'], true)
  const ChineseNumerals: Numerals := Numerals(
    ['\U{96F6}', '\U{4E00}', '\U{4E8C}', '\U{4E09}', '\U{56DB}', '\U{4E94}', '\U{516D}', '\U{4E03}', '\U{516B}', '\U{4E5D}'],
    ['\U{5341}', '\U{767E}', '\U{5343}'], false)

  // One digit d at place u as the loop writes it: the digit's character
  // (left out for a 1 above the units place) is inserted at the front of
  // the result, and the place's unit character is appended at its end.
  function DigitAsWritten(acc: string, d: nat, u: nat, t: Numerals): string
    requires d < 10 && ValidNumerals(t)
  {
    if d == 0 then acc
    else
      var front := if d > 1 || u == 0 then [t.digits[d]] + acc else acc;
      if 0 < u <= 3 then front + [t.units[u - 1]] else front
  }

  // The loop from place u on, with the result so far.
  function WordsAsWritten(num: nat, u: nat, acc: string, t: Numerals): Outcome<string>
    requires ValidNumerals(t)
    decreases num
  {
    if num == 0 then Returned(Ok(acc))
    else if num % 10 > 0 && u > 3 && t.panicsPastThousands then IndexOutOfBounds
    else WordsAsWritten(num / 10, u + 1, DigitAsWritten(acc, num % 10, u, t), t)
  }

  // number_to_hangul_number and number_to_chinese_number as written.
  function NumeralAsWritten(n: u32, t: Numerals): Outcome<string>
    requires ValidNumerals(t)
  {
    if n == 0 then Returned(Ok(""))
    else if n < 10 then Returned(Ok([t.digits[n]]))
    else WordsAsWritten(n, 0, "", t)
  }

  // The loop of number_to_hangul_number and number_to_chinese_number.
  method NumberToNumeralAsWritten(n: u32, t: Numerals) returns (r: Outcome<string>)
    requires ValidNumerals(t)
    ensures r == NumeralAsWritten(n, t)
  {
    if n == 0 {
      return Returned(Ok(""));
    }
    if n < 10 {
      return Returned(Ok([t.digits[n]]));
    }
    var result := "";
    var num: nat := n;
    var unitIndex: nat := 0;
    while num > 0
      invariant WordsAsWritten(num, unitIndex, result, t) == NumeralAsWritten(n, t)
      decreases num
    {
      var digit := num % 10;
      if digit > 0 {
        if digit > 1 || unitIndex == 0 {
          result := [t.digits[digit]] + result;
        }
        if unitIndex > 3 {
          if t.panicsPastThousands {
            return IndexOutOfBounds;
          }
        } else if unitIndex > 0 {
          result := result + [t.units[unitIndex - 1]];
        }
      }
      num := num / 10;
      unitIndex := unitIndex + 1;
    }
    r := Returned(Ok(result));
  }

  // The digit order as written: 23 gives the characters of two, three,
  // ten, and 10000 panics in the Korean table.
  lemma NumeralAsWrittenOrder()
    ensures NumeralAsWritten(23, HangulNumerals) == Returned(Ok(['\U{C774}', '\U{C0BC}', '\U{C2ED}']))
    ensures NumeralAsWritten(23, ChineseNumerals) == Returned(Ok(['\U{4E8C}', '\U{4E09}', '\U{5341}']))
    ensures NumeralAsWritten(10000, HangulNumerals) == IndexOutOfBounds
  {
    assert DigitAsWritten("", 3, 0, HangulNumerals) == ['\U{C0BC}'];
    assert DigitAsWritten(['\U{C0BC}'], 2, 1, HangulNumerals) == ['\U{C774}', '\U{C0BC}', '\U{C2ED}'];
    assert DigitAsWritten("", 3, 0, ChineseNumerals) == ['\U{4E09}'];
    assert DigitAsWritten(['\U{4E09}'], 2, 1, ChineseNumerals) == ['\U{4E8C}', '\U{4E09}', '\U{5341}'];
    assert WordsAsWritten(10000, 0, "", HangulNumerals) == WordsAsWritten(1, 4, "", HangulNumerals);
  }

  // The evidently intended numeral: each nonzero digit's character (left
  // out for a 1 above the units place) followed by its place's unit,
  // most significant first. Places past the thousands get no unit, as the
  // Chinese table's guard has it, so nothing panics.
  function DigitWords(d: nat, u: nat, t: Numerals): string
    requires d < 10 && ValidNumerals(t)
  {
    if d == 0 then ""
    else (if d > 1 || u == 0 then [t.digits[d]] else []) + (if 0 < u <= 3 then [t.units[u - 1]] else [])
  }

  function WordsFrom(num: nat, u: nat, t: Numerals): string
    requires ValidNumerals(t)
    decreases num
  {
    if num == 0 then "" else WordsFrom(num / 10, u + 1, t) + DigitWords(num % 10, u, t)
  }

  function Numeral(n: u32, t: Numerals): string
    requires ValidNumerals(t)
  {
    if n == 0 then "" else if n < 10 then [t.digits[n]] else WordsFrom(n, 0, t)
  }

  // The partner: reading a numeral back. A digit character makes that
  // digit pending; a unit character adds the pending digit (1 when none is
  // pending) times its place value; a pending digit is added at the end.
  datatype Reading = Reading(total: nat, pending: nat)

  function IndexOf(s: seq<char>, c: char): (i: nat)
    ensures i <= |s| && (i < |s| ==> s[i] == c)
    ensures forall j :: 0 <= j < i ==> s[j] != c
  {
    if |s| == 0 then 0 else if s[0] == c then 0 else 1 + IndexOf(s[1..], c)
  }

  // The value of the unit at place u.
  function Place(u: nat): nat
    requires 1 <= u <= 3
  {
    if u == 1 then 10 else if u == 2 then 100 else 1000
  }

  function ReadChar(st: Reading, c: char, t: Numerals): Reading
    requires ValidNumerals(t)
  {
    var d := IndexOf(t.digits, c);
    if d < 10 then Reading(st.total, d)
    else
      var k := IndexOf(t.units, c);
      if k < 3 then Reading(st.total + (if st.pending == 0 then 1 else st.pending) * Place(k + 1), 0)
      else st
  }

  function Read(s: string, st: Reading, t: Numerals): Reading
    requires ValidNumerals(t)
  {
    if |s| == 0 then st else Read(s[1..], ReadChar(st, s[0], t), t)
  }

  function NumeralValue(s: string, t: Numerals): nat
    requires ValidNumerals(t)
  {
    var r := Read(s, Reading(0, 0), t);
    r.total + r.pending
  }

  // Digit and unit characters are all different.
  predicate Sound(t: Numerals)
  {
    ValidNumerals(t) && Distinct(t.digits) && Distinct(t.units) &&
    forall k :: 0 <= k < 3 ==> t.units[k] !in t.digits
  }

  lemma HangulSound()
    ensures Sound(HangulNumerals)
  {
    DigitsDistinct();
    UnitsApart(HangulNumerals);
  }

  lemma ChineseSound()
    ensures Sound(ChineseNumerals)
  {
    DigitsDistinct();
    UnitsApart(ChineseNumerals);
  }

  lemma DigitsDistinct()
    ensures Distinct(HangulNumerals.digits) && Distinct(ChineseNumerals.digits)
  {
  }

  lemma UnitsApart(t: Numerals)
    requires t == HangulNumerals || t == ChineseNumerals
    ensures forall k :: 0 <= k < 3 ==> t.units[k] !in t.digits
  {
    assert t.units[0] !in t.digits;
    assert t.units[1] !in t.digits;
    assert t.units[2] !in t.digits;
  }

  lemma {:induction false} ReadAppend(a: string, b: string, st: Reading, t: Numerals)
    requires ValidNumerals(t)
    ensures Read(a + b, st, t) == Read(b, Read(a, st, t), t)
  {
    if |a| > 0 {
      assert (a + b)[1..] == a[1..] + b;
      ReadAppend(a[1..], b, ReadChar(st, a[0], t), t);
    } else {
      assert a + b == b;
    }
  }

  lemma IndexOfDistinct(s: seq<char>, i: nat)
    requires Distinct(s) && i < |s|
    ensures IndexOf(s, s[i]) == i
  {
  }

  // One nonzero place above the units adds its digit times the place.
  lemma ReadDigitWords(d: nat, u: nat, st: Reading, t: Numerals)
    requires Sound(t) && d < 10 && 1 <= u <= 3 && st.pending == 0
    ensures Read(DigitWords(d, u, t), st, t) == Reading(st.total + d * Place(u), 0)
  {
    var unit := t.units[u - 1];
    assert t.units[u - 1] == unit;
    IndexOfDistinct(t.units, u - 1);
    assert IndexOf(t.digits, unit) == 10;
    if d == 1 {
      assert DigitWords(d, u, t) == [unit];
    } else if d > 1 {
      IndexOfDistinct(t.digits, d);
      var mid := ReadChar(st, t.digits[d], t);
      assert mid == Reading(st.total, d);
      var w := DigitWords(d, u, t);
      assert w == [t.digits[d], unit];
      assert w[1..] == [unit];
      assert Read(w, st, t) == Read([unit], mid, t);
      assert Read([unit], mid, t) == Read([], ReadChar(mid, unit, t), t);
    }
  }

  // Every place from u on adds its digit times its place value.
  // WordsFrom takes off one digit at a time, zeros included.
  lemma WordsStep(num: nat, u: nat, t: Numerals)
    requires ValidNumerals(t)
    ensures WordsFrom(num, u, t) == WordsFrom(num / 10, u + 1, t) + DigitWords(num % 10, u, t)
  {
  }

  // A numeral of two to four digits, spelled place by place.
  lemma NumeralPlaces(n: u32, t: Numerals)
    requires ValidNumerals(t) && 10 <= n < 10000
    ensures Numeral(n, t) == DigitWords(n / 10 / 10 / 10, 3, t) + DigitWords(n / 10 / 10 % 10, 2, t) +
      DigitWords(n / 10 % 10, 1, t) + DigitWords(n % 10, 0, t)
  {
    var x1 := n / 10;
    var x2 := x1 / 10;
    var x3 := x2 / 10;
    assert x3 < 10;
    var w3, w2, w1, w0 := DigitWords(x3, 3, t), DigitWords(x2 % 10, 2, t), DigitWords(x1 % 10, 1, t), DigitWords(n % 10, 0, t);
    WordsLast(x3, 3, t);
    WordsStep(x2, 2, t);
    assert WordsFrom(x2, 2, t) == w3 + w2;
    WordsStep(x1, 1, t);
    assert WordsFrom(x1, 1, t) == w3 + w2 + w1;
    WordsStep(n, 0, t);
  }

  lemma WordsLast(x: nat, u: nat, t: Numerals)
    requires ValidNumerals(t) && x < 10
    ensures WordsFrom(x, u, t) == DigitWords(x, u, t)
  {
    if x > 0 {
      assert WordsFrom(x / 10, u + 1, t) == "";
    }
  }

  // Reading four places back gives their weighted sum.
  lemma ReadPlaces(a: nat, b: nat, c: nat, d: nat, t: Numerals)
    requires Sound(t) && a < 10 && b < 10 && c < 10 && d < 10
    ensures NumeralValue(DigitWords(a, 3, t) + DigitWords(b, 2, t) + DigitWords(c, 1, t) + DigitWords(d, 0, t), t)
      == 1000 * a + 100 * b + 10 * c + d
  {
    var w3, w2, w1, w0 := DigitWords(a, 3, t), DigitWords(b, 2, t), DigitWords(c, 1, t), DigitWords(d, 0, t);
    var s0 := Reading(0, 0);
    ReadAppend(w3 + w2 + w1, w0, s0, t);
    ReadAppend(w3 + w2, w1, s0, t);
    ReadAppend(w3, w2, s0, t);
    ReadDigitWords(a, 3, s0, t);
    ReadDigitWords(b, 2, Reading(a * 1000, 0), t);
    ReadDigitWords(c, 1, Reading(a * 1000 + b * 100, 0), t);
    var s1 := Reading(a * 1000 + b * 100 + c * 10, 0);
    if d > 0 {
      IndexOfDistinct(t.digits, d);
      assert w0 == [t.digits[d]];
      assert Read(w0, s1, t) == Reading(s1.total, d);
    }
  }

  // The intended numeral reads back as its number, for every number the
  // units reach.
  lemma NumeralRoundTrip(n: u32, t: Numerals)
    requires Sound(t) && 1 <= n < 10000
    ensures NumeralValue(Numeral(n, t), t) == n
  {
    if n < 10 {
      IndexOfDistinct(t.digits, n);
      assert Read([t.digits[n]], Reading(0, 0), t) == Reading(0, n);
    } else {
      NumeralPlaces(n, t);
      ReadPlaces(n / 10 / 10 / 10, n / 10 / 10 % 10, n / 10 % 10, n % 10, t);
      PlaceDigits(n);
    }
  }

  lemma PlaceDigits(n: nat)
    ensures n == 1000 * (n / 10 / 10 / 10) + 100 * (n / 10 / 10 % 10) + 10 * (n / 10 % 10) + n % 10
  {
    var x1 := n / 10;
    var x2 := x1 / 10;
    assert n == 10 * x1 + n % 10;
    assert x1 == 10 * x2 + x1 % 10;
    assert x2 == 10 * (x2 / 10) + x2 % 10;
  }

  // The intended numeral of 23 puts the unit between the digits.
  lemma NumeralOrder()
    ensures Numeral(23, HangulNumerals) == ['\U{C774}', '\U{C2ED}', '\U{C0BC}']
    ensures Numeral(23, ChineseNumerals) == ['\U{4E8C}', '\U{5341}', '\U{4E09}']
  {
    assert WordsFrom(2, 1, HangulNumerals) == ['\U{C774}', '\U{C2ED}'];
    assert WordsFrom(2, 1, ChineseNumerals) == ['\U{4E8C}', '\U{5341}'];
  }

  // ---------------------------------------------------------------------
  // format_number_by_shape.

  // The text of a number in one shape, before decoration, with the
  // intended Korean and Chinese numerals.
  function ShapeText(number: u32, shape: FootnoteShape.NumberShape, customSymbol: u16): string
  {
    match shape
    case Arabic => Decimal(number)
    case CircledArabic => Circled(number)
    case RomanUpper => RomanUpper(number)
    case RomanLower => RomanLower(number)
    case AlphaUpper => AlphaUpper(number)
    case AlphaLower => AlphaLower(number)
    case CircledAlphaUpper => if 0 < number <= 26 then [CharOfCode(0x24B6 + number - 1)] else AlphaUpper(number)
    case CircledAlphaLower => if 0 < number <= 26 then [CharOfCode(0x24D0 + number - 1)] else AlphaLower(number)
    case Hangul => HangulLetter(number)
    case CircledHangul => if 0 < number <= 14 then "(" + HangulLetter(number) + ")" else HangulLetter(number)
    case HangulJamo => HangulJamoLetter(number)
    case CircledHangulJamo => if 0 < number <= 14 then "(" + HangulJamoLetter(number) + ")" else HangulJamoLetter(number)
    case HangulNumber => Numeral(number, HangulNumerals)
    case ChineseNumber => Numeral(number, ChineseNumerals)
    case CircledChineseNumber => "(" + Numeral(number, ChineseNumerals) + ")"
    case HeavenlyStem => HeavenlyStem(number)
    case HeavenlyStemChinese => HeavenlyStemChinese(number)
    case FourCharRepeat => FourCharRepeat(number)
    case CustomCharRepeat => if customSymbol != 0 then [CharOfCode(customSymbol)] else Decimal(number)
  }

  predicate NumeralShape(shape: FootnoteShape.NumberShape)
  {
    shape == FootnoteShape.HangulNumber || shape == FootnoteShape.ChineseNumber ||
    shape == FootnoteShape.CircledChineseNumber
  }

  // The text of a number in one shape as the source computes it: the
  // Korean and Chinese numerals as written, so that a Korean numeral of
  // 10000 or more stops with an index out of bounds.
  function ShapeTextAsWritten(number: u32, shape: FootnoteShape.NumberShape, customSymbol: u16): Outcome<string>
  {
    match shape
    case HangulNumber => NumeralAsWritten(number, HangulNumerals)
    case ChineseNumber => NumeralAsWritten(number, ChineseNumerals)
    case CircledChineseNumber =>
      var o := NumeralAsWritten(number, ChineseNumerals);
      if o.Returned? && o.result.Ok? then Returned(Ok("(" + o.result.value + ")")) else o
    case _ => Returned(Ok(ShapeText(number, shape, customSymbol)))
  }

  // A decoration character, none for 0.
  function Decoration(code: u16): (r: string)
    ensures |r| == if code == 0 then 0 else 1
  {
    if code != 0 then [CharOfCode(code)] else ""
  }

  // The shape's text between the footnote shape's decorations; without a
  // footnote shape there is no custom symbol and no decoration.
  function Decorate(text: string, footnoteShape: Option<FootnoteShape.FootnoteShape>): string
  {
    var front := if footnoteShape.Some? then footnoteShape.value.frontDecoration else 0;
    var back := if footnoteShape.Some? then footnoteShape.value.backDecoration else 0;
    Decoration(front) + text + Decoration(back)
  }

  function CustomSymbol(footnoteShape: Option<FootnoteShape.FootnoteShape>): u16
  {
    if footnoteShape.Some? then footnoteShape.value.customSymbol else 0
  }

  // format_number_by_shape as written.
  function FormatNumberByShape(number: u32, shape: FootnoteShape.NumberShape,
                               footnoteShape: Option<FootnoteShape.FootnoteShape>): Outcome<string>
  {
    var o := ShapeTextAsWritten(number, shape, CustomSymbol(footnoteShape));
    if o.Returned? && o.result.Ok? then Returned(Ok(Decorate(o.result.value, footnoteShape))) else o
  }

  // format_number_by_shape with the intended numerals.
  function FormatNumberByShapeCorrected(number: u32, shape: FootnoteShape.NumberShape,
                                        footnoteShape: Option<FootnoteShape.FootnoteShape>): string
  {
    Decorate(ShapeText(number, shape, CustomSymbol(footnoteShape)), footnoteShape)
  }

  // Past the numeral shapes the source and the intended text agree.
  lemma AsWrittenAgrees(number: u32, shape: FootnoteShape.NumberShape, fs: Option<FootnoteShape.FootnoteShape>)
    requires !NumeralShape(shape)
    ensures FormatNumberByShape(number, shape, fs) == Returned(Ok(FormatNumberByShapeCorrected(number, shape, fs)))
  {
  }

  // A number at place u below Bound(u) never reaches a place past the
  // thousands.
  function Bound(u: nat): nat
    decreases 4 - u
  {
    if u >= 4 then 1 else 10 * Bound(u + 1)
  }

  // The Chinese loop always returns, and so does the Korean one while the
  // number stays below the bound.
  lemma {:induction false} WordsReturn(num: nat, u: nat, acc: string, t: Numerals)
    requires ValidNumerals(t) && (num < Bound(u) || !t.panicsPastThousands)
    ensures WordsAsWritten(num, u, acc, t).Returned? && WordsAsWritten(num, u, acc, t).result.Ok?
    decreases num
  {
    if num > 0 {
      if t.panicsPastThousands {
        assert u < 4 && num / 10 < Bound(u + 1);
      }
      WordsReturn(num / 10, u + 1, DigitAsWritten(acc, num % 10, u, t), t);
    }
  }

  // Past the thousands any nonzero digit stops the Korean loop.
  lemma {:induction false} WordsPanicHigh(num: nat, u: nat, acc: string)
    requires u >= 4 && num > 0
    ensures WordsAsWritten(num, u, acc, HangulNumerals) == IndexOutOfBounds
    decreases num
  {
    if num % 10 == 0 {
      WordsPanicHigh(num / 10, u + 1, DigitAsWritten(acc, 0, u, HangulNumerals));
    }
  }

  lemma {:induction false} WordsPanic(num: nat, u: nat, acc: string)
    requires u <= 4 && num >= Bound(u)
    ensures WordsAsWritten(num, u, acc, HangulNumerals) == IndexOutOfBounds
    decreases 4 - u
  {
    if u < 4 {
      assert num / 10 >= Bound(u + 1);
      WordsPanic(num / 10, u + 1, DigitAsWritten(acc, num % 10, u, HangulNumerals));
    } else {
      WordsPanicHigh(num, u, acc);
    }
  }

  // The Korean numeral as written stops exactly from 10000 on; the Chinese
  // one always returns.
  lemma NumeralAsWrittenPanics(n: u32)
    ensures NumeralAsWritten(n, HangulNumerals) == IndexOutOfBounds <==> n >= 10000
    ensures n < 10000 ==> NumeralAsWritten(n, HangulNumerals).Returned? && NumeralAsWritten(n, HangulNumerals).result.Ok?
    ensures NumeralAsWritten(n, ChineseNumerals).Returned? && NumeralAsWritten(n, ChineseNumerals).result.Ok?
  {
    assert Bound(0) == 10000;
    if n >= 10 {
      WordsReturn(n, 0, "", ChineseNumerals);
      if n >= 10000 {
        WordsPanic(n, 0, "");
      } else {
        WordsReturn(n, 0, "", HangulNumerals);
      }
    }
  }

  // So format_number_by_shape stops only for a Korean numeral of 10000
  // or more.
  lemma FormatPanics(number: u32, shape: FootnoteShape.NumberShape, fs: Option<FootnoteShape.FootnoteShape>)
    ensures FormatNumberByShape(number, shape, fs) == IndexOutOfBounds <==>
      shape == FootnoteShape.HangulNumber && number >= 10000
    ensures FormatNumberByShape(number, shape, fs) != IndexOutOfBounds ==>
      FormatNumberByShape(number, shape, fs).Returned? && FormatNumberByShape(number, shape, fs).result.Ok?
  {
    NumeralAsWrittenPanics(number);
  }

  // A non-zero decoration puts its character before or after the shape's
  // text, and the text itself sits unchanged between them.
  lemma Decorated(text: string, fs: FootnoteShape.FootnoteShape)
    ensures var r := Decorate(text, Some(fs));
      var f := if fs.frontDecoration == 0 then 0 else 1;
      var b := if fs.backDecoration == 0 then 0 else 1;
      |r| == f + |text| + b && r[f..|r| - b] == text &&
      (fs.frontDecoration != 0 ==> r[0] == CharOfCode(fs.frontDecoration)) &&
      (fs.backDecoration != 0 ==> r[|r| - 1] == CharOfCode(fs.backDecoration))
  {
    var r := Decorate(text, Some(fs));
    var f := if fs.frontDecoration == 0 then 0 else 1;
    assert r == Decoration(fs.frontDecoration) + text + Decoration(fs.backDecoration);
    assert r[f..f + |text|] == text;
  }

  lemma Undecorated(text: string)
    ensures Decorate(text, None) == text
  {
    assert Decoration(0) == "";
    assert "" + text + "" == text;
  }
}
