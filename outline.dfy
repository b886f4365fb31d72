// The outline numbers shared by the HTML and Markdown viewers
// (crates/hwp-core/src/viewer/core/outline.rs): a tracker holds one u32
// counter per outline level 1 to 7; using a level counts it up (or starts
// it at 1) and restarts every deeper level. The number is then framed by
// its level: "1.", "가.", "1)", "가)", "(1)", "(가)" and a circled digit.

module Outline {
  import opened Bytes
  import opened Text
  import NumberFormat

  // `level - 1` on a u8: in a release build level 0 wraps to 255, which
  // the index check then turns away.
  function LevelIndex(level: byte): (i: nat)
    ensures 1 <= level ==> i == level - 1
    ensures level == 0 ==> i == 255
  {
    (level as int - 1) % 0x100
  }

  // `+= 1` on a u32 counter, wrapping in a release build.
  function Inc(c: u32): (r: u32)
    ensures c < 0xFFFF_FFFF ==> r == c + 1
    ensures c == 0xFFFF_FFFF ==> r == 0
  {
    (c + 1) % 0x1_0000_0000
  }

  // A level the tracker counts.
  predicate Counted(level: byte)
  {
    level < 8 && LevelIndex(level) < 7
  }

  lemma CountedLevels(level: byte)
    ensures Counted(level) <==> 1 <= level <= 7
  {
  }

  // The counters after one use of a level: the counter of the level goes
  // up by one, or starts at 1 when it was 0; shallower counters stay and
  // deeper ones restart at 0. Any other level changes nothing.
  function Advance(cs: seq<u32>, level: byte): (r: seq<u32>)
    requires |cs| == 7
    ensures |r| == 7
  {
    if !Counted(level) then cs
    else
      var i := LevelIndex(level);
      seq(7, k requires 0 <= k < 7 => AdvancedAt(cs, i, k))
  }

  // Counter k after a use of the level with index i.
  function AdvancedAt(cs: seq<u32>, i: nat, k: nat): u32
    requires i < 7 && k < 7 && |cs| == 7
  {
    if k < i then cs[k] else if k > i then 0 else if cs[i] > 0 then Inc(cs[i]) else 1
  }

  // The number get_and_increment returns: the level's new counter, or 0.
  function Number(cs: seq<u32>, level: byte): (n: u32)
    requires |cs| == 7
  {
    if Counted(level) then Advance(cs, level)[LevelIndex(level)] else 0
  }

  const Fresh: seq<u32> := [0, 0, 0, 0, 0, 0, 0]

  class OutlineNumberTracker {
    const counters: array<u32>

    predicate Valid()
      reads this
    {
      counters.Length == 7
    }

    // OutlineNumberTracker::new: every counter at 0.
    constructor ()
      ensures Valid() && fresh(counters) && counters[..] == Fresh
    {
      counters := new u32[7](_ => 0);
      new;
      assert counters[..] == Fresh;
    }

    // get_and_increment with its loops that restart the deeper counters.
    method GetAndIncrement(level: byte) returns (n: u32)
      requires Valid()
      modifies counters
      ensures counters[..] == Advance(old(counters[..]), level)
      ensures n == Number(old(counters[..]), level)
    {
      ghost var before := counters[..];
      if level >= 8 {
        return 0;
      }
      var levelIndex := (level as int - 1) % 0x100;
      if levelIndex < 7 {
        var isSameLevel := counters[levelIndex] > 0;
        if isSameLevel {
          for i := levelIndex + 1 to 7
            invariant forall k :: 0 <= k < 7 ==> counters[k] == if levelIndex < k < i then 0 else before[k]
          {
            counters[i] := 0;
          }
          counters[levelIndex] := Inc(counters[levelIndex]);
        } else {
          for i := levelIndex to 7
            invariant forall k :: 0 <= k < 7 ==> counters[k] == if levelIndex <= k < i then 0 else before[k]
          {
            counters[i] := 0;
          }
          counters[levelIndex] := 1;
        }
        assert counters[..] == Advance(before, level);
        n := counters[levelIndex];
      } else {
        n := 0;
      }
    }
  }

  // A level the tracker does not count leaves the counters alone and is
  // numbered 0.
  lemma Uncounted(cs: seq<u32>, level: byte)
    requires |cs| == 7 && (level == 0 || level >= 8)
    ensures Advance(cs, level) == cs && Number(cs, level) == 0
  {
  }

  // After any use of a level, the next use of a deeper level starts at 1.
  lemma RestartAfterShallower(cs: seq<u32>, level: byte, deeper: byte)
    requires |cs| == 7 && 1 <= level < deeper <= 7
    ensures Number(Advance(cs, level), deeper) == 1
  {
    var r := Advance(cs, level);
    assert r[deeper - 1] == 0;
  }

  // A use of a deeper level keeps the counters of the shallower ones.
  lemma DeeperKeeps(cs: seq<u32>, level: byte, deeper: byte)
    requires |cs| == 7 && 1 <= level < deeper <= 7
    ensures Advance(cs, deeper)[level - 1] == cs[level - 1]
  {
  }

  // Uses of one level with nothing in between count 1, 2, 3 and so on
  // from a fresh tracker, whatever happened to the deeper levels.
  function Repeat(cs: seq<u32>, level: byte, k: nat): (r: seq<u32>)
    requires |cs| == 7
    ensures |r| == 7
  {
    if k == 0 then cs else Advance(Repeat(cs, level, k - 1), level)
  }

  lemma {:induction false} Siblings(level: byte, k: nat)
    requires 1 <= level <= 7 && 1 <= k < 0x1_0000_0000
    ensures Repeat(Fresh, level, k)[level - 1] == k
    ensures forall j :: 0 <= j < level - 1 ==> Repeat(Fresh, level, k)[j] == 0
  {
    var i := level - 1;
    var prev := Repeat(Fresh, level, k - 1);
    assert Repeat(Fresh, level, k) == Advance(prev, level);
    if k > 1 {
      Siblings(level, k - 1);
      assert prev[i] > 0;
    } else {
      assert prev == Fresh;
    }
    assert Advance(prev, level)[i] == AdvancedAt(prev, i, i);
  }

  // The k-th of those uses returns k.
  lemma SiblingNumbers(level: byte, k: nat)
    requires 1 <= level <= 7 && k < 0xFFFF_FFFF
    ensures Number(Repeat(Fresh, level, k), level) == k + 1
  {
    var cs := Repeat(Fresh, level, k);
    assert Number(cs, level) == AdvancedAt(cs, level - 1, level - 1);
    if k > 0 {
      Siblings(level, k);
    } else {
      assert cs == Fresh;
    }
  }

  // ---------------------------------------------------------------------
  // format_outline_number.

  // number_to_hangul, which is the same 14-syllable cycle as the footnote
  // formats use, and number_to_circled.
  function Hangul(number: u32): string
  {
    NumberFormat.HangulLetter(number)
  }

  function FormatOutlineNumber(level: byte, number: u32): string
  {
    match level
    case 1 => Decimal(number) + "."
    case 2 => Hangul(number) + "."
    case 3 => Decimal(number) + ")"
    case 4 => Hangul(number) + ")"
    case 5 => "(" + Decimal(number) + ")"
    case 6 => "(" + Hangul(number) + ")"
    case 7 => NumberFormat.Circled(number)
    case _ => Decimal(number) + "."
  }

  // The text between a level's opening and closing marks.
  function Inner(level: byte, s: string): string
    requires |s| >= 2
  {
    if level == 5 || level == 6 then s[1..|s| - 1] else s[..|s| - 1]
  }

  // At the decimal levels the digits between the marks read back as the
  // number, so different numbers never share a label.
  lemma DecimalLabel(level: byte, number: u32)
    requires level != 2 && level != 4 && level != 6 && level != 7
    ensures var s := FormatOutlineNumber(level, number);
      |s| >= 2 && AllDigits(Inner(level, s)) && DecimalValue(Inner(level, s)) == number &&
      s[|s| - 1] == (if level == 3 || level == 5 then ')' else '.')
  {
    var s := FormatOutlineNumber(level, number);
    DecimalRoundTrip(number);
    assert Inner(level, s) == Decimal(number);
  }

  // At the Hangul levels a number from 1 on gets one syllable, and the
  // syllables repeat every 14.
  lemma HangulLabel(level: byte, number: u32)
    requires (level == 2 || level == 4 || level == 6) && 1 <= number
    ensures var s := FormatOutlineNumber(level, number);
      |s| >= 2 && |Inner(level, s)| == 1 && Inner(level, s)[0] in NumberFormat.HangulSyllables
    ensures number + 14 < 0x1_0000_0000 ==> FormatOutlineNumber(level, number + 14) == FormatOutlineNumber(level, number)
  {
    NumberFormat.CyclicPeriod(NumberFormat.HangulSyllables, number);
    var s := FormatOutlineNumber(level, number);
    assert Inner(level, s) == Hangul(number);
  }

  // is_format_string_empty_or_null: despite the name an empty string is
  // not, and only a string made of NUL characters is. (Its second test, on
  // the UTF-8 bytes, agrees with the first: only U+0000 encodes to a zero
  // byte.)
  function IsFormatStringEmptyOrNull(s: string): (r: bool)
    ensures r <==> |s| > 0 && forall i :: 0 <= i < |s| ==> s[i] == '\0'
  {
    AllNulMeans(s);
    if |s| == 0 then false else AllNul(s)
  }

  function AllNul(s: string): bool
  {
    |s| == 0 || (s[0] == '\0' && AllNul(s[1..]))
  }

  lemma {:induction false} AllNulMeans(s: string)
    ensures AllNul(s) <==> forall i :: 0 <= i < |s| ==> s[i] == '\0'
  {
    if |s| > 0 {
      AllNulMeans(s[1..]);
      assert forall i :: 1 <= i < |s| ==> s[i] == s[1..][i - 1];
    }
  }
}
