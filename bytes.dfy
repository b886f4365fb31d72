// Fixed-width integers and little-endian / big-endian readers over byte slices,
// as used by every HWP 5.0 record parser (BYTE, WORD, DWORD, INT8/16/32).

module Bytes {
  type byte = x: int | 0 <= x < 0x100
  type u16 = x: int | 0 <= x < 0x1_0000
  type u32 = x: int | 0 <= x < 0x1_0000_0000
  type u64 = x: int | 0 <= x < 0x1_0000_0000_0000_0000
  type i8 = x: int | -0x80 <= x < 0x80
  type i16 = x: int | -0x8000 <= x < 0x8000
  type i32 = x: int | -0x8000_0000 <= x < 0x8000_0000
  type i64 = x: int | -0x8000_0000_0000_0000 <= x < 0x8000_0000_0000_0000

  // A single-bit mask when the flag is set (`if b { mask } else { 0 }`).
  function Bit(b: bool, mask: bv32): bv32
  {
    if b then mask else 0
  }

  // The DWORD holding a bit pattern, and back.
  function Word(v: bv32): (w: u32)
    ensures w as bv32 == v
  {
    v as int
  }

  // Two's-complement reinterpretation (`as i8`, `as i16`, `as i32`).
  function AsI8(v: byte): (r: i8)
    ensures 0 <= v < 0x80 ==> r == v
    ensures 0x80 <= v ==> r == v - 0x100
  {
    if v < 0x80 then v else v - 0x100
  }

  function AsI16(v: u16): (r: i16)
    ensures r % 0x1_0000 == v
  {
    if v < 0x8000 then v else v - 0x1_0000
  }

  function AsI32(v: u32): (r: i32)
    ensures r % 0x1_0000_0000 == v
  {
    if v < 0x8000_0000 then v else v - 0x1_0000_0000
  }

  function AsI64(v: u64): (r: i64)
    ensures r % 0x1_0000_0000_0000_0000 == v
  {
    if v < 0x8000_0000_0000_0000 then v else v - 0x1_0000_0000_0000_0000
  }

  // The inverse reinterpretations, used by the encoders.
  function FromI16(v: i16): (r: u16)
    ensures AsI16(r) == v
  {
    if v >= 0 then v else v + 0x1_0000
  }

  function FromI32(v: i32): (r: u32)
    ensures AsI32(r) == v
  {
    if v >= 0 then v else v + 0x1_0000_0000
  }

  function FromI8(v: i8): (r: byte)
    ensures AsI8(r) == v
  {
    if v >= 0 then v else v + 0x100
  }

  // `n as usize` on a 64-bit target, and the wrapping arithmetic of a
  // release build.
  const UsizeModulus: nat := 0x1_0000_0000_0000_0000

  function Usize(x: int): (r: nat)
    ensures r < UsizeModulus
    ensures 0 <= x < UsizeModulus ==> r == x
  {
    x % UsizeModulus
  }

  // Little-endian readers at an absolute offset.
  function U8(s: seq<byte>, i: nat): byte
    requires i < |s|
  {
    s[i]
  }

  function U16(s: seq<byte>, i: nat): u16
    requires i + 2 <= |s|
  {
    s[i] as int + 0x100 * s[i + 1] as int
  }

  function U32(s: seq<byte>, i: nat): u32
    requires i + 4 <= |s|
  {
    s[i] as int + 0x100 * s[i + 1] as int + 0x1_0000 * s[i + 2] as int + 0x100_0000 * s[i + 3] as int
  }

  function I8(s: seq<byte>, i: nat): i8
    requires i < |s|
  {
    AsI8(s[i])
  }

  function I16(s: seq<byte>, i: nat): i16
    requires i + 2 <= |s|
  {
    AsI16(U16(s, i))
  }

  function I32(s: seq<byte>, i: nat): i32
    requires i + 4 <= |s|
  {
    AsI32(U32(s, i))
  }

  // Big-endian readers (the property-set stream of SummaryInformation).
  function U16Be(s: seq<byte>, i: nat): u16
    requires i + 2 <= |s|
  {
    0x100 * s[i] as int + s[i + 1] as int
  }

  function U32Be(s: seq<byte>, i: nat): u32
    requires i + 4 <= |s|
  {
    0x100_0000 * s[i] as int + 0x1_0000 * s[i + 1] as int + 0x100 * s[i + 2] as int + s[i + 3] as int
  }

  // Little-endian encoders, the inverses of the readers.
  function Le16(v: u16): (r: seq<byte>)
    ensures |r| == 2
  {
    [v % 0x100, v / 0x100]
  }

  function Le32(v: u32): (r: seq<byte>)
    ensures |r| == 4
  {
    [v % 0x100, (v / 0x100) % 0x100, (v / 0x1_0000) % 0x100, v / 0x100_0000]
  }

  lemma Le16Read(a: seq<byte>, v: u16, b: seq<byte>)
    ensures U16(a + Le16(v) + b, |a|) == v
  {
    var s := a + Le16(v) + b;
    assert s[|a|] == v % 0x100 && s[|a| + 1] == v / 0x100;
  }

  lemma Le32Read(a: seq<byte>, v: u32, b: seq<byte>)
    ensures U32(a + Le32(v) + b, |a|) == v
  {
    var s := a + Le32(v) + b;
    assert s[|a|] == v % 0x100;
    assert s[|a| + 1] == (v / 0x100) % 0x100;
    assert s[|a| + 2] == (v / 0x1_0000) % 0x100;
    assert s[|a| + 3] == v / 0x100_0000;
    Le32Value(v);
  }

  // A DWORD is the sum of its four bytes, low to high.
  lemma Le32Value(v: u32)
    ensures v % 0x100 + 0x100 * ((v / 0x100) % 0x100) + 0x1_0000 * ((v / 0x1_0000) % 0x100) + 0x100_0000 * (v / 0x100_0000) == v
  {
    var q1 := v / 0x100;
    var q2 := q1 / 0x100;
    var q3 := q2 / 0x100;
    var t2 := 0x100 * (q1 % 0x100) + v % 0x100;
    assert v == 0x100 * q1 + v % 0x100;
    assert q1 == 0x100 * q2 + q1 % 0x100;
    assert q2 == 0x100 * q3 + q2 % 0x100;
    assert v == 0x1_0000 * q2 + t2;
    DivUnique(v, 0x1_0000, q2, t2);
    var t3 := 0x1_0000 * (q2 % 0x100) + t2;
    assert v == 0x100_0000 * q3 + t3;
    DivUnique(v, 0x100_0000, q3, t3);
  }

  lemma U32Le32(s: seq<byte>, i: nat)
    requires i + 4 <= |s|
    ensures Le32(U32(s, i)) == s[i..i + 4]
  {
    var a, b, c, d := s[i] as int, s[i + 1] as int, s[i + 2] as int, s[i + 3] as int;
    var v := U32(s, i);
    assert v == a + 0x100 * (b + 0x100 * (c + 0x100 * d));
    assert v % 0x100 == a && v / 0x100 == b + 0x100 * (c + 0x100 * d);
    var v1 := b + 0x100 * (c + 0x100 * d);
    assert v1 % 0x100 == b && v1 / 0x100 == c + 0x100 * d;
    assert v / 0x1_0000 == v1 / 0x100;
    assert v / 0x100_0000 == (v1 / 0x100) / 0x100;
  }

  lemma U16Le16(s: seq<byte>, i: nat)
    requires i + 2 <= |s|
    ensures Le16(U16(s, i)) == s[i..i + 2]
  {
  }

  // The bytes of a NUL-terminated fixed field with its trailing NULs removed
  // (`trim_end_matches('\0')`).
  function TrimTrailingNul(s: seq<byte>): (r: seq<byte>)
    ensures |r| <= |s| && r == s[..|r|]
    ensures |r| > 0 ==> r[|r| - 1] != 0
    ensures forall i :: |r| <= i < |s| ==> s[i] == 0
  {
    if |s| == 0 then []
    else if s[|s| - 1] == 0 then TrimTrailingNul(s[..|s| - 1])
    else s
  }

  function Zeros(n: nat): (r: seq<byte>)
    ensures |r| == n && forall i :: 0 <= i < n ==> r[i] == 0
  {
    seq(n, _ => 0)
  }

  // Padding with NULs and trimming them again gives the field back.
  lemma {:induction false} TrimPadded(s: seq<byte>, n: nat)
    requires |s| == 0 || s[|s| - 1] != 0
    ensures TrimTrailingNul(s + Zeros(n)) == s
  {
    if n > 0 {
      assert (s + Zeros(n))[..|s| + n - 1] == s + Zeros(n - 1);
      TrimPadded(s, n - 1);
    } else {
      assert s + Zeros(0) == s;
    }
  }

  // An ASCII literal as the bytes that spell it.
  function Ascii(s: string): (r: seq<byte>)
    requires forall i :: 0 <= i < |s| ==> s[i] as int < 0x80
    ensures |r| == |s|
    ensures forall i :: 0 <= i < |s| ==> r[i] == s[i] as int
  {
    if |s| == 0 then [] else [s[0] as int] + Ascii(s[1..])
  }

  // Division facts over unbounded naturals.
  lemma MulLe(m: nat, a: nat, b: nat)
    requires a <= b
    ensures m * a <= m * b
  {
    var d := b - a;
    assert m * b == m * a + m * d;
  }

  lemma DivUnique(x: nat, m: nat, q: nat, t: nat)
    requires m > 0 && t < m && x == m * q + t
    ensures x / m == q
  {
    var d, e := x / m, x % m;
    assert x == m * d + e;
    if d > q {
      assert m * (q + 1) == m * q + m;
      MulLe(m, q + 1, d);
    } else if d < q {
      assert m * (d + 1) == m * d + m;
      MulLe(m, d + 1, q);
    }
  }

  lemma DivAddMul(a: nat, m: nat, b: nat)
    requires m > 0
    ensures (m * a + b) / m == a + b / m
  {
    var q, t := b / m, b % m;
    assert b == m * q + t;
    assert m * a + b == m * (a + q) + t;
    DivUnique(m * a + b, m, a + q, t);
  }

  // Reading a DWORD or WORD where its encoding sits.
  lemma U32At(s: seq<byte>, o: nat, v: u32)
    requires o + 4 <= |s| && s[o..o + 4] == Le32(v)
    ensures U32(s, o) == v
  {
    assert s == s[..o] + Le32(v) + s[o + 4..];
    Le32Read(s[..o], v, s[o + 4..]);
  }

  lemma U16At(s: seq<byte>, o: nat, v: u16)
    requires o + 2 <= |s| && s[o..o + 2] == Le16(v)
    ensures U16(s, o) == v
  {
    assert s == s[..o] + Le16(v) + s[o + 2..];
    Le16Read(s[..o], v, s[o + 2..]);
  }

  // The concatenation of equal-sized parts, as a writer lays out an array
  // of fixed-size records.
  function Concat(parts: seq<seq<byte>>): seq<byte>
  {
    if |parts| == 0 then [] else parts[0] + Concat(parts[1..])
  }

  predicate AllSized(parts: seq<seq<byte>>, k: nat)
  {
    forall j :: 0 <= j < |parts| ==> |parts[j]| == k
  }

  lemma {:induction false} ConcatLength(parts: seq<seq<byte>>, k: nat)
    requires AllSized(parts, k)
    ensures |Concat(parts)| == k * |parts|
  {
    if |parts| > 0 {
      ConcatLength(parts[1..], k);
    }
  }

  // Part i sits at bytes i*k .. i*k+k.
  lemma {:induction false} ConcatChunk(parts: seq<seq<byte>>, k: nat, i: nat)
    requires AllSized(parts, k) && i < |parts|
    ensures i * k + k <= |Concat(parts)| && Concat(parts)[i * k..i * k + k] == parts[i]
  {
    ConcatLength(parts, k);
    ConcatLength(parts[1..], k);
    var c := Concat(parts);
    if i > 0 {
      ConcatChunk(parts[1..], k, i - 1);
      assert i * k == k + (i - 1) * k;
      assert c[i * k..i * k + k] == Concat(parts[1..])[(i - 1) * k..(i - 1) * k + k];
    } else {
      assert c[..k] == parts[0];
    }
    assert i * k + k <= k * |parts|;
  }

  // A run of little-endian DWORDs.
  function Words(ws: seq<u32>): (r: seq<byte>)
    ensures |r| == 4 * |ws|
  {
    if |ws| == 0 then [] else Le32(ws[0]) + Words(ws[1..])
  }

  lemma {:induction false} WordAt(ws: seq<u32>, i: nat, rest: seq<byte>)
    requires i < |ws|
    ensures U32(Words(ws) + rest, 4 * i) == ws[i]
  {
    if i == 0 {
      assert Words(ws) + rest == [] + Le32(ws[0]) + (Words(ws[1..]) + rest);
      Le32Read([], ws[0], Words(ws[1..]) + rest);
    } else {
      var tail := Words(ws[1..]) + rest;
      WordAt(ws[1..], i - 1, rest);
      assert ws[1..][i - 1] == ws[i];
      assert Words(ws) + rest == Le32(ws[0]) + tail;
      U32Skip(Le32(ws[0]), tail, 4 * (i - 1));
      assert |Le32(ws[0])| + 4 * (i - 1) == 4 * i;
    }
  }

  // Every DWORD of a run, at its offset.
  lemma WordsAt(ws: seq<u32>, rest: seq<byte>)
    ensures forall k :: 0 <= k < |ws| ==> U32(Words(ws) + rest, 4 * k) == ws[k]
  {
    forall k | 0 <= k < |ws|
      ensures U32(Words(ws) + rest, 4 * k) == ws[k]
    {
      WordAt(ws, k, rest);
    }
  }

  // DWORD i of a run that follows a prefix.
  lemma {:induction false} WordAfter(p: seq<byte>, ws: seq<u32>, i: nat)
    requires i < |ws|
    ensures U32(p + Words(ws), |p| + 4 * i) == ws[i]
    decreases i
  {
    var q := p + Le32(ws[0]);
    assert p + Words(ws) == q + Words(ws[1..]);
    if i == 0 {
      Le32Read(p, ws[0], Words(ws[1..]));
    } else {
      WordAfter(q, ws[1..], i - 1);
    }
  }

  // The n DWORDs from offset start, in order.
  function DwordsAt(data: seq<byte>, start: nat, n: nat): (ws: seq<u32>)
    requires start + 4 * n <= |data|
    ensures |ws| == n
    ensures forall k :: 0 <= k < n ==> ws[k] == U32(data, start + 4 * k)
  {
    if n == 0 then [] else DwordsAt(data, start, n - 1) + [U32(data, start + 4 * (n - 1))]
  }

  // The n INT32s from offset start, in order.
  function Int32sAt(data: seq<byte>, start: nat, n: nat): (xs: seq<i32>)
    requires start + 4 * n <= |data|
    ensures |xs| == n
    ensures forall k :: 0 <= k < n ==> xs[k] == I32(data, start + 4 * k)
  {
    if n == 0 then [] else Int32sAt(data, start, n - 1) + [I32(data, start + 4 * (n - 1))]
  }

  // The DWORDs holding a run of INT32s, for the writers.
  function IntWords(xs: seq<i32>): (ws: seq<u32>)
    ensures |ws| == |xs|
    ensures forall k :: 0 <= k < |xs| ==> AsI32(ws[k]) == xs[k]
  {
    if |xs| == 0 then [] else [FromI32(xs[0])] + IntWords(xs[1..])
  }

  // Reading before a suffix.
  lemma U32Prefix(a: seq<byte>, b: seq<byte>, o: nat)
    requires o + 4 <= |a|
    ensures U32(a + b, o) == U32(a, o)
  {
  }

  lemma U16Prefix(a: seq<byte>, b: seq<byte>, o: nat)
    requires o + 2 <= |a|
    ensures U16(a + b, o) == U16(a, o)
  {
  }

  // A run of little-endian WORDs.
  function Halves(hs: seq<u16>): (r: seq<byte>)
    ensures |r| == 2 * |hs|
  {
    if |hs| == 0 then [] else Le16(hs[0]) + Halves(hs[1..])
  }

  lemma {:induction false} HalfAt(hs: seq<u16>, i: nat, rest: seq<byte>)
    requires i < |hs|
    ensures U16(Halves(hs) + rest, 2 * i) == hs[i]
  {
    if i == 0 {
      assert Halves(hs) + rest == [] + Le16(hs[0]) + (Halves(hs[1..]) + rest);
      Le16Read([], hs[0], Halves(hs[1..]) + rest);
    } else {
      HalfAt(hs[1..], i - 1, rest);
      assert Halves(hs) + rest == Le16(hs[0]) + (Halves(hs[1..]) + rest);
      U16Skip(Le16(hs[0]), Halves(hs[1..]) + rest, 2 * (i - 1));
    }
  }

  // WORD i of a run that follows a prefix.
  lemma {:induction false} HalfAfter(p: seq<byte>, hs: seq<u16>, i: nat)
    requires i < |hs|
    ensures U16(p + Halves(hs), |p| + 2 * i) == hs[i]
    decreases i
  {
    var q := p + Le16(hs[0]);
    assert p + Halves(hs) == q + Halves(hs[1..]);
    if i == 0 {
      Le16Read(p, hs[0], Halves(hs[1..]));
    } else {
      HalfAfter(q, hs[1..], i - 1);
    }
  }

  // Reading past a prefix.
  lemma U32Skip(a: seq<byte>, b: seq<byte>, o: nat)
    requires o + 4 <= |b|
    ensures U32(a + b, |a| + o) == U32(b, o)
  {
  }

  lemma U16Skip(a: seq<byte>, b: seq<byte>, o: nat)
    requires o + 2 <= |b|
    ensures U16(a + b, |a| + o) == U16(b, o)
  {
  }

  // Reading a WORD or DWORD whose bytes are those of an encoding.
  lemma U16Of(s: seq<byte>, o: nat, v: u16)
    requires o + 2 <= |s| && s[o] == Le16(v)[0] && s[o + 1] == Le16(v)[1]
    ensures U16(s, o) == v
  {
  }

  lemma U32Of(s: seq<byte>, o: nat, v: u32)
    requires o + 4 <= |s|
    requires s[o] == Le32(v)[0] && s[o + 1] == Le32(v)[1] && s[o + 2] == Le32(v)[2] && s[o + 3] == Le32(v)[3]
    ensures U32(s, o) == v
  {
    Le32Read([], v, []);
    assert U32(s, o) == U32([] + Le32(v) + [], 0);
  }

  // The middle part of a concatenation.
  lemma MiddleSlice(a: seq<byte>, b: seq<byte>, c: seq<byte>)
    ensures (a + b + c)[|a|..|a| + |b|] == b
  {
  }

  lemma Associative<T>(a: seq<T>, b: seq<T>, c: seq<T>)
    ensures a + (b + c) == a + b + c
  {
  }

  // The parts of a suffix that starts with a known prefix.
  lemma SliceAfter<T>(data: seq<T>, cur: nat, e: seq<T>, tail: seq<T>)
    requires cur <= |data| && data[cur..] == e + tail
    ensures cur + |e| <= |data| && data[cur..cur + |e|] == e && data[cur + |e|..] == tail
  {
    assert data[cur..][..|e|] == e;
    assert data[cur..][|e|..] == tail;
  }

  // A suffix cut in three.
  lemma SliceSplit<T>(data: seq<T>, i: nat, j: nat, k: nat)
    requires i <= j <= k <= |data|
    ensures data[i..] == data[i..j] + (data[j..k] + data[k..])
  {
  }

  lemma ConsSlice<T>(s: seq<T>)
    requires |s| > 0
    ensures [s[0]] + s[1..] == s
  {
  }
}
