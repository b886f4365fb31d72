// Lists built by testing single-bit masks one after another and pushing
// the item of every set bit, the shape shared by the flag serialisers of
// the FileHeader, the paragraph control mask and the column-divide bits.

module BitFlags {
  import opened Bytes

  // A flag bit and what is listed when it is set.
  datatype Flag<T> = Flag(mask: nat, item: T)

  // `(flags & mask) != 0` for a single-bit mask.
  predicate HasMask(flags: nat, mask: nat)
    requires mask > 0
  {
    (flags / mask) % 2 == 1
  }

  // The bit a writer stores for a flag.
  function BoolBit(b: bool): (c: nat)
    ensures c < 2
  {
    if b then 1 else 0
  }

  // A flag read back from the bit a writer stored for it.
  lemma BoolBitMask(b: bool, v: nat, m: nat)
    requires m > 0 && v / m % 2 == BoolBit(b)
    ensures HasMask(v, m) <==> b
  {
  }

  predicate ValidTable<T>(table: seq<Flag<T>>)
  {
    forall i :: 0 <= i < |table| ==> table[i].mask > 0
  }

  // The items of the flags that are set, in table order.
  function Active<T>(table: seq<Flag<T>>, flags: nat): seq<T>
    requires ValidTable(table)
  {
    if |table| == 0 then []
    else
      var last := table[|table| - 1];
      Active(table[..|table| - 1], flags) + (if HasMask(flags, last.mask) then [last.item] else [])
  }

  // The serialisers test each mask in turn and push the item of every set
  // bit onto the list.
  method CollectFlags<T>(table: seq<Flag<T>>, flags: nat) returns (active: seq<T>)
    requires ValidTable(table)
    ensures active == Active(table, flags)
  {
    active := [];
    var i := 0;
    while i < |table|
      invariant 0 <= i <= |table|
      invariant active == Active(table[..i], flags)
    {
      assert table[..i + 1][..i] == table[..i];
      if (flags / table[i].mask) % 2 == 1 {
        active := active + [table[i].item];
      }
      i := i + 1;
    }
    assert table[..i] == table;
  }

  predicate DistinctItems<T(==)>(table: seq<Flag<T>>)
  {
    forall i, j :: 0 <= i < j < |table| ==> table[i].item != table[j].item
  }

  // An item is listed iff its bit is set.
  lemma {:induction false} ActiveMember<T>(table: seq<Flag<T>>, flags: nat, i: nat)
    requires ValidTable(table) && DistinctItems(table) && i < |table|
    ensures table[i].item in Active(table, flags) <==> HasMask(flags, table[i].mask)
  {
    var n := |table| - 1;
    var front := table[..n];
    assert ValidTable(front) && DistinctItems(front);
    if i < n {
      ActiveMember(front, flags, i);
      assert table[n].item != table[i].item;
    } else {
      ActiveExclude(front, flags, table[i].item);
    }
  }

  lemma {:induction false} ActiveExclude<T>(table: seq<Flag<T>>, flags: nat, x: T)
    requires ValidTable(table)
    requires forall k :: 0 <= k < |table| ==> table[k].item != x
    ensures x !in Active(table, flags)
  {
    if |table| > 0 {
      ActiveExclude(table[..|table| - 1], flags, x);
    }
  }

  // idx[k] is the table entry the k-th listed item comes from: a set flag
  // with that item, strictly after the entry of the (k-1)-th.
  ghost predicate Sourced<T>(table: seq<Flag<T>>, flags: nat, r: seq<T>, idx: seq<nat>)
  {
    ValidTable(table) && |idx| == |r| &&
    (forall k :: 0 <= k < |r| ==> idx[k] < |table| && r[k] == table[idx[k]].item && HasMask(flags, table[idx[k]].mask)) &&
    (forall k :: 0 < k < |r| ==> idx[k - 1] < idx[k])
  }

  lemma SourcedPrefix<T>(table: seq<Flag<T>>, n: nat, flags: nat, r: seq<T>, idx: seq<nat>)
    requires ValidTable(table) && n <= |table| && Sourced(table[..n], flags, r, idx)
    ensures Sourced(table, flags, r, idx) && forall k :: 0 <= k < |idx| ==> idx[k] < n
  {
    assert forall k :: 0 <= k < |r| ==> table[..n][idx[k]] == table[idx[k]];
  }

  lemma SourcedSnoc<T>(table: seq<Flag<T>>, n: nat, flags: nat, r: seq<T>, idx: seq<nat>)
    requires n < |table| && Sourced(table, flags, r, idx) && HasMask(flags, table[n].mask)
    requires forall k :: 0 <= k < |idx| ==> idx[k] < n
    ensures Sourced(table, flags, r + [table[n].item], idx + [n])
  {
  }

  // The entries the listed items come from.
  lemma {:induction false} ActiveSources<T>(table: seq<Flag<T>>, flags: nat) returns (idx: seq<nat>)
    requires ValidTable(table)
    ensures Sourced(table, flags, Active(table, flags), idx)
  {
    if |table| == 0 {
      idx := [];
    } else {
      var n := |table| - 1;
      assert ValidTable(table[..n]);
      var idx0 := ActiveSources(table[..n], flags);
      var r0 := Active(table[..n], flags);
      SourcedPrefix(table, n, flags, r0, idx0);
      if HasMask(flags, table[n].mask) {
        SourcedSnoc(table, n, flags, r0, idx0);
        idx := idx0 + [n];
      } else {
        idx := idx0;
      }
    }
  }

  // Every listed item is the item of a set flag, and the list follows
  // table order.
  lemma ActiveOrdered<T>(table: seq<Flag<T>>, flags: nat)
    requires ValidTable(table)
    ensures exists idx: seq<nat> :: Sourced(table, flags, Active(table, flags), idx)
  {
    var idx := ActiveSources(table, flags);
  }

  // Reducing modulo a multiple of 2 * mask keeps the bit at mask.
  lemma ModKeepsMask(flags: nat, mask: nat, c: nat)
    requires mask > 0 && c > 0
    ensures HasMask(flags % (2 * mask * c), mask) <==> HasMask(flags, mask)
  {
    assert 2 * mask * c == mask * 2 * c;
    FieldBelow(flags, mask, 2, c);
  }

  lemma {:induction false} ActiveMod<T>(table: seq<Flag<T>>, flags: nat, k: nat)
    requires ValidTable(table) && k > 0
    requires forall i :: 0 <= i < |table| ==> k % (2 * table[i].mask) == 0
    ensures Active(table, flags % k) == Active(table, flags)
  {
    if |table| > 0 {
      var n := |table| - 1;
      ActiveMod(table[..n], flags, k);
      var m := table[n].mask;
      ModKeepsMask(flags, m, k / (2 * m));
      assert 2 * m * (k / (2 * m)) == k;
    }
  }

  // A field of width w at position m reads back from a word built around it.
  lemma FieldOf(lo: nat, m: nat, c: nat, w: nat, hi: nat)
    requires m > 0 && w > 0 && lo < m && c < w
    ensures (lo + m * (c + w * hi)) / m % w == c
  {
    DivUnique(lo + m * (c + w * hi), m, c + w * hi, lo);
    DivUnique(c + w * hi, w, hi, c);
  }

  // Dividing twice is dividing by the product.
  // The same, for a value known to have that layout.
  lemma FieldIn(v: nat, lo: nat, m: nat, c: nat, w: nat, hi: nat)
    requires m > 0 && w > 0 && lo < m && c < w && v == lo + m * (c + w * hi)
    ensures v / m % w == c
  {
    FieldOf(lo, m, c, w, hi);
  }

  lemma DivDiv(v: nat, a: nat, b: nat)
    requires a > 0 && b > 0
    ensures v / a / b == v / (a * b)
  {
    var q, r := v / a, v % a;
    var q2, r2 := q / b, q % b;
    assert v == (a * b) * q2 + (a * r2 + r);
    assert a * r2 + r < a * b by {
      MulLe(a, r2 + 1, b);
    }
    DivUnique(v, a * b, q2, a * r2 + r);
  }

  lemma ModAddMul(w: nat, a: nat, b: nat)
    requires w > 0
    ensures (w * a + b) % w == b % w
  {
    DivAddMul(a, w, b);
  }

  lemma MulAssoc(a: nat, b: nat, c: nat)
    ensures a * b * c == a * (b * c)
  {
  }

  // A field below bit m * w * k is the same in the word reduced modulo that bit.
  lemma FieldBelow(v: nat, m: nat, w: nat, k: nat)
    requires m > 0 && w > 0 && k > 0
    ensures (v % (m * w * k)) / m % w == v / m % w
  {
    var wk := w * k;
    var n := m * wk;
    MulAssoc(m, w, k);
    var q, r := v / n, v % n;
    var t := wk * q;
    var kq := k * q;
    MulAssoc(m, wk, q);
    MulAssoc(w, k, q);
    assert v == m * t + r;
    DivAddMul(t, m, r);
    assert t == w * kq;
    ModAddMul(w, kq, r / m);
  }
}
