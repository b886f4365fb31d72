// The record tree of a BodyText section
// (crates/hwp-core/src/document/bodytext/record_tree.rs).
//
// Records are read one after another; each record's level decides its
// parent: level 0 hangs off a synthetic root, and a record at level L > 0
// hangs off the last earlier record whose level is below L (the last record
// at level L - 1 when levels never jump by more than one).

module RecordTree {
  import opened Bytes
  import opened Errors
  import opened HwpTypes

  datatype Record = Record(header: RecordHeader, data: seq<byte>)

  datatype RecordTreeNode = RecordTreeNode(header: RecordHeader, data: seq<byte>, children: seq<RecordTreeNode>)

  const RootHeader := RecordHeader(0, 0, 0, false)

  // The flat record sequence of data[offset..]: a header, then `size` bytes.
  function Records(data: seq<byte>, offset: nat): (r: Result<seq<Record>>)
    requires offset <= |data|
    decreases |data| - offset
    ensures r.Ok? ==> forall i :: 0 <= i < |r.value| ==> |r.value[i].data| == r.value[i].header.size
  {
    if offset == |data| then Ok([])
    else match ParseRecordHeader(data[offset..])
      case Err(e) => Err(e)
      case Ok((h, n)) =>
        if offset + n + h.size > |data| then
          Err(InsufficientData("Record at offset", offset + n + h.size, |data|))
        else match Records(data, offset + n + h.size)
          case Err(e) => Err(e)
          case Ok(rest) => Ok([Record(h, data[offset + n..offset + n + h.size])] + rest)
  }

  // The byte image of a record sequence.
  function Serialize(recs: seq<Record>): seq<byte>
  {
    if |recs| == 0 then []
    else EncodeRecordHeader(recs[0].header) + recs[0].data + Serialize(recs[1..])
  }

  predicate WellSized(recs: seq<Record>)
  {
    forall i :: 0 <= i < |recs| ==> WellFormed(recs[i].header) && |recs[i].data| == recs[i].header.size
  }

  // The records of a successful parse are exactly the bytes that were read:
  // nothing is skipped and nothing is read twice.
  lemma {:induction false} RecordsWellSized(data: seq<byte>, offset: nat)
    requires offset <= |data| && Records(data, offset).Ok?
    ensures WellSized(Records(data, offset).value)
    decreases |data| - offset
  {
    if offset < |data| {
      var (h, n) := ParseRecordHeader(data[offset..]).value;
      var next := offset + n + h.size;
      RecordsWellSized(data, next);
      var recs := Records(data, offset).value;
      assert recs == [Record(h, data[offset + n..next])] + Records(data, next).value;
    }
  }

  lemma {:induction false} RecordsCoverData(data: seq<byte>, offset: nat)
    requires offset <= |data| && Records(data, offset).Ok?
    ensures Serialize(Records(data, offset).value) == data[offset..]
    decreases |data| - offset
  {
    if offset < |data| {
      var h, n, rest := RecordsHead(data, offset);
      var next := offset + n + h.size;
      RecordsCoverData(data, next);
      CoverStep(data, offset, n, next, h, rest);
    }
  }

  // One record's header and body, then the bytes the rest covers.
  lemma CoverStep(data: seq<byte>, offset: nat, n: nat, next: nat, h: RecordHeader, rest: seq<Record>)
    requires offset + n <= next <= |data|
    requires EncodeRecordHeader(h) == data[offset..offset + n] && Serialize(rest) == data[next..]
    ensures Serialize([Record(h, data[offset + n..next])] + rest) == data[offset..]
  {
    var recs := [Record(h, data[offset + n..next])] + rest;
    assert recs[1..] == rest;
    SerializeCons(recs);
    SliceSplit(data, offset, offset + n, next);
  }

  // The first record of a successful parse and the records after it.
  lemma RecordsHead(data: seq<byte>, offset: nat) returns (h: RecordHeader, n: nat, rest: seq<Record>)
    requires offset < |data| && Records(data, offset).Ok?
    ensures ParseRecordHeader(data[offset..]) == Ok((h, n)) && offset + n + h.size <= |data|
    ensures Records(data, offset + n + h.size) == Ok(rest)
    ensures Records(data, offset).value == [Record(h, data[offset + n..offset + n + h.size])] + rest
    ensures EncodeRecordHeader(h) == data[offset..offset + n]
  {
    h, n := ParseRecordHeader(data[offset..]).value.0, ParseRecordHeader(data[offset..]).value.1;
    rest := Records(data, offset + n + h.size).value;
    EncodeParseRecordHeader(data[offset..]);
    assert data[offset..][..n] == data[offset..offset + n];
  }

  // Conversely, every well-sized record sequence is read back from its image.
  lemma RecordsOfSerialize(recs: seq<Record>)
    requires WellSized(recs)
    ensures Records(Serialize(recs), 0) == Ok(recs)
  {
    RecordsOfSerializeAt(Serialize(recs), 0, recs);
  }

  lemma {:induction false} RecordsOfSerializeAt(data: seq<byte>, offset: nat, recs: seq<Record>)
    requires offset <= |data| && WellSized(recs) && data[offset..] == Serialize(recs)
    ensures Records(data, offset) == Ok(recs)
    decreases |recs|
  {
    if |recs| > 0 {
      var h := recs[0].header;
      var n := |EncodeRecordHeader(h)|;
      SerializedHead(data, offset, recs);
      RecordsOfSerializeAt(data, offset + n + h.size, recs[1..]);
      RecordsCons(data, offset, h, n, recs[1..]);
      assert [Record(h, recs[0].data)] + recs[1..] == recs;
    }
  }

  // The first record of a serialized sequence, where its image starts.
  lemma SerializedHead(data: seq<byte>, offset: nat, recs: seq<Record>)
    requires offset <= |data| && |recs| > 0 && WellSized(recs) && data[offset..] == Serialize(recs)
    ensures var h := recs[0].header; var n := |EncodeRecordHeader(h)|; var next := offset + n + h.size;
      offset < |data| && ParseRecordHeader(data[offset..]) == Ok((h, n)) && next <= |data| &&
      data[offset + n..next] == recs[0].data && data[next..] == Serialize(recs[1..]) && WellSized(recs[1..])
  {
    var h, d := recs[0].header, recs[0].data;
    var e := EncodeRecordHeader(h);
    var r := Serialize(recs[1..]);
    SerializeCons(recs);
    WellSizedTail(recs);
    ParseEncodeRecordHeader(h, d + r);
    SliceAfter(data, offset, e, d + r);
    SliceAfter(data, offset + |e|, d, r);
  }

  // A record followed by the records after it.
  lemma RecordsCons(data: seq<byte>, offset: nat, h: RecordHeader, n: nat, rest: seq<Record>)
    requires offset < |data| && ParseRecordHeader(data[offset..]) == Ok((h, n))
    requires offset + n + h.size <= |data| && Records(data, offset + n + h.size) == Ok(rest)
    ensures Records(data, offset) == Ok([Record(h, data[offset + n..offset + n + h.size])] + rest)
  {
  }

  lemma SerializeCons(recs: seq<Record>)
    requires |recs| > 0
    ensures Serialize(recs) == EncodeRecordHeader(recs[0].header) + (recs[0].data + Serialize(recs[1..]))
  {
    Associative(EncodeRecordHeader(recs[0].header), recs[0].data, Serialize(recs[1..]));
  }

  lemma WellSizedTail(recs: seq<Record>)
    requires |recs| > 0 && WellSized(recs)
    ensures WellFormed(recs[0].header) && |recs[0].data| == recs[0].header.size && WellSized(recs[1..])
  {
    assert forall i :: 0 <= i < |recs| - 1 ==> recs[1..][i] == recs[i + 1];
  }

  // The node index (root 0, record j is node j + 1) of the last record before
  // record k whose level is below `level`, or the root if there is none.
  function LastBelow(recs: seq<Record>, k: nat, level: nat): (r: nat)
    requires k <= |recs|
    ensures r <= k
  {
    if k == 0 then 0
    else if recs[k - 1].header.level < level then k
    else LastBelow(recs, k - 1, level)
  }

  function ParentOf(recs: seq<Record>, k: nat): (r: nat)
    requires k < |recs|
    ensures r <= k
  {
    if recs[k].header.level == 0 then 0 else LastBelow(recs, k, recs[k].header.level)
  }

  lemma {:induction false} LastBelowIsLastLower(recs: seq<Record>, k: nat, level: nat)
    requires k <= |recs|
    ensures var r := LastBelow(recs, k, level);
      (r > 0 ==> recs[r - 1].header.level < level) &&
      forall j :: r <= j < k ==> recs[j].header.level >= level
  {
    if k > 0 && recs[k - 1].header.level >= level {
      LastBelowIsLastLower(recs, k - 1, level);
    }
  }

  // Level-0 records hang off the root; any other record hangs off the last
  // earlier record with a lower level, and every record between the two is
  // at least as deep as the child.
  lemma ParentOfIsLastLower(recs: seq<Record>, k: nat)
    requires k < |recs|
    ensures recs[k].header.level == 0 ==> ParentOf(recs, k) == 0
    ensures ParentOf(recs, k) > 0 ==> recs[ParentOf(recs, k) - 1].header.level < recs[k].header.level
    ensures recs[k].header.level > 0 ==>
      forall j :: ParentOf(recs, k) <= j < k ==> recs[j].header.level >= recs[k].header.level
  {
    LastBelowIsLastLower(recs, k, recs[k].header.level);
  }

  // The children of node n among the first k records, in input order.
  function ChildIndices(recs: seq<Record>, k: nat, n: nat): (r: seq<nat>)
    requires k <= |recs|
    ensures forall i :: 0 <= i < |r| ==> n < r[i] <= k
  {
    if k == 0 then []
    else ChildIndices(recs, k - 1, n) + (if ParentOf(recs, k - 1) == n then [k] else [])
  }

  // Every record sits in the child list of exactly its parent ...
  lemma {:induction false} ChildIndicesMembership(recs: seq<Record>, k: nat, n: nat, c: nat)
    requires k <= |recs|
    ensures c in ChildIndices(recs, k, n) <==> 1 <= c <= k && ParentOf(recs, c - 1) == n
  {
    if k > 0 {
      ChildIndicesMembership(recs, k - 1, n, c);
    }
  }

  // ... and siblings keep their input order.
  lemma {:induction false} ChildIndicesIncreasing(recs: seq<Record>, k: nat, n: nat)
    requires k <= |recs|
    ensures forall i, j :: 0 <= i < j < |ChildIndices(recs, k, n)| ==>
      ChildIndices(recs, k, n)[i] < ChildIndices(recs, k, n)[j]
  {
    if k > 0 {
      ChildIndicesIncreasing(recs, k - 1, n);
    }
  }

  // When the levels start at 0 and never rise by more than one, a record at
  // level L > 0 hangs off the last record at level L - 1.
  predicate LevelsStep(recs: seq<Record>)
  {
    (|recs| > 0 ==> recs[0].header.level == 0) &&
    forall k :: 0 < k < |recs| ==> recs[k].header.level <= recs[k - 1].header.level + 1
  }

  lemma ParentHasLevelAbove(recs: seq<Record>, k: nat)
    requires LevelsStep(recs) && k < |recs| && recs[k].header.level > 0
    ensures ParentOf(recs, k) > 0
    ensures recs[ParentOf(recs, k) - 1].header.level == recs[k].header.level - 1
  {
    var p := ParentOf(recs, k);
    ParentOfIsLastLower(recs, k);
    if 0 < p < k {
      assert recs[p].header.level <= recs[p - 1].header.level + 1;
    }
  }

  function ChildTable(recs: seq<Record>): (t: seq<seq<nat>>)
    ensures |t| == |recs| + 1
  {
    seq(|recs| + 1, n requires 0 <= n <= |recs| => ChildIndices(recs, |recs|, n))
  }

  predicate ValidTable(recs: seq<Record>, children: seq<seq<nat>>)
  {
    |children| == |recs| + 1 &&
    forall n, i :: 0 <= n < |children| && 0 <= i < |children[n]| ==> n < children[n][i] < |children|
  }

  lemma ChildTableValid(recs: seq<Record>)
    ensures ValidTable(recs, ChildTable(recs))
  {
  }

  // build_tree: the node at index n with its children, recursively.
  function BuildTree(recs: seq<Record>, children: seq<seq<nat>>, n: nat): (t: RecordTreeNode)
    requires ValidTable(recs, children) && n < |children|
    ensures |t.children| == |children[n]|
    decreases |children| - n
  {
    var cs := children[n];
    RecordTreeNode(
      if n == 0 then RootHeader else recs[n - 1].header,
      if n == 0 then [] else recs[n - 1].data,
      seq(|cs|, i requires 0 <= i < |cs| => BuildTree(recs, children, cs[i])))
  }

  function ParseTreeSpec(data: seq<byte>): Result<RecordTreeNode>
  {
    match Records(data, 0)
    case Err(e) => Err(e)
    case Ok(recs) => Ok(BuildTree(recs, ChildTable(recs), 0))
  }

  function Then(done: seq<Record>, rest: Result<seq<Record>>): Result<seq<Record>>
  {
    match rest
    case Err(e) => Err(e)
    case Ok(more) => Ok(done + more)
  }

  // The stack after k records: one entry per level up to the last record's,
  // entry i holding the last node at a level <= i.
  predicate StackInv(recs: seq<Record>, stack: seq<nat>)
  {
    |stack| == (if |recs| == 0 then 0 else recs[|recs| - 1].header.level + 1) &&
    forall i :: 0 <= i < |stack| ==> stack[i] == LastBelow(recs, |recs|, i + 1)
  }

  // The stack handling of one record: truncate to its level, pad up to it,
  // take the parent, and record the new node at its level.
  method PlaceRecord(recs: seq<Record>, stack: seq<nat>, rec: Record) returns (stack': seq<nat>, parent: nat)
    requires StackInv(recs, stack)
    ensures parent == ParentOf(recs + [rec], |recs|)
    ensures StackInv(recs + [rec], stack')
  {
    var level := rec.header.level;
    var k := |recs|;
    var newIndex := k + 1;
    stack' := stack;
    ghost var m0 := |stack'|;
    while |stack'| > level
      invariant |stack'| <= m0 && (|stack'| < m0 ==> |stack'| >= level)
      invariant forall i :: 0 <= i < |stack'| ==> stack'[i] == LastBelow(recs, k, i + 1)
    {
      stack' := stack'[..|stack'| - 1];
    }
    if level == 0 {
      parent := 0;
    } else {
      while |stack'| < level
        invariant |stack'| <= level
        invariant |stack'| >= m0 || |stack'| == level
        invariant forall i :: 0 <= i < |stack'| ==> stack'[i] == LastBelow(recs, k, i + 1)
      {
        if |stack'| > 0 {
          stack' := stack' + [stack'[|stack'| - 1]];
        } else {
          stack' := stack' + [0];
        }
      }
      parent := stack'[level - 1];
      LastBelowPrefix(recs, rec, k, level);
    }
    while |stack'| <= level
      invariant |stack'| <= level + 1
      invariant forall i :: 0 <= i < |stack'| && i < level ==> stack'[i] == LastBelow(recs, k, i + 1)
    {
      stack' := stack' + [0];
    }
    stack' := stack'[level := newIndex];
    LastBelowExtend(recs, rec, stack');
  }

  lemma RecordsStep(data: seq<byte>, offset: nat, h: RecordHeader, n: nat)
    requires offset < |data| && ParseRecordHeader(data[offset..]) == Ok((h, n))
    requires offset + n + h.size <= |data|
    ensures Records(data, offset) ==
      Then([Record(h, data[offset + n..offset + n + h.size])], Records(data, offset + n + h.size))
  {
  }

  lemma ThenNil(rest: Result<seq<Record>>)
    ensures Then([], rest) == rest
  {
    if rest.Ok? {
      assert [] + rest.value == rest.value;
    }
  }

  lemma ThenThen(a: seq<Record>, b: seq<Record>, rest: Result<seq<Record>>)
    ensures Then(a, Then(b, rest)) == Then(a + b, rest)
  {
    if rest.Ok? {
      assert a + (b + rest.value) == (a + b) + rest.value;
    }
  }

  // One step of the record loop: the header, then exactly `size` data bytes.
  method ReadRecord(data: seq<byte>, offset: nat) returns (r: Result<(Record, nat)>)
    requires offset < |data|
    ensures r.Err? ==> Records(data, offset) == Err(r.error)
    ensures r.Ok? ==> offset < r.value.1 <= |data|
    ensures r.Ok? ==> Records(data, offset) == Then([r.value.0], Records(data, r.value.1))
  {
    var hr := ParseRecordHeader(data[offset..]);
    if hr.Err? {
      return Err(hr.error);
    }
    var (header, headerSize) := hr.value;
    var start := offset + headerSize;
    if start + header.size > |data| {
      return Err(InsufficientData("Record at offset", start + header.size, |data|));
    }
    var rec := Record(header, data[start..start + header.size]);
    RecordsStep(data, offset, header, headerSize);
    return Ok((rec, start + header.size));
  }

  lemma ChildTableOfInv(recs: seq<Record>, children: seq<seq<nat>>)
    requires ChildrenInv(recs, children)
    ensures children == ChildTable(recs) && ValidTable(recs, children)
  {
    ChildTableValid(recs);
  }

  // RecordTreeNode::parse_tree: one pass with a stack of the last node index
  // at each level and a table of child indices.
  method ParseTree(data: seq<byte>) returns (r: Result<RecordTreeNode>)
    ensures r == ParseTreeSpec(data)
  {
    var offset: nat := 0;
    var stack: seq<nat> := [];
    var recs: seq<Record> := [];
    var children: seq<seq<nat>> := [[]];
    ThenNil(Records(data, 0));
    while offset < |data|
      invariant offset <= |data|
      invariant Records(data, 0) == Then(recs, Records(data, offset))
      invariant ChildrenInv(recs, children)
      invariant StackInv(recs, stack)
      decreases |data| - offset
    {
      var rr := ReadRecord(data, offset);
      if rr.Err? {
        return Err(rr.error);
      }
      var (rec, next) := rr.value;
      ThenThen(recs, [rec], Records(data, next));
      offset := next;
      var newIndex := |children|;
      var parent;
      stack, parent := PlaceRecord(recs, stack, rec);
      ChildIndicesExtend(recs, rec, parent, children);
      children := children[parent := children[parent] + [newIndex]] + [[]];
      recs := recs + [rec];
    }
    assert Records(data, 0) == Ok(recs) by {
      assert recs + [] == recs;
    }
    ChildTableOfInv(recs, children);
    return Ok(BuildTree(recs, children, 0));
  }

  lemma LastBelowExtend(recs: seq<Record>, rec: Record, stack: seq<nat>)
    requires |stack| == rec.header.level + 1 && stack[rec.header.level] == |recs| + 1
    requires forall i :: 0 <= i < rec.header.level ==> stack[i] == LastBelow(recs, |recs|, i + 1)
    ensures StackInv(recs + [rec], stack)
  {
    var recs' := recs + [rec];
    forall i | 0 <= i < |stack|
      ensures stack[i] == LastBelow(recs', |recs| + 1, i + 1)
    {
      if i < rec.header.level {
        LastBelowPrefix(recs, rec, |recs|, i + 1);
      }
    }
  }

  lemma {:induction false} LastBelowPrefix(recs: seq<Record>, rec: Record, k: nat, level: nat)
    requires k <= |recs|
    ensures LastBelow(recs + [rec], k, level) == LastBelow(recs, k, level)
  {
    if k > 0 {
      assert (recs + [rec])[k - 1] == recs[k - 1];
      LastBelowPrefix(recs, rec, k - 1, level);
    }
  }

  lemma {:induction false} ChildIndicesPrefix(recs: seq<Record>, rec: Record, k: nat, n: nat)
    requires k <= |recs|
    ensures ChildIndices(recs + [rec], k, n) == ChildIndices(recs, k, n)
  {
    if k > 0 {
      ChildIndicesPrefix(recs, rec, k - 1, n);
      assert (recs + [rec])[k - 1] == recs[k - 1];
      LastBelowPrefix(recs, rec, k - 1, recs[k - 1].header.level);
      assert ParentOf(recs + [rec], k - 1) == ParentOf(recs, k - 1);
    }
  }

  lemma ChildIndicesUnfold(recs: seq<Record>, k: nat, n: nat)
    requires 0 < k <= |recs|
    ensures ChildIndices(recs, k, n) ==
      ChildIndices(recs, k - 1, n) + (if ParentOf(recs, k - 1) == n then [k] else [])
  {
  }

  lemma ChildIndicesExtendAt(recs: seq<Record>, rec: Record, p: nat, n: nat)
    requires p == ParentOf(recs + [rec], |recs|)
    ensures ChildIndices(recs + [rec], |recs| + 1, n) ==
      ChildIndices(recs, |recs|, n) + (if p == n then [|recs| + 1] else [])
  {
    ChildIndicesPrefix(recs, rec, |recs|, n);
    ChildIndicesUnfold(recs + [rec], |recs| + 1, n);
  }

  predicate ChildrenInv(recs: seq<Record>, children: seq<seq<nat>>)
  {
    |children| == |recs| + 1 &&
    forall n :: 0 <= n < |children| ==> children[n] == ChildIndices(recs, |recs|, n)
  }

  // A node has no children among the first k records when it comes after
  // them.
  lemma {:induction false} NoLaterChildren(recs: seq<Record>, k: nat, n: nat)
    requires k <= |recs| && k < n
    ensures ChildIndices(recs, k, n) == []
  {
    if k > 0 {
      NoLaterChildren(recs, k - 1, n);
    }
  }

  // Appending record k (node k + 1) to its parent's child list.
  lemma ChildIndicesExtend(recs: seq<Record>, rec: Record, p: nat, children: seq<seq<nat>>)
    requires p == ParentOf(recs + [rec], |recs|)
    requires ChildrenInv(recs, children)
    ensures ChildrenInv(recs + [rec], children[p := children[p] + [|recs| + 1]] + [[]])
  {
    var children' := children[p := children[p] + [|recs| + 1]] + [[]];
    forall n | 0 <= n < |children'|
      ensures children'[n] == ChildIndices(recs + [rec], |recs| + 1, n)
    {
      ChildIndicesExtendAt(recs, rec, p, n);
      if n == |recs| + 1 {
        NoLaterChildren(recs, |recs|, n);
      } else {
        assert children'[n] == ChildIndices(recs, |recs|, n) + (if p == n then [|recs| + 1] else []);
      }
    }
  }
}
