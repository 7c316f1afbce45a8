/** Write batches: a sequence number, a count, and the operations, as one byte string that is also the log record. */
module WriteBatch {
  import opened Keys
  import opened Coding

  datatype Op = Put(key: Bytes, value: Bytes) | Delete(key: Bytes)
  type Batch = seq<Op>

  const HEADER: nat := 12

  function EncodeOp(op: Op): (r: Bytes)
    ensures r != []
  {
    match op
    case Put(k, v) => [TYPE_VALUE] + (Delimited(k) + Delimited(v))
    case Delete(k) => [TYPE_DELETION] + Delimited(k)
  }

  function Body(ops: Batch): (b: Bytes) {
    if ops == [] then [] else EncodeOp(ops[0]) + Body(ops[1..])
  }

  /** rep_ */
  function Rep(sequence: nat, ops: Batch): (b: Bytes)
    ensures |b| == HEADER + |Body(ops)|
  {
    Front(sequence, |ops|) + Body(ops)
  }

  function Front(sequence: nat, count: nat): (b: Bytes)
    ensures |b| == HEADER
  {
    Fixed(sequence, 8) + Fixed(count, 4)
  }

  lemma {:induction false} BodyAppend(xs: Batch, ys: Batch)
    ensures Body(xs + ys) == Body(xs) + Body(ys)
  {
    if xs == [] {
      assert xs + ys == ys;
    } else {
      BodyAppend(xs[1..], ys);
      AppendTail(xs, ys);
      BodyFirst(xs);
      BodyFirst(xs + ys);
      Assoc(EncodeOp(xs[0]), Body(xs[1..]), Body(ys));
    }
  }

  lemma BodyFirst(xs: Batch)
    requires xs != []
    ensures Body(xs) == EncodeOp(xs[0]) + Body(xs[1..])
  {
  }

  lemma AppendTail(xs: Batch, ys: Batch)
    requires xs != []
    ensures (xs + ys)[0] == xs[0] && (xs + ys)[1..] == xs[1..] + ys
  {
  }

  lemma Assoc(a: Bytes, b: Bytes, c: Bytes)
    ensures (a + b) + c == a + (b + c)
  {
  }

  lemma BodyOne(op: Op)
    ensures Body([op]) == EncodeOp(op)
  {
    assert [op][1..] == [];
    assert EncodeOp(op) + [] == EncodeOp(op);
  }

  // ----- sizes

  function VarintLength(v: nat): (r: nat)
    ensures r >= 1
  {
    if v < 128 then 1 else 1 + VarintLength(v / 128)
  }

  lemma {:induction false} VarintLengthIs(v: nat)
    ensures |Varint(v)| == VarintLength(v)
  {
    if v >= 128 {
      VarintLengthIs(v / 128);
    }
  }

  function SliceSize(b: Bytes): (r: nat) { VarintLength(|b|) + |b| }

  function OpSize(op: Op): (r: nat) { 1 + SliceSize(op.key) + if op.Put? then SliceSize(op.value) else 0 }

  /** WriteBatchInternal::ByteSize: 12 header bytes and the encoded operations. */
  function ByteSize(b: Batch): (r: nat)
    ensures r >= 12
  {
    if b == [] then 12 else ByteSize(b[..|b| - 1]) + OpSize(b[|b| - 1])
  }

  lemma OpSizeIs(op: Op)
    ensures |EncodeOp(op)| == OpSize(op)
  {
    VarintLengthIs(|op.key|);
    if op.Put? {
      VarintLengthIs(|op.value|);
    }
  }

  lemma RepSize(sequence: nat, ops: Batch)
    ensures |Rep(sequence, ops)| == ByteSize(ops)
  {
    BodySize(ops);
  }

  lemma {:induction false} BodySize(ops: Batch)
    ensures HEADER + |Body(ops)| == ByteSize(ops)
  {
    if ops != [] {
      BodySize(ops[..|ops| - 1]);
      BytesGrow(ops, ops[..|ops| - 1], ops[|ops| - 1]);
      LastOp(ops, ops[..|ops| - 1], ops[|ops| - 1]);
    }
  }

  lemma {:induction false} BytesGrow(ops: Batch, front: Batch, last: Op)
    requires ops != [] && front == ops[..|ops| - 1] && last == ops[|ops| - 1]
    ensures ops == front + [last] && ByteSize(ops) == ByteSize(front) + OpSize(last)
  {
  }

  lemma {:induction false} LastOp(ops: Batch, front: Batch, last: Op)
    requires ops == front + [last]
    ensures |Body(ops)| == |Body(front)| + OpSize(last)
  {
    BodyAppend(front, [last]);
    BodyOne(last);
    OpSizeIs(last);
  }

  // ----- reading

  function ReadOp(b: Bytes): (r: Parsed<Op>)
    requires b != []
    ensures r.Got? ==> |r.rest| < |b|
  {
    if b[0] == TYPE_VALUE then
      match ReadDelimited(b[1..])
      case Fail(rest) => Fail(rest)
      case Got(k, r1) => match ReadDelimited(r1) case Fail(rest) => Fail(rest) case Got(v, rest) => Got(Put(k, v), rest)
    else if b[0] == TYPE_DELETION then
      match ReadDelimited(b[1..]) case Fail(rest) => Fail(rest) case Got(k, rest) => Got(Delete(k), rest)
    else Fail(b)
  }

  /** The operations that can be read one after another, and the bytes at which that stops. */
  function Readable(b: Bytes): (r: (Batch, Bytes))
    ensures r.1 == [] || ReadOp(r.1).Fail?
    decreases |b|
  {
    if b == [] then ([], [])
    else match ReadOp(b)
         case Fail(_) => ([], b)
         case Got(op, rest) => var tail := Readable(rest); ([op] + tail.0, tail.1)
  }

  predicate OpFits(op: Op) { |op.key| < TWO32 && (op.Put? ==> |op.value| < TWO32) }
  predicate OpsFit(ops: Batch) { forall i :: 0 <= i < |ops| ==> OpFits(ops[i]) }

  lemma OpRoundTrip(op: Op, rest: Bytes)
    requires OpFits(op)
    ensures ReadOp(EncodeOp(op) + rest) == Got(op, rest)
  {
    match op
    case Put(k, v) =>
      TailOf(TYPE_VALUE, Delimited(k) + Delimited(v), rest);
      Assoc(Delimited(k), Delimited(v), rest);
      DelimitedRoundTrip(k, Delimited(v) + rest);
      DelimitedRoundTrip(v, rest);
    case Delete(k) =>
      TailOf(TYPE_DELETION, Delimited(k), rest);
      DelimitedRoundTrip(k, rest);
  }

  lemma TailOf(tag: Byte, x: Bytes, rest: Bytes)
    ensures ([tag] + x + rest)[0] == tag && ([tag] + x + rest)[1..] == x + rest
  {
  }

  lemma ReadableStep(b: Bytes, op: Op, rest: Bytes, tail: (Batch, Bytes))
    requires b != [] && ReadOp(b) == Got(op, rest) && Readable(rest) == tail
    ensures Readable(b) == ([op] + tail.0, tail.1)
  {
  }

  lemma FirstAndRest(ops: Batch)
    requires ops != []
    ensures [ops[0]] + ops[1..] == ops
  {
  }

  /** Of a body with a damaged end, exactly the operations before the damage can be read. */
  lemma {:induction false} OpsRoundTrip(ops: Batch, junk: Bytes)
    requires OpsFit(ops) && (junk == [] || ReadOp(junk).Fail?)
    ensures Readable(Body(ops) + junk) == (ops, junk)
  {
    if ops == [] {
      assert Body(ops) + junk == junk;
    } else {
      var rest := Body(ops[1..]) + junk;
      OpsRoundTrip(ops[1..], junk);
      OpRoundTrip(ops[0], rest);
      BodyFirst(ops);
      Assoc(EncodeOp(ops[0]), Body(ops[1..]), junk);
      ReadableStep(EncodeOp(ops[0]) + rest, ops[0], rest, (ops[1..], junk));
      FirstAndRest(ops);
    }
  }

  lemma Slices(a: Bytes, b: Bytes, c: Bytes)
    requires |a| == 8 && |b| == 4
    ensures (a + b + c)[..8] == a && (a + b + c)[8..HEADER] == b && (a + b + c)[HEADER..] == c
  {
  }

  lemma {:induction false} PartsOf(sequence: nat, ops: Batch)
    ensures var b := Rep(sequence, ops);
            b[..8] == Fixed(sequence, 8) && b[8..HEADER] == Fixed(|ops|, 4) && b[HEADER..] == Body(ops)
  {
    Slices(Fixed(sequence, 8), Fixed(|ops|, 4), Body(ops));
  }

  lemma {:induction false} SequenceIs(sequence: nat, ops: Batch)
    requires sequence < TWO64
    ensures Unfixed(Rep(sequence, ops)[..8]) == sequence
  {
    PartsOf(sequence, ops);
    FixedLimits();
    FixedRoundTrip(sequence, 8);
  }

  lemma {:induction false} CountIs(sequence: nat, ops: Batch)
    requires |ops| < TWO32
    ensures CountOf(Rep(sequence, ops)) == |ops|
  {
    PartsOf(sequence, ops);
    FixedLimits();
    FixedRoundTrip(|ops|, 4);
  }

  function CountOf(rep: Bytes): (n: nat)
    requires |rep| >= HEADER
  {
    Unfixed(rep[8..HEADER])
  }

  /** Iterate: every operation up to the first malformed one reaches the handler, also when the bytes turn out to be
      corrupt; it succeeds if all bytes were read and the count in the header is right. */
  method Iterate(rep: Bytes) returns (handled: Batch, ok: bool)
    ensures handled == if |rep| < HEADER then [] else Readable(rep[HEADER..]).0
    ensures ok <==> |rep| >= HEADER && Readable(rep[HEADER..]).1 == [] && |handled| == CountOf(rep)
  {
    handled := [];
    if |rep| < HEADER {
      return handled, false;
    }
    var input := rep[HEADER..];
    ghost var whole := Readable(input);
    assert [] + whole.0 == whole.0;
    while input != []
      invariant whole == (handled + Readable(input).0, Readable(input).1)
      decreases |input|
    {
      var op := ReadOp(input);
      if op.Fail? {
        assert handled + [] == handled;
        return handled, false;
      }
      Regroup(handled, op.value, Readable(op.rest).0);
      handled := handled + [op.value];
      input := op.rest;
    }
    assert handled + [] == handled;
    ok := |handled| == CountOf(rep);
  }

  lemma Regroup(ops: Batch, op: Op, rest: Batch)
    ensures ops + ([op] + rest) == ops + [op] + rest
  {
  }

  // ----- exactly what is accepted

  /** b is an operation and the rest: 1, key and value, or 0 and key. */
  ghost predicate TakesOp(b: Bytes, op: Op, rest: Bytes) {
    b != [] &&
    match op
    case Put(k, v) => b[0] == 1 && exists mid :: TakesString(b[1..], k, mid) && TakesString(mid, v, rest)
    case Delete(k) => b[0] == 0 && TakesString(b[1..], k, rest)
  }

  ghost predicate TakesOps(b: Bytes, ops: Batch)
    decreases |ops|
  {
    if ops == [] then b == [] else exists rest :: TakesOp(b, ops[0], rest) && TakesOps(rest, ops[1..])
  }

  lemma OpIff(b: Bytes, op: Op, rest: Bytes)
    requires b != []
    ensures ReadOp(b) == Got(op, rest) <==> TakesOp(b, op, rest)
  {
    match op
    case Delete(k) => DelimitedIff(b[1..], k, rest);
    case Put(k, v) =>
      if ReadOp(b) == Got(op, rest) {
        var mid := ReadDelimited(b[1..]).rest;
        DelimitedIff(b[1..], k, mid);
        DelimitedIff(mid, v, rest);
      }
      if TakesOp(b, op, rest) {
        var mid :| TakesString(b[1..], k, mid) && TakesString(mid, v, rest);
        DelimitedIff(b[1..], k, mid);
        DelimitedIff(mid, v, rest);
      }
  }

  /** The operations of a batch are read if and only if the bytes are exactly those operations. */
  lemma {:induction false} AcceptedIff(b: Bytes, ops: Batch)
    ensures Readable(b) == (ops, []) <==> TakesOps(b, ops)
    decreases |ops|
  {
    if b != [] && ops != [] {
      if Readable(b) == (ops, []) {
        FirstRead(b, ops);
        OpIff(b, ops[0], ReadOp(b).rest);
        AcceptedIff(ReadOp(b).rest, ops[1..]);
      }
      if TakesOps(b, ops) {
        var rest :| TakesOp(b, ops[0], rest) && TakesOps(rest, ops[1..]);
        OpIff(b, ops[0], rest);
        AcceptedIff(rest, ops[1..]);
        ReadableStep(b, ops[0], rest, (ops[1..], []));
        FirstAndRest(ops);
      }
    }
  }

  lemma FirstRead(b: Bytes, ops: Batch)
    requires b != [] && ops != [] && Readable(b) == (ops, [])
    ensures ReadOp(b) == Got(ops[0], ReadOp(b).rest) && Readable(ReadOp(b).rest) == (ops[1..], [])
  {
    var tail := Readable(ReadOp(b).rest);
    assert ops == [ReadOp(b).value] + tail.0;
  }

  // ----- the batch as an object

  class WriteBatchObject {
    var rep: Bytes
    ghost var sequence: nat
    ghost var ops: Batch

    constructor ()
      ensures Valid() && ops == []
    {
      rep := Fixed(0, 8) + Fixed(0, 4);
      sequence, ops := 0, [];
    }

    ghost predicate Valid() reads this { rep == Rep(sequence, ops) && sequence < TWO64 && |ops| < TWO32 }

    method SetSequence(s: nat)
      requires Valid() && s < TWO64
      modifies this
      ensures Valid() && ops == old(ops) && sequence == s
    {
      rep := WithSequence(rep, s, sequence, ops);
      sequence := s;
    }

    /** Put and Delete. */
    method AddOp(op: Op)
      requires Valid() && |ops| + 1 < TWO32
      modifies this
      ensures Valid() && ops == old(ops) + [op] && sequence == old(sequence)
    {
      rep := WithOp(rep, op, sequence, ops);
      ops := ops + [op];
    }

    /** WriteBatchInternal::Append */
    method Append(src: WriteBatchObject)
      requires Valid() && src.Valid() && src != this && |ops| + |src.ops| < TWO32
      modifies this
      ensures Valid() && ops == old(ops) + src.ops && sequence == old(sequence)
    {
      rep := Joined(rep, src.rep, sequence, ops, src.sequence, src.ops);
      ops := ops + src.ops;
    }
  }

  function WithCount(rep: Bytes, n: nat): (r: Bytes)
    requires |rep| >= HEADER
  {
    rep[..8] + Fixed(n, 4) + rep[HEADER..]
  }

  lemma {:induction false} Recounted(sequence: nat, ops: Batch, n: nat, more: Bytes)
    ensures WithCount(Rep(sequence, ops), n) + more == Front(sequence, n) + (Body(ops) + more)
  {
    PartsOf(sequence, ops);
    Assoc(Front(sequence, n), Body(ops), more);
  }

  lemma {:induction false} ExtendRep(sequence: nat, xs: Batch, ys: Batch)
    ensures WithCount(Rep(sequence, xs), |xs| + |ys|) + Body(ys) == Rep(sequence, xs + ys)
  {
    BodyAppend(xs, ys);
    Recounted(sequence, xs, |xs| + |ys|, Body(ys));
    RepIs(sequence, xs + ys, |xs| + |ys|, Body(xs) + Body(ys));
  }

  lemma {:induction false} RepIs(sequence: nat, ops: Batch, n: nat, body: Bytes)
    requires |ops| == n && Body(ops) == body
    ensures Rep(sequence, ops) == Front(sequence, n) + body
  {
  }

  method WithSequence(rep: Bytes, s: nat, ghost sequence: nat, ghost ops: Batch) returns (r: Bytes)
    requires rep == Rep(sequence, ops)
    ensures r == Rep(s, ops)
  {
    PartsOf(sequence, ops);
    r := Fixed(s, 8) + rep[8..HEADER] + rep[HEADER..];
  }

  method WithOp(rep: Bytes, op: Op, ghost sequence: nat, ghost ops: Batch) returns (r: Bytes)
    requires rep == Rep(sequence, ops) && |ops| < TWO32
    ensures r == Rep(sequence, ops + [op])
  {
    CountIs(sequence, ops);
    BodyOne(op);
    r := Extend(rep, CountOf(rep) + 1, EncodeOp(op), sequence, ops, [op]);
  }

  lemma {:induction false} CountsAdd(sequence: nat, xs: Batch, sequence': nat, ys: Batch)
    requires |xs| < TWO32 && |ys| < TWO32
    ensures CountOf(Rep(sequence, xs)) + CountOf(Rep(sequence', ys)) == |xs| + |ys| && Rep(sequence', ys)[HEADER..] == Body(ys)
  {
    CountIs(sequence, xs);
    CountIs(sequence', ys);
    PartsOf(sequence', ys);
  }

  /** Adding the counts and appending the body gives the longer batch. */
  method Joined(rep: Bytes, other: Bytes, ghost sequence: nat, ghost xs: Batch, ghost sequence': nat, ghost ys: Batch) returns (r: Bytes)
    requires rep == Rep(sequence, xs) && other == Rep(sequence', ys) && |xs| < TWO32 && |ys| < TWO32
    ensures r == Rep(sequence, xs + ys)
  {
    CountsAdd(sequence, xs, sequence', ys);
    var count, body := CountOf(rep) + CountOf(other), other[HEADER..];
    r := Extend(rep, count, body, sequence, xs, ys);
  }

  method Extend(rep: Bytes, count: nat, body: Bytes, ghost sequence: nat, ghost xs: Batch, ghost ys: Batch) returns (r: Bytes)
    requires rep == Rep(sequence, xs) && count == |xs| + |ys| && body == Body(ys)
    ensures r == Rep(sequence, xs + ys)
  {
    ExtendIs(rep, count, body, sequence, xs, ys);
    r := WithCount(rep, count) + body;
  }

  lemma {:induction false} ExtendIs(rep: Bytes, count: nat, body: Bytes, sequence: nat, xs: Batch, ys: Batch)
    requires rep == Rep(sequence, xs) && count == |xs| + |ys| && body == Body(ys)
    ensures WithCount(rep, count) + body == Rep(sequence, xs + ys)
  {
    ExtendRep(sequence, xs, ys);
  }

  /** A batch built operation by operation, numbered, written to the log and read back: InsertInto sees its operations
      and its first sequence number. */
  method LogRoundTrip(sequence: nat, ops: Batch) returns (s: nat, handled: Batch, ok: bool)
    requires sequence < TWO64 && |ops| < TWO32 && OpsFit(ops)
    ensures s == sequence && handled == ops && ok
  {
    var rep := BuildRep(sequence, ops);
    s, handled, ok := ReadBack(rep, sequence, ops);
  }

  method BuildRep(sequence: nat, ops: Batch) returns (rep: Bytes)
    requires sequence < TWO64 && |ops| < TWO32
    ensures rep == Rep(sequence, ops)
  {
    var batch := new WriteBatchObject();
    for i := 0 to |ops|
      invariant fresh(batch) && batch.Valid() && batch.ops == ops[..i]
    {
      OneMoreOp(ops, i);
      batch.AddOp(ops[i]);
    }
    assert ops[..|ops|] == ops;
    batch.SetSequence(sequence);
    rep := batch.rep;
  }

  lemma OneMoreOp(ops: Batch, i: nat)
    requires i < |ops|
    ensures ops[..i] + [ops[i]] == ops[..i + 1]
  {
  }

  method ReadBack(rep: Bytes, ghost sequence: nat, ghost ops: Batch) returns (s: nat, handled: Batch, ok: bool)
    requires rep == Rep(sequence, ops) && sequence < TWO64 && |ops| < TWO32 && OpsFit(ops)
    ensures s == sequence && handled == ops && ok
  {
    SequenceIs(sequence, ops);
    CountIs(sequence, ops);
    PartsOf(sequence, ops);
    OpsRoundTrip(ops, []);
    assert Body(ops) + [] == Body(ops);
    s := Unfixed(rep[..8]);
    handled, ok := Iterate(rep);
  }
}
