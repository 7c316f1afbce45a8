/** What decoded messages say about presence: has_ flags, the chosen member of a union, array lengths. */
module PbMembers {
  import opened Keys
  import opened Coding
  import opened PbMessage
  import opened PbRead
  import opened PbRecords
  import PbRoundTrip

  // ----- one field

  lemma {:induction false} PackedExtends(t: LType, max: nat, b: Bytes, items: seq<Datum>)
    requires t.Packable() && TypedItems(t, items) && ReadPacked(t, max, b, items).Some?
    ensures items <= ReadPacked(t, max, b, items).value && (|items| <= max ==> |ReadPacked(t, max, b, items).value| <= max)
    decreases |b|
  {
    if b != [] {
      var v := ReadNumber(t, b);
      PackedExtends(t, max, v.rest, items + [v.value]);
    }
  }

  /** A packed run is appended in order if there is room for all of it, and else refused. */
  lemma {:induction false} PackedFits(t: LType, max: nat, have: seq<Datum>, items: seq<Datum>, i: nat)
    requires t.Packable() && TypedItems(t, have) && TypedItems(t, items) && i <= |items| && (i == 0 || |have| + i <= max)
    ensures TypedItems(t, have + items[..i])
    ensures ReadPacked(t, max, WirePacked(t, items, i), have + items[..i])
            == if i == |items| || |have| + |items| <= max then Some(have + items) else None
    decreases |items| - i
  {
    var now := have + items[..i];
    if i == |items| {
      assert now == have + items;
    } else {
      assert TypedDatum(t, items[i]);
      PbRoundTrip.NumberRoundTrip(t, items[i], WirePacked(t, items, i + 1));
      assert now + [items[i]] == have + items[..i + 1];
      if |have| + i < max {
        PackedFits(t, max, have, items, i + 1);
      }
    }
  }

  /** The field is one item of its array, not a packed run of them. */
  predicate Single(f: Field, wire: nat) { wire != 2 || !f.ltype.Packable() }

  predicate SameUnion(f: Field, g: Field) { f.rule.Oneof? && f.rule == g.rule }

  /** A field sets its own member, unsets the others of its union, and touches nothing else. */
  ghost predicate Sets(fields: seq<Field>, j: nat, wire: nat, slots: seq<Slot>, slots': seq<Slot>, i: nat)
    requires |fields| == |slots| == |slots'| && i < |fields| && j < |fields|
  {
    if i != j then
      if SameUnion(fields[i], fields[j]) then slots'[i].Maybe? && !slots'[i].has else slots'[i] == slots[i]
    else
      match fields[i].rule
      case Required => slots'[i].Sole?
      case Repeated(max) =>
        && slots[i].Many? && slots'[i].Many? && slots[i].items <= slots'[i].items
        && (|slots[i].items| <= max ==> |slots'[i].items| <= max)
        && (Single(fields[i], wire) ==> |slots'[i].items| == |slots[i].items| + 1)
      case _ => slots'[i].Maybe? && slots'[i].has
  }

  lemma FieldSets(fields: seq<Field>, j: nat, wire: nat, b: Bytes, slots: seq<Slot>, slots': seq<Slot>, i: nat)
    requires GoodDescriptor(fields) && TypedSlots(fields, slots) && j < |fields| && i < |fields|
    requires ReadField(fields, j, wire, b, slots).Got? && slots' == ReadField(fields, j, wire, b, slots).value
    ensures |slots'| == |fields| && Sets(fields, j, wire, slots, slots', i)
  {
    assert TypedSlot(fields[j], slots[j]);
    if fields[j].rule.Repeated? {
      ArraySets(fields, j, fields[j].rule.max, wire, b, slots, slots', i);
    }
  }

  lemma ArraySets(fields: seq<Field>, j: nat, max: nat, wire: nat, b: Bytes, slots: seq<Slot>, slots': seq<Slot>, i: nat)
    requires GoodDescriptor(fields) && TypedSlots(fields, slots) && j < |fields| && i < |fields| && fields[j].rule == Repeated(max)
    requires ReadArray(fields, j, max, wire, b, slots).Got? && slots' == ReadArray(fields, j, max, wire, b, slots).value
    ensures |slots'| == |fields| && Sets(fields, j, wire, slots, slots', i)
  {
    assert TypedSlot(fields[j], slots[j]);
    if !Single(fields[j], wire) {
      PackedExtends(fields[j].ltype, max, ReadDelimited(b).value, slots[j].items);
    }
  }

  // ----- has_ flags

  /** An optional member is there if and only if its field occurs. */
  lemma {:induction false} FlagIs(fields: seq<Field>, rs: seq<Record>, slots: seq<Slot>, i: nat)
    requires GoodDescriptor(fields) && TypedSlots(fields, slots) && i < |fields| && fields[i].rule.Optional? && Applied(fields, rs, slots).Some?
    ensures var r := Applied(fields, rs, slots).value; slots[i].Maybe? && r[i].Maybe? && (r[i].has <==> slots[i].has || Occurs(rs, fields[i].tag))
    decreases |rs|
  {
    assert TypedSlot(fields[i], slots[i]);
    if rs != [] {
      OccursTail(rs, fields[i].tag);
      var found := FindTag(fields, rs[0].number, 0);
      if found.Some? {
        var slots' := ReadField(fields, found.value, rs[0].wire, rs[0].payload, slots).value;
        FieldSets(fields, found.value, rs[0].wire, rs[0].payload, slots, slots', i);
        assert found.value == i <==> fields[i].tag == rs[0].number;
        FlagIs(fields, rs[1..], slots', i);
      } else {
        FlagIs(fields, rs[1..], slots, i);
      }
    }
  }

  // ----- unions

  /** The number is that of a member of field i's union. */
  predicate Rival(fields: seq<Field>, i: nat, number: nat)
    requires i < |fields|
  {
    exists j :: 0 <= j < |fields| && fields[j].rule == fields[i].rule && fields[j].tag == number
  }

  ghost predicate Quiet(fields: seq<Field>, rs: seq<Record>, i: nat)
    requires i < |fields|
  {
    forall k :: 0 <= k < |rs| ==> !Rival(fields, i, rs[k].number)
  }

  /** Of the records of the union, the last is field i's. */
  ghost predicate LastOfUnion(fields: seq<Field>, rs: seq<Record>, i: nat)
    requires i < |fields|
  {
    exists k :: 0 <= k < |rs| && rs[k].number == fields[i].tag && Quiet(fields, rs[k + 1..], i)
  }

  lemma LastTail(fields: seq<Field>, rs: seq<Record>, i: nat)
    requires i < |fields| && rs != []
    ensures Quiet(fields, rs, i) <==> !Rival(fields, i, rs[0].number) && Quiet(fields, rs[1..], i)
    ensures LastOfUnion(fields, rs, i) <==> LastOfUnion(fields, rs[1..], i) || (rs[0].number == fields[i].tag && Quiet(fields, rs[1..], i))
  {
    var tail := rs[1..];
    assert forall k :: 0 < k < |rs| ==> rs[k] == tail[k - 1];
    assert forall k :: 0 <= k < |tail| ==> tail[k] == rs[k + 1] && tail[k + 1..] == rs[k + 1 + 1..];
    if LastOfUnion(fields, rs, i) {
      var k :| 0 <= k < |rs| && rs[k].number == fields[i].tag && Quiet(fields, rs[k + 1..], i);
      if k > 0 {
        assert tail[k - 1].number == fields[i].tag && tail[k - 1 + 1..] == rs[k + 1..];
      }
    }
    if LastOfUnion(fields, tail, i) {
      var k :| 0 <= k < |tail| && tail[k].number == fields[i].tag && Quiet(fields, tail[k + 1..], i);
      assert rs[k + 1].number == fields[i].tag && rs[k + 1 + 1..] == tail[k + 1..];
    }
    if rs[0].number == fields[i].tag && Quiet(fields, tail, i) {
      assert rs[0 + 1..] == tail;
    }
  }

  /** A union's member is chosen if and only if the last record of the union is its own. */
  lemma {:induction false} ChoiceIs(fields: seq<Field>, rs: seq<Record>, slots: seq<Slot>, i: nat)
    requires GoodDescriptor(fields) && TypedSlots(fields, slots) && i < |fields| && fields[i].rule.Oneof? && Applied(fields, rs, slots).Some?
    ensures var r := Applied(fields, rs, slots).value;
            slots[i].Maybe? && r[i].Maybe? && (r[i].has <==> LastOfUnion(fields, rs, i) || (slots[i].has && Quiet(fields, rs, i)))
    decreases |rs|
  {
    assert TypedSlot(fields[i], slots[i]);
    if rs != [] {
      LastTail(fields, rs, i);
      var found := FindTag(fields, rs[0].number, 0);
      if found.Some? {
        var j := found.value;
        var slots' := ReadField(fields, j, rs[0].wire, rs[0].payload, slots).value;
        FieldSets(fields, j, rs[0].wire, rs[0].payload, slots, slots', i);
        RivalIs(fields, i, j);
        ChoiceIs(fields, rs[1..], slots', i);
      } else {
        ChoiceIs(fields, rs[1..], slots, i);
      }
    }
  }

  lemma RivalIs(fields: seq<Field>, i: nat, j: nat)
    requires GoodDescriptor(fields) && i < |fields| && j < |fields|
    ensures Rival(fields, i, fields[j].tag) <==> fields[j].rule == fields[i].rule
    ensures fields[i].tag == fields[j].tag <==> i == j
  {
  }

  // ----- arrays

  /** How many single items of field f there are among the records. */
  function Tally(f: Field, rs: seq<Record>): (n: nat) {
    if rs == [] then 0 else (if rs[0].number == f.tag && Single(f, rs[0].wire) then 1 else 0) + Tally(f, rs[1..])
  }

  /** An array never loses an item and never gets more than its maximum. */
  lemma {:induction false} LengthIs(fields: seq<Field>, rs: seq<Record>, slots: seq<Slot>, i: nat)
    requires GoodDescriptor(fields) && TypedSlots(fields, slots) && i < |fields| && fields[i].rule.Repeated? && Applied(fields, rs, slots).Some?
    requires slots[i].Many? && |slots[i].items| <= fields[i].rule.max
    ensures var r := Applied(fields, rs, slots).value;
            && r[i].Many? && slots[i].items <= r[i].items && |r[i].items| <= fields[i].rule.max
            && |r[i].items| >= |slots[i].items| + Tally(fields[i], rs)
            && (!fields[i].ltype.Packable() ==> |r[i].items| == |slots[i].items| + Tally(fields[i], rs))
    decreases |rs|
  {
    if rs != [] {
      var found := FindTag(fields, rs[0].number, 0);
      if found.Some? {
        var slots' := ReadField(fields, found.value, rs[0].wire, rs[0].payload, slots).value;
        FieldSets(fields, found.value, rs[0].wire, rs[0].payload, slots, slots', i);
        RivalIs(fields, i, found.value);
        LengthIs(fields, rs[1..], slots', i);
      } else {
        LengthIs(fields, rs[1..], slots, i);
      }
    }
  }

  // ----- whole messages

  /** After decoding: the flag of an optional member says whether its field occurred, the chosen member of a union is that of
      the union's last field, and an array of strings, bytes or messages has as many items as fields occurred. */
  lemma PresenceIs(fields: seq<Field>, rs: seq<Record>, i: nat)
    requires GoodDescriptor(fields) && Framed(fields, rs) && i < |fields| && Read(fields, Joined(rs)).Got?
    ensures |Read(fields, Joined(rs)).value| == |fields|
    ensures var s := Read(fields, Joined(rs)).value[i];
            match fields[i].rule
            case Required => s.Sole? && Occurs(rs, fields[i].tag)
            case Optional => s.Maybe? && (s.has <==> Occurs(rs, fields[i].tag))
            case Oneof(_) => s.Maybe? && (s.has <==> LastOfUnion(fields, rs, i))
            case Repeated(max) => s.Many? && Tally(fields[i], rs) <= |s.items| <= max && (!fields[i].ltype.Packable() ==> |s.items| == Tally(fields[i], rs))
  {
    DecodingMeans(fields, rs);
    var start := Defaults(fields);
    assert TypedSlot(fields[i], start[i]) && start[i] == DefaultSlot(fields[i]);
    match fields[i].rule
    case Required => assert TypedSlot(fields[i], Applied(fields, rs, start).value[i]);
    case Optional => FlagIs(fields, rs, start, i);
    case Oneof(_) => ChoiceIs(fields, rs, start, i);
    case Repeated(_) => LengthIs(fields, rs, start, i);
  }

  /** More items than the array has room for fail the message. */
  lemma TooManyFails(fields: seq<Field>, rs: seq<Record>, i: nat)
    requires GoodDescriptor(fields) && Framed(fields, rs) && i < |fields| && fields[i].rule.Repeated? && Tally(fields[i], rs) > fields[i].rule.max
    ensures Read(fields, Joined(rs)).Fail?
  {
    if Read(fields, Joined(rs)).Got? {
      PresenceIs(fields, rs, i);
    }
  }

  /** A submessage is its fields applied one after the other: in an array to the defaults, else to what the member held, so
      that a second occurrence adds to the first. It fails if one of its fields does or a required one is missing. */
  lemma SubmessageMeans(fields: seq<Field>, rs: seq<Record>, b: Bytes, n: nat, was: seq<Slot>, init: bool)
    requires GoodDescriptor(fields) && TypedSlots(fields, was) && Framed(fields, rs) && LengthAt(b, n) && b[n..] == Joined(rs)
    ensures TypedSlots(fields, Defaults(fields))
    ensures var r, applied := ReadDatum(Submessage(fields), b, Msg(was), init), Applied(fields, rs, if init then Defaults(fields) else was);
            if applied.Some? && (forall i :: 0 <= i < |fields| && fields[i].rule.Required? ==> Occurs(rs, fields[i].tag))
            then r == Got(Msg(applied.value), []) else r.Fail?
  {
    var start := if init then Defaults(fields) else was;
    DefaultsTyped(fields);
    ReadLength(b, n, []);
    assert b + [] == b && Joined(rs) + [] == Joined(rs);
    RecordsMean(fields, rs, [], [], start, {});
  }
}
