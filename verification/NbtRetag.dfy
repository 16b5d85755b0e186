/** What writing and reading back does to trees whose empty lists carry an element id. */
module NbtRetag {
  import opened Bytes
  import opened Nbt
  import opened NbtRoundTrip

  /** The tree with every empty list tagged END. */
  function Retag(v: Val): Val
    decreases v
  {
    match v
    case List(elem, items) => List(ElemByte(elem, items), RetagItems(items))
    case Compound(fields) => Compound(RetagFields(fields))
    case _ => v
  }

  function RetagItems(items: seq<Val>): (r: seq<Val>)
    ensures |r| == |items|
    decreases items
  {
    if |items| == 0 then [] else [Retag(items[0])] + RetagItems(items[1..])
  }

  function RetagFields(fields: seq<Tag>): (r: seq<Tag>)
    ensures |r| == |fields|
    decreases fields
  {
    if |fields| == 0 then [] else [RetagTag(fields[0])] + RetagFields(fields[1..])
  }

  function RetagTag(t: Tag): Tag
    decreases t
  {
    Tag(t.name, Retag(t.v))
  }

  /** Both trees are written and paid for alike. */
  predicate Alike(v: Val, w: Val) {
    SerVal(v) == SerVal(w) && BillVal(v) == BillVal(w) && v.TypeId() == w.TypeId()
  }

  lemma {:induction false} RetagIsWrittenAlike(v: Val)
    ensures Alike(v, Retag(v))
    decreases v
  {
    hide SerItems, SerFields, BillItems, BillFields;
    match v
    case List(elem, items) => ItemsWrittenAlike(items);
    case Compound(fields) => FieldsWrittenAlike(fields, 0, 0);
    case _ =>
  }

  lemma {:induction false} ItemsWrittenAlike(items: seq<Val>)
    ensures SerItems(items) == SerItems(RetagItems(items)) && BillItems(items) == BillItems(RetagItems(items))
    decreases items
  {
    hide SerVal, BillVal, Retag;
    if |items| > 0 {
      RetagIsWrittenAlike(items[0]);
      ItemsWrittenAlike(items[1..]);
      assert RetagItems(items)[1..] == RetagItems(items[1..]);
    }
  }

  lemma {:induction false} FieldsWrittenAlike(fields: seq<Tag>, len: nat, cap: nat)
    ensures SerFields(fields) == SerFields(RetagFields(fields))
    ensures BillFields(fields, len, cap) == BillFields(RetagFields(fields), len, cap)
    decreases fields
  {
    hide SerVal, BillVal, Retag, HeadBill;
    if |fields| > 0 {
      TagWrittenAlike(fields[0]);
      FieldsWrittenAlike(fields[1..], len + 1, CapFor(len, cap));
      assert RetagFields(fields)[1..] == RetagFields(fields[1..]);
    }
  }

  lemma {:induction false} TagWrittenAlike(t: Tag)
    ensures SerTag(t) == SerTag(RetagTag(t)) && BillTag(t) == BillTag(RetagTag(t))
    decreases t
  {
    RetagIsWrittenAlike(t.v);
  }

  lemma {:induction false} RetagKeepsShape(v: Val, d: nat)
    requires Shaped(v) && WithinDepth(v, d)
    ensures Shaped(Retag(v)) && WithinDepth(Retag(v), d) && EndTagged(Retag(v)) && Retag(v).TypeId() == v.TypeId()
    ensures EndTagged(v) <==> Retag(v) == v
    decreases v
  {
    hide ShapedItems, ShapedFields, WithinDepthItems, WithinDepthFields, EndTaggedItems, EndTaggedFields;
    match v
    case List(elem, items) =>
      RetagKeepsItems(elem, items, d + 1);
      NoItemsFitAnyType(RetagItems(items));
    case Compound(fields) => RetagKeepsFields(fields, d + 1);
    case _ =>
  }

  lemma NoItemsFitAnyType(items: seq<Val>)
    ensures |items| == 0 ==> ShapedItems(END, items)
  {
  }

  lemma {:induction false} RetagKeepsItems(elem: Id, items: seq<Val>, d: nat)
    requires ShapedItems(elem, items) && WithinDepthItems(items, d)
    ensures var r := RetagItems(items);
      && ShapedItems(elem, r) && WithinDepthItems(r, d) && EndTaggedItems(r)
      && (EndTaggedItems(items) <==> r == items)
    decreases items
  {
    hide Shaped, WithinDepth, EndTagged, Retag;
    if |items| > 0 {
      RetagKeepsShape(items[0], d);
      RetagKeepsItems(elem, items[1..], d);
      var r := RetagItems(items);
      assert r[0] == Retag(items[0]) && r[1..] == RetagItems(items[1..]);
      assert r == items <==> r[0] == items[0] && r[1..] == items[1..];
    }
  }

  lemma {:induction false} RetagKeepsFields(fields: seq<Tag>, d: nat)
    requires ShapedFields(fields) && WithinDepthFields(fields, d)
    ensures var r := RetagFields(fields);
      && ShapedFields(r) && WithinDepthFields(r, d) && EndTaggedFields(r)
      && (EndTaggedFields(fields) <==> r == fields)
    decreases fields
  {
    hide ShapedTag, WithinDepthTag, EndTaggedTag, RetagTag;
    if |fields| > 0 {
      RetagKeepsTag(fields[0], d);
      RetagKeepsFields(fields[1..], d);
      var r := RetagFields(fields);
      assert r[0] == RetagTag(fields[0]) && r[1..] == RetagFields(fields[1..]);
      assert r == fields <==> r[0] == fields[0] && r[1..] == fields[1..];
    }
  }

  lemma {:induction false} RetagKeepsTag(t: Tag, d: nat)
    requires ShapedTag(t) && WithinDepthTag(t, d)
    ensures ShapedTag(RetagTag(t)) && WithinDepthTag(RetagTag(t), d) && EndTaggedTag(RetagTag(t))
    ensures EndTaggedTag(t) <==> RetagTag(t) == t
    decreases t
  {
    RetagKeepsShape(t.v, d);
  }

  /** Any well-formed tree, written and read back, comes back with its empty lists tagged END: as it was
      exactly when they already were. */
  lemma ParseOfAnyTree(t: Tag, x: bytes, budget: nat)
    requires Shaped(t.v) && WithinDepth(t.v, 0) && budget > 0
    ensures Parse(SerTag(t) + x, budget) == Settle(BillRoot(t), Tag(t.name, Retag(t.v)), x, budget)
    ensures Retag(t.v) == t.v <==> EndTagged(t.v)
  {
    hide Parse, SerVal, BillVal;
    RetagIsWrittenAlike(t.v);
    RetagKeepsShape(t.v, 0);
    ParseOfSerialize(Tag(t.name, Retag(t.v)), x, budget);
  }
}
