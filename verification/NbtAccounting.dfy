/** What every accepted input has in common: the tree it gives is well-formed, the bytes it used
    are the tree's own size, the budget it spent is accounted for item by item, and writing the
    tree again gives the same bytes exactly when no empty list carried a stray element id. */
module NbtAccounting {
  import opened Bytes
  import opened Nbt
  import opened NbtRoundTrip

  // ---------------------------------------------------------------- what is counted

  /** Tag records, names, strings and array slots below a value. */
  datatype Tally = Tally(nodes: nat, names: nat, strings: nat, slots: nat) {
    function Plus(t: Tally): Tally {
      Tally(nodes + t.nodes, names + t.names, strings + t.strings, slots + t.slots)
    }

    /** The budget they take beyond the bytes read. */
    function Weight(): nat {
      names + strings + nodes * TAG_SIZE + slots * PTR_SIZE
    }
  }

  const ZERO := Tally(0, 0, 0, 0)

  function CountVal(v: Val): Tally
    decreases v
  {
    match v
    case Text(_) => Tally(0, 0, 1, 0)
    case List(_, items) => CountItems(items).Plus(Tally(0, 0, 0, |items|))
    case Compound(fields) => CountFields(fields).Plus(Tally(0, 0, 0, CapOf(|fields|)))
    case _ => ZERO
  }

  function CountItems(items: seq<Val>): Tally
    decreases items
  {
    if |items| == 0 then ZERO
    else CountVal(items[0]).Plus(CountItems(items[1..])).Plus(Tally(1, 0, 0, 0))
  }

  function CountFields(fields: seq<Tag>): Tally
    decreases fields
  {
    if |fields| == 0 then ZERO
    else CountTag(fields[0]).Plus(CountFields(fields[1..]))
  }

  function CountTag(t: Tag): Tally
    decreases t
  {
    CountVal(t.v).Plus(Tally(1, 1, 0, 0))
  }

  /** The capacity of a compound's array after n appends. */
  function CapOf(n: nat): nat {
    if n == 0 then 0 else CapFor(n - 1, CapOf(n - 1))
  }

  function Doublings(k: nat): (r: nat)
    ensures r >= 8
  {
    if k == 0 then 8 else 2 * Doublings(k - 1)
  }

  /** cap is 8 doubled k times, and one doubling less would not hold n children. */
  predicate Tight(n: nat, cap: nat, k: nat) {
    cap == Doublings(k) && (k > 0 ==> Doublings(k - 1) < n)
  }

  /** That capacity is the smallest 8 * 2^k that holds n children, and nothing for none. */
  lemma {:induction false} CapIsDoubled(n: nat)
    ensures n <= CapOf(n) && (n == 0 <==> CapOf(n) == 0)
    ensures n > 0 ==> exists k: nat :: Tight(n, CapOf(n), k)
  {
    if n == 1 {
      assert CapOf(1) == CapFor(0, 0);
      assert Tight(1, CapOf(1), 0);
    } else if n > 1 {
      CapIsDoubled(n - 1);
      var k: nat :| Tight(n - 1, CapOf(n - 1), k);
      assert Tight(n, CapOf(n), if CapOf(n - 1) == n - 1 then k + 1 else k);
    }
  }

  // ---------------------------------------------------------------- one accepted read

  /** The read of s gave rest: the bytes used are as many as `written`, they equal `written`
      exactly when `same`, and the budget went down by as many plus `weight`. */
  predicate Accounted(s: bytes, rest: bytes, before: nat, after: nat, written: bytes, same: bool, weight: nat) {
    && |s| == |written| + |rest|
    && s[|written|..] == rest
    && (s[..|written|] == written <==> same)
    && before == after + |written| + weight
  }

  lemma AccountsAdd(s: bytes, s1: bytes, s2: bytes, b: nat, b1: nat, b2: nat,
                    w1: bytes, w2: bytes, same1: bool, same2: bool, k1: nat, k2: nat)
    requires Accounted(s, s1, b, b1, w1, same1, k1) && Accounted(s1, s2, b1, b2, w2, same2, k2)
    ensures Accounted(s, s2, b, b2, w1 + w2, same1 && same2, k1 + k2)
  {
    var m, n := |w1|, |w1 + w2|;
    assert s[m..][|w2|..] == s[n..];
    assert s[..n] == s[..m] + s[m..][..|w2|];
    if s[..n] == w1 + w2 {
      assert s[..m] == s[..n][..m] == w1;
      assert s[m..][..|w2|] == s[..n][m..] == w2;
    }
  }

  lemma TakeAccounts(s: bytes, budget: nat, n: nat)
    requires Take(s, budget, n).Ok?
    ensures var r := Take(s, budget, n); Accounted(s, r.rest, budget, r.budget, r.val, true, 0)
  {
  }

  lemma NameAccounts(s: bytes, budget: nat)
    requires TakeName(s, budget).Ok?
    ensures var r := TakeName(s, budget); Accounted(s, r.rest, budget, r.budget, SerName(r.val), true, 1)
  {
    var r, b := TakeName(s, budget), s[..2];
    BeOfFromBe(b);
    assert SerName(r.val) == b + r.val;
    assert s[..|r.val| + 2] == b + s[2..][..|r.val|];
  }

  lemma CountAccounts(s: bytes, budget: nat)
    requires TakeCount(s, budget).Ok?
    ensures var r := TakeCount(s, budget); Accounted(s, r.rest, budget, r.budget, Be(r.val, 4), true, 0)
  {
    BeOfFromBe(s[..4]);
  }

  lemma NumAccounts(k: NumKind, s: bytes, budget: nat)
    requires ReadNum(k, s, budget).Ok?
    ensures var r := ReadNum(k, s, budget);
      r.val.Num? && Shaped(r.val) && r.val.kind == k
      && Accounted(s, r.rest, budget, r.budget, SerVal(r.val), true, 0)
  {
    var b := s[..k.Width()];
    FromBeRange(b);
    BeOfFromBe(b);
  }

  lemma ByteArrayAccounts(s: bytes, budget: nat)
    requires ReadByteArray(s, budget).Ok?
    ensures var r := ReadByteArray(s, budget);
      r.val.ByteArray? && Shaped(r.val) && Accounted(s, r.rest, budget, r.budget, SerVal(r.val), true, 0)
  {
    CountAccounts(s, budget);
    var c := TakeCount(s, budget);
    TakeAccounts(c.rest, c.budget, c.val);
    AccountsAdd(s, c.rest, c.rest[c.val..], budget, c.budget, c.budget - c.val,
                Be(c.val, 4), c.rest[..c.val], true, true, 0, 0);
  }

  lemma IntArrayAccounts(s: bytes, budget: nat)
    requires ReadIntArray(s, budget).Ok?
    ensures var r := ReadIntArray(s, budget);
      r.val.IntArray? && Shaped(r.val) && Accounted(s, r.rest, budget, r.budget, SerVal(r.val), true, 0)
  {
    CountAccounts(s, budget);
    var c := TakeCount(s, budget);
    var n := 4 * c.val;
    BeWordsOfWords(c.rest[..n]);
    TakeAccounts(c.rest, c.budget, n);
    AccountsAdd(s, c.rest, c.rest[n..], budget, c.budget, c.budget - n,
                Be(c.val, 4), c.rest[..n], true, true, 0, 0);
  }

  lemma TextAccounts(s: bytes, budget: nat)
    requires ReadText(s, budget).Ok?
    ensures var r := ReadText(s, budget);
      r.val.Text? && Accounted(s, r.rest, budget, r.budget, SerVal(r.val), true, 1)
  {
    NameAccounts(s, budget);
    var t := TakeName(s, budget).val;
    assert SerVal(Text(t)) == SerName(t);
  }

  lemma LeafAccounts(id: Id, s: bytes, budget: nat, d: nat)
    requires id != LIST && id != COMPOUND && d <= MAX_DEPTH
    requires ReadLeaf(id, s, budget).Ok?
    ensures var r := ReadLeaf(id, s, budget); Legit(id, s, budget, d, r.val, r.rest, r.budget)
  {
    hide ReadNum, ReadByteArray, ReadIntArray, ReadText, Accounted, SerVal;
    if id <= 6 {
      NumAccounts(NumKindOf(id), s, budget);
    } else if id == BYTE_ARRAY {
      ByteArrayAccounts(s, budget);
    } else if id == TEXT {
      TextAccounts(s, budget);
    } else {
      IntArrayAccounts(s, budget);
    }
  }

  /** Everything one accepted payload of type id tells. */
  predicate Legit(id: Id, s: bytes, budget: nat, d: nat, v: Val, rest: bytes, left: nat) {
    && v.TypeId() == id && Shaped(v) && WithinDepth(v, d)
    && Accounted(s, rest, budget, left, SerVal(v), EndTagged(v), CountVal(v).Weight())
  }

  predicate LegitItems(id: Id, s: bytes, budget: nat, d: nat, items: seq<Val>, rest: bytes, left: nat) {
    && ShapedItems(id, items) && WithinDepthItems(items, d)
    && Accounted(s, rest, budget, left, SerItems(items), EndTaggedItems(items), CountItems(items).Weight())
  }

  predicate LegitFields(s: bytes, budget: nat, d: nat, len: nat, fields: seq<Tag>, rest: bytes, left: nat)
    requires CapOf(len) <= CapOf(len + |fields|)
  {
    && ShapedFields(fields) && WithinDepthFields(fields, d)
    && Accounted(s, rest, budget, left, SerFields(fields), EndTaggedFields(fields),
                 CountFields(fields).Weight() + (CapOf(len + |fields|) - CapOf(len)) * PTR_SIZE)
  }

  lemma {:induction false} CapGrows(len: nat, n: nat)
    ensures CapOf(len) <= CapOf(len + n)
  {
    if n > 0 {
      CapGrows(len, n - 1);
    }
  }

  lemma ListHeadAccounts(s: bytes, budget: nat)
    requires ReadListHead(s, budget).Ok?
    ensures var r := ReadListHead(s, budget);
      Accounted(s, r.rest, budget, r.budget, [r.val.0] + Be(r.val.1, 4), true, r.val.1 * PTR_SIZE)
  {
    hide TakeCount;
    var r := ReadListHead(s, budget);
    var c := TakeCount(s[1..], budget - 1);
    assert Accounted(s, s[1..], budget, budget - 1, [r.val.0], true, 0);
    CountAccounts(s[1..], budget - 1);
    AccountsAdd(s, s[1..], r.rest, budget, budget - 1, c.budget, [r.val.0], Be(r.val.1, 4), true, true, 0, 0);
  }

  lemma FieldHeadAccounts(s: bytes, budget: nat, len: nat, cap: nat)
    requires ReadFieldHead(s, budget, len, cap).Ok?
    ensures var r := ReadFieldHead(s, budget, len, cap);
      if r.val.0 == END then Accounted(s, r.rest, budget, r.budget, [END], true, 0)
      else Accounted(s, r.rest, budget, r.budget, [r.val.0] + SerName(r.val.1), true,
                     1 + TAG_SIZE + (CapFor(len, cap) - cap) * PTR_SIZE)
  {
    hide TakeName, SerName;
    var r := ReadFieldHead(s, budget, len, cap);
    assert Accounted(s, s[1..], budget, budget - 1, [s[0]], true, 0);
    if r.val.0 != END {
      var b := budget - 1 - (CapFor(len, cap) - cap) * PTR_SIZE - TAG_SIZE;
      NameAccounts(s[1..], b);
      var w := SerName(r.val.1);
      AccountsAdd(s, s[1..], r.rest, budget, budget - 1, r.budget,
                  [s[0]], w, true, true, 0, budget - 1 - r.budget - |w|);
    }
  }

  lemma {:induction false} ValAccounts(id: Id, s: bytes, budget: nat, d: nat)
    requires ReadVal(id, s, budget, d).Ok?
    ensures var r := ReadVal(id, s, budget, d); Legit(id, s, budget, d, r.val, r.rest, r.budget)
    decreases |s|, 2
  {
    hide ReadLeaf, ReadListHead, ReadItems, ReadFields, Accounted;
    if id == LIST {
      ListAccounts(s, budget, d);
    } else if id == COMPOUND {
      CompoundAccounts(s, budget, d);
    } else {
      LeafAccounts(id, s, budget, d);
    }
  }

  lemma {:induction false} ListAccounts(s: bytes, budget: nat, d: nat)
    requires ReadVal(LIST, s, budget, d).Ok?
    ensures var r := ReadVal(LIST, s, budget, d); Legit(LIST, s, budget, d, r.val, r.rest, r.budget)
    decreases |s|, 1
  {
    hide ReadListHead, ReadItems, ReadFields, ReadLeaf, Accounted, SerItems, CountItems;
    var h := ReadListHead(s, budget);
    ListHeadAccounts(s, budget);
    var r := ReadItems(h.val.0, h.val.1, h.rest, h.budget, d + 1);
    ItemsAccount(h.val.0, h.val.1, h.rest, h.budget, d + 1);
    AccountsAdd(s, h.rest, r.rest, budget, h.budget, r.budget, [h.val.0] + Be(h.val.1, 4), SerItems(r.val),
                true, EndTaggedItems(r.val), h.val.1 * PTR_SIZE, CountItems(r.val).Weight());
    if h.val.1 > 0 || h.val.0 == END {
      assert SerVal(List(h.val.0, r.val)) == [h.val.0] + Be(h.val.1, 4) + SerItems(r.val);
    } else {
      StrayElementId(h.val.0, s, r.rest, budget, r.budget);
    }
  }

  lemma FirstByteDiffers(s: bytes, rest: bytes, b: nat, b1: nat, x: byte, y: byte, w: bytes, k: nat)
    requires x != y && Accounted(s, rest, b, b1, [x] + w, true, k)
    ensures Accounted(s, rest, b, b1, [y] + w, false, k)
  {
    assert s[..|w| + 1][0] == x && ([y] + w)[0] == y;
  }

  /** An empty list of another type than END: same size, different first byte. */
  lemma StrayElementId(id: Id, s: bytes, rest: bytes, b: nat, b1: nat)
    requires id != END
    requires Accounted(s, rest, b, b1, [id] + Be(0, 4) + SerItems([]), true && EndTaggedItems([]),
                       0 * PTR_SIZE + CountItems([]).Weight())
    ensures var v := List(id, []); Accounted(s, rest, b, b1, SerVal(v), EndTagged(v), CountVal(v).Weight())
  {
    hide Accounted;
    var w := Be(0, 4);
    assert [id] + w + SerItems([]) == [id] + w;
    FirstByteDiffers(s, rest, b, b1, id, END, w, 0);
    assert SerVal(List(id, [])) == [END] + w;
  }

  lemma {:induction false} CompoundAccounts(s: bytes, budget: nat, d: nat)
    requires ReadVal(COMPOUND, s, budget, d).Ok?
    ensures var r := ReadVal(COMPOUND, s, budget, d); Legit(COMPOUND, s, budget, d, r.val, r.rest, r.budget)
    decreases |s|, 1
  {
    hide ReadFields, ReadLeaf, Accounted, SerFields, CountFields;
    var r := ReadFields(s, budget, d + 1, 0, 0);
    CapGrows(0, |r.val|);
    FieldsAccount(s, budget, d + 1, 0);
  }

  lemma {:induction false} ItemsAccount(id: Id, n: nat, s: bytes, budget: nat, d: nat)
    requires ReadItems(id, n, s, budget, d).Ok?
    ensures var r := ReadItems(id, n, s, budget, d); LegitItems(id, s, budget, d, r.val, r.rest, r.budget)
    decreases |s|, 3
  {
    hide ReadVal, SerVal, CountVal;
    if n > 0 {
      var a := ReadVal(id, s, budget - TAG_SIZE, d);
      ValAccounts(id, s, budget - TAG_SIZE, d);
      var m := ReadItems(id, n - 1, a.rest, a.budget, d);
      ItemsAccount(id, n - 1, a.rest, a.budget, d);
      AccountsAdd(s, a.rest, m.rest, budget - TAG_SIZE, a.budget, m.budget, SerVal(a.val), SerItems(m.val),
                  EndTagged(a.val), EndTaggedItems(m.val), CountVal(a.val).Weight(), CountItems(m.val).Weight());
      var all := [a.val] + m.val;
      assert all[0] == a.val && all[1..] == m.val;
    }
  }

  lemma FieldsEndAccount(s: bytes, budget: nat, d: nat, len: nat)
    requires ReadFields(s, budget, d, len, CapOf(len)).Ok?
    requires ReadFieldHead(s, budget, len, CapOf(len)).val.0 == END
    ensures var r := ReadFields(s, budget, d, len, CapOf(len));
      r.val == [] && LegitFields(s, budget, d, len, r.val, r.rest, r.budget)
  {
    FieldHeadAccounts(s, budget, len, CapOf(len));
  }

  /** The facts about the first child and about the others, put together. */
  lemma FieldsJoin(s: bytes, s1: bytes, s2: bytes, s3: bytes, b: nat, b1: nat, b2: nat, b3: nat, d: nat, len: nat,
                   t: Tag, more: seq<Tag>)
    requires CapOf(len) <= CapOf(len + 1) <= CapOf(len + 1 + |more|)
    requires Accounted(s, s1, b, b1, [t.v.TypeId()] + SerName(t.name), true,
                       1 + TAG_SIZE + (CapOf(len + 1) - CapOf(len)) * PTR_SIZE)
    requires Legit(t.v.TypeId(), s1, b1, d, t.v, s2, b2)
    requires LegitFields(s2, b2, d, len + 1, more, s3, b3)
    ensures CapOf(len) <= CapOf(len + |[t] + more|) && LegitFields(s, b, d, len, [t] + more, s3, b3)
  {
    hide SerVal, CountVal, SerName, Shaped, Accounted, EndTagged, WithinDepth, CapOf;
    assert Accounted(s1, s2, b1, b2, SerVal(t.v), EndTagged(t.v), CountVal(t.v).Weight());
    var all := [t] + more;
    assert all[0] == t && all[1..] == more;
    AccountsAdd(s, s1, s2, b, b1, b2, [t.v.TypeId()] + SerName(t.name), SerVal(t.v), true, EndTagged(t.v),
                1 + TAG_SIZE + (CapOf(len + 1) - CapOf(len)) * PTR_SIZE, CountVal(t.v).Weight());
    AccountsAdd(s, s2, s3, b, b2, b3, [t.v.TypeId()] + SerName(t.name) + SerVal(t.v), SerFields(more),
                EndTagged(t.v), EndTaggedFields(more),
                1 + TAG_SIZE + (CapOf(len + 1) - CapOf(len)) * PTR_SIZE + CountVal(t.v).Weight(),
                CountFields(more).Weight() + (CapOf(len + 1 + |more|) - CapOf(len + 1)) * PTR_SIZE);
    assert SerFields(all) == [t.v.TypeId()] + SerName(t.name) + SerVal(t.v) + SerFields(more);
    assert len + |all| == len + 1 + |more|;
    assert CountFields(all) == CountVal(t.v).Plus(Tally(1, 1, 0, 0)).Plus(CountFields(more));
    assert EndTaggedFields(all) <==> EndTagged(t.v) && EndTaggedFields(more);
    assert ShapedFields(all);
    assert WithinDepth(t.v, d) && WithinDepthFields(more, d);
    assert WithinDepthTag(t, d);
    assert WithinDepthFields(all, d);
  }

  lemma {:induction false} FieldsAccount(s: bytes, budget: nat, d: nat, len: nat)
    requires ReadFields(s, budget, d, len, CapOf(len)).Ok?
    ensures var r := ReadFields(s, budget, d, len, CapOf(len));
      CapOf(len) <= CapOf(len + |r.val|) && LegitFields(s, budget, d, len, r.val, r.rest, r.budget)
    decreases |s|, 0
  {
    hide ReadFieldHead, ReadVal, LegitFields, Accounted;
    var h := ReadFieldHead(s, budget, len, CapOf(len));
    if h.val.0 == END {
      FieldsEndAccount(s, budget, d, len);
    } else {
      FieldHeadAccounts(s, budget, len, CapOf(len));
      var a := ReadVal(h.val.0, h.rest, h.budget, d);
      ValAccounts(h.val.0, h.rest, h.budget, d);
      assert CapFor(len, CapOf(len)) == CapOf(len + 1);
      var m := ReadFields(a.rest, a.budget, d, len + 1, CapOf(len + 1));
      FieldsAccount(a.rest, a.budget, d, len + 1);
      FieldsJoin(s, h.rest, a.rest, m.rest, budget, h.budget, a.budget, m.budget, d, len, Tag(h.val.1, a.val), m.val);
    }
  }

  lemma RootHeadAccounts(s: bytes, budget: nat)
    requires ReadRootHead(s, budget).Ok?
    ensures var r := ReadRootHead(s, budget);
      Accounted(s, r.rest, budget, r.budget, [r.val.0] + SerName(r.val.1), true, 1 + TAG_SIZE)
  {
    hide TakeName, SerName;
    var r := ReadRootHead(s, budget);
    NameAccounts(s[1..], budget - 1 - TAG_SIZE);
    var w := SerName(r.val.1);
    AccountsAdd(s, s[1..], r.rest, budget, budget - 1, r.budget,
                [s[0]], w, true, true, 0, budget - 1 - r.budget - |w|);
  }

  /** Every accepted input. The tree is well-formed and within depth; the bytes used are exactly as
      many as its serialization, and equal to it if and only if its empty lists are all tagged END;
      the budget paid for those bytes, plus one per name and string, a tag record per node and a
      pointer per list element and compound slot, the root included. */
  lemma ParseAccounts(s: bytes, budget: nat)
    requires budget > 0 && Parse(s, budget).Ok?
    ensures var r := Parse(s, budget);
      var used := |SerTag(r.val)|;
      var tally := CountVal(r.val.v).Plus(Tally(1, 1, 0, 0));
      && Shaped(r.val.v) && WithinDepth(r.val.v, 0)
      && |s| == used + |r.rest| && r.rest == s[used..]
      && (SerTag(r.val) == s[..used] <==> EndTagged(r.val.v))
      && budget == r.budget + used + tally.names + tally.strings + tally.nodes * 48 + tally.slots * 8
  {
    hide ReadRootHead, ReadVal, SerVal, SerName, CountVal, Shaped, WithinDepth, EndTagged;
    var h := ReadRootHead(s, budget);
    RootHeadAccounts(s, budget);
    ValAccounts(h.val.0, h.rest, h.budget, 0);
    var r := Parse(s, budget);
    AccountsAdd(s, h.rest, r.rest, budget, h.budget, r.budget, [h.val.0] + SerName(h.val.1), SerVal(r.val.v),
                true, EndTagged(r.val.v), 1 + TAG_SIZE, CountVal(r.val.v).Weight());
    assert SerTag(r.val) == [h.val.0] + SerName(h.val.1) + SerVal(r.val.v);
  }

  /** The header's promise that writing a parsed tree gives back the input byte for byte fails: an
      empty list of bytes comes back as an empty list of END. */
  lemma StrayIdIsRewritten()
    ensures var s := [LIST, 0, 0, 1, 0, 0, 0, 0];
      Parse(s, 0).Ok? && Parse(s, 0).rest == [] && SerTag(Parse(s, 0).val) != s
  {
    hide ReadRootHead, ReadListHead, ReadLeaf, ReadFields;
    var s := [LIST, 0, 0, 1, 0, 0, 0, 0];
    var b := DEFAULT_BUDGET;
    assert Be(0, 2) == [0, 0] && Be(0, 4) == [0, 0, 0, 0] by {
      assert Be(0, 1) == [0] && Be(0, 3) == [0, 0, 0];
    }
    assert s == [LIST] + (SerName([]) + [1, 0, 0, 0, 0]);
    RootHeadReadsBack(LIST, [], [1, 0, 0, 0, 0], b);
    assert [1, 0, 0, 0, 0] == [1] + (Be(0, 4) + []);
    ListHeadReadsBack(1, 0, [], b - 52);
    assert Parse(s, 0) == Ok(Tag([], List(1, [])), [], b - 57);
    assert SerTag(Tag([], List(1, [])))[3] == END;
  }

  // ---------------------------------------------------------------- more input, more budget

  /** r, had it been read from an input longer by x and with e more to spend. */
  function Extended<T>(r: Res<T>, x: bytes, e: nat): Res<T> {
    match r
    case Ok(v, rest, left) => Ok(v, rest + x, left + e)
    case Fail(err) => Fail(err)
  }

  lemma TakeExtends(s: bytes, budget: nat, n: nat, x: bytes, e: nat)
    requires Take(s, budget, n).Ok?
    ensures Take(s + x, budget + e, n) == Extended(Take(s, budget, n), x, e)
  {
    assert (s + x)[..n] == s[..n] && (s + x)[n..] == s[n..] + x;
  }

  lemma NameExtends(s: bytes, budget: nat, x: bytes, e: nat)
    requires TakeName(s, budget).Ok?
    ensures TakeName(s + x, budget + e) == Extended(TakeName(s, budget), x, e)
  {
    TakeExtends(s, budget, 2, x, e);
    var s1, n := s[2..], FromBe(s[..2]);
    assert (s1 + x)[..n] == s1[..n] && (s1 + x)[n..] == s1[n..] + x;
  }

  lemma CountExtends(s: bytes, budget: nat, x: bytes, e: nat)
    requires TakeCount(s, budget).Ok?
    ensures TakeCount(s + x, budget + e) == Extended(TakeCount(s, budget), x, e)
  {
    TakeExtends(s, budget, 4, x, e);
  }

  lemma LeafExtends(id: Id, s: bytes, budget: nat, x: bytes, e: nat)
    requires id != LIST && id != COMPOUND && ReadLeaf(id, s, budget).Ok?
    ensures ReadLeaf(id, s + x, budget + e) == Extended(ReadLeaf(id, s, budget), x, e)
  {
    hide TakeName, TakeCount, Take;
    if id <= 6 {
      TakeExtends(s, budget, NumKindOf(id).Width(), x, e);
    } else if id == TEXT {
      NameExtends(s, budget, x, e);
    } else {
      CountExtends(s, budget, x, e);
      var c := TakeCount(s, budget);
      var n := if id == BYTE_ARRAY then c.val else 4 * c.val;
      assert (c.rest + x)[..n] == c.rest[..n] && (c.rest + x)[n..] == c.rest[n..] + x;
    }
  }

  lemma ListHeadExtends(s: bytes, budget: nat, x: bytes, e: nat)
    requires ReadListHead(s, budget).Ok?
    ensures ReadListHead(s + x, budget + e) == Extended(ReadListHead(s, budget), x, e)
  {
    hide TakeCount;
    TakeExtends(s, budget, 1, x, e);
    CountExtends(s[1..], budget - 1, x, e);
  }

  lemma FieldHeadExtends(s: bytes, budget: nat, len: nat, cap: nat, x: bytes, e: nat)
    requires ReadFieldHead(s, budget, len, cap).Ok?
    ensures ReadFieldHead(s + x, budget + e, len, cap) == Extended(ReadFieldHead(s, budget, len, cap), x, e)
  {
    hide TakeName;
    TakeExtends(s, budget, 1, x, e);
    if s[0] != END {
      NameExtends(s[1..], budget - 1 - (CapFor(len, cap) - cap) * PTR_SIZE - TAG_SIZE, x, e);
    }
  }

  lemma RootHeadExtends(s: bytes, budget: nat, x: bytes, e: nat)
    requires ReadRootHead(s, budget).Ok?
    ensures ReadRootHead(s + x, budget + e) == Extended(ReadRootHead(s, budget), x, e)
  {
    hide TakeName;
    TakeExtends(s, budget, 1, x, e);
    NameExtends(s[1..], budget - 1 - TAG_SIZE, x, e);
  }

  lemma {:induction false} ValExtends(id: Id, s: bytes, budget: nat, d: nat, x: bytes, e: nat)
    requires ReadVal(id, s, budget, d).Ok?
    ensures ReadVal(id, s + x, budget + e, d) == Extended(ReadVal(id, s, budget, d), x, e)
    decreases |s|, 1
  {
    hide ReadLeaf, ReadListHead, ReadItems, ReadFields;
    if id == LIST {
      ListHeadExtends(s, budget, x, e);
      var h := ReadListHead(s, budget);
      ItemsExtend(h.val.0, h.val.1, h.rest, h.budget, d + 1, x, e);
    } else if id == COMPOUND {
      FieldsExtend(s, budget, d + 1, 0, 0, x, e);
    } else {
      LeafExtends(id, s, budget, x, e);
    }
  }

  lemma {:induction false} ItemsExtend(id: Id, n: nat, s: bytes, budget: nat, d: nat, x: bytes, e: nat)
    requires ReadItems(id, n, s, budget, d).Ok?
    ensures ReadItems(id, n, s + x, budget + e, d) == Extended(ReadItems(id, n, s, budget, d), x, e)
    decreases |s|, 2
  {
    hide ReadVal;
    if n > 0 {
      var a := ReadVal(id, s, budget - TAG_SIZE, d);
      ValExtends(id, s, budget - TAG_SIZE, d, x, e);
      ItemsExtend(id, n - 1, a.rest, a.budget, d, x, e);
    }
  }

  lemma {:induction false} FieldsExtend(s: bytes, budget: nat, d: nat, len: nat, cap: nat, x: bytes, e: nat)
    requires ReadFields(s, budget, d, len, cap).Ok?
    ensures ReadFields(s + x, budget + e, d, len, cap) == Extended(ReadFields(s, budget, d, len, cap), x, e)
    decreases |s|, 0
  {
    hide ReadVal, ReadFieldHead;
    FieldHeadExtends(s, budget, len, cap, x, e);
    var h := ReadFieldHead(s, budget, len, cap);
    if h.val.0 != END {
      var a := ReadVal(h.val.0, h.rest, h.budget, d);
      ValExtends(h.val.0, h.rest, h.budget, d, x, e);
      FieldsExtend(a.rest, a.budget, d, len + 1, CapFor(len, cap), x, e);
    }
  }

  /** A longer input or a larger budget never changes an accepted tree or how much of the input it used. */
  lemma ParseExtends(s: bytes, budget: nat, x: bytes, e: nat)
    requires budget > 0 && Parse(s, budget).Ok?
    ensures Parse(s + x, budget + e) == Extended(Parse(s, budget), x, e)
  {
    hide ReadVal, ReadRootHead;
    RootHeadExtends(s, budget, x, e);
    var h := ReadRootHead(s, budget);
    ValExtends(h.val.0, h.rest, h.budget, 0, x, e);
  }
}
