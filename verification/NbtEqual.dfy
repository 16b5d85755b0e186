/** Lookup by name, order-insensitive equality, and what a tree means once compounds are maps. */
module NbtEqual {
  import opened Bytes
  import opened Nbt

  // ---------------------------------------------------------------- names as C strings

  /** A name up to its first NUL: all that strcmp sees. */
  function CStr(n: bytes): (r: bytes)
    ensures |r| <= |n|
  {
    if |n| == 0 || n[0] == 0 then [] else [n[0]] + CStr(n[1..])
  }

  lemma {:induction false} CStrOfClean(n: bytes)
    requires 0 !in n
    ensures CStr(n) == n
  {
    if |n| > 0 {
      CStrOfClean(n[1..]);
      assert n == [n[0]] + n[1..];
    }
  }

  /** minecpp_nbt_get: the first child of that name. */
  function Get(fields: seq<Tag>, name: bytes): (r: Option<Val>)
    ensures r.Some? ==> exists i :: 0 <= i < |fields| && fields[i].v == r.value && CStr(fields[i].name) == CStr(name)
  {
    if |fields| == 0 then None
    else if CStr(fields[0].name) == CStr(name) then
      assert fields[0].v == fields[0].v && CStr(fields[0].name) == CStr(name);
      Some(fields[0].v)
    else
      var r := Get(fields[1..], name);
      assert forall i :: 0 <= i < |fields| - 1 ==> fields[1..][i] == fields[i + 1];
      r
  }

  /** minecpp_nbt_equal, without its shortcut for two equal pointers. */
  predicate Equal(a: Val, b: Val)
    decreases a
  {
    match a
    case End => b.End?
    case Num(k, bits) => b.Num? && b.kind == k && b.bits == bits
    case ByteArray(data) => b.ByteArray? && b.data == data
    case Text(text) => b.Text? && b.text == text
    case IntArray(ints) => b.IntArray? && b.ints == ints
    case List(elem, items) => b.List? && b.elem == elem && |b.items| == |items| && EqualItems(items, b.items)
    case Compound(fields) => b.Compound? && |b.fields| == |fields| && EqualFields(fields, b.fields)
  }

  predicate EqualItems(a: seq<Val>, b: seq<Val>)
    requires |a| == |b|
    decreases a
  {
    |a| > 0 ==> Equal(a[0], b[0]) && EqualItems(a[1..], b[1..])
  }

  /** Each of a's children is equal to the child b finds under its name. */
  predicate EqualFields(a: seq<Tag>, b: seq<Tag>)
    decreases a
  {
    |a| > 0 ==> EqualField(a[0], Get(b, a[0].name)) && EqualFields(a[1..], b)
  }

  predicate EqualField(t: Tag, found: Option<Val>)
    decreases t
  {
    found.Some? && Equal(t.v, found.value)
  }

  // ---------------------------------------------------------------- meaning

  /** The value a tree stands for: children of a compound are found by name, in no order. */
  datatype Meaning =
    | MEnd
    | MNum(kind: NumKind, bits: nat)
    | MBytes(data: bytes)
    | MText(text: bytes)
    | MInts(ints: seq<u32>)
    | MList(elem: Id, items: seq<Meaning>)
    | MMap(fields: map<bytes, Meaning>)

  function Mean(v: Val): Meaning
    decreases v
  {
    match v
    case End => MEnd
    case Num(k, bits) => MNum(k, bits)
    case ByteArray(data) => MBytes(data)
    case Text(text) => MText(text)
    case IntArray(ints) => MInts(ints)
    case List(elem, items) => MList(elem, MeanItems(items))
    case Compound(fields) => MMap(MeanFields(fields))
  }

  function MeanItems(items: seq<Val>): (r: seq<Meaning>)
    ensures |r| == |items|
    decreases items
  {
    if |items| == 0 then [] else [Mean(items[0])] + MeanItems(items[1..])
  }

  function MeanFields(fields: seq<Tag>): map<bytes, Meaning>
    decreases fields
  {
    if |fields| == 0 then map[] else MeanFields(fields[1..])[fields[0].name := MeanTag(fields[0])]
  }

  function MeanTag(t: Tag): Meaning
    decreases t
  {
    Mean(t.v)
  }

  /** Sibling names are distinct and NUL-free, all the way down. */
  predicate Clean(v: Val)
    decreases v
  {
    match v
    case List(_, items) => CleanItems(items)
    case Compound(fields) => CleanFields(fields)
    case _ => true
  }

  predicate CleanItems(items: seq<Val>)
    decreases items
  {
    |items| > 0 ==> Clean(items[0]) && CleanItems(items[1..])
  }

  predicate CleanFields(fields: seq<Tag>)
    decreases fields
  {
    |fields| > 0 ==>
      CleanTag(fields[0]) && CleanFields(fields[1..]) && forall t | t in fields[1..] :: t.name != fields[0].name
  }

  predicate CleanTag(t: Tag)
    decreases t
  {
    0 !in t.name && Clean(t.v)
  }

  // ---------------------------------------------------------------- lookup and the map agree

  lemma {:induction false} GetFindsMeaning(fields: seq<Tag>, name: bytes)
    requires CleanFields(fields) && 0 !in name
    ensures var r := Get(fields, name); var m := MeanFields(fields);
      if r.Some? then name in m && m[name] == Mean(r.value) && Clean(r.value) else name !in m
  {
    if |fields| > 0 {
      CStrOfClean(name);
      CStrOfClean(fields[0].name);
      GetFindsMeaning(fields[1..], name);
    }
  }

  lemma {:induction false} KeyIsAName(fields: seq<Tag>, name: bytes)
    requires name in MeanFields(fields)
    ensures exists t :: t in fields && t.name == name
  {
    if name == fields[0].name {
      assert fields[0] in fields;
    } else {
      KeyIsAName(fields[1..], name);
    }
  }

  /** As many keys as children: none of them hides another. */
  lemma {:induction false} OneKeyPerChild(fields: seq<Tag>)
    requires CleanFields(fields)
    ensures |MeanFields(fields).Keys| == |fields|
  {
    if |fields| > 0 {
      var more := MeanFields(fields[1..]);
      OneKeyPerChild(fields[1..]);
      if fields[0].name in more {
        KeyIsAName(fields[1..], fields[0].name);
      }
      assert MeanFields(fields).Keys == more.Keys + {fields[0].name};
    }
  }

  lemma SameSizeSubset<T>(a: set<T>, b: set<T>)
    requires a <= b && |a| == |b|
    ensures a == b
  {
    assert |b - a| == |b| - |a|;
  }

  // ---------------------------------------------------------------- the theorem

  /** Every entry of a is an entry of b. */
  predicate Within(a: map<bytes, Meaning>, b: map<bytes, Meaning>) {
    forall n | n in a :: n in b && b[n] == a[n]
  }

  /** Two trees with clean names are equal exactly when they mean the same. */
  lemma {:induction false} EqualIsSameMeaning(a: Val, b: Val)
    requires Clean(a) && Clean(b)
    ensures Equal(a, b) <==> Mean(a) == Mean(b)
    decreases a
  {
    match a {
      case List(elem, items) =>
        if b.List? && |b.items| == |items| {
          EqualItemsIsSameMeaning(items, b.items);
        }
      case Compound(fields) =>
        if b.Compound? {
          EqualFieldsIsWithin(fields, b.fields);
          OneKeyPerChild(fields);
          OneKeyPerChild(b.fields);
          var ma, mb := MeanFields(fields), MeanFields(b.fields);
          if Equal(a, b) {
            assert ma.Keys <= mb.Keys;
            SameSizeSubset(ma.Keys, mb.Keys);
            assert ma == mb;
          }
        }
      case _ =>
    }
  }

  lemma {:induction false} EqualItemsIsSameMeaning(a: seq<Val>, b: seq<Val>)
    requires |a| == |b| && CleanItems(a) && CleanItems(b)
    ensures EqualItems(a, b) <==> MeanItems(a) == MeanItems(b)
    decreases a
  {
    if |a| > 0 {
      EqualIsSameMeaning(a[0], b[0]);
      EqualItemsIsSameMeaning(a[1..], b[1..]);
      assert MeanItems(a)[0] == Mean(a[0]) && MeanItems(a)[1..] == MeanItems(a[1..]);
      assert MeanItems(b)[0] == Mean(b[0]) && MeanItems(b)[1..] == MeanItems(b[1..]);
    }
  }

  lemma {:induction false} EqualFieldsIsWithin(a: seq<Tag>, b: seq<Tag>)
    requires CleanFields(a) && CleanFields(b)
    ensures EqualFields(a, b) <==> Within(MeanFields(a), MeanFields(b))
    decreases a
  {
    if |a| > 0 {
      var t, ma, mb := a[0], MeanFields(a[1..]), MeanFields(b);
      EqualFieldIsEntry(t, b);
      EqualFieldsIsWithin(a[1..], b);
      if t.name in ma {
        KeyIsAName(a[1..], t.name);
      }
      var all := MeanFields(a);
      assert MeanTag(t) == Mean(t.v);
      if Within(all, mb) {
        assert t.name in all;
        forall n | n in ma ensures n in mb && mb[n] == ma[n] {
          assert n in all;
        }
      }
    }
  }

  lemma {:induction false} EqualFieldIsEntry(t: Tag, b: seq<Tag>)
    requires CleanTag(t) && CleanFields(b)
    ensures EqualField(t, Get(b, t.name)) <==> t.name in MeanFields(b) && MeanFields(b)[t.name] == Mean(t.v)
    decreases t
  {
    GetFindsMeaning(b, t.name);
    var found := Get(b, t.name);
    if found.Some? {
      EqualIsSameMeaning(t.v, found.value);
    }
  }

  /** So on trees with clean names it is an equivalence relation. */
  lemma EqualIsAnEquivalence(a: Val, b: Val, c: Val)
    requires Clean(a) && Clean(b) && Clean(c)
    ensures Equal(a, a)
    ensures Equal(a, b) ==> Equal(b, a)
    ensures Equal(a, b) && Equal(b, c) ==> Equal(a, c)
  {
    EqualIsSameMeaning(a, a);
    EqualIsSameMeaning(a, b);
    EqualIsSameMeaning(b, a);
    EqualIsSameMeaning(b, c);
    EqualIsSameMeaning(a, c);
  }

  /** Without distinct names on the left it is not even symmetric: {x: 1, x: 1} equals {x: 1, y: 2}, not conversely. */
  lemma RepeatedNamesBreakSymmetry()
    ensures exists a, b :: Equal(a, b) && !Equal(b, a)
  {
    hide EqualFields, Get, CStr;
    var x, y: Name := ['x' as int], ['y' as int];
    var one, two := Num(KByte, 1), Num(KByte, 2);
    var a := [Tag(x, one), Tag(x, one)];
    var b := [Tag(x, one), Tag(y, two)];
    CStrOfClean(x);
    CStrOfClean(y);
    TwoFields(Tag(x, one), Tag(x, one), x);
    TwoFields(Tag(x, one), Tag(x, one), y);
    TwoFields(Tag(x, one), Tag(y, two), x);
    TwoEqual(Tag(x, one), Tag(x, one), b);
    TwoEqual(Tag(x, one), Tag(y, two), a);
    assert Equal(Compound(a), Compound(b)) && !Equal(Compound(b), Compound(a));
  }

  lemma TwoFields(s: Tag, t: Tag, name: bytes)
    ensures Get([s, t], name) ==
      if CStr(s.name) == CStr(name) then Some(s.v) else if CStr(t.name) == CStr(name) then Some(t.v) else None
  {
    hide CStr;
    assert [s, t][1..] == [t] && [t][1..] == [];
    assert Get([t], name) == if CStr(t.name) == CStr(name) then Some(t.v) else None;
  }

  lemma TwoEqual(s: Tag, t: Tag, b: seq<Tag>)
    ensures EqualFields([s, t], b) <==> EqualField(s, Get(b, s.name)) && EqualField(t, Get(b, t.name))
  {
    hide Get, EqualField;
    assert [s, t][1..] == [t] && [t][1..] == [];
    assert EqualFields([t], b) <==> EqualField(t, Get(b, t.name));
  }

  // ---------------------------------------------------------------- one clean side is enough to turn it round

  /** The names lookup can find. */
  function CNames(fields: seq<Tag>): (r: set<bytes>)
    ensures |r| <= |fields|
  {
    if |fields| == 0 then {} else {CStr(fields[0].name)} + CNames(fields[1..])
  }

  lemma {:induction false} NameFound(fields: seq<Tag>, name: bytes)
    ensures Get(fields, name).Some? <==> CStr(name) in CNames(fields)
  {
    hide CStr;
    if |fields| > 0 {
      NameFound(fields[1..], name);
    }
  }

  lemma OneMoreName(name: bytes, names: set<bytes>)
    ensures |{name} + names| == if name in names then |names| else |names| + 1
  {
    assert name in names ==> {name} + names == names;
  }

  /** Where there are as many names as children, lookup finds any child. */
  lemma {:induction false} ChildFound(fields: seq<Tag>, j: nat, name: bytes)
    requires |CNames(fields)| == |fields| && j < |fields| && CStr(fields[j].name) == CStr(name)
    ensures Get(fields, name) == Some(fields[j].v)
  {
    hide CStr;
    var more := fields[1..];
    OneMoreName(CStr(fields[0].name), CNames(more));
    if j > 0 {
      ChildIsNamed(more, j - 1);
      ChildFound(more, j - 1, name);
    }
  }

  lemma {:induction false} ChildIsNamed(fields: seq<Tag>, j: nat)
    requires j < |fields|
    ensures CStr(fields[j].name) in CNames(fields)
  {
    hide CStr;
    if j > 0 {
      ChildIsNamed(fields[1..], j - 1);
    }
  }

  lemma {:induction false} CNameIsAName(fields: seq<Tag>, name: bytes)
    requires CleanFields(fields) && name in CNames(fields)
    ensures exists t :: t in fields && t.name == name
  {
    hide CStr;
    CStrOfClean(fields[0].name);
    if name == fields[0].name {
      assert fields[0] in fields;
    } else {
      CNameIsAName(fields[1..], name);
    }
  }

  /** Clean compounds have as many names as children. */
  lemma {:induction false} CleanNames(fields: seq<Tag>)
    requires CleanFields(fields)
    ensures |CNames(fields)| == |fields|
  {
    hide CStr;
    if |fields| > 0 {
      CleanNames(fields[1..]);
      CStrOfClean(fields[0].name);
      if fields[0].name in CNames(fields[1..]) {
        CNameIsAName(fields[1..], fields[0].name);
      }
    }
  }

  lemma {:induction false} FieldAt(a: seq<Tag>, b: seq<Tag>, i: nat)
    requires i < |a| && CleanFields(a) && EqualFields(a, b)
    ensures CleanTag(a[i]) && EqualField(a[i], Get(b, a[i].name))
  {
    hide Get, EqualField, CleanTag;
    if i > 0 {
      FieldAt(a[1..], b, i - 1);
    }
  }

  /** Each of a's names is one of b's. */
  lemma {:induction false} NamesWithin(a: seq<Tag>, b: seq<Tag>)
    requires EqualFields(a, b)
    ensures CNames(a) <= CNames(b)
  {
    hide CStr, Get;
    if |a| > 0 {
      NameFound(b, a[0].name);
      NamesWithin(a[1..], b);
    }
  }

  /** Then there are no others, and b's are distinct as well. */
  lemma NamesAgree(a: seq<Tag>, b: seq<Tag>)
    requires |a| == |b| && CleanFields(a) && EqualFields(a, b)
    ensures CNames(a) == CNames(b) && |CNames(b)| == |b|
  {
    hide CNames, CleanFields, EqualFields;
    CleanNames(a);
    NamesWithin(a, b);
    assert |CNames(b) - CNames(a)| == |CNames(b)| - |CNames(a)|;
  }

  /** Distinct names on the left alone make equality symmetric. */
  lemma {:induction false} CleanLeftIsEnough(a: Val, b: Val)
    requires Clean(a) && Equal(a, b)
    ensures Equal(b, a)
    decreases a
  {
    hide CNames, CleanItems, CleanFields, EqualItems, EqualFields;
    match a {
      case List(_, items) => ItemsBack(items, b.items);
      case Compound(fields) =>
        NamesAgree(fields, b.fields);
        FieldsBack(fields, b.fields, 0);
        assert b.fields[0..] == b.fields;
      case _ =>
    }
  }

  lemma {:induction false} ItemsBack(a: seq<Val>, b: seq<Val>)
    requires |a| == |b| && CleanItems(a) && EqualItems(a, b)
    ensures EqualItems(b, a)
    decreases a
  {
    if |a| > 0 {
      CleanLeftIsEnough(a[0], b[0]);
      ItemsBack(a[1..], b[1..]);
    }
  }

  lemma {:induction false} FieldsBack(a: seq<Tag>, b: seq<Tag>, j: nat)
    requires CleanFields(a) && EqualFields(a, b) && CNames(a) == CNames(b) && |CNames(b)| == |b| && j <= |b|
    ensures EqualFields(b[j..], a)
    decreases a, |b| - j
  {
    hide CStr, Get, CNames, CleanTag;
    if j < |b| {
      var t := b[j];
      ChildIsNamed(b, j);
      NameFound(a, t.name);
      var i := IndexOfName(a, t.name);
      FieldAt(a, b, i);
      ChildFound(b, j, a[i].name);
      TagBack(a[i], t.v);
      FieldsBack(a, b, j + 1);
      assert b[j..][0] == t && b[j..][1..] == b[j + 1..];
    }
  }

  /** Which child lookup finds. */
  lemma IndexOfName(fields: seq<Tag>, name: bytes) returns (i: nat)
    requires Get(fields, name).Some?
    ensures i < |fields| && Get(fields, name) == Some(fields[i].v) && CStr(fields[i].name) == CStr(name)
  {
    hide CStr;
    i :| 0 <= i < |fields| && fields[i].v == Get(fields, name).value && CStr(fields[i].name) == CStr(name);
  }

  lemma {:induction false} TagBack(t: Tag, v: Val)
    requires CleanTag(t) && Equal(t.v, v)
    ensures Equal(v, t.v)
    decreases t
  {
    CleanLeftIsEnough(t.v, v);
  }

  // ---------------------------------------------------------------- building, copying, detaching

  /** minecpp_nbt_add on a list: the first element fixes the list's type. */
  function AddItem(elem: Id, items: seq<Val>, child: Val): Option<(Id, seq<Val>)> {
    if |items| == 0 then (if child.End? then None else Some((child.TypeId(), [child])))
    else if child.TypeId() != elem then None
    else Some((elem, items + [child]))
  }

  /** minecpp_nbt_clone: rebuilds the tree through add; None when an add is refused. */
  function Clone(v: Val): Option<Val>
    decreases v
  {
    match v
    case List(elem, items) => CloneItems(elem, [], items)
    case Compound(fields) => CloneFields([], fields)
    case _ => Some(v)
  }

  /** The list built so far, continued with copies of `items`. */
  function CloneItems(elem: Id, done: seq<Val>, items: seq<Val>): Option<Val>
    decreases items
  {
    if |items| == 0 then Some(List(elem, done)) else
    match Clone(items[0])
    case None => None
    case Some(k) =>
      match AddItem(elem, done, k)
      case None => None
      case Some(l) => CloneItems(l.0, l.1, items[1..])
  }

  function CloneFields(done: seq<Tag>, fields: seq<Tag>): Option<Val>
    decreases fields
  {
    if |fields| == 0 then Some(Compound(done)) else
    match CloneTag(fields[0])
    case None => None
    case Some(k) => CloneFields(done + [k], fields[1..])
  }

  function CloneTag(t: Tag): Option<Tag>
    decreases t
  {
    match Clone(t.v)
    case None => None
    case Some(k) => Some(Tag(t.name, k))
  }

  /** Every non-empty list holds values of its own type, and none of them is END. */
  predicate Coherent(v: Val)
    decreases v
  {
    match v
    case List(elem, items) => CoherentItems(elem, items)
    case Compound(fields) => CoherentFields(fields)
    case _ => true
  }

  predicate CoherentItems(elem: Id, items: seq<Val>)
    decreases items
  {
    |items| > 0 ==>
      items[0].TypeId() == elem && !items[0].End? && Coherent(items[0]) && CoherentItems(elem, items[1..])
  }

  predicate CoherentFields(fields: seq<Tag>)
    decreases fields
  {
    |fields| > 0 ==> CoherentTag(fields[0]) && CoherentFields(fields[1..])
  }

  predicate CoherentTag(t: Tag)
    decreases t
  {
    Coherent(t.v)
  }

  /** A clone keeps the type of every value it copies. */
  lemma {:induction false} CloneKeepsType(v: Val)
    ensures Clone(v).Some? ==> Clone(v).value.TypeId() == v.TypeId()
  {
    match v
    case List(elem, items) => CloneItemsIsAList(elem, [], items);
    case Compound(fields) => CloneFieldsIsACompound([], fields);
    case _ =>
  }

  lemma {:induction false} CloneItemsIsAList(elem: Id, done: seq<Val>, items: seq<Val>)
    ensures var r := CloneItems(elem, done, items); r.Some? ==>
      r.value.List? && |r.value.items| == |done| + |items| && done <= r.value.items
      && (|done| > 0 ==> r.value.elem == elem) && (|items| == 0 ==> r.value.elem == elem)
    decreases |items|
  {
    if |items| > 0 && Clone(items[0]).Some? {
      var l := AddItem(elem, done, Clone(items[0]).value);
      if l.Some? {
        CloneItemsIsAList(l.value.0, l.value.1, items[1..]);
      }
    }
  }

  lemma {:induction false} CloneFieldsIsACompound(done: seq<Tag>, fields: seq<Tag>)
    ensures var r := CloneFields(done, fields); r.Some? ==>
      r.value.Compound? && |r.value.fields| == |done| + |fields| && done <= r.value.fields
    decreases |fields|
  {
    if |fields| > 0 && CloneTag(fields[0]).Some? {
      CloneFieldsIsACompound(done + [CloneTag(fields[0]).value], fields[1..]);
    }
  }

  /** A tree clones to itself exactly when its lists are coherent. */
  lemma {:induction false} CloneIsTheSame(v: Val)
    ensures Clone(v) == Some(v) <==> Coherent(v)
    decreases v
  {
    match v
    case List(elem, items) =>
      CloneItemsAreTheSame(elem, [], items);
      assert [] + items == items;
    case Compound(fields) =>
      CloneFieldsAreTheSame([], fields);
      assert [] + fields == fields;
    case _ =>
  }

  lemma {:induction false} CloneItemsAreTheSame(elem: Id, done: seq<Val>, items: seq<Val>)
    requires |done| > 0 ==> elem != END
    ensures CloneItems(elem, done, items) == Some(List(elem, done + items)) <==> CoherentItems(elem, items)
    decreases items
  {
    if |items| == 0 {
      assert done + items == done;
    } else {
      var k := Clone(items[0]);
      CloneIsTheSame(items[0]);
      CloneKeepsType(items[0]);
      if k.Some? {
        var l := AddItem(elem, done, k.value);
        if l.Some? {
          assert l.value.1 == done + [k.value];
          CloneItemsAreTheSame(l.value.0, l.value.1, items[1..]);
          CloneItemsIsAList(l.value.0, l.value.1, items[1..]);
          assert done + items == done + [items[0]] + items[1..];
          assert (done + items)[|done|] == items[0];
        }
      }
    }
  }

  lemma {:induction false} CloneFieldsAreTheSame(done: seq<Tag>, fields: seq<Tag>)
    ensures CloneFields(done, fields) == Some(Compound(done + fields)) <==> CoherentFields(fields)
    decreases fields
  {
    if |fields| == 0 {
      assert done + fields == done;
    } else {
      var k := CloneTag(fields[0]);
      CloneTagIsTheSame(fields[0]);
      if k.Some? {
        CloneFieldsAreTheSame(done + [k.value], fields[1..]);
        CloneFieldsIsACompound(done + [k.value], fields[1..]);
        assert done + fields == done + [fields[0]] + fields[1..];
        assert (done + fields)[|done|] == fields[0];
      }
    }
  }

  lemma {:induction false} CloneTagIsTheSame(t: Tag)
    ensures CloneTag(t) == Some(t) <==> CoherentTag(t)
    decreases t
  {
    CloneIsTheSame(t.v);
  }

  /** A clean tree with coherent lists is equal to its clone. */
  lemma EqualToItsClone(v: Val)
    requires Clean(v) && Coherent(v)
    ensures Clone(v).Some? && Equal(v, Clone(v).value)
  {
    CloneIsTheSame(v);
    EqualIsSameMeaning(v, v);
  }

  /** minecpp_nbt_detach: the first child of that name, and the children without it. */
  function Detach(fields: seq<Tag>, name: bytes): (Option<Val>, seq<Tag>) {
    if |fields| == 0 then (None, [])
    else if CStr(fields[0].name) == CStr(name) then (Some(fields[0].v), fields[1..])
    else (var r := Detach(fields[1..], name); (r.0, [fields[0]] + r.1))
  }

  lemma MeanOfCons(t: Tag, more: seq<Tag>)
    ensures MeanFields([t] + more) == MeanFields(more)[t.name := MeanTag(t)]
  {
    assert ([t] + more)[1..] == more;
  }

  lemma AbsentName(fields: seq<Tag>, name: bytes)
    requires forall t | t in fields :: t.name != name
    ensures name !in MeanFields(fields)
  {
    if name in MeanFields(fields) {
      KeyIsAName(fields, name);
    }
  }

  lemma RemoveAdded(m: map<bytes, Meaning>, k: bytes, v: Meaning)
    ensures k !in m ==> m[k := v] - {k} == m
  {
  }

  lemma RemoveOther(m: map<bytes, Meaning>, h: bytes, v: Meaning, k: bytes)
    ensures h != k ==> m[h := v] - {k} == (m - {k})[h := v]
  {
  }

  lemma NoMeaning(fields: seq<Tag>, name: bytes)
    ensures |fields| == 0 ==> MeanFields(fields) - {name} == MeanFields(fields) == map[]
  {
  }

  lemma KeptClean(head: Tag, more: seq<Tag>, kept: seq<Tag>)
    requires CleanFields([head] + more) && CleanFields(kept) && forall t | t in kept :: t in more
    ensures CleanFields([head] + kept)
  {
    hide Clean;
    assert ([head] + more)[1..] == more && ([head] + kept)[1..] == kept;
  }

  /** Detaching hands over exactly the entry that lookup finds, and leaves every other entry. */
  lemma {:induction false} DetachRemovesOneEntry(fields: seq<Tag>, name: bytes)
    requires CleanFields(fields) && 0 !in name
    ensures var r := Detach(fields, name);
      r.0 == Get(fields, name) && CleanFields(r.1) && MeanFields(r.1) == MeanFields(fields) - {name}
      && forall t | t in r.1 :: t in fields
  {
    hide Clean, CStr, MeanFields;
    if |fields| > 0 {
      CStrOfClean(name);
      CStrOfClean(fields[0].name);
      var head, more := fields[0], fields[1..];
      assert fields == [head] + more;
      MeanOfCons(head, more);
      if head.name == name {
        AbsentName(more, name);
        RemoveAdded(MeanFields(more), name, MeanTag(head));
      } else {
        var r := Detach(more, name);
        assert Detach(fields, name) == (r.0, [head] + r.1);
        DetachRemovesOneEntry(more, name);
        MeanOfCons(head, r.1);
        assert ([head] + r.1)[0] == head && ([head] + r.1)[1..] == r.1;
        KeptClean(head, more, r.1);
        RemoveOther(MeanFields(more), head.name, MeanTag(head), name);
      }
    } else {
      NoMeaning(fields, name);
    }
  }
}
