/** The operations of nbt.c that change a node's children in place: add, detach, and the clone built on add. */
module NbtNodes {
  import opened Bytes
  import opened Nbt
  import opened NbtEqual

  /** A compound node and its array of children. */
  class CompoundNode {
    var items: seq<Tag>

    constructor ()
      ensures items == []
    {
      items := [];
    }

    method Add(child: Tag)
      modifies this
      ensures items == old(items) + [child]
    {
      items := items + [child];
    }

    /** Where the first child of that name is. */
    method IndexOf(name: bytes) returns (i: nat)
      ensures i <= |items| && forall j | 0 <= j < i :: CStr(items[j].name) != CStr(name)
      ensures i < |items| ==> CStr(items[i].name) == CStr(name)
    {
      i := 0;
      while i < |items|
        invariant i <= |items| && forall j | 0 <= j < i :: CStr(items[j].name) != CStr(name)
      {
        if CStr(items[i].name) == CStr(name) {
          return;
        }
        i := i + 1;
      }
    }

    method Find(name: bytes) returns (r: Option<Val>)
      ensures r == Get(items, name)
    {
      var i := IndexOf(name);
      FirstOfName(items, name, i);
      r := if i < |items| then Some(items[i].v) else None;
    }

    /** minecpp_nbt_detach: the children behind the one taken move up. */
    method Remove(name: bytes) returns (r: Option<Val>)
      modifies this
      ensures (r, items) == Detach(old(items), name)
    {
      var i := IndexOf(name);
      FirstOfName(items, name, i);
      if i == |items| {
        return None;
      }
      r := Some(items[i].v);
      items := items[..i] + items[i + 1..];
    }
  }

  /** Get and Detach take the first child of the name. */
  lemma FirstOfName(fields: seq<Tag>, name: bytes, i: nat)
    requires i <= |fields| && forall j | 0 <= j < i :: CStr(fields[j].name) != CStr(name)
    requires i < |fields| ==> CStr(fields[i].name) == CStr(name)
    ensures Get(fields, name) == if i < |fields| then Some(fields[i].v) else None
    ensures Detach(fields, name) ==
      if i < |fields| then (Some(fields[i].v), fields[..i] + fields[i + 1..]) else (None, fields)
  {
    hide CStr, Get, Detach;
    GetSkips(fields, name, i);
    DetachSkips(fields, name, i);
    assert fields == fields[..i] + fields[i..];
    if i < |fields| {
      FirstIsTaken(fields[i..], name);
      assert fields[i..][1..] == fields[i + 1..];
    } else {
      assert fields[i..] == [];
      NoneIsTaken(name);
    }
  }

  lemma FirstIsTaken(fields: seq<Tag>, name: bytes)
    requires |fields| > 0 && CStr(fields[0].name) == CStr(name)
    ensures Get(fields, name) == Some(fields[0].v) && Detach(fields, name) == (Some(fields[0].v), fields[1..])
  {
  }

  lemma NoneIsTaken(name: bytes)
    ensures Get([], name) == None && Detach([], name) == (None, [])
  {
  }

  lemma {:induction false} GetSkips(fields: seq<Tag>, name: bytes, i: nat)
    requires i <= |fields| && forall j | 0 <= j < i :: CStr(fields[j].name) != CStr(name)
    ensures Get(fields, name) == Get(fields[i..], name)
  {
    hide CStr;
    if i > 0 {
      GetSkips(fields[1..], name, i - 1);
      assert fields[1..][i - 1..] == fields[i..];
    } else {
      assert fields[0..] == fields;
    }
  }

  lemma {:induction false} DetachSkips(fields: seq<Tag>, name: bytes, i: nat)
    requires i <= |fields| && forall j | 0 <= j < i :: CStr(fields[j].name) != CStr(name)
    ensures var r := Detach(fields[i..], name); Detach(fields, name) == (r.0, fields[..i] + r.1)
  {
    hide CStr;
    var r := Detach(fields[i..], name);
    if i > 0 {
      DetachSkips(fields[1..], name, i - 1);
      assert fields[1..][i - 1..] == fields[i..];
      assert fields[..i] + r.1 == [fields[0]] + (fields[1..][..i - 1] + r.1);
    } else {
      assert fields[0..] == fields && fields[..0] + r.1 == r.1;
    }
  }

  /** A list node. */
  class ListNode {
    var elem: Id
    var items: seq<Val>

    constructor (elem: Id)
      ensures this.elem == elem && items == []
    {
      this.elem, items := elem, [];
    }

    /** minecpp_nbt_add: false leaves the list as it was. */
    method Add(child: Val) returns (ok: bool)
      modifies this
      ensures var r := AddItem(old(elem), old(items), child);
        ok == r.Some? && (elem, items) == if ok then r.value else (old(elem), old(items))
    {
      if |items| == 0 {
        if child.End? {
          return false;
        }
        elem := child.TypeId();
        assert items + [child] == [child];
      } else if child.TypeId() != elem {
        return false;
      }
      items := items + [child];
      ok := true;
    }
  }

  /** minecpp_nbt_clone. */
  method Copy(v: Val) returns (r: Option<Val>)
    ensures r == Clone(v)
    decreases v
  {
    match v
    case List(elem, items) => r := CopyList(elem, items);
    case Compound(fields) => r := CopyCompound(fields);
    case _ => r := Some(v);
  }

  method CopyList(elem: Id, items: seq<Val>) returns (r: Option<Val>)
    ensures r == CloneItems(elem, [], items)
    decreases items
  {
    hide Clone, AddItem;
    var node := new ListNode(elem);
    var i := 0;
    assert items[0..] == items;
    while i < |items|
      invariant i <= |items| && fresh(node)
      invariant CloneItems(elem, [], items) == CloneItems(node.elem, node.items, items[i..])
    {
      assert items[i..][0] == items[i] && items[i..][1..] == items[i + 1..];
      var k := Copy(items[i]);
      if k.None? {
        return None;
      }
      var ok := node.Add(k.value);
      if !ok {
        return None;
      }
      i := i + 1;
    }
    r := Some(List(node.elem, node.items));
  }

  method CopyCompound(fields: seq<Tag>) returns (r: Option<Val>)
    ensures r == CloneFields([], fields)
    decreases fields
  {
    hide Clone;
    var node := new CompoundNode();
    var i := 0;
    assert fields[0..] == fields;
    while i < |fields|
      invariant i <= |fields| && fresh(node)
      invariant CloneFields([], fields) == CloneFields(node.items, fields[i..])
    {
      assert fields[i..][0] == fields[i] && fields[i..][1..] == fields[i + 1..];
      var k := CopyTag(fields[i]);
      if k.None? {
        return None;
      }
      node.Add(k.value);
      i := i + 1;
    }
    r := Some(Compound(node.items));
  }

  method CopyTag(t: Tag) returns (r: Option<Tag>)
    ensures r == CloneTag(t)
    decreases t
  {
    var k := Copy(t.v);
    r := match k case None => None case Some(w) => Some(Tag(t.name, w));
  }
}
