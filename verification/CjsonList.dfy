/** The child lists of cJSON items: doubly linked, the head's `prev` null.  A ghost sequence on the
    parent says which items are on the list; every operation is proved against that sequence. */
module CjsonList {
  import opened Wrappers
  import opened CjsonKeys

  class Item {
    var next: Item?
    var prev: Item?
    var child: Item?
    const key: string
    ghost var kids: seq<Item>

    constructor (key: string)
      ensures next == null && prev == null && child == null && kids == [] && this.key == key
    {
      this.key := key;
      next, prev, child, kids := null, null, null, [];
    }

    /** The children are linked, but the first one's prev may be stale. */
    ghost predicate Listed()
      reads this, kids
    {
      this !in kids && Chain(child, kids)
    }

    /** A well linked child list. */
    ghost predicate Valid()
      reads this, kids
    {
      Listed() && (kids != [] ==> kids[0].prev == null)
    }

    ghost predicate Detached()
      reads this
    {
      next == null && prev == null
    }
  }

  function KeyOf(x: Item): string {
    x.key
  }

  /** s is linked forwards and backwards from head on; the head's own prev may be anything. */
  ghost predicate Chain(head: Item?, s: seq<Item>)
    reads s
  {
    && AllDiffer(s)
    && head == (if s == [] then null else s[0])
    && (s != [] ==> s[|s| - 1].next == null)
    && (forall i {:trigger s[i].next} :: 0 <= i < |s| - 1 ==> s[i].next == s[i + 1])
    && (forall i {:trigger s[i].prev} :: 1 <= i < |s| ==> s[i].prev == s[i - 1])
  }

  // ---------------------------------------------------------------- looking up

  /** get_array_item. */
  method GetArrayItem(parent: Item?, index: nat) returns (r: Item?)
    requires parent != null ==> parent.Valid()
    ensures r == if parent != null && index < |parent.kids| then parent.kids[index] else null
  {
    if parent == null {
      return null;
    }
    r := parent.child;
    var left := index;
    ghost var k := 0;
    while r != null && left > 0
      invariant 0 <= left <= index && k == index - left
      invariant k <= |parent.kids|
      invariant r == if k < |parent.kids| then parent.kids[k] else null
      decreases left
    {
      left := left - 1;
      r := r.next;
      k := k + 1;
    }
  }

  /** The first member with this name, ignoring case. */
  function FindIndex(s: seq<Item>, name: string): (k: nat)
    ensures k <= |s|
    ensures k < |s| ==> Compare(name, s[k].key) == 0
    ensures forall i :: 0 <= i < k ==> Compare(name, s[i].key) != 0
  {
    if s == [] || Compare(name, s[0].key) == 0 then 0 else 1 + FindIndex(s[1..], name)
  }

  lemma {:induction false} FindIndexIs(s: seq<Item>, name: string, k: nat)
    requires k <= |s|
    requires forall i :: 0 <= i < k ==> Compare(name, s[i].key) != 0
    requires k < |s| ==> Compare(name, s[k].key) == 0
    ensures FindIndex(s, name) == k
  {
    if k > 0 {
      assert Compare(name, s[0].key) != 0;
      forall i | 0 <= i < k - 1 ensures Compare(name, s[1..][i].key) != 0 {
        assert s[1..][i] == s[i + 1];
      }
      FindIndexIs(s[1..], name, k - 1);
    }
  }

  /** get_object_item, not case sensitive. */
  method GetObjectItem(parent: Item?, name: string) returns (r: Item?)
    requires parent != null ==> parent.Valid()
    ensures r ==
      if parent != null && FindIndex(parent.kids, name) < |parent.kids|
      then parent.kids[FindIndex(parent.kids, name)] else null
  {
    if parent == null {
      return null;
    }
    r := parent.child;
    ghost var k := 0;
    while r != null && Compare(name, r.key) != 0
      invariant 0 <= k <= |parent.kids|
      invariant r == if k < |parent.kids| then parent.kids[k] else null
      invariant forall i :: 0 <= i < k ==> Compare(name, parent.kids[i].key) != 0
      decreases |parent.kids| - k
    {
      r := r.next;
      k := k + 1;
    }
    FindIndexIs(parent.kids, name, k);
  }

  // ---------------------------------------------------------------- changing the list

  /** cJSON_AddItemToArray: append. */
  method AddItemToArray(parent: Item?, item: Item?)
    requires parent != null && item != null ==>
      parent.Valid() && item.Detached() && item != parent && item !in parent.kids
    modifies if parent == null then {} else {parent} + (set x | x in parent.kids), if item == null then {} else {item}
    ensures parent != null && item != null ==> parent.Valid() && parent.kids == old(parent.kids) + [item]
  {
    if item == null || parent == null {
      return;
    }
    var child := parent.child;
    if child == null {
      parent.child := item;
      parent.kids := [item];
    } else {
      ghost var k := 0;
      while child.next != null
        invariant 0 <= k < |parent.kids| && child == parent.kids[k]
        decreases |parent.kids| - k
      {
        child := child.next;
        k := k + 1;
      }
      assert k == |parent.kids| - 1;
      child.next := item;
      item.prev := child;
      parent.kids := parent.kids + [item];
    }
  }

  /** cJSON_InsertItemInArray: in front of the item at that index, or at the end. */
  method InsertItemInArray(parent: Item, which: int, newitem: Item)
    requires parent.Valid() && newitem.Detached() && newitem != parent && newitem !in parent.kids
    modifies parent, parent.kids, newitem
    ensures parent.Valid()
    ensures parent.kids ==
      if which < 0 then old(parent.kids)
      else if which >= |old(parent.kids)| then old(parent.kids) + [newitem]
      else old(parent.kids)[..which] + [newitem] + old(parent.kids)[which..]
  {
    if which < 0 {
      return;
    }
    var after := GetArrayItem(parent, which);
    if after == null {
      AddItemToArray(parent, newitem);
      return;
    }
    Splice(parent, after, newitem, which);
  }

  /** The pointer writes of an insertion: x is linked in between the items k - 1 and k. */
  twostate predicate Inserted(s: seq<Item>, new x: Item?, k: nat)
    requires k < |s|
    reads s, x
  {
    && old(Chain(s[0], s)) && x != null && x !in s
    && x.next == s[k] && s[k].prev == x && (k > 0 ==> x.prev == s[k - 1])
    && (forall i {:trigger s[i].next} :: 0 <= i < |s| ==> s[i].next == if i == k - 1 then x else old(s[i].next))
    && (forall i {:trigger s[i].prev} :: 0 <= i < |s| && i != k ==> s[i].prev == old(s[i].prev))
  }

  twostate lemma Spliced(s: seq<Item>, new head: Item?, new x: Item?, new k: nat)
    requires k < |s| && Inserted(s, x, k) && head == if k == 0 then x else s[0]
    ensures Chain(head, s[..k] + [x] + s[k..])
  {
    var t := s[..k] + [x] + s[k..];
    assert forall i :: 0 <= i < |t| ==> t[i] == if i < k then s[i] else if i == k then x else s[i - 1];
    forall i {:trigger t[i].next} | 0 <= i < |t| - 1 ensures t[i].next == t[i + 1] {
    }
    forall i {:trigger t[i].prev} | 1 <= i < |t| ensures t[i].prev == t[i - 1] {
    }
  }

  method Splice(parent: Item, after: Item, newitem: Item, ghost k: nat)
    requires parent.Valid() && newitem.Detached() && newitem != parent && newitem !in parent.kids
    requires k < |parent.kids| && after == parent.kids[k]
    modifies parent, parent.kids, newitem
    ensures parent.Valid()
    ensures parent.kids == old(parent.kids)[..k] + [newitem] + old(parent.kids)[k..]
  {
    ghost var s := parent.kids;
    assert after.prev == if k > 0 then s[k - 1] else null;
    newitem.next := after;
    newitem.prev := after.prev;
    after.prev := newitem;
    if after == parent.child {
      parent.child := newitem;
    } else {
      newitem.prev.next := newitem;
    }
    parent.kids := s[..k] + [newitem] + s[k..];
    Spliced(s, parent.child, newitem, k);
  }

  ghost function IndexOf(s: seq<Item>, x: Item): (k: nat)
    requires x in s
    ensures k < |s| && s[k] == x
  {
    if s[0] == x then 0 else 1 + IndexOf(s[1..], x)
  }

  /** The pointer writes of a detach: the neighbours are linked to each other. */
  twostate predicate Removed(s: seq<Item>, k: nat)
    requires k < |s|
    reads s
  {
    && old(Chain(s[0], s))
    && (forall i {:trigger s[i].next} :: 0 <= i < |s| && i != k ==>
          s[i].next == if i == k - 1 then old(s[k].next) else old(s[i].next))
    && (forall i {:trigger s[i].prev} :: 0 <= i < |s| && i != k && (k > 0 || i != 1) ==>
          s[i].prev == if i == k + 1 then s[k - 1] else old(s[i].prev))
  }

  twostate lemma Bridged(s: seq<Item>, new head: Item?, new k: nat)
    requires k < |s| && Removed(s, k) && head == if k > 0 then s[0] else if |s| > 1 then s[1] else null
    ensures Chain(head, Without(s, k))
  {
    WithoutAt(s, k);
    var t := Without(s, k);
    hide Without;
    forall i {:trigger t[i].next} | 0 <= i < |t| - 1 ensures t[i].next == t[i + 1] {
    }
    forall i {:trigger t[i].prev} | 1 <= i < |t| ensures t[i].prev == t[i - 1] {
    }
  }

  /** cJSON_DetachItemViaPointer.  It removes the item from a well linked list; a first item with a
      stale prev instead has its successor written into that old predecessor. */
  method DetachItemViaPointer(parent: Item?, item: Item?) returns (r: Item?)
    requires parent != null && item != null ==> parent.Listed() && item in parent.kids
    modifies if parent == null || item == null then {} else {parent} + (set x | x in parent.kids),
      if item == null || item.prev == null then {} else {item.prev}
    ensures r == if parent == null then null else item
    ensures parent != null && item != null ==> item.Detached()
    ensures parent != null && item != null ==>
      parent.kids == Without(old(parent.kids), IndexOf(old(parent.kids), item))
    ensures parent != null && item != null && (old(item.prev) == null || item != old(parent.kids)[0]) ==>
      parent.Listed() && (old(parent.Valid()) ==> parent.Valid())
    ensures
      (&& parent != null && item != null && item == old(parent.kids)[0]
       && old(item.prev) != null && old(item.prev) != item)
      ==> && old(item.prev).next == old(item.next) && parent.child == old(item.next)
          && forall x :: x in old(parent.kids) && x != item && x != old(item.prev) ==> x.next == old(x.next)
  {
    if parent == null || item == null {
      return null;
    }
    hide IndexOf, Without;
    ghost var s, k := parent.kids, IndexOf(parent.kids, item);
    assert k > 0 ==> item.prev == s[k - 1];
    assert item.next == if k < |s| - 1 then s[k + 1] else null;
    if item.prev != null {
      item.prev.next := item.next;
    }
    if item.next != null {
      item.next.prev := item.prev;
    }
    if item == parent.child {
      parent.child := item.next;
    }
    item.prev := null;
    item.next := null;
    parent.kids := Without(s, k);
    WithoutAt(s, k);
    if old(item.prev) == null || k > 0 {
      Bridged(s, parent.child, k);
    }
    r := item;
  }

  /** cJSON_ReplaceItemViaPointer; what happens to the old item afterwards is its deletion. */
  method ReplaceItemViaPointer(parent: Item?, item: Item?, replacement: Item?) returns (done: bool)
    requires parent != null && item != null && replacement != null ==>
      && parent.Valid() && item in parent.kids
      && (replacement == item || (replacement.Detached() && replacement != parent && replacement !in parent.kids))
    modifies if parent == null || item == null then {} else {parent} + (set x | x in parent.kids),
      if replacement == null then {} else {replacement}
    ensures done <==> parent != null && item != null && replacement != null
    ensures done ==> parent.Valid()
    ensures done ==> parent.kids == old(parent.kids)[IndexOf(old(parent.kids), item) := replacement]
    ensures done && replacement != item ==> item.Detached()
  {
    if parent == null || replacement == null || item == null {
      return false;
    }
    if replacement == item {
      return true;
    }
    Substitute(parent, item, replacement, IndexOf(parent.kids, item));
    done := true;
  }

  /** The pointer writes of a replacement: x stands where item k stood. */
  twostate predicate Replaced(s: seq<Item>, new x: Item?, k: nat)
    requires k < |s|
    reads s, x
  {
    && old(Chain(s[0], s)) && x != null && x !in s
    && x.next == (if k + 1 < |s| then s[k + 1] else null) && (k > 0 ==> x.prev == s[k - 1])
    && (forall i {:trigger s[i].next} :: 0 <= i < |s| && i != k ==>
          s[i].next == if i == k - 1 then x else old(s[i].next))
    && (forall i {:trigger s[i].prev} :: 0 <= i < |s| && i != k ==>
          s[i].prev == if i == k + 1 then x else old(s[i].prev))
  }

  twostate lemma Substituted(s: seq<Item>, new head: Item?, new x: Item?, new k: nat)
    requires k < |s| && Replaced(s, x, k) && head == if k == 0 then x else s[0]
    ensures Chain(head, s[k := x])
  {
    var t := s[k := x];
    forall i {:trigger t[i].next} | 0 <= i < |t| - 1 ensures t[i].next == t[i + 1] {
    }
    forall i {:trigger t[i].prev} | 1 <= i < |t| ensures t[i].prev == t[i - 1] {
    }
  }

  method Substitute(parent: Item, item: Item, replacement: Item, ghost k: nat)
    requires parent.Valid() && k < |parent.kids| && parent.kids[k] == item
    requires replacement.Detached() && replacement != parent && replacement !in parent.kids
    modifies parent, parent.kids, replacement
    ensures parent.Valid() && item.Detached()
    ensures parent.kids == old(parent.kids)[k := replacement]
  {
    ghost var s := parent.kids;
    assert item.prev == if k > 0 then s[k - 1] else null;
    assert item.next == if k < |s| - 1 then s[k + 1] else null;
    replacement.next := item.next;
    replacement.prev := item.prev;
    if replacement.next != null {
      replacement.next.prev := replacement;
    }
    if replacement.prev != null {
      replacement.prev.next := replacement;
    }
    if parent.child == item {
      parent.child := replacement;
    }
    item.next := null;
    item.prev := null;
    parent.kids := s[k := replacement];
    Substituted(s, parent.child, replacement, k);
  }

  lemma {:induction false} IndexOfAt(s: seq<Item>, k: nat)
    requires k < |s|
    requires AllDiffer(s)
    ensures IndexOf(s, s[k]) == k
  {
    if k > 0 {
      assert s[0] != s[k];
      IndexOfAt(s[1..], k - 1);
    }
  }

  /** cJSON_DetachItemFromArray. */
  method DetachItemFromArray(parent: Item?, which: int) returns (r: Item?)
    requires parent != null ==> parent.Valid()
    modifies if parent == null then {} else {parent} + (set x | x in parent.kids)
    ensures parent == null || !(0 <= which < |old(parent.kids)|) ==> r == null
    ensures parent != null ==> parent.Valid()
    ensures parent != null && !(0 <= which < |old(parent.kids)|) ==> parent.kids == old(parent.kids)
    ensures parent != null && 0 <= which < |old(parent.kids)| ==>
      && r == old(parent.kids)[which] && r.Detached()
      && parent.kids == Without(old(parent.kids), which)
  {
    if which < 0 {
      return null;
    }
    var item := GetArrayItem(parent, which);
    if item != null {
      IndexOfAt(parent.kids, which);
    }
    r := DetachItemViaPointer(parent, item);
  }

  /** cJSON_DetachItemFromObject: the first member whose name matches, ignoring case. */
  method DetachItemFromObject(parent: Item?, name: string) returns (r: Item?)
    requires parent != null ==> parent.Valid()
    modifies if parent == null then {} else {parent} + (set x | x in parent.kids)
    ensures parent == null ==> r == null
    ensures parent != null ==> parent.Valid()
    ensures parent != null && FindIndex(old(parent.kids), name) == |old(parent.kids)| ==>
      r == null && parent.kids == old(parent.kids)
    ensures parent != null && FindIndex(old(parent.kids), name) < |old(parent.kids)| ==>
      var k := FindIndex(old(parent.kids), name);
      && r == old(parent.kids)[k] && r.Detached()
      && parent.kids == Without(old(parent.kids), k)
  {
    var item := GetObjectItem(parent, name);
    if item != null {
      IndexOfAt(parent.kids, FindIndex(parent.kids, name));
    }
    r := DetachItemViaPointer(parent, item);
  }
}
