/** The ordered-map behaviour of `AVLTree` that its test relies on: `insert`
    adds a key (with an optional value), `ascend` visits the entries in
    increasing key order and `descend` in decreasing order. The tree's
    shape, rotations and heights are not modelled: the entries are kept as
    a sequence sorted by key. */
module OrderedTree {
  import opened Wrappers
  import Collections

  datatype Item<V> = Item(key: int, value: Option<V>)

  function Keys<V>(s: seq<Item<V>>): (r: seq<int>)
    ensures |r| == |s|
    ensures forall i :: 0 <= i < |s| ==> r[i] == s[i].key
  {
    if s == [] then [] else [s[0].key] + Keys(s[1..])
  }

  predicate StrictlyIncreasing(s: seq<int>) {
    forall i, j :: 0 <= i < j < |s| ==> s[i] < s[j]
  }

  ghost predicate Sorted<V>(s: seq<Item<V>>) {
    forall i, j :: 0 <= i < j < |s| ==> s[i].key < s[j].key
  }

  /** The entries after inserting `key`: placed before the first larger
      key, replacing the entry of an equal key, so there is at most one
      entry more than before. */
  function InsertItem<V>(s: seq<Item<V>>, key: int, value: Option<V>): (r: seq<Item<V>>)
    ensures |s| <= |r| <= |s| + 1
  {
    if s == [] then [Item(key, value)]
    else if key < s[0].key then [Item(key, value)] + s
    else if key == s[0].key then [Item(key, value)] + s[1..]
    else [s[0]] + InsertItem(s[1..], key, value)
  }

  /** The inserted entry is present, every other entry after insertion was
      there before, and every entry of another key is kept. */
  lemma {:induction false} InsertItemMembers<V>(s: seq<Item<V>>, key: int, value: Option<V>)
    ensures Item(key, value) in InsertItem(s, key, value)
    ensures forall it :: it in InsertItem(s, key, value) ==> it == Item(key, value) || it in s
    ensures forall it :: it in s && it.key != key ==> it in InsertItem(s, key, value)
  {
    if s != [] && key > s[0].key {
      InsertItemMembers(s[1..], key, value);
      assert s == [s[0]] + s[1..];
    } else if s != [] && key == s[0].key {
      assert s == [s[0]] + s[1..];
    }
  }

  /** A bound below every key stays below every key after inserting a
      larger one. */
  lemma {:induction false} InsertItemAbove<V>(s: seq<Item<V>>, key: int, value: Option<V>, lo: int)
    requires lo < key
    requires forall i :: 0 <= i < |s| ==> lo < s[i].key
    ensures forall i :: 0 <= i < |InsertItem(s, key, value)| ==> lo < InsertItem(s, key, value)[i].key
  {
    if s != [] && key > s[0].key {
      InsertItemAbove(s[1..], key, value, lo);
    }
  }

  /** Insertion keeps the entries sorted by key. */
  lemma {:induction false} InsertItemSorted<V>(s: seq<Item<V>>, key: int, value: Option<V>)
    requires Sorted(s)
    ensures Sorted(InsertItem(s, key, value))
  {
    if s != [] && key > s[0].key {
      var tail := InsertItem(s[1..], key, value);
      InsertItemSorted(s[1..], key, value);
      InsertItemAbove(s[1..], key, value, s[0].key);
      var r := [s[0]] + tail;
      assert forall j :: 0 < j < |r| ==> r[j] == tail[j - 1];
    }
  }

  /** A key larger than every present key goes at the end. */
  lemma {:induction false} InsertItemLargest<V>(s: seq<Item<V>>, key: int, value: Option<V>)
    requires forall i :: 0 <= i < |s| ==> s[i].key < key
    ensures InsertItem(s, key, value) == s + [Item(key, value)]
  {
    if s != [] {
      InsertItemLargest(s[1..], key, value);
      assert s == [s[0]] + s[1..];
    }
  }

  /** Inserting past a prefix of smaller keys leaves that prefix alone. */
  lemma {:induction false} InsertItemSkip<V>(s: seq<Item<V>>, i: nat, key: int, value: Option<V>)
    requires i <= |s|
    requires forall j :: 0 <= j < i ==> s[j].key < key
    ensures InsertItem(s, key, value) == s[..i] + InsertItem(s[i..], key, value)
  {
    if i > 0 {
      InsertItemSkip(s[1..], i - 1, key, value);
      assert s[1..][..i - 1] == s[1..i];
      assert s[1..][i - 1..] == s[i..];
      assert s[..i] == [s[0]] + s[1..i];
    }
  }

  /** Where the search for the first key not below `key` stops, insertion
      replaces that entry if its key is `key` and goes before it otherwise. */
  lemma InsertItemAt<V>(s: seq<Item<V>>, i: nat, key: int, value: Option<V>)
    requires i <= |s|
    requires forall j :: 0 <= j < i ==> s[j].key < key
    requires i < |s| ==> key <= s[i].key
    ensures InsertItem(s, key, value)
         == if i < |s| && s[i].key == key then s[..i] + [Item(key, value)] + s[i + 1..]
            else s[..i] + [Item(key, value)] + s[i..]
  {
    InsertItemSkip(s, i, key, value);
    if i < |s| {
      assert s[i..] == [s[i]] + s[i + 1..];
    }
  }

  class AVLTree<V> {
    /** The entries in key order. */
    var items: seq<Item<V>>

    ghost predicate Valid()
      reads this
    {
      Sorted(items)
    }

    constructor ()
      ensures Valid() && items == []
    {
      items := [];
    }

    /** `insert(key:value:)`; the value may be left out. A key already
        present has its value replaced. */
    method Insert(key: int, value: Option<V> := None)
      requires Valid()
      modifies this
      ensures Valid()
      ensures items == InsertItem(old(items), key, value)
    {
      var i := 0;
      while i < |items| && items[i].key < key
        invariant 0 <= i <= |items|
        invariant forall j :: 0 <= j < i ==> items[j].key < key
      {
        i := i + 1;
      }
      InsertItemAt(items, i, key, value);
      InsertItemSorted(items, key, value);
      if i < |items| && items[i].key == key {
        items := items[..i] + [Item(key, value)] + items[i + 1..];
      } else {
        items := items[..i] + [Item(key, value)] + items[i..];
      }
    }

    /** `ascend`: the callback receives every entry once, in increasing key
        order; the calls are returned in order. */
    method Ascend() returns (visited: seq<Item<V>>)
      requires Valid()
      ensures visited == items
      ensures StrictlyIncreasing(Keys(visited))
    {
      visited := [];
      var i := 0;
      while i < |items|
        invariant 0 <= i <= |items|
        invariant visited == items[..i]
      {
        visited := visited + [items[i]];
        i := i + 1;
      }
      assert items[..i] == items;
    }

    /** `descend`: the entries in decreasing key order, the exact reverse of
        `ascend`. */
    method Descend() returns (visited: seq<Item<V>>)
      requires Valid()
      ensures |visited| == |items|
      ensures forall j :: 0 <= j < |visited| ==> visited[j] == items[|items| - 1 - j]
      ensures forall i, j :: 0 <= i < j < |visited| ==> visited[i].key > visited[j].key
    {
      visited := [];
      var i := |items|;
      while i > 0
        invariant 0 <= i <= |items|
        invariant |visited| == |items| - i
        invariant forall j :: 0 <= j < |visited| ==> visited[j] == items[|items| - 1 - j]
      {
        visited := visited + [items[i - 1]];
        i := i - 1;
      }
    }
  }

  /** `testAVLTree`: after inserting 1...10 in ascending order without
      values, `ascend` reports the keys 1...10 and `descend` the keys
      10...1. */
  method TestAVLTree() returns (ascendKeys: seq<int>, descendKeys: seq<int>)
    ensures |ascendKeys| == 10 && forall j :: 0 <= j < 10 ==> ascendKeys[j] == j + 1
    ensures |descendKeys| == 10 && forall j :: 0 <= j < 10 ==> descendKeys[j] == 10 - j
  {
    var avl := new AVLTree<int>();
    var elem := Collections.Range(1, 11);
    var n := 0;
    while n < |elem|
      invariant 0 <= n <= |elem|
      invariant avl.Valid()
      invariant |avl.items| == n && forall j :: 0 <= j < n ==> avl.items[j].key == j + 1
    {
      InsertItemLargest(avl.items, elem[n], None);
      avl.Insert(elem[n]);
      n := n + 1;
    }
    var up := avl.Ascend();
    var down := avl.Descend();
    ascendKeys := Keys(up);
    descendKeys := Keys(down);
  }
}
