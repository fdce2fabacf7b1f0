/** The map on top of a sorted vector that indexes the basic blocks of a function.

    `data` is the vector.  `Contents` is the finite map it stands for; every
    operation is specified on that map and on the order of the vector. */
module SortedMap {

  datatype Item<V> = Item(key: int, val: V)

  ghost predicate Sorted<V>(s: seq<Item<V>>) {
    forall i, j :: 0 <= i < j < |s| ==> s[i].key < s[j].key
  }

  /** The item at position `i` carries `key`. */
  ghost predicate At<V>(s: seq<Item<V>>, i: int, key: int) {
    0 <= i < |s| && s[i].key == key
  }

  ghost predicate Has<V>(s: seq<Item<V>>, key: int) {
    exists i :: At(s, i, key)
  }

  /** `i` is the position of the first item whose key is not below `key`. */
  ghost predicate IsLowerBound<V>(s: seq<Item<V>>, key: int, i: int) {
    && 0 <= i <= |s|
    && (forall j :: 0 <= j < i ==> s[j].key < key)
    && (forall j :: i <= j < |s| ==> key <= s[j].key)
  }

  /** The vector `s` and the map `m` hold the same associations. */
  ghost predicate Denotes<V>(s: seq<Item<V>>, m: map<int, V>) {
    && (forall i :: 0 <= i < |s| ==> s[i].key in m && m[s[i].key] == s[i].val)
    && (forall k :: k in m ==> Has(s, k))
  }

  lemma DenotesSnoc<V>(s: seq<Item<V>>, m: map<int, V>, x: Item<V>)
    requires Denotes(s, m) && Sorted(s + [x])
    ensures Denotes(s + [x], m[x.key := x.val])
  {
    var t, m' := s + [x], m[x.key := x.val];
    forall i | 0 <= i < |t| ensures t[i].key in m' && m'[t[i].key] == t[i].val {
      if i < |s| {
        assert t[i].key < t[|s|].key;
        assert s[i].key in m;
      }
    }
    forall k | k in m' ensures Has(t, k) {
      if k == x.key {
        assert At(t, |s|, k);
      } else {
        assert Has(s, k);
        var i :| At(s, i, k);
        assert At(t, i, k);
      }
    }
  }

  /** The map a sorted vector stands for. */
  ghost function AsMap<V>(s: seq<Item<V>>): (m: map<int, V>)
    requires Sorted(s)
    ensures Denotes(s, m)
  {
    if s == [] then map[]
    else
      var n := |s| - 1;
      assert s == s[..n] + [s[n]];
      var m := AsMap(s[..n]);
      DenotesSnoc(s[..n], m, s[n]);
      m[s[n].key := s[n].val]
  }

  lemma DenotesUnique<V>(s: seq<Item<V>>, m: map<int, V>)
    requires Sorted(s) && Denotes(s, m)
    ensures AsMap(s) == m
  {
    forall k | k in m ensures k in AsMap(s) && AsMap(s)[k] == m[k] {
      var i :| At(s, i, k);
    }
    forall k | k in AsMap(s) ensures k in m {
      var i :| At(s, i, k);
    }
  }

  lemma SinkStep<V>(s: seq<Item<V>>, i: int, item: Item<V>)
    requires 0 < i <= |s|
    ensures var t := s[..i] + [item] + s[i..];
            t[i := t[i - 1]][i - 1 := item] == s[..i - 1] + [item] + s[i - 1..]
  {
  }

  lemma InsertSorted<V>(s: seq<Item<V>>, p: int, item: Item<V>)
    requires Sorted(s) && IsLowerBound(s, item.key, p)
    requires !Has(s, item.key)
    ensures Sorted(s[..p] + [item] + s[p..])
  {
    var t := s[..p] + [item] + s[p..];
    forall j | p <= j < |s| ensures item.key < s[j].key {
      assert s[j].key == item.key ==> At(s, j, item.key);
    }
    forall i, j | 0 <= i < j < |t| ensures t[i].key < t[j].key {
      assert i < p ==> t[i] == s[i];
      assert p < i ==> t[i] == s[i - 1];
      assert j < p ==> t[j] == s[j];
      assert p < j ==> t[j] == s[j - 1];
    }
  }

  lemma InsertDenotes<V>(s: seq<Item<V>>, m: map<int, V>, p: int, item: Item<V>)
    requires Sorted(s) && IsLowerBound(s, item.key, p)
    requires Denotes(s, m) && item.key !in m
    ensures Denotes(s[..p] + [item] + s[p..], m[item.key := item.val])
  {
    var t, m' := s[..p] + [item] + s[p..], m[item.key := item.val];
    forall i | 0 <= i < |t| ensures t[i].key in m' && m'[t[i].key] == t[i].val {
      if i < p {
        assert t[i] == s[i];
      } else if p < i {
        assert t[i] == s[i - 1];
      }
    }
    forall k | k in m' ensures Has(t, k) {
      if k == item.key {
        assert At(t, p, k);
      } else {
        assert Has(s, k);
        var i :| At(s, i, k);
        assert At(t, if i < p then i else i + 1, k);
      }
    }
  }

  lemma AsMapInsert<V>(s: seq<Item<V>>, p: int, item: Item<V>)
    requires Sorted(s) && IsLowerBound(s, item.key, p)
    requires item.key !in AsMap(s)
    ensures Sorted(s[..p] + [item] + s[p..])
    ensures AsMap(s[..p] + [item] + s[p..]) == AsMap(s)[item.key := item.val]
  {
    assert forall i :: 0 <= i < |s| ==> s[i].key != item.key;
    InsertSorted(s, p, item);
    InsertDenotes(s, AsMap(s), p, item);
    DenotesUnique(s[..p] + [item] + s[p..], AsMap(s)[item.key := item.val]);
  }

  lemma AsMapReplace<V>(s: seq<Item<V>>, p: int, v: V)
    requires Sorted(s) && 0 <= p < |s|
    ensures Sorted(s[p := Item(s[p].key, v)])
    ensures AsMap(s[p := Item(s[p].key, v)]) == AsMap(s)[s[p].key := v]
  {
    var t, m := s[p := Item(s[p].key, v)], AsMap(s)[s[p].key := v];
    assert Sorted(t);
    forall k | k in m ensures Has(t, k) {
      var i :| At(s, i, k);
      assert At(t, i, k);
    }
    DenotesUnique(t, m);
  }

  lemma AsMapPrefix<V>(s: seq<Item<V>>, p: int, key: int)
    requires Sorted(s) && IsLowerBound(s, key, p)
    ensures Sorted(s[..p])
    ensures AsMap(s[..p]) == map k | k in AsMap(s) && k < key :: AsMap(s)[k]
  {
    var t, m := s[..p], map k | k in AsMap(s) && k < key :: AsMap(s)[k];
    forall k | k in m ensures Has(t, k) {
      var i :| At(s, i, k);
      assert At(t, i, k);
    }
    DenotesUnique(t, m);
  }

  lemma SunkBound<V>(s: seq<Item<V>>, t: seq<Item<V>>, item: Item<V>, i: nat)
    requires Sorted(s) && i <= |s| && t == s[..i] + [item] + s[i..]
    requires forall j :: i <= j < |s| ==> item.key < s[j].key
    requires 0 < i ==> t[i - 1].key <= item.key
    ensures IsLowerBound(s, item.key, i) || (exists j :: 0 <= j < |s| && s[j].key == item.key)
  {
    assert 0 < i ==> t[i - 1] == s[i - 1];
  }

  /** Merge the sorted range `s` with the one-item range `[item]` behind it. */
  method InplaceMerge<V>(s: seq<Item<V>>, item: Item<V>) returns (t: seq<Item<V>>, ghost p: nat)
    requires Sorted(s)
    ensures IsLowerBound(s, item.key, p) || (exists i :: 0 <= i < |s| && s[i].key == item.key)
    ensures p <= |s| && t == s[..p] + [item] + s[p..]
    ensures |t| == |s| + 1 && item in t && forall x :: x in s ==> x in t
  {
    var i := |s|;
    t := s + [item];
    assert t == s[..i] + [item] + s[i..];
    while 0 < i && item.key < t[i - 1].key
      invariant 0 <= i <= |s| && |t| == |s| + 1
      invariant t == s[..i] + [item] + s[i..]
      invariant forall j :: i <= j < |s| ==> item.key < s[j].key
    {
      assert t[i - 1] == s[i - 1];
      t := t[i := t[i - 1]][i - 1 := item];
      SinkStep(s, i, item);
      i := i - 1;
    }
    SunkBound(s, t, item, i);
    p := i;
  }

  class Map<V> {
    var data: seq<Item<V>>

    ghost predicate Valid()
      reads this
    {
      Sorted(data)
    }

    ghost function Contents(): map<int, V>
      reads this
      requires Valid()
    {
      AsMap(data)
    }

    constructor ()
      ensures Valid() && data == [] && Contents() == map[]
    {
      data := [];
    }

    /** Binary search for the first item whose key is not below `key`. */
    method LowerBound(key: int) returns (i: nat)
      requires Valid()
      ensures IsLowerBound(data, key, i)
    {
      var lo, hi := 0, |data|;
      while lo < hi
        invariant 0 <= lo <= hi <= |data|
        invariant forall j :: 0 <= j < lo ==> data[j].key < key
        invariant forall j :: hi <= j < |data| ==> key <= data[j].key
      {
        var mid := (lo + hi) / 2;
        if data[mid].key < key { lo := mid + 1; } else { hi := mid; }
      }
      i := lo;
    }

    /** The position of `key`, or the length of the vector when it is absent. */
    method Lookup(key: int) returns (i: nat)
      requires Valid()
      ensures i <= |data|
      ensures key in Contents() <==> i < |data|
      ensures i < |data| ==> data[i].key == key && data[i].val == Contents()[key]
    {
      i := LowerBound(key);
      if key in Contents() {
        ghost var p :| At(data, p, key);
        assert data[p].key == key;
      }
      if i < |data| && data[i].key != key { i := |data|; }
    }

    /** Append at the end, then merge the last item into the sorted prefix. */
    method Insert(item: Item<V>) returns (ghost p: nat)
      requires Valid() && item.key !in Contents()
      modifies this
      ensures Valid() && Contents() == old(Contents())[item.key := item.val]
      ensures IsLowerBound(old(data), item.key, p)
      ensures data == old(data)[..p] + [item] + old(data)[p..]
    {
      ghost var was := data;
      data, p := InplaceMerge(data, item);
      AsMapInsert(was, p, item);
    }

    /** Update `key`, or insert it; `p` is where an absent key went. */
    method Upsert(key: int, val: V) returns (ghost p: nat)
      requires Valid()
      modifies this
      ensures Valid() && Contents() == old(Contents())[key := val]
      ensures key !in old(Contents()) ==>
                IsLowerBound(old(data), key, p) && data == old(data)[..p] + [Item(key, val)] + old(data)[p..]
    {
      var i := Lookup(key);
      p := i;
      if i < |data| {
        AsMapReplace(data, i, val);
        data := data[i := Item(key, val)];
      } else {
        p := Insert(Item(key, val));
      }
    }

    /** Erase every item from position `i` to the end. */
    method EraseFrom(i: nat, ghost key: int)
      requires Valid() && IsLowerBound(data, key, i)
      modifies this
      ensures Valid() && data == old(data)[..i]
      ensures Contents() == map k | k in old(Contents()) && k < key :: old(Contents())[k]
    {
      AsMapPrefix(data, i, key);
      data := data[..i];
    }
  }
}
