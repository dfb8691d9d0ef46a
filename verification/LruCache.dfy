/** The least-recently-used cache: a list of key/value nodes, most recent first, and a map
    from keys to positions in that list.

    A list iterator stays with its element when the list is spliced, so it is kept here as
    the node itself, and the list as the sequence of its nodes. */
module LruCache {

  datatype Option<+T> = None | Some(value: T)

  /** What touches a key: setting it, or a get that finds it. */
  datatype Touch<K, V> = Set(key: K, value: V) | Hit(key: K)

  // ---- The recency stack ----

  function Without<K(==), V>(s: seq<(K, V)>, k: K): seq<(K, V)> {
    if s == [] then [] else if s[0].0 == k then s[1..] else [s[0]] + Without(s[1..], k)
  }

  function Lookup<K(==), V>(s: seq<(K, V)>, k: K): (v: Option<V>)
    ensures v.None? <==> forall i :: 0 <= i < |s| ==> s[i].0 != k
    ensures v.Some? ==> (k, v.value) in s
  {
    if s == [] then None else if s[0].0 == k then Some(s[0].1) else Lookup(s[1..], k)
  }

  /** All keys ever set, most recently touched first, without any capacity. */
  function Stack<K(==), V>(h: seq<Touch<K, V>>): seq<(K, V)> {
    if h == [] then []
    else
      var s := Stack(h[..|h| - 1]);
      match h[|h| - 1]
      case Set(k, v) => [(k, v)] + Without(s, k)
      case Hit(k) => if Lookup(s, k).None? then s else [(k, Lookup(s, k).value)] + Without(s, k)
  }

  function Take<T>(s: seq<T>, c: nat): seq<T> {
    if |s| <= c then s else s[..c]
  }

  predicate DistinctKeys<K(==), V>(s: seq<(K, V)>) {
    forall i, j :: 0 <= i < j < |s| ==> s[i].0 != s[j].0
  }

  // ---- What the stack is, by the times of the touches ----

  /** One more than the index of the last touch of k, or 0. */
  function LastTouch<K(==), V>(h: seq<Touch<K, V>>, k: K): (t: nat)
    ensures t <= |h|
  {
    if h == [] then 0 else if h[|h| - 1].key == k then |h| else LastTouch(h[..|h| - 1], k)
  }

  /** The value k was last set to. */
  function LastSet<K(==), V>(h: seq<Touch<K, V>>, k: K): Option<V> {
    if h == [] then None
    else if h[|h| - 1].Set? && h[|h| - 1].key == k then Some(h[|h| - 1].value)
    else LastSet(h[..|h| - 1], k)
  }

  lemma {:induction false} WithoutAt<K, V>(s: seq<(K, V)>, k: K, i: nat)
    requires i < |s| && s[i].0 == k && forall j :: 0 <= j < i ==> s[j].0 != k
    ensures Without(s, k) == s[..i] + s[i + 1..]
  {
    if i > 0 {
      assert forall j :: 0 <= j < i - 1 ==> s[1..][j].0 == s[j + 1].0;
      WithoutAt(s[1..], k, i - 1);
      assert [s[0]] + s[1..][..i - 1] == s[..i];
    }
  }

  lemma {:induction false} WithoutNone<K, V>(s: seq<(K, V)>, k: K)
    requires forall j :: 0 <= j < |s| ==> s[j].0 != k
    ensures Without(s, k) == s
  {
    if s != [] {
      WithoutNone(s[1..], k);
    }
  }

  lemma {:induction false} WithoutMembers<K, V>(s: seq<(K, V)>, k: K, e: (K, V))
    ensures e in Without(s, k) ==> e in s
    ensures e in s && e.0 != k ==> e in Without(s, k)
  {
    if s != [] {
      assert s == [s[0]] + s[1..];
      WithoutMembers(s[1..], k, e);
    }
  }

  /** Most recently touched first. */
  predicate ByTouch<K(==), V>(h: seq<Touch<K, V>>, s: seq<(K, V)>) {
    forall i, j :: 0 <= i < j < |s| ==> LastTouch(h, s[i].0) > LastTouch(h, s[j].0)
  }

  lemma WithoutByTouch<K, V>(h: seq<Touch<K, V>>, s: seq<(K, V)>, k: K)
    requires ByTouch(h, s)
    ensures ByTouch(h, Without(s, k)) && forall e :: e in Without(s, k) ==> e.0 != k
  {
    hide LastTouch, Without;
    if i :| 0 <= i < |s| && s[i].0 == k {
      WithoutAt(s, k, i);
      var r := Without(s, k);
      forall a, b | 0 <= a < b < |r| ensures LastTouch(h, r[a].0) > LastTouch(h, r[b].0) {
        assert r[a] == s[if a < i then a else a + 1] && r[b] == s[if b < i then b else b + 1];
      }
      forall a | 0 <= a < |r| ensures r[a].0 != k {
        assert r[a] == s[if a < i then a else a + 1];
      }
    } else {
      WithoutNone(s, k);
    }
  }

  /** Touching a key leaves the times of all others. */
  lemma ByTouchLater<K, V>(h: seq<Touch<K, V>>, s: seq<(K, V)>, v: V)
    requires h != [] && ByTouch(h[..|h| - 1], s) && forall e :: e in s ==> e.0 != h[|h| - 1].key
    ensures ByTouch(h, [(h[|h| - 1].key, v)] + s)
  {
    var front, t := h[..|h| - 1], [(h[|h| - 1].key, v)] + s;
    forall i, j | 0 <= i < j < |t| ensures LastTouch(h, t[i].0) > LastTouch(h, t[j].0) {
      assert t[j] == s[j - 1] && LastTouch(h, t[j].0) == LastTouch(front, t[j].0);
      if i > 0 {
        assert t[i] == s[i - 1] && LastTouch(h, t[i].0) == LastTouch(front, t[i].0);
      }
    }
  }

  /** The stack orders its keys by the time of their last touch, so each occurs once. */
  lemma {:induction false} StackByTouch<K, V>(h: seq<Touch<K, V>>)
    ensures ByTouch(h, Stack(h)) && DistinctKeys(Stack(h))
  {
    if h != [] {
      var front, last := h[..|h| - 1], h[|h| - 1];
      var s := Stack(front);
      StackByTouch(front);
      if last.Set? || Lookup(s, last.key).Some? {
        WithoutByTouch(front, s, last.key);
        ByTouchLater(h, Without(s, last.key), Stack(h)[0].1);
      } else {
        forall i, j | 0 <= i < j < |s| ensures LastTouch(h, s[i].0) > LastTouch(h, s[j].0) {
          assert LastTouch(h, s[i].0) == LastTouch(front, s[i].0) && LastTouch(h, s[j].0) == LastTouch(front, s[j].0);
        }
      }
    }
  }

  lemma OneEntry<K, V>(h: seq<Touch<K, V>>, s: seq<(K, V)>, e: (K, V))
    requires ByTouch(h, s) && Lookup(s, e.0).Some?
    ensures e in s <==> e.1 == Lookup(s, e.0).value
  {
    hide LastTouch;
    var x :| 0 <= x < |s| && s[x] == (e.0, Lookup(s, e.0).value);
    if e in s {
      var y :| 0 <= y < |s| && s[y] == e;
      assert x == y;
    }
  }

  /** It holds a key exactly when the key was set, with the value it was last set to. */
  lemma {:induction false} StackHolds<K, V>(h: seq<Touch<K, V>>, e: (K, V))
    ensures e in Stack(h) <==> LastSet(h, e.0) == Some(e.1)
  {
    if h != [] {
      var front, last := h[..|h| - 1], h[|h| - 1];
      var s := Stack(front);
      StackHolds(front, e);
      StackByTouch(front);
      WithoutByTouch(front, s, last.key);
      WithoutMembers(s, last.key, e);
      hide Without, ByTouch, LastTouch, DistinctKeys;
      if last.Set? {
        assert Stack(h) == [(last.key, last.value)] + Without(s, last.key);
      } else if Lookup(s, last.key).Some? {
        assert Stack(h) == [(last.key, Lookup(s, last.key).value)] + Without(s, last.key);
        if e.0 == last.key {
          OneEntry(front, s, e);
        }
      }
    }
  }

  // ---- Cutting the stack at the capacity ----

  lemma CutMoved<T>(s: seq<T>, c: nat, x: T, i: nat)
    requires i < |Take(s, c)|
    ensures Take([x] + (s[..i] + s[i + 1..]), c) == [x] + Take(s, c)[..i] + Take(s, c)[i + 1..]
  {
    var moved, cut := [x] + (s[..i] + s[i + 1..]), Take(s, c);
    forall j | 0 <= j < |cut| ensures Take(moved, c)[j] == ([x] + cut[..i] + cut[i + 1..])[j] {
      assert moved[j] == if j == 0 then x else if j <= i then s[j - 1] else s[j];
    }
  }

  /** Touching a key that the cut holds moves it to the front of the cut. */
  lemma CutTouched<K, V>(s: seq<(K, V)>, c: nat, k: K, v: V, i: nat)
    requires DistinctKeys(s) && i < |Take(s, c)| && s[i].0 == k
    ensures Take([(k, v)] + Without(s, k), c) == [(k, v)] + Take(s, c)[..i] + Take(s, c)[i + 1..]
  {
    WithoutAt(s, k, i);
    CutMoved(s, c, (k, v), i);
  }

  /** Touching any other key pushes it on the cut and drops the last entry of a full one. */
  lemma CutPushed<K, V>(s: seq<(K, V)>, c: nat, k: K, v: V)
    requires c >= 1 && DistinctKeys(s) && forall i :: 0 <= i < |Take(s, c)| ==> s[i].0 != k
    ensures Take([(k, v)] + Without(s, k), c) == [(k, v)] + Take(Take(s, c), c - 1)
  {
    if i :| 0 <= i < |s| && s[i].0 == k {
      WithoutAt(s, k, i);
    } else {
      WithoutNone(s, k);
    }
    hide Without;
  }

  lemma StackAppend<K, V>(h: seq<Touch<K, V>>, t: Touch<K, V>)
    ensures Stack(h + [t]) ==
            if t.Set? then [(t.key, t.value)] + Without(Stack(h), t.key)
            else if Lookup(Stack(h), t.key).None? then Stack(h)
            else [(t.key, Lookup(Stack(h), t.key).value)] + Without(Stack(h), t.key)
  {
    assert (h + [t])[..|h|] == h;
  }

  // ---- The cache ----

  class Node<K, V> {
    const key: K
    const value: V

    constructor (key: K, value: V)
      ensures this.key == key && this.value == value
    {
      this.key, this.value := key, value;
    }
  }

  function Pairs<K, V>(data: seq<Node<K, V>>): (c: seq<(K, V)>)
    ensures |c| == |data|
  {
    seq(|data|, i requires 0 <= i < |data| => (data[i].key, data[i].value))
  }

  /** The map leads from every key of the list to its node and from no other key. */
  predicate Linked<K(==), V>(data: seq<Node<K, V>>, index: map<K, Node<K, V>>) {
    && |index| == |data|
    && (forall i :: 0 <= i < |data| ==> data[i].key in index && index[data[i].key] == data[i])
    && (forall k :: k in index ==> index[k] in data && index[k].key == k)
  }

  function EraseNode<T>(s: seq<T>, i: nat): seq<T>
    requires i < |s|
  {
    s[..i] + s[i + 1..]
  }

  lemma LinkedKeys<K, V>(data: seq<Node<K, V>>, index: map<K, Node<K, V>>, k: K)
    requires Linked(data, index)
    ensures k in index <==> exists i :: 0 <= i < |data| && Pairs(data)[i].0 == k
  {
    if k in index {
      var i :| 0 <= i < |data| && data[i] == index[k];
      assert Pairs(data)[i].0 == k;
    }
  }

  lemma LinkedErase<K, V>(data: seq<Node<K, V>>, index: map<K, Node<K, V>>, i: nat)
    requires Linked(data, index) && i < |data| && DistinctKeys(Pairs(data))
    ensures Linked(EraseNode(data, i), index - {data[i].key})
    ensures Pairs(EraseNode(data, i)) == EraseNode(Pairs(data), i)
  {
    var rest, k := EraseNode(data, i), data[i].key;
    assert forall j :: 0 <= j < |data| && j != i ==> Pairs(data)[j].0 != Pairs(data)[i].0;
    forall j | 0 <= j < |rest| ensures rest[j].key in index - {k} && index[rest[j].key] == rest[j] {
      var x := if j < i then j else j + 1;
      assert rest[j] == data[x] && Pairs(data)[x].0 == data[x].key && Pairs(data)[i].0 == k;
    }
    forall k' | k' in index && k' != k ensures index[k'] in rest {
      var x :| 0 <= x < |data| && data[x] == index[k'];
      assert rest[if x < i then x else x - 1] == data[x];
    }
  }

  lemma LinkedPush<K, V>(data: seq<Node<K, V>>, index: map<K, Node<K, V>>, node: Node<K, V>)
    requires Linked(data, index) && node.key !in index
    ensures Linked([node] + data, index[node.key := node])
    ensures Pairs([node] + data) == [(node.key, node.value)] + Pairs(data)
  {
    var all := [node] + data;
    forall k | k in index ensures index[k] in all {
      var x :| 0 <= x < |data| && data[x] == index[k];
      assert all[x + 1] == data[x];
    }
  }

  class KyrinLruCache<K(==), V> {
    const capacity: nat
    var data: seq<Node<K, V>>
    var index: map<K, Node<K, V>>
    ghost var touches: seq<Touch<K, V>>

    /** List and map agree, and the list is the stack of all touches cut at the capacity. */
    ghost predicate Valid()
      reads this
    {
      capacity >= 1 && Linked(data, index) && Pairs(data) == Take(Stack(touches), capacity)
    }

    constructor (capacity: nat)
      requires capacity >= 1
      ensures Valid() && this.capacity == capacity && touches == []
    {
      this.capacity := capacity;
      data, index, touches := [], map[], [];
    }

    /** A hit moves the key to the front; a miss changes nothing. */
    method Get(key: K, default: V) returns (found: bool, value: V)
      requires Valid()
      modifies this
      ensures Valid()
      ensures found <==> Lookup(old(Pairs(data)), key).Some?
      ensures value == if found then Lookup(old(Pairs(data)), key).value else default
      ensures touches == old(touches) + if found then [Hit(key)] else []
    {
      Answers(key);
      hide Stack, Take, Linked, Pairs, Lookup, Without;
      found, value := false, default;
      if key in index {
        var i, node := FindNode(key);
        MovedToFront(key, i, node);
        data := [node] + data[..i] + data[i + 1..];
        touches := touches + [Hit(key)];
        value, found := node.value, true;
      }
    }

    /** Put the key in front; a new key drops the last node of a full list. */
    method Set(key: K, value: V)
      requires Valid()
      modifies this
      ensures Valid()
      ensures touches == old(touches) + [Touch.Set(key, value)]
    {
      hide Stack, Take, Linked, Pairs, Without, Lookup;
      StackAppend(touches, Touch.Set(key, value));
      if key in index {
        var i, node := FindNode(key);
        TouchedAt(touches, capacity, key, value, i);
        LinkedErase(data, index, i);
        data := data[..i] + data[i + 1..];
        index := index - {key};
      } else {
        DropLast(key, value);
        if |index| == capacity {
          var last := data[|data| - 1];
          index := index - {last.key};
          data := data[..|data| - 1];
        }
      }
      var node := new Node(key, value);
      LinkedPush(data, index, node);
      data := [node] + data;
      index := index[key := node];
      touches := touches + [Touch.Set(key, value)];
    }

    /** What moving the node of a key to the front leaves. */
    lemma MovedToFront(key: K, i: nat, node: Node<K, V>)
      requires Valid() && i < |data| && data[i] == node && node.key == key
      requires DistinctKeys(Pairs(data)) && Pairs(data)[i] == (key, node.value)
      requires i < |Stack(touches)| && Stack(touches)[i] == (key, node.value)
      requires key in index && index[key] == node
      ensures var moved := [node] + data[..i] + data[i + 1..];
              && Linked(moved, index)
              && Pairs(moved) == Take(Stack(touches + [Hit(key)]), capacity)
    {
      var moved := [node] + data[..i] + data[i + 1..];
      StackAppend(touches, Hit(key));
      TouchedAt(touches, capacity, key, node.value, i);
      LinkedErase(data, index, i);
      LinkedPush(EraseNode(data, i), index - {key}, node);
      hide Stack, Take, Linked, Pairs, Lookup, Without, DistinctKeys;
      assert (index - {key})[key := node] == index;
      assert moved == [node] + EraseNode(data, i);
    }

    lemma Answers(key: K)
      requires Valid()
      ensures key in index <==> Lookup(Pairs(data), key).Some?
    {
      LinkedKeys(data, index, key);
    }

    /** Where the iterator of a key points in the list. */
    method FindNode(key: K) returns (i: nat, node: Node<K, V>)
      requires Valid() && key in index
      ensures i < |data| && data[i] == node == index[key] && node.key == key
      ensures DistinctKeys(Pairs(data)) && Pairs(data)[i] == (key, node.value)
      ensures Lookup(Pairs(data), key) == Some(node.value)
      ensures i < |Stack(touches)| && Stack(touches)[i] == (key, node.value)
    {
      node := index[key];
      i :| 0 <= i < |data| && data[i] == node;
      StackByTouch(touches);
      hide Stack;
      assert DistinctKeys(Pairs(data));
      FindsAt(Pairs(data), key, i);
    }

    /** What pushing a new key will leave, and that the last node may be dropped. */
    lemma DropLast(key: K, value: V)
      requires Valid() && key !in index
      ensures var cut := if |index| == capacity then data[..|data| - 1] else data;
              && |index| == |data| <= capacity
              && Take([(key, value)] + Without(Stack(touches), key), capacity) == [(key, value)] + Pairs(cut)
              && (|index| == capacity ==> Linked(cut, index - {data[|data| - 1].key}) && key !in index - {data[|data| - 1].key})
              && (|index| != capacity ==> Linked(cut, index))
    {
      StackByTouch(touches);
      LinkedKeys(data, index, key);
      hide Stack, Without;
      CutPushed(Stack(touches), capacity, key, value);
      if |index| == capacity {
        LinkedErase(data, index, |data| - 1);
        assert EraseNode(data, |data| - 1) == data[..|data| - 1];
      }
    }
  }

  /** After a touch of the key at position i of the cut, the cut has it in front. */
  lemma TouchedAt<K, V>(h: seq<Touch<K, V>>, c: nat, k: K, v: V, i: nat)
    requires i < |Take(Stack(h), c)| && Stack(h)[i].0 == k
    ensures Take([(k, v)] + Without(Stack(h), k), c) == [(k, v)] + EraseNode(Take(Stack(h), c), i)
    ensures Lookup(Stack(h), k) == Some(Stack(h)[i].1)
  {
    StackByTouch(h);
    hide Stack, Without, Lookup;
    CutTouched(Stack(h), c, k, v, i);
    assert [(k, v)] + Take(Stack(h), c)[..i] + Take(Stack(h), c)[i + 1..] == [(k, v)] + EraseNode(Take(Stack(h), c), i);
    FindsAt(Stack(h), k, i);
  }

  ghost function Keys<K, V>(s: seq<(K, V)>): set<K> {
    set e | e in s :: e.0
  }

  /** The keys set at some time and touched later than k. */
  ghost function TouchedLater<K, V>(h: seq<Touch<K, V>>, k: K): set<K> {
    set e | e in Stack(h) && LastTouch(h, e.0) > LastTouch(h, k) :: e.0
  }

  lemma {:induction false} KeysCount<K, V>(s: seq<(K, V)>)
    requires DistinctKeys(s)
    ensures |Keys(s)| == |s|
  {
    if s != [] {
      var n := |s| - 1;
      KeysCount(s[..n]);
      assert s == s[..n] + [s[n]];
      assert Keys(s) == Keys(s[..n]) + {s[n].0};
    }
  }

  lemma BeforeIsLater<K, V>(h: seq<Touch<K, V>>, s: seq<(K, V)>, i: nat, x: nat)
    requires ByTouch(h, s) && i < |s| && x < |s|
    ensures LastTouch(h, s[x].0) > LastTouch(h, s[i].0) <==> x < i
  {
  }

  lemma LaterIsBefore<K, V>(h: seq<Touch<K, V>>, s: seq<(K, V)>, i: nat, e: (K, V))
    requires ByTouch(h, s) && i < |s| && e in s && LastTouch(h, e.0) > LastTouch(h, s[i].0)
    ensures e in s[..i]
  {
    hide LastTouch, ByTouch;
    var x :| 0 <= x < |s| && s[x] == e;
    BeforeIsLater(h, s, i, x);
    assert s[..i][x] == e;
  }

  lemma BeforeInStack<K, V>(h: seq<Touch<K, V>>, s: seq<(K, V)>, i: nat, e: (K, V))
    requires ByTouch(h, s) && i < |s| && e in s[..i]
    ensures e in s && LastTouch(h, e.0) > LastTouch(h, s[i].0)
  {
    hide LastTouch, ByTouch;
    var x :| 0 <= x < i && s[..i][x] == e;
    BeforeIsLater(h, s, i, x);
    assert s[x] == e;
  }

  lemma TouchedLaterAt<K, V>(h: seq<Touch<K, V>>, i: nat)
    requires i < |Stack(h)|
    ensures |TouchedLater(h, Stack(h)[i].0)| == i
  {
    var s := Stack(h);
    StackByTouch(h);
    KeysCount(s[..i]);
    hide Stack, LastTouch, ByTouch, DistinctKeys;
    var later, keys := TouchedLater(h, s[i].0), Keys(s[..i]);
    forall k | k in later ensures k in keys {
      var e :| e in s && LastTouch(h, e.0) > LastTouch(h, s[i].0) && k == e.0;
      LaterIsBefore(h, s, i, e);
    }
    forall k | k in keys ensures k in later {
      var e :| e in s[..i] && k == e.0;
      BeforeInStack(h, s, i, e);
    }
    assert later == keys;
  }

  /** A cache of capacity c answers for exactly the keys that were set and that fewer than c
      keys were touched after, with the value last set. */
  lemma CutHolds<K, V>(h: seq<Touch<K, V>>, c: nat, k: K)
    ensures Lookup(Take(Stack(h), c), k) ==
            if LastSet(h, k).Some? && |TouchedLater(h, k)| < c then LastSet(h, k) else None
  {
    var s := Stack(h);
    StackByTouch(h);
    hide Stack, LastTouch, LastSet, TouchedLater, Lookup;
    if i :| 0 <= i < |s| && s[i].0 == k {
      StackHolds(h, s[i]);
      TouchedLaterAt(h, i);
      if i < c {
        FindsAt(Take(s, c), k, i);
      } else {
        FindsNone(Take(s, c), k);
      }
    } else {
      FindsNone(Take(s, c), k);
      if LastSet(h, k).Some? {
        StackHolds(h, (k, LastSet(h, k).value));
      }
    }
  }

  lemma FindsNone<K, V>(s: seq<(K, V)>, k: K)
    requires forall i :: 0 <= i < |s| ==> s[i].0 != k
    ensures Lookup(s, k) == None
  {
  }

  lemma {:induction false} FindsAt<K, V>(s: seq<(K, V)>, k: K, i: nat)
    requires i < |s| && s[i].0 == k && forall j :: 0 <= j < i ==> s[j].0 != k
    ensures Lookup(s, k) == Some(s[i].1)
  {
    if i > 0 {
      assert forall j :: 0 <= j < i - 1 ==> s[1..][j].0 == s[j + 1].0;
      FindsAt(s[1..], k, i - 1);
    }
  }
}
