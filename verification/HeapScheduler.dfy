/**
 `Heap` and `HeapScheduler`: a binary heap kept in a doubling array, ordered by
 the event time and, among equal times, by a secondary key that counts insertions.

 The heap refines the reference list: `model` is the list that the same calls
 would have built, and `Valid` ties it to the array.
 */
module HeapScheduler {
  import opened Events
  import opened Options

  datatype Elem = Elem(key: real, skey: nat, event: Event)

  /** `KEY_LESS_THAN`. */
  predicate Less(a: Elem, b: Elem) {
    a.key < b.key || (a.key == b.key && a.skey < b.skey)
  }

  function Parent(i: nat): nat { if i == 0 then 0 else (i - 1) / 2 }

  function Left(i: nat): nat { 2 * i + 1 }

  function Right(i: nat): nat { 2 * i + 2 }

  ghost predicate IsHeap(s: seq<Elem>) {
    forall i :: 0 < i < |s| ==> !Less(s[i], s[Parent(i)])
  }

  /** A heap in which only the element at `hole` may be larger than its children. */
  ghost predicate LowHole(s: seq<Elem>, hole: nat) {
    && (forall i :: 0 < i < |s| && Parent(i) != hole ==> !Less(s[i], s[Parent(i)]))
    && (forall i :: 0 < i < |s| && Parent(i) == hole && 0 < hole ==> !Less(s[i], s[Parent(hole)]))
  }

  /** A heap in which only the element at `hole` may be smaller than its parent. */
  ghost predicate HighHole(s: seq<Elem>, hole: nat) {
    && (forall i :: 0 < i < |s| && i != hole ==> !Less(s[i], s[Parent(i)]))
    && (forall i :: 0 < i < |s| && Parent(i) == hole && 0 < hole ==> !Less(s[i], s[Parent(hole)]))
  }

  function Swap(s: seq<Elem>, i: nat, j: nat): (r: seq<Elem>)
    requires i < |s| && j < |s|
    ensures multiset(r) == multiset(s)
  {
    s[i := s[j]][j := s[i]]
  }

  lemma RootIsLeast(s: seq<Elem>, i: nat)
    requires IsHeap(s) && i < |s|
    ensures !Less(s[i], s[0])
  {
    if 0 < i { RootIsLeast(s, Parent(i)); }
  }

  lemma Raise(s: seq<Elem>, i: nat)
    requires 0 < i < |s| && HighHole(s, i) && Less(s[i], s[Parent(i)])
    ensures HighHole(Swap(s, i, Parent(i)), Parent(i))
  {
  }

  lemma Raised(s: seq<Elem>, i: nat)
    requires i < |s| && HighHole(s, i) && (i == 0 || !Less(s[i], s[Parent(i)]))
    ensures IsHeap(s)
  {
  }

  lemma Appended(s: seq<Elem>, x: Elem)
    requires IsHeap(s)
    ensures HighHole(s + [x], |s|)
  {
  }

  /** Copying the parent down and moving the hole up is one swap of the heap with `x` in the hole. */
  lemma MovedDown(s: seq<Elem>, i: nat, x: Elem)
    requires 0 < i < |s|
    ensures Swap(s[i := x], i, Parent(i)) == s[i := s[Parent(i)]][Parent(i) := x]
  {
  }

  /** One swap of the doomed element towards the root, made without comparing keys. */
  lemma Promote(s: seq<Elem>, i: nat)
    requires 0 < i < |s| && LowHole(s, i)
    ensures LowHole(Swap(s, i, Parent(i)), Parent(i))
  {
  }

  lemma Sink(s: seq<Elem>, i: nat, x: nat)
    requires i < |s| && x < |s| && 0 < x && Parent(x) == i && LowHole(s, i)
    requires forall j :: 0 < j < |s| && Parent(j) == i ==> !Less(s[j], s[x])
    requires Less(s[x], s[i])
    ensures LowHole(Swap(s, i, x), x)
  {
  }

  lemma RootReplaced(s: seq<Elem>, t: seq<Elem>)
    requires 0 < |s| && LowHole(s, 0) && |t| == |s| - 1
    requires forall i :: 0 < i < |t| ==> t[i] == s[i]
    requires 0 < |t| ==> t[0] == s[|t|]
    ensures LowHole(t, 0) && multiset(t) == multiset(s) - multiset{s[0]}
  {
    assert s == s[..|t|] + [s[|t|]];
    if 0 < |t| {
      assert t == s[..|t|][0 := s[|t|]];
    }
  }

  lemma Settled(s: seq<Elem>, i: nat)
    requires i < |s| && LowHole(s, i)
    requires forall j :: 0 < j < |s| && Parent(j) == i ==> !Less(s[j], s[i])
    ensures IsHeap(s)
  {
  }

  /** The heap element an event is stored in, given the insertion number it was stored under. */
  function Stored(keys: map<Event, nat>, e: Event): Elem
    requires e in keys
  {
    Elem(e.time, keys[e], e)
  }

  /** The elements `s` are exactly those of the events of `model`, each once, and compare as `Before` does. */
  ghost predicate Holds(s: seq<Elem>, model: seq<Event>, keys: map<Event, nat>) {
    && |s| == |model|
    && (forall e :: e in model ==> e in keys && Stored(keys, e) in s)
    && (forall x :: x in s ==> x.event in model && x.event in keys && x == Stored(keys, x.event))
    && (forall x :: x in s ==> multiset(s)[x] == 1)
    && (forall d, e :: d in model && e in model && d in keys && e in keys ==> (keys[d] < keys[e] <==> d.uid < e.uid))
  }

  lemma AllPresent(s: seq<Elem>, e: Event, model: seq<Event>, keys: map<Event, nat>)
    requires Holds(s, model, keys)
    ensures e in model ==> exists i :: 0 <= i < |s| && s[i].event == e
  {
    if e in model {
      var i :| 0 <= i < |s| && s[i] == Stored(keys, e);
    }
  }

  /** The root of a heap holding an ordered queue is the head of that queue. */
  lemma RootIsHead(s: seq<Elem>, model: seq<Event>, keys: map<Event, nat>)
    requires IsHeap(s) && s != [] && Ordered(model) && Holds(s, model, keys)
    ensures model != [] && s[0].event == model[0]
  {
    assert s[0] in s;
    assert model[0] in model;
    var m := Stored(keys, model[0]);
    var i :| 0 <= i < |s| && s[i] == m;
    RootIsLeast(s, i);
    var k :| 0 <= k < |model| && model[k] == s[0].event;
  }

  lemma HoldsWithout(s: seq<Elem>, t: seq<Elem>, e: Event, model: seq<Event>, keys: map<Event, nat>)
    requires Ordered(model) && e in model && Holds(s, model, keys)
    requires multiset(t) == multiset(s) - multiset{Stored(keys, e)}
    ensures Holds(t, Remove(model, e), keys)
  {
    RemoveContents(model, e);
    assert |multiset(t)| == |multiset(s)| - 1;
    var m := Stored(keys, e);
    forall x ensures x in t <==> x in s && x != m {
      assert x in t <==> x in multiset(t);
      assert x in s <==> x in multiset(s);
    }
    forall x | x in t ensures multiset(t)[x] == 1 {
      assert x in multiset(t);
    }
  }

  lemma HoldsWith(s: seq<Elem>, t: seq<Elem>, e: Event, model: seq<Event>, keys: map<Event, nat>, k: nat)
    requires Holds(s, model, keys) && Newest(e, model)
    requires forall d :: d in model ==> keys[d] < k
    requires multiset(t) == multiset(s) + multiset{Elem(e.time, k, e)}
    ensures Holds(t, Insert(model, e), keys[e := k])
  {
    InsertContents(model, e);
    assert |multiset(t)| == |multiset(s)| + 1;
    var m := Elem(e.time, k, e);
    forall x ensures x in t <==> x in s || x == m {
      assert x in t <==> x in multiset(t);
      assert x in s <==> x in multiset(s);
    }
    forall x | x in t ensures multiset(t)[x] == 1 {
      assert x in multiset(t);
    }
  }

  class Heap {
    var elems: array<Elem>
    var size: nat
    var nextKey: nat
    ghost var model: seq<Event>
    ghost var keys: map<Event, nat>

    ghost function Contents(): seq<Elem>
      reads this, elems
      requires size <= elems.Length
    {
      elems[..size]
    }

    ghost predicate Valid()
      reads this, elems
    {
      && size <= elems.Length && 0 < elems.Length
      && Ordered(model)
      && IsHeap(Contents())
      && Holds(Contents(), model, keys)
      && (forall e :: e in model ==> e in keys && keys[e] < nextKey)
    }

    constructor (capacity: nat)
      requires 0 < capacity
      ensures Valid() && fresh(elems) && model == []
    {
      elems := new Elem[capacity](_ => Elem(0.0, 0, Event(0, 0, 0.0)));
      size, nextKey, model, keys := 0, 0, [], map[];
    }

    /** Doubles a full array. */
    method Grow()
      requires size <= elems.Length && 0 < elems.Length
      modifies this`elems
      ensures size < elems.Length && (elems == old(elems) || fresh(elems))
      ensures elems[..size] == old(elems[..size])
    {
      if size == elems.Length {
        var bigger := new Elem[2 * elems.Length](_ => Elem(0.0, 0, Event(0, 0, 0.0)));
        forall i | 0 <= i < size { bigger[i] := elems[i]; }
        elems := bigger;
      }
    }

    method Put(i: nat, x: Elem)
      requires i < size <= elems.Length
      modifies elems
      ensures elems[..size] == old(elems[..size])[i := x]
    {
      elems[i] := x;
    }

    /** The loop of `heap_insert`: larger parents move down until `x` has its place. */
    method Place(x: Elem)
      requires 0 < size <= elems.Length && IsHeap(elems[..size - 1])
      modifies elems
      ensures IsHeap(elems[..size])
      ensures multiset(elems[..size]) == old(multiset(elems[..size - 1])) + multiset{x}
    {
      var i := size - 1;
      ghost var virtual := elems[..size - 1] + [x];
      Appended(elems[..size - 1], x);
      assert virtual == elems[..size][i := x];
      while 0 < i && Less(x, elems[Parent(i)])
        invariant 0 <= i < size
        invariant virtual == elems[..size][i := x] && HighHole(virtual, i)
        invariant multiset(virtual) == old(multiset(elems[..size - 1])) + multiset{x}
      {
        Raise(virtual, i);
        virtual := Swap(virtual, i, Parent(i));
        MovedDown(elems[..size], i, x);
        Put(i, elems[Parent(i)]);
        i := Parent(i);
      }
      Raised(virtual, i);
      Put(i, x);
    }

    method Add(e: Event)
      requires Valid() && Newest(e, model)
      modifies this, elems
      ensures Valid() && (elems == old(elems) || fresh(elems))
      ensures model == Insert(old(model), e)
    {
      ghost var before := elems[..size];
      Grow();
      size := size + 1;
      assert elems[..size - 1] == before;
      Place(Elem(e.time, nextKey, e));
      HoldsWith(before, elems[..size], e, model, keys, nextKey);
      InsertOrdered(model, e);
      InsertContents(model, e);
      model, keys := Insert(model, e), keys[e := nextKey];
      nextKey := nextKey + 1;
    }

    method Exchange(i: nat, j: nat)
      requires i < size && j < size <= elems.Length
      modifies elems
      ensures elems[..size] == Swap(old(elems[..size]), i, j)
    {
      elems[i], elems[j] := elems[j], elems[i];
    }

    /** The child to compare with: the smaller one, or `i` itself at a leaf. */
    method SmallerChild(i: nat) returns (x: nat)
      requires i < size <= elems.Length
      ensures i <= x < size && (x == i || Parent(x) == i)
      ensures x == i ==> forall j :: 0 < j < size ==> Parent(j) != i
      ensures x != i ==> forall j :: 0 < j < size && Parent(j) == i ==> !Less(elems[j], elems[x])
    {
      if Right(i) < size {
        x := if Less(elems[Left(i)], elems[Right(i)]) then Left(i) else Right(i);
      } else {
        x := if Left(i) < size then Left(i) else i;
      }
    }

    /** The loop of `heap_extract_min` that repairs the heap below its root. */
    method Heapify()
      requires size <= elems.Length && LowHole(elems[..size], 0)
      modifies elems
      ensures IsHeap(elems[..size])
      ensures multiset(elems[..size]) == old(multiset(elems[..size]))
    {
      var i := 0;
      while i < size
        invariant 0 <= i
        invariant multiset(elems[..size]) == old(multiset(elems[..size]))
        invariant LowHole(elems[..size], i)
        decreases size - i
      {
        var x := SmallerChild(i);
        if x == i || !Less(elems[x], elems[i]) {
          Settled(elems[..size], i);
          return;
        }
        Sink(elems[..size], i, x);
        Exchange(i, x);
        i := x;
      }
    }

    /** Removes the root of a heap whose order may be broken at the root only. */
    method ExtractRoot() returns (root: Elem)
      requires 0 < size <= elems.Length && LowHole(elems[..size], 0)
      modifies this`size, elems
      ensures size == old(size) - 1
      ensures root == old(elems[0]) && IsHeap(elems[..size])
      ensures multiset(elems[..size]) == old(multiset(elems[..size])) - multiset{root}
    {
      root := elems[0];
      ghost var before := elems[..size];
      size := size - 1;
      elems[0] := elems[size];
      RootReplaced(before, elems[..size]);
      Heapify();
    }

    method Deque() returns (e: Option<Event>)
      requires Valid()
      modifies this, elems
      ensures Valid() && elems == old(elems)
      ensures e == First(old(model)) && model == Rest(old(model))
    {
      e := None;
      if size == 0 {
        return;
      }
      ghost var before := elems[..size];
      RootIsHead(before, model, keys);
      var root := ExtractRoot();
      assert model[0] in model;
      HoldsWithout(before, elems[..size], model[0], model, keys);
      assert Remove(model, model[0]) == model[1..];
      model := model[1..];
      e := Some(root.event);
    }

    /** `heap_member`: one more than the event's index. */
    method Member(e: Event) returns (k: nat)
      requires size <= elems.Length
      ensures k <= size
      ensures k == 0 ==> forall i :: 0 <= i < size ==> elems[i].event != e
      ensures 0 < k ==> elems[k - 1].event == e
    {
      for i := 0 to size
        invariant forall j :: 0 <= j < i ==> elems[j].event != e
      {
        if elems[i].event == e { return i + 1; }
      }
      return 0;
    }

    /** The swaps of `heap_delete`: the element at `k` goes to the root whatever its key. */
    method BringToRoot(k: nat)
      requires k < size <= elems.Length && IsHeap(elems[..size])
      modifies elems
      ensures multiset(elems[..size]) == old(multiset(elems[..size]))
      ensures elems[0] == old(elems[k]) && LowHole(elems[..size], 0)
    {
      var i := k;
      while i != 0
        invariant 0 <= i < size
        invariant multiset(elems[..size]) == old(multiset(elems[..size]))
        invariant elems[..size][i] == old(elems[k]) && LowHole(elems[..size], i)
      {
        Promote(elems[..size], i);
        Exchange(i, Parent(i));
        i := Parent(i);
      }
    }

    method Delete(k: nat)
      requires k < size <= elems.Length && IsHeap(elems[..size])
      modifies this`size, elems
      ensures size == old(size) - 1 && IsHeap(elems[..size])
      ensures multiset(elems[..size]) == old(multiset(elems[..size])) - multiset{old(elems[k])}
    {
      BringToRoot(k);
      var _ := ExtractRoot();
    }

    /** Deletes the stored event at `k`, and with it the event from the queue. */
    method Evict(k: nat, e: Event)
      requires Valid() && k < size && elems[k].event == e
      modifies this, elems
      ensures Valid() && elems == old(elems)
      ensures e in old(model) && model == Remove(old(model), e)
    {
      ghost var before := elems[..size];
      assert before[k] in before;
      Delete(k);
      HoldsWithout(before, elems[..size], e, model, keys);
      RemoveContents(model, e);
      model := Remove(model, e);
    }

    /** `heap_delete`. */
    method Cancel(e: Event) returns (found: bool)
      requires Valid()
      modifies this, elems
      ensures Valid() && elems == old(elems)
      ensures found == (e in old(model))
      ensures model == if found then Remove(old(model), e) else old(model)
    {
      var k := Member(e);
      if k == 0 {
        AllPresent(Contents(), e, model, keys);
        return false;
      }
      Evict(k - 1, e);
      return true;
    }
  }
}
