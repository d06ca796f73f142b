/**
 Simulator events and the reference event queue.

 `Scheduler::schedule` stamps every event with a fresh, growing uid just before
 it is queued, so "first in, first out among equal times" is the same thing as
 ordering by (time, uid). The reference queue below does not use that: it is
 the plain time-ordered list, and the lemmas connect the two views.
 */
module Events {
  import opened Options

  /** A queued event: `id` is the event object's identity. */
  datatype Event = Event(id: nat, uid: nat, time: real)

  predicate Before(a: Event, b: Event) {
    a.time < b.time || (a.time == b.time && a.uid < b.uid)
  }

  ghost predicate Ordered(q: seq<Event>) {
    forall i, j :: 0 <= i < j < |q| ==> Before(q[i], q[j])
  }

  /** `e` carries a later uid than everything queued, as a freshly stamped event does. */
  ghost predicate Newest(e: Event, q: seq<Event>) {
    forall x :: x in q ==> x.uid < e.uid
  }

  /** The reference insertion: in front of the first event that is strictly later. */
  function Insert(q: seq<Event>, e: Event): seq<Event> {
    if q == [] || e.time < q[0].time then [e] + q else [q[0]] + Insert(q[1..], e)
  }

  /** The reference head of the queue. */
  function First(q: seq<Event>): Option<Event> {
    if q == [] then None else Some(q[0])
  }

  /** The reference queue once its head has been taken. */
  function Rest(q: seq<Event>): seq<Event> {
    if q == [] then [] else q[1..]
  }

  /** The reference removal of one named event. */
  function Remove(q: seq<Event>, e: Event): seq<Event> {
    if q == [] then [] else if q[0] == e then q[1..] else [q[0]] + Remove(q[1..], e)
  }

  lemma {:induction false} InsertContents(q: seq<Event>, e: Event)
    ensures |Insert(q, e)| == |q| + 1
    ensures forall x :: x in Insert(q, e) <==> x == e || x in q
  {
    if q != [] && !(e.time < q[0].time) {
      InsertContents(q[1..], e);
      assert q == [q[0]] + q[1..];
    }
  }

  /** Inserting a fresh event at position `k` is what `Insert` does, whatever search found `k`. */
  lemma {:induction false} InsertAt(q: seq<Event>, e: Event, k: nat)
    requires k <= |q|
    requires forall i :: 0 <= i < k ==> q[i].time <= e.time
    requires k < |q| ==> e.time < q[k].time
    ensures Insert(q, e) == q[..k] + [e] + q[k..]
  {
    if k > 0 {
      assert q[0].time <= e.time;
      InsertAt(q[1..], e, k - 1);
      calc {
        Insert(q, e);
        [q[0]] + (q[1..][..k - 1] + [e] + q[1..][k - 1..]);
        { assert q[1..][..k - 1] == q[1..k] && q[1..][k - 1..] == q[k..]; }
        q[..k] + [e] + q[k..];
      }
    } else {
      assert q[..0] + [e] + q[0..] == [e] + q;
    }
  }

  lemma {:induction false} InsertOrdered(q: seq<Event>, e: Event)
    requires Ordered(q) && Newest(e, q)
    ensures Ordered(Insert(q, e))
  {
    if q != [] && !(e.time < q[0].time) {
      InsertOrdered(q[1..], e);
      InsertContents(q[1..], e);
      var r := Insert(q[1..], e);
      assert forall x :: x in r ==> Before(q[0], x);
    }
  }

  lemma {:induction false} RemoveContents(q: seq<Event>, e: Event)
    requires Ordered(q) && e in q
    ensures |Remove(q, e)| == |q| - 1 && Ordered(Remove(q, e))
    ensures forall x :: x in Remove(q, e) <==> x != e && x in q
  {
    if q[0] == e {
      assert forall i :: 0 < i < |q| ==> q[i] != e;
    } else {
      RemoveContents(q[1..], e);
      var r := Remove(q[1..], e);
      assert forall x :: x in r ==> Before(q[0], x);
      assert q == [q[0]] + q[1..];
    }
  }

  /** An ordered queue is determined by its contents. */
  lemma {:induction false} OrderedUnique(a: seq<Event>, b: seq<Event>)
    requires Ordered(a) && Ordered(b)
    requires forall x :: x in a <==> x in b
    ensures a == b
  {
    assert forall i :: 0 <= i < |a| ==> a[i] in b;
    assert forall i :: 0 <= i < |b| ==> b[i] in a;
    if a != [] && b != [] {
      assert a[0] == b[0];
      TailContents(a);
      TailContents(b);
      OrderedUnique(a[1..], b[1..]);
    }
  }

  lemma TailContents(q: seq<Event>)
    requires q != [] && Ordered(q)
    ensures forall x :: x in q[1..] <==> x in q && x != q[0]
  {
    assert q == [q[0]] + q[1..];
  }
}
