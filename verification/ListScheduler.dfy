/** `ListScheduler`: one time-ordered list, searched from the front. */
module ListScheduler {
  import opened Events
  import opened Options

  class List {
    var queue: seq<Event>

    constructor ()
      ensures queue == []
    {
      queue := [];
    }

    method Add(e: Event)
      modifies this
      ensures queue == Insert(old(queue), e)
    {
      var k := 0;
      while k < |queue| && !(e.time < queue[k].time)
        invariant 0 <= k <= |queue|
        invariant forall i :: 0 <= i < k ==> queue[i].time <= e.time
        invariant queue == old(queue)
      {
        k := k + 1;
      }
      InsertAt(queue, e, k);
      queue := queue[..k] + [e] + queue[k..];
    }

    /** The list is walked to the event; running off its end would abort. */
    method Cancel(e: Event)
      requires e in queue
      modifies this
      ensures queue == Remove(old(queue), e)
    {
      var k := 0;
      while queue[k] != e
        invariant 0 <= k < |queue|
        invariant e in queue[k..] && queue == old(queue)
        invariant Remove(queue, e) == queue[..k] + Remove(queue[k..], e)
        decreases |queue| - k
      {
        assert queue[k..] == [queue[k]] + queue[k + 1..];
        k := k + 1;
      }
      assert queue[k..][1..] == queue[k + 1..];
      queue := queue[..k] + queue[k + 1..];
    }

    method Deque() returns (e: Option<Event>)
      modifies this
      ensures e == First(old(queue)) && queue == Rest(old(queue))
    {
      e := None;
      if queue != [] {
        e := Some(queue[0]);
        queue := queue[1..];
      }
    }
  }
}
