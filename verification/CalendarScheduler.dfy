/**
 `CalendarScheduler`: events hashed by time into buckets, after R. Brown,
 "Calendar queues: A fast O(1) priority queue implementation for the simulation
 event set problem", CACM 31(10), 1988.

 Day `d` of the calendar is the time span [d*width, (d+1)*width), and the bucket
 of an event is its day modulo the number of buckets. The queue refines the
 reference list: `model` is the list that the same calls would have built.
 */
module CalendarScheduler {
  import opened Events
  import opened Modulo
  import opened Options

  /** `count` is the source's `count_`, meant to be the number of distinct times in `list`. */
  datatype Bucket = Bucket(list: seq<Event>, count: nat)

  // ---------- Days and buckets ----------

  function Day(t: real, w: real): int
    requires 0.0 < w
  {
    (t / w).Floor
  }

  /** The bucket of a time: `CALENDAR_HASH` from time 0 on, see `IndexIsHash`. */
  function Hash(t: real, w: real, n: nat): nat
    requires 0.0 < w && 0 < n
  {
    Day(t, w) % n
  }

  lemma HashBelow(t: real, w: real, n: nat)
    requires 0.0 < w && 0 < n
    ensures Hash(t, w, n) < n
  {
  }

  lemma Scale(a: real, b: real, w: real)
    requires 0.0 < w
    ensures a < b <==> a * w < b * w
    ensures a <= b <==> a * w <= b * w
  {
  }

  lemma DayBounds(t: real, w: real)
    requires 0.0 < w
    ensures Day(t, w) as real * w <= t < (Day(t, w) as real + 1.0) * w
  {
    var d, q := Day(t, w) as real, t / w;
    var r := d + 1.0;
    assert d <= q < r;
    Scale(d, q, w);
    Scale(q, r, w);
    assert q * w == t;
    assert t < r * w;
  }

  lemma Apart(a: real, b: real, c: real, t: real, w: real)
    requires 0.0 < w && a * w <= c <= t < b * w
    ensures a < b
  {
    Scale(a, b, w);
  }

  lemma Reach(a: real, d: real, m: real, c: real, t: real, w: real)
    requires 0.0 < w && a * w <= t && c < d * w && t - c < m * w
    ensures a < d + m
  {
    assert (d + m) * w == d * w + m * w;
    Scale(a, d + m, w);
  }

  lemma Span(a: real, d: real, k: real, c: real, t: real, w: real)
    requires 0.0 < w && t < a * w && d * w <= c && a <= d + k
    ensures t - c < k * w
  {
    assert (d + k) * w == d * w + k * w;
    Scale(a, d + k, w);
  }

  lemma LaterDay(t: real, c: real, w: real)
    requires 0.0 < w && c <= t
    ensures Day(c, w) <= Day(t, w)
  {
    DayBounds(t, w);
    DayBounds(c, w);
    Apart(Day(c, w) as real, Day(t, w) as real + 1.0, c, t, w);
  }

  /** Less than `m` widths after `c` is less than `m + 1` days after the day of `c`. */
  lemma DayWithin(t: real, c: real, w: real, m: real)
    requires 0.0 < w && t - c < m * w
    ensures Day(t, w) as real < Day(c, w) as real + 1.0 + m
  {
    DayBounds(t, w);
    DayBounds(c, w);
    Reach(Day(t, w) as real, Day(c, w) as real + 1.0, m, c, t, w);
  }

  /** At most `j` days after the day of `c` is less than `j + 1` widths after `c`. */
  lemma WithinDays(t: real, c: real, w: real, j: nat)
    requires 0.0 < w && Day(t, w) <= Day(c, w) + j
    ensures t - c < (j + 1) as real * w
  {
    DayBounds(t, w);
    DayBounds(c, w);
    Span(Day(t, w) as real + 1.0, Day(c, w) as real, (j + 1) as real, c, t, w);
  }

  /** Bucket `last + j`, going round the calendar. */
  function Wrap(last: nat, j: nat, n: nat): nat
    requires last < n && j < n
  {
    if last + j < n then last + j else last + j - n
  }

  lemma WrapIsHash(d: int, j: nat, n: nat)
    requires 0 < n && j < n
    ensures Wrap(d % n, j, n) == (d + j) % n
  {
    var x, q := Wrap(d % n, j, n), d / n;
    if d % n + j < n {
      assert d + j == n * q + x;
      Remainder(n, q, x);
    } else {
      assert d + j == n * (q + 1) + x;
      Remainder(n, q + 1, x);
    }
  }

  // ---------- The index of the source ----------

  /** `fmod`, whose result has the sign of `x`. */
  function Fmod(x: real, y: real): real
    requires 0.0 < y
  {
    if 0.0 <= x then x - y * (x / y).Floor as real else x + y * (-x / y).Floor as real
  }

  /** The conversion to `int`, toward zero. */
  function Trunc(x: real): int { if 0.0 <= x then x.Floor else -(-x).Floor }

  /** `CALENDAR_HASH` as it is written. */
  function Index(t: real, w: real, n: nat): int
    requires 0.0 < w && 0 < n
  {
    Trunc(Fmod(t / w, n as real))
  }

  lemma FloorShift(x: real, k: int)
    ensures (x - k as real).Floor == x.Floor - k
  {
  }

  lemma FloorWithin(x: real, m: int, n: nat)
    requires m as real <= x < m as real + n as real
    ensures m <= x.Floor < m + n
  {
    assert m as real + n as real == (m + n) as real;
    assert x.Floor as real <= x < x.Floor as real + 1.0;
  }

  lemma RealProduct(n: nat, q: int)
    ensures n as real * q as real == (n * q) as real
  {
  }

  lemma QuotientWithin(x: real, y: real)
    requires 0.0 < y
    ensures y * (x / y).Floor as real <= x < y * (x / y).Floor as real + y
  {
    DayBounds(x, y);
    var a := Day(x, y) as real;
    assert a * y == y * a && (a + 1.0) * y == y * a + y;
  }

  lemma FmodFloor(x: real, n: nat)
    requires 0.0 <= x && 0 < n
    ensures 0.0 <= Fmod(x, n as real) && Fmod(x, n as real).Floor == x.Floor % n
  {
    var q := (x / n as real).Floor;
    QuotientWithin(x, n as real);
    RealProduct(n, q);
    ShiftedFloor(x, n, q, n * q);
  }

  lemma ShiftedFloor(x: real, n: nat, q: int, m: int)
    requires 0 < n && m == n * q && m as real <= x < m as real + n as real
    ensures 0.0 <= x - m as real && (x - m as real).Floor == x.Floor % n
  {
    FloorShift(x, m);
    FloorWithin(x, m, n);
    Remainder(n, q, x.Floor - m);
  }

  /** From time 0 on the index is the bucket. */
  lemma IndexIsHash(t: real, w: real, n: nat)
    requires 0.0 <= t && 0.0 < w && 0 < n
    ensures Index(t, w, n) == Hash(t, w, n)
  {
    assert 0.0 <= t / w;
    FmodFloor(t / w, n);
  }

  /** Before it the index counts back from 0, and so lies outside the buckets unless it is 0. */
  lemma IndexBeforeZero(t: real, w: real, n: nat)
    requires t < 0.0 && 0.0 < w && 0 < n
    ensures Index(t, w, n) == -((-t / w).Floor % n)
    ensures Index(t, w, n) < 0 <==> (-t / w).Floor % n != 0
  {
    var x := -t / w;
    assert -(t / w) == x && 0.0 < x;
    FmodFloor(x, n);
    assert Fmod(t / w, n as real) == -Fmod(x, n as real);
  }

  // ---------- Buckets ----------

  function Elements(q: seq<Event>): set<Event> { set x | x in q }

  function Times(q: seq<Event>): (r: set<real>)
    ensures q == [] ==> |r| == 0
  {
    set x | x in q :: x.time
  }

  /** Every bucket is ordered, counts its distinct times, and holds exactly the events of `all` that hash to it. */
  ghost predicate Hashed(bs: seq<Bucket>, w: real, all: set<Event>) {
    && 0 < |bs| && 0.0 < w
    && (forall k :: 0 <= k < |bs| ==> Ordered(bs[k].list) && bs[k].count == |Times(bs[k].list)|)
    && (forall k, x :: 0 <= k < |bs| ==> (x in bs[k].list <==> x in all && Hash(x.time, w, |bs|) == k))
  }

  function Total(bs: seq<Bucket>): nat {
    if bs == [] then 0 else bs[0].count + Total(bs[1..])
  }

  lemma TotalUpdate(bs: seq<Bucket>, k: nat, b: Bucket)
    requires k < |bs|
    ensures Total(bs[k := b]) == Total(bs) - bs[k].count + b.count
  {
    if k == 0 {
      assert bs[k := b][1..] == bs[1..];
    } else {
      assert bs[k := b][1..] == bs[1..][k - 1 := b];
      TotalUpdate(bs[1..], k - 1, b);
    }
  }

  lemma TotalEmpty(bs: seq<Bucket>)
    requires forall k :: 0 <= k < |bs| ==> bs[k].count == 0
    ensures Total(bs) == 0
  {
  }

  lemma DistinctSize(q: seq<Event>)
    requires Ordered(q)
    ensures |Elements(q)| == |q|
  {
    if q != [] {
      DistinctSize(q[1..]);
      TailContents(q);
      assert Elements(q) == {q[0]} + Elements(q[1..]);
    }
  }

  /** In an ordered list an event shares its time with others exactly when it does so with a neighbour. */
  lemma NewTime(a: seq<Event>, b: seq<Event>, e: Event)
    requires Ordered(a + [e] + b)
    ensures e.time in Times(a + b) <==>
      (a != [] && a[|a| - 1].time == e.time) || (b != [] && b[0].time == e.time)
    ensures Times(a + [e] + b) == Times(a + b) + {e.time}
  {
    var q, r := a + [e] + b, a + b;
    assert q[|a|] == e;
    if a != [] { assert q[|a| - 1] == a[|a| - 1] && r[|a| - 1] == a[|a| - 1]; }
    if b != [] { assert q[|a| + 1] == b[0] && r[|a|] == b[0]; }
    assert forall i :: 0 <= i < |a| ==> q[i] == a[i] == r[i];
    assert forall i :: |a| < i < |q| ==> q[i] == b[i - |a| - 1] == r[i - 1];
    forall t ensures t in Times(q) <==> t in Times(r) + {e.time} {
      if t in Times(q) {
        var x :| x in q && x.time == t;
        assert x == e || x in r;
      }
      if t in Times(r) {
        var x :| x in r && x.time == t;
        assert x in q;
      }
      assert e in q;
    }
    if e.time in Times(r) {
      var x :| x in r && x.time == e.time;
      var i :| 0 <= i < |r| && r[i] == x;
      if i < |a| {
        assert q[i] == x && Before(q[|a| - 1], q[|a|]);
        assert i < |a| - 1 ==> Before(q[i], q[|a| - 1]);
      } else {
        assert q[i + 1] == x && Before(q[|a|], q[|a| + 1]);
        assert |a| < i ==> Before(q[|a| + 1], q[i + 1]);
      }
    }
    if a != [] && a[|a| - 1].time == e.time { assert a[|a| - 1] in r; }
    if b != [] && b[0].time == e.time { assert b[0] in r; }
  }

  lemma AllAtOnce(q: seq<Event>)
    requires Ordered(q) && q != [] && q[0].time == q[|q| - 1].time
    ensures |Times(q)| == 1
  {
    assert q[0] in q;
    assert Times(q) == {q[0].time};
  }

  lemma OneTime(q: seq<Event>)
    requires Ordered(q) && 1 < |Times(q)|
    ensures q != [] && q[0].time < q[|q| - 1].time
  {
    if q != [] && q[0].time == q[|q| - 1].time {
      AllAtOnce(q);
    }
  }

  /** `f` is the first of the fullest buckets. */
  predicate Fullest(bs: seq<Bucket>, f: nat) {
    && f < |bs|
    && forall j :: 0 <= j < |bs| ==> if j < f then bs[j].count < bs[f].count else bs[j].count <= bs[f].count
  }

  /** `w` holds four times the time bucket `b` spans, shared among its times but among no more than `n` of them. */
  predicate FourGaps(b: Bucket, n: nat, w: real) {
    && b.list != []
    && w * (if n < b.count then n else b.count) as real == (b.list[|b.list| - 1].time - b.list[0].time) * 4.0
  }

  /** The width sampled from the fullest bucket: unchanged where it has too few times to sample. */
  ghost predicate Sampled(bs: seq<Bucket>, n: nat, was: real, w: real) {
    exists f: nat :: Fullest(bs, f) && if bs[f].count <= 4 then w == was else FourGaps(bs[f], n, w)
  }

  lemma ShareOut(span: real, n: nat)
    requires 0 < n && 0.0 < span
    ensures span / n as real * 4.0 * n as real == span * 4.0 && 0.0 < span / n as real * 4.0
  {
    var g := span / n as real;
    assert g * n as real == span;
    assert 0.0 < g;
    assert g * 4.0 * n as real == g * n as real * 4.0;
  }

  /** No neighbour of position `k` of `l` has time `t`. */
  predicate NewAt(l: seq<Event>, k: nat, t: real)
    requires k <= |l|
  {
    (k == 0 || l[k - 1].time != t) && (k == |l| || l[k].time != t)
  }

  lemma Joined(l: seq<Event>, k: nat, e: Event)
    requires k <= |l| && Ordered(l[..k] + [e] + l[k..])
    ensures forall x :: x in l[..k] + [e] + l[k..] <==> x == e || x in l
    ensures |Times(l[..k] + [e] + l[k..])| == |Times(l)| + if NewAt(l, k, e.time) then 1 else 0
  {
    NewTime(l[..k], l[k..], e);
    assert l[..k] + l[k..] == l;
    assert e.time in Times(l) ==> Times(l) + {e.time} == Times(l);
  }

  /** `e` precedes its equals and follows the earlier events when it goes in at `k`. */
  lemma PlacedFirst(l: seq<Event>, k: nat, e: Event)
    requires Ordered(l) && k <= |l|
    requires forall i :: 0 <= i < k ==> l[i].time < e.time
    requires k < |l| ==> e.time <= l[k].time
    requires forall x :: x in l && x.time == e.time ==> e.uid < x.uid
    ensures Ordered(l[..k] + [e] + l[k..])
  {
    forall i | k <= i < |l| ensures Before(e, l[i]) {
      assert i == k || Before(l[k], l[i]);
      assert l[i] in l;
    }
  }

  lemma PlacedLast(l: seq<Event>, k: nat, e: Event)
    requires Ordered(l) && Newest(e, l) && k <= |l|
    requires 0 < k ==> l[k - 1].time <= e.time
    requires k < |l| ==> e.time < l[k].time
    ensures Ordered(l[..k] + [e] + l[k..])
  {
    forall i | 0 <= i < k ensures Before(l[i], e) {
      assert i == k - 1 || Before(l[i], l[k - 1]);
      assert l[i] in l;
    }
    forall i | k <= i < |l| ensures Before(e, l[i]) {
      assert i == k || Before(l[k], l[i]);
    }
  }

  /** The next event to restore is new, and precedes every restored event at its time. */
  lemma NextRestored(l: seq<Event>, j: nat, done: set<Event>, all: set<Event>)
    requires Ordered(l) && j < |l| && all == done + Elements(l[j + 1..])
    requires forall x, y :: x in done && y in l ==> x.time != y.time
    ensures l[j] !in all && forall x :: x in all && x.time == l[j].time ==> l[j].uid < x.uid
    ensures all + {l[j]} == done + Elements(l[j..])
  {
    assert l[j] in l && l[j..] == [l[j]] + l[j + 1..];
    assert forall x :: x in l[j + 1..] ==> Before(l[j], x);
  }

  lemma Inserted(model: seq<Event>, e: Event)
    requires Ordered(model) && Newest(e, model)
    ensures Ordered(Insert(model, e)) && Elements(Insert(model, e)) == Elements(model) + {e}
    ensures forall x :: x in Insert(model, e) ==> x == e || x in model
  {
    InsertOrdered(model, e);
    InsertContents(model, e);
  }

  lemma Removed(model: seq<Event>, e: Event)
    requires Ordered(model) && e in model
    ensures Ordered(Remove(model, e)) && Elements(Remove(model, e)) == Elements(model) - {e}
    ensures forall x :: x in Remove(model, e) ==> x in model
    ensures e == model[0] ==> Remove(model, e) == model[1..]
  {
    RemoveContents(model, e);
  }

  lemma CircularNeighbours(l: seq<Event>, k: nat)
    requires Ordered(l) && k < |l|
    ensures
      var next := if k + 1 < |l| then l[k + 1] else l[0];
      var prev := if k == 0 then l[|l| - 1] else l[k - 1];
      (|l| == 1 || (next.time != l[k].time && prev.time != l[k].time)) <==>
      NewAt(l[..k] + l[k + 1..], k, l[k].time)
  {
    assert 0 < k ==> Before(l[k - 1], l[k]);
    assert 1 < k ==> Before(l[0], l[k - 1]);
    assert k + 1 < |l| ==> Before(l[k], l[k + 1]);
    assert k + 2 < |l| ==> Before(l[k + 1], l[|l| - 1]);
  }

  lemma HeadIsFront(bs: seq<Bucket>, w: real, model: seq<Event>)
    requires Hashed(bs, w, Elements(model)) && Ordered(model) && model != []
    ensures var l := bs[Hash(model[0].time, w, |bs|)].list; l != [] && l[0] == model[0]
  {
    var k := Hash(model[0].time, w, |bs|);
    assert model[0] in Elements(model);
    assert model[0] in bs[k].list;
    var f := bs[k].list[0];
    assert f in bs[k].list;
    assert f in model;
  }

  lemma PartedContents(l: seq<Event>, k: nat)
    requires Ordered(l) && k < |l|
    ensures var list := l[..k] + l[k + 1..];
      Ordered(list) && forall x :: x in list <==> x != l[k] && x in l
  {
    var list := l[..k] + l[k + 1..];
    forall x ensures x in list <==> x != l[k] && x in l {
      if x in l && x != l[k] {
        var i :| 0 <= i < |l| && l[i] == x;
        assert x == if i < k then list[i] else list[i - 1];
      }
    }
  }

  lemma Parted(l: seq<Event>, k: nat)
    requires Ordered(l) && k < |l|
    ensures var list := l[..k] + l[k + 1..];
      |Times(l)| == |Times(list)| + if NewAt(list, k, l[k].time) then 1 else 0
  {
    var list := l[..k] + l[k + 1..];
    assert list[..k] == l[..k] && list[k..] == l[k + 1..];
    assert list[..k] + [l[k]] + list[k..] == l;
    Joined(list, k, l[k]);
  }

  /** Putting `e` into the list of its bucket keeps the hashing, for one more event. */
  lemma HashedInsert(bs: seq<Bucket>, w: real, all: set<Event>, e: Event, list: seq<Event>)
    requires Hashed(bs, w, all)
    requires Ordered(list)
    requires forall x :: x in list <==> x == e || x in bs[Hash(e.time, w, |bs|)].list
    ensures Hashed(bs[Hash(e.time, w, |bs|) := Bucket(list, |Times(list)|)], w, all + {e})
  {
  }

  lemma HashedRemove(bs: seq<Bucket>, w: real, all: set<Event>, e: Event, list: seq<Event>)
    requires Hashed(bs, w, all)
    requires Ordered(list)
    requires forall x :: x in list <==> x != e && x in bs[Hash(e.time, w, |bs|)].list
    ensures Hashed(bs[Hash(e.time, w, |bs|) := Bucket(list, |Times(list)|)], w, all - {e})
  {
  }

  lemma LinkEffect(bs: seq<Bucket>, w: real, all: set<Event>, e: Event, k: nat)
    requires Hashed(bs, w, all) && k <= |bs[Hash(e.time, w, |bs|)].list|
    requires var l := bs[Hash(e.time, w, |bs|)].list; Ordered(l[..k] + [e] + l[k..])
    ensures
      var i := Hash(e.time, w, |bs|);
      var l := bs[i].list;
      var more := if NewAt(l, k, e.time) then 1 else 0;
      var bs' := bs[i := Bucket(l[..k] + [e] + l[k..], bs[i].count + more)];
      Hashed(bs', w, all + {e}) && Total(bs') == Total(bs) + more
  {
    var i := Hash(e.time, w, |bs|);
    var l := bs[i].list;
    Joined(l, k, e);
    HashedInsert(bs, w, all, e, l[..k] + [e] + l[k..]);
    TotalUpdate(bs, i, Bucket(l[..k] + [e] + l[k..], |Times(l[..k] + [e] + l[k..])|));
  }

  lemma UnlinkEffect(bs: seq<Bucket>, w: real, all: set<Event>, e: Event, k: nat)
    requires Hashed(bs, w, all) && k < |bs[Hash(e.time, w, |bs|)].list|
    requires bs[Hash(e.time, w, |bs|)].list[k] == e
    ensures
      var i := Hash(e.time, w, |bs|);
      var list := bs[i].list[..k] + bs[i].list[k + 1..];
      var less := if NewAt(list, k, e.time) then 1 else 0;
      && less <= bs[i].count
      && var bs' := bs[i := Bucket(list, bs[i].count - less)];
         Hashed(bs', w, all - {e}) && Total(bs') == Total(bs) - less
  {
    var i := Hash(e.time, w, |bs|);
    var l := bs[i].list;
    var list := l[..k] + l[k + 1..];
    PartedContents(l, k);
    Parted(l, k);
    HashedRemove(bs, w, all, e, list);
    TotalUpdate(bs, i, Bucket(list, |Times(list)|));
  }

  /** The head of the queue is whatever bucket head has the least time. */
  lemma LeastIsHead(bs: seq<Bucket>, w: real, model: seq<Event>, k: nat)
    requires Hashed(bs, w, Elements(model)) && Ordered(model)
    requires k < |bs| && bs[k].list != []
    requires forall x :: x in model ==> bs[k].list[0].time <= x.time
    ensures model != [] && bs[k].list[0] == model[0]
  {
    var e := bs[k].list[0];
    assert e in bs[k].list;
    assert e in model;
    assert model[0] in model;
    assert model[0].time == e.time;
    assert model[0] in Elements(model);
    assert model[0] in bs[k].list;
  }

  // ---------- The search for the head ----------

  /** `diff0_`, `diff1_` and `diff2_`: how far ahead a hit in the `j`-th probed bucket may lie. */
  function Window(j: nat, w: real, n: nat): real {
    if j == 0 then n as real / 2.0 * w else if j == 1 then (n as real / 2.0 + 1.0) * w else n as real * w
  }

  /** `head()` has probed `k` buckets from `last` on without a hit, and remembers the earliest head seen. */
  ghost predicate Probed(bs: seq<Bucket>, w: real, clock: real, last: nat, k: nat, min: Option<Event>, at: nat) {
    && last < |bs| && k <= |bs| && at < |bs|
    && (forall j :: 0 <= j < k && bs[Wrap(last, j, |bs|)].list != [] ==>
         var e := bs[Wrap(last, j, |bs|)].list[0];
         Window(j, w, |bs|) <= e.time - clock && min.Some? && min.value.time <= e.time)
    && (min.Some? ==> bs[at].list != [] && bs[at].list[0] == min.value)
  }

  /** A probe without a hit, as `CAL_DEQUEUE` updates its minimum. */
  lemma ProbedNext(bs: seq<Bucket>, w: real, clock: real, last: nat, k: nat, m: Option<Event>, a: nat,
                   min: Option<Event>, at: nat)
    requires k < |bs| && Probed(bs, w, clock, last, k, m, a)
    requires var i := Wrap(last, k, |bs|); var l := bs[i].list;
      if l == [] then min == m && at == a
      else Window(k, w, |bs|) <= l[0].time - clock &&
           if m == None || l[0].time < m.value.time then min == Some(l[0]) && at == i else min == m && at == a
    ensures Probed(bs, w, clock, last, k + 1, min, at)
  {
  }

  lemma WindowCovers(j: nat, w: real, n: nat)
    requires 4 <= n && 0.0 < w && j <= n - 2
    ensures (j + 1) as real * w <= Window(j, w, n)
  {
    if j == 0 { Scale(1.0, n as real / 2.0, w); }
    if j == 1 { Scale(2.0, n as real / 2.0 + 1.0, w); }
    if j > 1 { Scale((j + 1) as real, n as real, w); }
  }

  /** A head inside the window of its probe lies in the very next day of its bucket. */
  lemma HitDay(t: real, clock: real, w: real, k: nat, n: nat)
    requires 4 <= n && 0.0 < w && clock <= t && k <= n - 2
    requires Hash(t, w, n) == Wrap(Hash(clock, w, n), k, n)
    requires t - clock < Window(k, w, n)
    ensures Day(t, w) == Day(clock, w) + k
  {
    WrapIsHash(Day(clock, w), k, n);
    LaterDay(t, clock, w);
    var m := if k == 0 then n as real / 2.0 else if k == 1 then n as real / 2.0 + 1.0 else n as real;
    DayWithin(t, clock, w, m);
    SameResidue(Day(t, w), Day(clock, w) + k, n);
  }

  /** The first hit is the earliest event. */
  lemma HitIsLeast(bs: seq<Bucket>, w: real, all: set<Event>, clock: real, k: nat,
                   min: Option<Event>, at: nat, x: Event)
    requires 4 <= |bs| && Hashed(bs, w, all)
    requires forall y :: y in all ==> clock <= y.time
    requires Probed(bs, w, clock, Hash(clock, w, |bs|), k, min, at) && k <= |bs| - 2
    requires bs[Wrap(Hash(clock, w, |bs|), k, |bs|)].list != []
    requires bs[Wrap(Hash(clock, w, |bs|), k, |bs|)].list[0].time - clock < Window(k, w, |bs|)
    requires x in all
    ensures bs[Wrap(Hash(clock, w, |bs|), k, |bs|)].list[0].time <= x.time
  {
    var n, last := |bs|, Hash(clock, w, |bs|);
    var l := bs[Wrap(last, k, n)].list;
    assert l[0] in l;
    HitDay(l[0].time, clock, w, k, n);
    if x.time < l[0].time {
      LaterDay(x.time, clock, w);
      LaterDay(l[0].time, x.time, w);
      var j := Day(x.time, w) - Day(clock, w);
      WrapIsHash(Day(clock, w), j, n);
      var b := bs[Wrap(last, j, n)].list;
      assert x in b;
      if j < k {
        assert b[0] in b;
        LaterDay(x.time, b[0].time, w);
        WithinDays(b[0].time, clock, w, j);
        WindowCovers(j, w, n);
        assert false;
      }
    }
  }

  /** With no hit, the earliest of all bucket heads is the earliest event. */
  lemma NoHitIsLeast(bs: seq<Bucket>, w: real, all: set<Event>, clock: real, last: nat,
                     min: Option<Event>, at: nat, x: Event)
    requires 4 <= |bs| && Hashed(bs, w, all) && last < |bs|
    requires Probed(bs, w, clock, last, |bs| - 1, min, at)
    requires x in all
    ensures var l := bs[Wrap(last, |bs| - 1, |bs|)].list;
      (min.Some? && min.value.time <= x.time) || (l != [] && l[0].time <= x.time)
  {
    var n := |bs|;
    var h := Hash(x.time, w, n);
    var j := if last <= h then h - last else h - last + n;
    assert Wrap(last, j, n) == h;
    assert x in bs[h].list;
  }

  // ---------- The queue ----------

  /** Where `insert` links a new event: searched from the tail, behind any events at the same time. */
  method LastPlace(l: seq<Event>, e: Event) returns (k: nat, unique: bool)
    requires Ordered(l) && Newest(e, l)
    ensures k <= |l| && Ordered(l[..k] + [e] + l[k..])
    ensures unique <==> NewAt(l, k, e.time)
  {
    k, unique := 0, true;
    if l != [] && !(e.time < l[0].time) {
      k := |l|;
      while e.time < l[k - 1].time
        invariant 0 < k <= |l|
        invariant k < |l| ==> e.time < l[k].time
        decreases k
      {
        k := k - 1;
      }
      unique := l[k - 1].time < e.time;
    }
    PlacedLast(l, k, e);
  }

  /**
   What the statistics of the run decide, left open: the average gap between
   dequeued events (not positive while unknown) and, if this call retunes the
   calendar, the width that the square-root rule yields.
   */
  datatype Tuning = Tuning(averageGap: real, retune: Option<real>) {
    predicate Sound() { retune.Some? ==> 0.0 < retune.value }
  }

  class Calendar {
    var buckets: array<Bucket>
    var width: real
    var qsize: int
    var statQsize: int
    var clock: real
    var lastBucket: nat
    ghost var model: seq<Event>

    /** The calendar holds the events `all`, and its counters say so. */
    ghost predicate Stores(all: set<Event>)
      reads this, buckets
    {
      && Hashed(buckets[..], width, all)
      && qsize == |all|
      && statQsize == Total(buckets[..])
    }

    ghost predicate Valid()
      reads this, buckets
    {
      && 4 <= buckets.Length
      && Stores(Elements(model))
      && Ordered(model)
      && lastBucket == Hash(clock, width, buckets.Length)
      && forall e :: e in model ==> clock <= e.time
    }

    constructor (start: real)
      ensures Valid() && fresh(buckets) && model == []
    {
      buckets := new Bucket[4](_ => Bucket([], 0));
      width, clock := 1.0, start;
      qsize, statQsize := 0, 0;
      lastBucket := Hash(start, 1.0, 4);
      model := [];
      new;
      TotalEmpty(buckets[..]);
    }

    /** `reinit`: a fresh, empty calendar. */
    method Reinit(n: nat, w: real)
      requires 4 <= n && 0.0 < w
      modifies this
      ensures fresh(buckets) && buckets.Length == n && width == w
      ensures Stores({})
      ensures clock == old(clock) && model == old(model) && lastBucket == Hash(clock, w, n)
    {
      buckets := new Bucket[n](_ => Bucket([], 0));
      width := w;
      qsize, statQsize := 0, 0;
      lastBucket := Hash(clock, width, n);
      TotalEmpty(buckets[..]);
    }

    /** The list that `e` belongs to. */
    function ListOf(e: Event): seq<Event>
      reads this, buckets
      requires 0 < buckets.Length && 0.0 < width
    {
      buckets[Hash(e.time, width, buckets.Length)].list
    }

    /** Links `e` in front of position `k` of its bucket; `unique` says whether its time is new there. */
    method Link(e: Event, k: nat, unique: bool, ghost all: set<Event>)
      requires 0 < buckets.Length && Stores(all) && e !in all
      requires k <= |ListOf(e)| && Ordered(ListOf(e)[..k] + [e] + ListOf(e)[k..])
      requires unique <==> NewAt(ListOf(e), k, e.time)
      modifies this`qsize, this`statQsize, buckets
      ensures Stores(all + {e})
    {
      assert 0.0 < width;
      hide Hashed, Total, Ordered, NewAt, Hash;
      var i := Hash(e.time, width, buckets.Length);
      assert i < buckets.Length by { HashBelow(e.time, width, buckets.Length); }
      LinkEffect(buckets[..], width, all, e, k);
      var l := buckets[i].list;
      Put(i, Bucket(l[..k] + [e] + l[k..], buckets[i].count + if unique then 1 else 0));
      if unique { statQsize := statQsize + 1; }
      qsize := qsize + 1;
    }

    /** Unlinks the event at position `k` of its bucket; `unique` says whether its time goes with it. */
    method Unlink(e: Event, k: nat, unique: bool, ghost all: set<Event>)
      requires 0 < buckets.Length && Stores(all) && e in all
      requires k < |ListOf(e)| && ListOf(e)[k] == e
      requires unique <==> NewAt(ListOf(e)[..k] + ListOf(e)[k + 1..], k, e.time)
      modifies this`qsize, this`statQsize, buckets
      ensures Stores(all - {e})
    {
      assert 0.0 < width;
      hide Hashed, Total, Ordered, NewAt, Hash;
      var i := Hash(e.time, width, buckets.Length);
      assert i < buckets.Length by { HashBelow(e.time, width, buckets.Length); }
      UnlinkEffect(buckets[..], width, all, e, k);
      var l := buckets[i].list;
      Put(i, Bucket(l[..k] + l[k + 1..], buckets[i].count - if unique then 1 else 0));
      if unique { statQsize := statQsize - 1; }
      qsize := qsize - 1;
    }

    method Put(i: nat, b: Bucket)
      requires i < buckets.Length
      modifies buckets
      ensures buckets[..] == old(buckets[..])[i := b]
    {
      buckets[i] := b;
    }

    /** `insert2`: in front of any events at the same time. */
    method Restore(e: Event, ghost all: set<Event>)
      requires 0 < buckets.Length && Stores(all) && e !in all
      requires forall x :: x in all && x.time == e.time ==> e.uid < x.uid
      modifies this`qsize, this`statQsize, buckets
      ensures Stores(all + {e})
    {
      var l := ListOf(e);
      if l == [] {
        Link(e, 0, true, all);
        return;
      }
      var k := 0;
      if l[|l| - 1].time < e.time {
        k := |l|;
      } else {
        while l[k].time < e.time
          invariant 0 <= k < |l|
          invariant forall i :: 0 <= i < k ==> l[i].time < e.time
          decreases |l| - k
        {
          k := k + 1;
        }
      }
      assert forall x :: x in l ==> x in all;
      PlacedFirst(l, k, e);
      var next := if k < |l| then l[k] else l[0];
      Link(e, k, next.time != e.time, all);
    }

    /** One old bucket, restored from its tail to its head. */
    method RestoreBucket(l: seq<Event>, ghost done: set<Event>)
      requires 0 < buckets.Length && Stores(done) && Ordered(l)
      requires forall x, y :: x in done && y in l ==> x.time != y.time
      modifies this`qsize, this`statQsize, buckets
      ensures Stores(done + Elements(l))
    {
      var j := |l|;
      ghost var all := done;
      while 0 < j
        invariant 0 <= j <= |l|
        invariant all == done + Elements(l[j..])
        invariant Stores(all)
      {
        j := j - 1;
        NextRestored(l, j, done, all);
        Restore(l[j], all);
        all := all + {l[j]};
      }
      assert l[0..] == l;
    }

    method FullestBucket() returns (f: nat)
      requires 0 < buckets.Length
      ensures Fullest(buckets[..], f)
    {
      f := 0;
      for i := 1 to buckets.Length
        invariant f < i && Fullest(buckets[..i], f)
      {
        if buckets[f].count < buckets[i].count { f := i; }
      }
      assert buckets[..buckets.Length] == buckets[..];
    }

    /** `newwidth`: four average gaps, or four sample gaps of the fullest bucket. */
    method NewWidth(newSize: nat, averageGap: real) returns (w: real)
      requires 0 < newSize && 0 < buckets.Length && Hashed(buckets[..], width, Elements(model))
      ensures 0.0 < w
      ensures if 0.0 < averageGap then w == averageGap * 4.0 else Sampled(buckets[..], newSize, width, w)
    {
      hide Times, Ordered;
      if 0.0 < averageGap { return averageGap * 4.0; }
      var fullest := FullestBucket();
      ghost var bs := buckets[..];
      var b := buckets[fullest];
      if b.count <= 4 { return width; }
      OneTime(b.list);
      var span := b.list[|b.list| - 1].time - b.list[0].time;
      var samples := if newSize < b.count then newSize else b.count;
      w := span / samples as real * 4.0;
      ShareOut(span, samples);
      assert FourGaps(bs[fullest], newSize, w);
    }

    /** `resize`: every event goes into a new calendar, each old bucket from its tail to its head. */
    method Resize(size: nat, tuning: Tuning)
      requires Valid() && 0 < size && tuning.Sound()
      modifies this
      ensures Valid() && fresh(buckets) && model == old(model) && clock == old(clock)
      ensures buckets.Length == (if size < 4 then 4 else size)
    {
      hide Sampled;
      var w, n := 1.0, size;
      if size == buckets.Length && tuning.retune.Some? {
        w := tuning.retune.value;
      } else {
        w := NewWidth(size, tuning.averageGap);
        if n < 4 { n := 4; }
      }
      ghost var all := Elements(model);
      ghost var oldWidth := width;
      var before := buckets[..];
      ghost var done: set<Event> := {};
      Reinit(n, w);
      var i := 0;
      while i < |before|
        invariant 0 <= i <= |before| && fresh(buckets) && buckets.Length == n && width == w
        invariant clock == old(clock) && model == old(model) && lastBucket == Hash(clock, width, n)
        invariant Stores(done)
        invariant forall x :: x in done <==> x in all && Hash(x.time, oldWidth, |before|) < i
      {
        var l := before[i].list;
        forall x, y | x in done && y in l ensures x.time != y.time {
          assert Hash(y.time, oldWidth, |before|) == i;
        }
        RestoreBucket(l, done);
        done := done + Elements(l);
        i := i + 1;
      }
      assert done == all;
    }
  
    /** The list handling of `insert`. */
    method LinkLast(e: Event, ghost all: set<Event>)
      requires 0 < buckets.Length && Stores(all)
      requires forall x :: x in all ==> x.uid < e.uid
      modifies this`qsize, this`statQsize, buckets
      ensures Stores(all + {e})
    {
      var l := ListOf(e);
      assert forall x :: x in l ==> x in all;
      var k, unique := LastPlace(l, e);
      Link(e, k, unique, all);
    }

    /** An event before the clock takes the clock back with it. */
    method WindBack(t: real)
      requires 0 < buckets.Length && 0.0 < width && lastBucket == Hash(clock, width, buckets.Length)
      modifies this`clock, this`lastBucket
      ensures lastBucket == Hash(clock, width, buckets.Length)
      ensures clock == if t < old(clock) then t else old(clock)
    {
      if t < clock {
        clock := t;
        lastBucket := Hash(clock, width, buckets.Length);
      }
    }

    /** `insert` up to the resizing. */
    method Enter(e: Event)
      requires Valid() && Newest(e, model)
      modifies this, buckets
      ensures Valid() && buckets == old(buckets)
      ensures model == Insert(old(model), e)
    {
      WindBack(e.time);
      LinkLast(e, Elements(model));
      Inserted(model, e);
      model := Insert(model, e);
    }

    /** `insert`; the calendar doubles when it gets crowded. */
    method Add(e: Event, tuning: Tuning)
      requires Valid() && Newest(e, model) && tuning.Sound()
      modifies this, buckets
      ensures Valid() && (buckets == old(buckets) || fresh(buckets))
      ensures model == Insert(old(model), e)
    {
      Enter(e);
      if 2 * buckets.Length < statQsize {
        Resize(2 * buckets.Length, tuning);
      }
    }

    /** One `CAL_DEQUEUE`: stop on a head inside the window, else remember the earliest head seen. */
    method Probe(i: nat, window: real, min: Option<Event>, at: nat) returns (hit: bool, min': Option<Event>, at': nat)
      requires i < buckets.Length
      ensures hit <==> buckets[i].list != [] && buckets[i].list[0].time - clock < window
      ensures hit ==> at' == i
      ensures !hit && buckets[i].list == [] ==> min' == min && at' == at
      ensures !hit && buckets[i].list != [] ==>
        if min == None || buckets[i].list[0].time < min.value.time
        then min' == Some(buckets[i].list[0]) && at' == i else min' == min && at' == at
    {
      hit, min', at' := false, min, at;
      if buckets[i].list != [] {
        var e := buckets[i].list[0];
        if e.time - clock < window { return true, min, i; }
        if min == None || e.time < min.value.time { min', at' := Some(e), i; }
      }
    }

    /** The probes of `head()`, ended by a hit or with one bucket left unprobed. */
    method Scan() returns (hit: bool, k: nat, min: Option<Event>, at: nat, ghost m: Option<Event>, ghost a: nat)
      requires 4 <= buckets.Length && lastBucket < buckets.Length
      ensures k <= buckets.Length - 2
      ensures hit ==>
        && at == Wrap(lastBucket, k, buckets.Length)
        && Probed(buckets[..], width, clock, lastBucket, k, m, a)
        && buckets[at].list != [] && buckets[at].list[0].time - clock < Window(k, width, buckets.Length)
      ensures !hit ==> Probed(buckets[..], width, clock, lastBucket, buckets.Length - 1, min, at)
    {
      var n := buckets.Length;
      k, m, a := 0, None, 0;
      hit, min, at := Probe(lastBucket, Window(0, width, n), None, 0);
      if !hit { ProbedNext(buckets[..], width, clock, lastBucket, k, m, a, min, at); }
      while !hit && k < n - 2
        invariant 0 <= k <= n - 2
        invariant hit ==> at == Wrap(lastBucket, k, n) && buckets[at].list != []
        invariant hit ==> buckets[at].list[0].time - clock < Window(k, width, n)
        invariant hit ==> Probed(buckets[..], width, clock, lastBucket, k, m, a)
        invariant !hit ==> Probed(buckets[..], width, clock, lastBucket, k + 1, min, at)
        decreases n - k, hit
      {
        m, a, k := min, at, k + 1;
        hit, min, at := Probe(Wrap(lastBucket, k, n), Window(k, width, n), min, at);
        if !hit { ProbedNext(buckets[..], width, clock, lastBucket, k, m, a, min, at); }
      }
    }

    /** The search of `head()`: the bucket whose head is the earliest event. */
    method Search() returns (l: nat)
      requires Valid() && model != []
      ensures l < buckets.Length && buckets[l].list != []
      ensures forall x :: x in model ==> buckets[l].list[0].time <= x.time
    {
      var hit, k, min, at, m, a := Scan();
      if hit {
        forall x | x in model ensures buckets[at].list[0].time <= x.time {
          HitIsLeast(buckets[..], width, Elements(model), clock, k, m, a, x);
        }
        return at;
      }
      var z := if lastBucket == 0 then buckets.Length - 1 else lastBucket - 1;
      var last := buckets[z].list;
      forall x | x in model
        ensures (min.Some? && min.value.time <= x.time) || (last != [] && last[0].time <= x.time)
      {
        NoHitIsLeast(buckets[..], width, Elements(model), clock, lastBucket, min, at, x);
      }
      assert model[0] in model;
      if min.Some? && (last == [] || min.value.time < last[0].time) { return at; }
      return z;
    }

    /** `head()`: also moves the clock and the last bucket on to the head. */
    method Head() returns (e: Option<Event>)
      requires Valid()
      modifies this`clock, this`lastBucket
      ensures Valid() && e == First(model)
      ensures e.Some? ==> ListOf(e.value) != [] && ListOf(e.value)[0] == e.value
      ensures e.Some? ==> clock == e.value.time
    {
      if qsize == 0 {
        DistinctSize(model);
        return None;
      }
      assert model != [];
      var l := Search();
      LeastIsHead(buckets[..], width, model, l);
      var h := buckets[l].list[0];
      assert h in buckets[l].list;
      lastBucket, clock := l, h.time;
      return Some(h);
    }

    method Deque(tuning: Tuning) returns (e: Option<Event>)
      requires Valid() && tuning.Sound()
      modifies this, buckets
      ensures Valid() && (buckets == old(buckets) || fresh(buckets))
      ensures e == First(old(model)) && model == Rest(old(model))
    {
      e := Head();
      if e == None { return; }
      if tuning.retune.Some? { Resize(buckets.Length, tuning); }
      UnlinkHead(e.value);
      if statQsize < buckets.Length / 2 - 2 {
        Resize(buckets.Length / 2, tuning);
      }
    }

    /** The unlinking part of `deque()`; the head is at the front of the last bucket. */
    method UnlinkHead(h: Event)
      requires Valid() && First(model) == Some(h)
      modifies this, buckets
      ensures Valid() && buckets == old(buckets)
      ensures model == Rest(old(model))
    {
      var l := ListOf(h);
      HeadIsFront(buckets[..], width, model);
      Unlink(h, 0, |l| == 1 || l[1].time != h.time, Elements(model));
      Removed(model, h);
      model := model[1..];
    }

    /** The position the event's own links give it. */
    method Position(e: Event) returns (k: nat)
      requires 0 < buckets.Length && 0.0 < width && e in ListOf(e)
      ensures k < |ListOf(e)| && ListOf(e)[k] == e
    {
      k := 0;
      while ListOf(e)[k] != e
        invariant 0 <= k < |ListOf(e)| && e in ListOf(e)[k..]
        decreases |ListOf(e)| - k
      {
        k := k + 1;
      }
    }

    /** The list handling of `cancel`: a time is unique when it differs from both circular neighbours. */
    method UnlinkInPlace(e: Event, ghost all: set<Event>)
      requires 0 < buckets.Length && Stores(all) && e in all
      modifies this`qsize, this`statQsize, buckets
      ensures Stores(all - {e})
    {
      var l := ListOf(e);
      var k := Position(e);
      var next := if k + 1 < |l| then l[k + 1] else l[0];
      var prev := if k == 0 then l[|l| - 1] else l[k - 1];
      CircularNeighbours(l, k);
      Unlink(e, k, |l| == 1 || (next.time != e.time && prev.time != e.time), all);
    }

    method Cancel(e: Event)
      requires Valid() && e in model
      modifies this, buckets
      ensures Valid() && buckets == old(buckets)
      ensures model == Remove(old(model), e)
    {
      UnlinkInPlace(e, Elements(model));
      Removed(model, e);
      model := Remove(model, e);
    }
  }
}
