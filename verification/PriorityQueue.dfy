/** The bounded priority queue: what each critical section does to its state. */
module PriorityQueue {
  import opened Options

  datatype Entry<+T> = Entry(priority: int, item: T)

  // ---------------------------------------------------------------- the ordered multimap

  /** Places an entry behind those of equal or higher priority. */
  function Insert<T>(q: seq<Entry<T>>, e: Entry<T>): seq<Entry<T>> {
    if q == [] || q[0].priority < e.priority then [e] + q
    else [q[0]] + Insert(q[1..], e)
  }

  ghost predicate Descending<T>(q: seq<Entry<T>>) {
    forall i, j | 0 <= i < j < |q| :: q[i].priority >= q[j].priority
  }

  /** The entries of one priority, in order. */
  function Band<T>(q: seq<Entry<T>>, p: int): seq<Entry<T>> {
    if q == [] then []
    else if q[0].priority == p then [q[0]] + Band(q[1..], p)
    else Band(q[1..], p)
  }

  lemma {:induction false} InsertStaysBelow<T>(q: seq<Entry<T>>, e: Entry<T>, top: int)
    requires e.priority <= top && forall i | 0 <= i < |q| :: q[i].priority <= top
    ensures forall i | 0 <= i < |Insert(q, e)| :: Insert(q, e)[i].priority <= top
  {
    if q != [] && q[0].priority >= e.priority {
      InsertStaysBelow(q[1..], e, top);
    }
  }

  lemma {:induction false} InsertKeepsDescending<T>(q: seq<Entry<T>>, e: Entry<T>)
    requires Descending(q)
    ensures Descending(Insert(q, e))
    ensures |Insert(q, e)| == |q| + 1
  {
    if q != [] && q[0].priority >= e.priority {
      InsertKeepsDescending(q[1..], e);
      InsertStaysBelow(q[1..], e, q[0].priority);
    }
  }

  lemma {:induction false} BandConcat<T>(a: seq<Entry<T>>, b: seq<Entry<T>>, p: int)
    ensures Band(a + b, p) == Band(a, p) + Band(b, p)
  {
    if a == [] {
      assert a + b == b;
    } else {
      assert (a + b)[1..] == a[1..] + b;
      BandConcat(a[1..], b, p);
    }
  }

  lemma {:induction false} BandAbsent<T>(q: seq<Entry<T>>, p: int)
    requires forall i | 0 <= i < |q| :: q[i].priority != p
    ensures Band(q, p) == []
  {
    if q != [] {
      BandAbsent(q[1..], p);
    }
  }

  /** Insertion appends to the entry's own band and leaves every other band alone. */
  lemma {:induction false} InsertAppendsToBand<T>(q: seq<Entry<T>>, e: Entry<T>, p: int)
    requires Descending(q)
    ensures Band(Insert(q, e), p) == Band(q, p) + Band([e], p)
  {
    if q == [] {
      assert Insert(q, e) == [e] + q && [e] + q == q + [e];
      BandConcat(q, [e], p);
    } else if q[0].priority < e.priority {
      BandConcat([e], q, p);
      if p == e.priority {
        BandAbsent(q, p);
      }
    } else {
      InsertAppendsToBand(q[1..], e, p);
      assert ([q[0]] + Insert(q[1..], e))[1..] == Insert(q[1..], e);
    }
  }

  lemma {:induction false} InsertAddsOne<T>(q: seq<Entry<T>>, e: Entry<T>)
    ensures multiset(Insert(q, e)) == multiset(q) + multiset{e}
  {
    if q != [] && q[0].priority >= e.priority {
      InsertAddsOne(q[1..], e);
      assert q == [q[0]] + q[1..];
    }
  }

  // ---------------------------------------------------------------- the critical sections

  datatype Queue<+T> = Queue(q: seq<Entry<T>>, done: bool, blocking: bool, dropped: nat)

  /** What became of a push: stored (perhaps in place of an evicted entry), dropped, or made to wait. */
  datatype Push<+T> = Stored(evicted: Option<Entry<T>>) | Rejected | MustWait

  datatype Pop<+T> = Popped(entry: Entry<T>) | Finished | MustWaitForItem

  /** The predicate a blocked pusher waits for. */
  predicate PushReady<T>(s: Queue<T>, capacity: nat) {
    |s.q| < capacity || s.done || !s.blocking
  }

  predicate PopReady<T>(s: Queue<T>) {
    s.q != [] || s.done
  }

  /** What a pusher does once its wait is over. */
  function CompletePush<T>(s: Queue<T>, capacity: nat, e: Entry<T>): (Queue<T>, Push<T>) {
    if |s.q| >= capacity then (s.(dropped := s.dropped + 1), Rejected)
    else (s.(q := Insert(s.q, e)), Stored(None))
  }

  /** A push from the moment it holds the lock until it returns or waits. */
  function EnterPush<T>(s: Queue<T>, capacity: nat, e: Entry<T>): (Queue<T>, Push<T>)
    requires capacity >= 1
  {
    if |s.q| < capacity then (s.(q := Insert(s.q, e)), Stored(None))
    else if !s.blocking then
      var lowest := s.q[|s.q| - 1];
      if e.priority > lowest.priority then
        (s.(q := Insert(s.q[..|s.q| - 1], e), dropped := s.dropped + 1), Stored(Some(lowest)))
      else
        (s.(dropped := s.dropped + 1), Rejected)
    else if PushReady(s, capacity) then CompletePush(s, capacity, e)
    else (s, MustWait)
  }

  function EnterPop<T>(s: Queue<T>): (Queue<T>, Pop<T>) {
    if !PopReady(s) then (s, MustWaitForItem)
    else if s.q == [] then (s, Finished)
    else (s.(q := s.q[1..]), Popped(s.q[0]))
  }

  /** A call on a condition variable. */
  datatype Notice = ToOne | ToAll

  class ThreadSafeQueue<T> {
    const maxCapacity: nat
    var q: seq<Entry<T>>
    var done: bool
    var blocking: bool
    var droppedCount: nat
    /** The calls made so far on the variables that poppers and pushers wait on. */
    var popperNotices: seq<Notice>
    var pusherNotices: seq<Notice>

    ghost function View(): Queue<T>
      reads this
    {
      Queue(q, done, blocking, droppedCount)
    }

    constructor (capacity: nat)
      ensures View() == Queue([], false, false, 0) && maxCapacity == capacity
      ensures popperNotices == [] && pusherNotices == []
    {
      maxCapacity := capacity;
      q, done, blocking, droppedCount := [], false, false, 0;
      popperNotices, pusherNotices := [], [];
    }

    /** Also wakes every blocked pusher when blocking is switched off. */
    method SetBlocking(enable: bool)
      modifies this
      ensures View() == old(View()).(blocking := enable)
      ensures pusherNotices == old(pusherNotices) + if enable then [] else [ToAll]
      ensures popperNotices == old(popperNotices)
    {
      blocking := enable;
      if !enable {
        pusherNotices := pusherNotices + [ToAll];
      }
    }

    /** A popper is notified exactly when an entry was stored. */
    method Push(item: T, priority: int) returns (r: Push<T>)
      requires maxCapacity >= 1
      modifies this
      ensures (View(), r) == EnterPush(old(View()), maxCapacity, Entry(priority, item))
      ensures popperNotices == old(popperNotices) + if r.Stored? then [ToOne] else []
      ensures pusherNotices == old(pusherNotices)
    {
      var e := Entry(priority, item);
      if |q| >= maxCapacity {
        if !blocking {
          var lowest := q[|q| - 1];
          if priority > lowest.priority {
            q := q[..|q| - 1];
            droppedCount := droppedCount + 1;
            q := Insert(q, e);
            popperNotices := popperNotices + [ToOne];
            r := Stored(Some(lowest));
          } else {
            droppedCount := droppedCount + 1;
            r := Rejected;
          }
          return;
        }
        if !(|q| < maxCapacity || done || !blocking) {
          r := MustWait;
          return;
        }
        r := AfterWait(e);
        return;
      }
      q := Insert(q, e);
      popperNotices := popperNotices + [ToOne];
      r := Stored(None);
    }

    method AfterWait(e: Entry<T>) returns (r: Push<T>)
      modifies this
      ensures (View(), r) == CompletePush(old(View()), maxCapacity, e)
      ensures popperNotices == old(popperNotices) + if r.Stored? then [ToOne] else []
      ensures pusherNotices == old(pusherNotices)
    {
      if |q| >= maxCapacity {
        droppedCount := droppedCount + 1;
        r := Rejected;
        return;
      }
      q := Insert(q, e);
      popperNotices := popperNotices + [ToOne];
      r := Stored(None);
    }

    /** A pusher is notified exactly when an entry was taken. */
    method Pop() returns (r: Pop<T>)
      modifies this
      ensures (View(), r) == EnterPop(old(View()))
      ensures pusherNotices == old(pusherNotices) + if r.Popped? then [ToOne] else []
      ensures popperNotices == old(popperNotices)
    {
      if !(q != [] || done) {
        r := MustWaitForItem;
      } else if q == [] && done {
        r := Finished;
      } else {
        r := Popped(q[0]);
        q := q[1..];
        pusherNotices := pusherNotices + [ToOne];
      }
    }

    method Finish()
      modifies this
      ensures View() == old(View()).(done := true)
      ensures popperNotices == old(popperNotices) + [ToAll]
      ensures pusherNotices == old(pusherNotices) + [ToAll]
    {
      done := true;
      popperNotices := popperNotices + [ToAll];
      pusherNotices := pusherNotices + [ToAll];
    }
  }

  // ---------------------------------------------------------------- live mode keeps the top of the sort

  /** Descending by priority, and within each priority exactly the input's entries in input order. */
  ghost predicate IsStableSort<T>(input: seq<Entry<T>>, sorted: seq<Entry<T>>) {
    Descending(sorted) && forall p :: Band(sorted, p) == Band(input, p)
  }

  lemma {:induction false} BandSize<T>(q: seq<Entry<T>>, e: Entry<T>)
    ensures multiset(q)[e] == multiset(Band(q, e.priority))[e]
  {
    if q != [] {
      BandSize(q[1..], e);
      assert q == [q[0]] + q[1..];
      if q[0].priority == e.priority {
        assert Band(q, e.priority) == [q[0]] + Band(q[1..], e.priority);
      }
    }
  }

  /** A stable sort is a permutation of its input. */
  lemma StableSortPermutes<T>(input: seq<Entry<T>>, sorted: seq<Entry<T>>)
    requires IsStableSort(input, sorted)
    ensures multiset(sorted) == multiset(input)
  {
    forall e: Entry<T>
      ensures multiset(sorted)[e] == multiset(input)[e]
    {
      BandSize(sorted, e);
      BandSize(input, e);
      assert Band(sorted, e.priority) == Band(input, e.priority);
    }
  }

  lemma {:induction false} TopOfBand<T>(q: seq<Entry<T>>, p: int)
    requires Descending(q) && Band(q, p) != []
    ensures q != [] && q[0].priority >= p
  {
    if q[0].priority != p {
      TopOfBand(q[1..], p);
    }
  }

  lemma SameTop<T>(a: seq<Entry<T>>, b: seq<Entry<T>>)
    requires Descending(a) && Descending(b) && a != [] && b != []
    requires Band(a, a[0].priority) == Band(b, a[0].priority)
    requires Band(a, b[0].priority) == Band(b, b[0].priority)
    ensures a[0] == b[0]
  {
    TopOfBand(a, b[0].priority);
    TopOfBand(b, a[0].priority);
    var p := a[0].priority;
    assert Band(a, p)[0] == a[0] && Band(b, p)[0] == b[0];
  }

  lemma NonEmptyHasBand<T>(q: seq<Entry<T>>)
    requires q != []
    ensures Band(q, q[0].priority) != []
  {
  }

  lemma BandOfTail<T>(q: seq<Entry<T>>, p: int)
    requires q != []
    ensures Band(q[1..], p) == if q[0].priority == p then Band(q, p)[1..] else Band(q, p)
  {
  }

  /** The stable sort is unique. */
  lemma {:induction false} StableSortUnique<T>(a: seq<Entry<T>>, b: seq<Entry<T>>)
    requires Descending(a) && Descending(b)
    requires forall p :: Band(a, p) == Band(b, p)
    ensures a == b
  {
    if b != [] {
      NonEmptyHasBand(b);
    }
    if a != [] {
      NonEmptyHasBand(a);
      assert Band(a, a[0].priority) == Band(b, a[0].priority);
      TopOfBand(b, a[0].priority);
      SameTop(a, b);
      forall p
        ensures Band(a[1..], p) == Band(b[1..], p)
      {
        BandOfTail(a, p);
        BandOfTail(b, p);
        assert Band(a, p) == Band(b, p);
      }
      StableSortUnique(a[1..], b[1..]);
      assert a == [a[0]] + a[1..] && b == [b[0]] + b[1..];
    }
  }

  function PushAll<T>(s: Queue<T>, capacity: nat, es: seq<Entry<T>>): Queue<T>
    requires capacity >= 1
  {
    if es == [] then s else EnterPush(PushAll(s, capacity, es[..|es| - 1]), capacity, es[|es| - 1]).0
  }

  function Sort<T>(es: seq<Entry<T>>): seq<Entry<T>> {
    if es == [] then [] else Insert(Sort(es[..|es| - 1]), es[|es| - 1])
  }

  lemma {:induction false} SortIsStable<T>(es: seq<Entry<T>>)
    ensures IsStableSort(es, Sort(es)) && |Sort(es)| == |es|
  {
    if es != [] {
      var n := |es| - 1;
      SortIsStable(es[..n]);
      InsertKeepsDescending(Sort(es[..n]), es[n]);
      forall p
        ensures Band(Sort(es), p) == Band(es, p)
      {
        InsertAppendsToBand(Sort(es[..n]), es[n], p);
        assert Band(Sort(es[..n]), p) == Band(es[..n], p);
        BandConcat(es[..n], [es[n]], p);
        assert es == es[..n] + [es[n]];
      }
    }
  }

  function Take<T>(s: seq<T>, n: nat): seq<T> {
    if |s| <= n then s else s[..n]
  }

  /** The emergency drop commutes with truncation: it acts on the first `n` of a descending sequence
      like insertion into the whole. */
  lemma {:induction false} InsertIntoTruncated<T>(q: seq<Entry<T>>, e: Entry<T>, n: nat)
    requires Descending(q) && 1 <= n <= |q|
    ensures |Insert(q, e)| == |q| + 1
    ensures Insert(q, e)[..n] == if e.priority > q[n - 1].priority then Insert(q[..n - 1], e) else q[..n]
  {
    InsertKeepsDescending(q, e);
    if q[0].priority < e.priority {
      assert q[0].priority >= q[n - 1].priority;
      assert ([e] + q)[..n] == [e] + q[..n - 1];
      if n > 1 {
        assert q[..n - 1][0] == q[0];
      }
    } else if n == 1 {
      assert Insert(q, e)[..1] == [q[0]];
    } else {
      var tail := q[1..];
      InsertIntoTruncated(tail, e, n - 1);
      assert tail[n - 2] == q[n - 1];
      assert Insert(q, e) == [q[0]] + Insert(tail, e);
      assert Insert(q, e)[..n] == [q[0]] + Insert(tail, e)[..n - 1];
      if e.priority > q[n - 1].priority {
        var front := q[..n - 1];
        assert front[0] == q[0] && front[1..] == tail[..n - 2];
      } else {
        assert q[..n] == [q[0]] + tail[..n - 1];
      }
    }
  }

  /** One live push, when the queue holds the truncation of a descending sequence `all`. */
  lemma LivePushOfTruncated<T>(s: Queue<T>, capacity: nat, all: seq<Entry<T>>, e: Entry<T>)
    requires capacity >= 1 && !s.blocking && Descending(all) && s.q == Take(all, capacity)
    ensures EnterPush(s, capacity, e).0 ==
            s.(q := Take(Insert(all, e), capacity), dropped := s.dropped + if |all| >= capacity then 1 else 0)
  {
    InsertKeepsDescending(all, e);
    if |all| >= capacity {
      InsertIntoTruncated(all, e, capacity);
      hide Insert;
      assert s.q[capacity - 1] == all[capacity - 1];
      assert s.q[..capacity - 1] == all[..capacity - 1];
    }
  }

  lemma {:induction false} LivePushesTruncateTheSort<T>(s: Queue<T>, capacity: nat, es: seq<Entry<T>>)
    requires capacity >= 1 && s.q == [] && !s.blocking
    ensures PushAll(s, capacity, es) ==
            s.(q := Take(Sort(es), capacity),
               dropped := s.dropped + if |es| > capacity then |es| - capacity else 0)
  {
    if es != [] {
      var n := |es| - 1;
      LivePushesTruncateTheSort(s, capacity, es[..n]);
      SortIsStable(es[..n]);
      hide Insert, EnterPush, Take;
      LivePushOfTruncated(PushAll(s, capacity, es[..n]), capacity, Sort(es[..n]), es[n]);
    }
  }

  /** Emergency drop, live mode: after any pushes without pops the queue holds exactly the first
      `capacity` entries of the stable sort of everything pushed, and every other one was counted
      as dropped. */
  lemma LiveQueueKeepsMostSuspicious<T>(s: Queue<T>, capacity: nat, es: seq<Entry<T>>, sorted: seq<Entry<T>>)
    requires capacity >= 1 && s.q == [] && !s.blocking
    requires IsStableSort(es, sorted)
    ensures |sorted| == |es|
    ensures var r := PushAll(s, capacity, es);
            && r.q == Take(sorted, capacity)
            && r.dropped == s.dropped + |sorted| - |r.q|
  {
    LivePushesTruncateTheSort(s, capacity, es);
    SortIsStable(es);
    forall p
      ensures Band(sorted, p) == Band(Sort(es), p)
    {
      assert Band(sorted, p) == Band(es, p) && Band(Sort(es), p) == Band(es, p);
    }
    StableSortUnique(sorted, Sort(es));
  }

  // ---------------------------------------------------------------- every outcome

  /** `r` is `q` with `e` behind the others of its priority. */
  ghost predicate Joined<T>(r: seq<Entry<T>>, q: seq<Entry<T>>, e: Entry<T>) {
    Descending(r) && forall p :: Band(r, p) == Band(q, p) + if p == e.priority then [e] else []
  }

  lemma InsertJoins<T>(q: seq<Entry<T>>, e: Entry<T>)
    requires Descending(q)
    ensures Joined(Insert(q, e), q, e)
  {
    InsertKeepsDescending(q, e);
    forall p
      ensures Band(Insert(q, e), p) == Band(q, p) + if p == e.priority then [e] else []
    {
      InsertAppendsToBand(q, e, p);
    }
  }

  lemma LastIsLowest<T>(q: seq<Entry<T>>)
    requires Descending(q)
    ensures forall i | 0 <= i < |q| :: q[i].priority >= q[|q| - 1].priority
    ensures q != [] ==> Descending(q[..|q| - 1])
  {
  }

  /** While there is room a push is stored, even after the end was announced. On a full queue it waits if the
      queue blocks and has not ended. If it has, the push is dropped, and so it is on a full live queue unless
      something there has a lower priority: then the last that came of the lowest one makes room. */
  lemma PushOutcome<T>(s: Queue<T>, capacity: nat, e: Entry<T>)
    requires 1 <= capacity && |s.q| <= capacity && Descending(s.q)
    ensures var (t, r) := EnterPush(s, capacity, e);
            && t.done == s.done && t.blocking == s.blocking
            && (|s.q| < capacity ==> r == Stored(None) && Joined(t.q, s.q, e) && t.dropped == s.dropped)
            && (|s.q| == capacity && s.blocking && !s.done ==> r == MustWait && t == s)
            && (|s.q| == capacity && s.blocking && s.done ==>
                  r == Rejected && t.q == s.q && t.dropped == s.dropped + 1)
            && (|s.q| == capacity && !s.blocking && (forall i | 0 <= i < |s.q| :: s.q[i].priority >= e.priority) ==>
                  r == Rejected && t.q == s.q && t.dropped == s.dropped + 1)
            && (|s.q| == capacity && !s.blocking && (exists i | 0 <= i < |s.q| :: s.q[i].priority < e.priority) ==>
                  && r.Stored? && r.evicted == Some(s.q[capacity - 1]) && t.dropped == s.dropped + 1
                  && Joined(t.q, s.q[..capacity - 1], e)
                  && forall i | 0 <= i < |s.q| :: s.q[i].priority >= s.q[capacity - 1].priority)
  {
    LastIsLowest(s.q);
    hide Joined, Descending;
    InsertJoins(s.q, e);
    if s.q != [] {
      InsertJoins(s.q[..|s.q| - 1], e);
    }
    hide Insert;
  }

  /** After a wait the push is stored if there is room, whether or not the end was announced, and dropped
      otherwise. */
  lemma WaitOutcome<T>(s: Queue<T>, capacity: nat, e: Entry<T>)
    requires |s.q| <= capacity && Descending(s.q)
    ensures var (t, r) := CompletePush(s, capacity, e);
            && t.done == s.done && t.blocking == s.blocking
            && (|s.q| < capacity ==> r == Stored(None) && Joined(t.q, s.q, e) && t.dropped == s.dropped)
            && (|s.q| == capacity ==> r == Rejected && t.q == s.q && t.dropped == s.dropped + 1)
  {
    hide Joined;
    InsertJoins(s.q, e);
    hide Insert;
  }

  /** A pop takes the entry that came first among those of the highest priority, even after the end was
      announced; an empty queue makes it wait until then. */
  lemma PopOutcome<T>(s: Queue<T>)
    requires Descending(s.q)
    ensures var (t, r) := EnterPop(s);
            && t.done == s.done && t.blocking == s.blocking && t.dropped == s.dropped
            && (s.q == [] ==> t == s && r == if s.done then Finished else MustWaitForItem)
            && (s.q != [] ==>
                  && r.Popped? && s.q == [r.entry] + t.q
                  && (forall i | 0 <= i < |t.q| :: t.q[i].priority <= r.entry.priority)
                  && Band(s.q, r.entry.priority) == [r.entry] + Band(t.q, r.entry.priority))
  {
  }
}
