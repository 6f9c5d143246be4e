/**
 * The order of `schedule_queue`: `schedule_queue.sort()` (main.py:102) sorts by `__lt__`,
 * which compares publish times only, and Python's sort is stable.
 */
module Ordering {
  import opened Timestamps
  import opened Schedules

  /** No entry is `__lt__` an entry before it: publish times never decrease. */
  predicate Sorted(q: seq<Entry>) {
    forall i, j :: 0 <= i < j < |q| ==> LessEq(PublishTime(q[i]), PublishTime(q[j]))
  }

  /** The entries of `q` due at time `k`, in queue order. */
  function AtTime(q: seq<Entry>, k: Timestamp): seq<Entry> {
    if q == [] then []
    else (if PublishTime(q[0]) == k then [q[0]] else []) + AtTime(q[1..], k)
  }

  /** Place `x` behind every entry that it is not `__lt__`. */
  function Insert(q: seq<Entry>, x: Entry): seq<Entry> {
    if q == [] then [x]
    else if ScheduleLess(x, q[0]) then [x] + q
    else [q[0]] + Insert(q[1..], x)
  }

  /**
   * A stable sort by `__lt__` (insertion sort). Python's sort is a different algorithm, but
   * StableSortIsUnique shows that every stable sort by this key gives this very sequence.
   */
  function StableSort(s: seq<Entry>): seq<Entry> {
    if s == [] then [] else Insert(StableSort(s[..|s| - 1]), s[|s| - 1])
  }

  lemma {:induction false} AtTimeAppend(a: seq<Entry>, b: seq<Entry>, k: Timestamp)
    ensures AtTime(a + b, k) == AtTime(a, k) + AtTime(b, k)
  {
    if a == [] {
      assert a + b == b;
    } else {
      assert (a + b)[1..] == a[1..] + b;
      AtTimeAppend(a[1..], b, k);
    }
  }

  lemma {:induction false} AtTimeAbsent(q: seq<Entry>, k: Timestamp)
    requires forall i :: 0 <= i < |q| ==> PublishTime(q[i]) != k
    ensures AtTime(q, k) == []
  {
    if q != [] {
      AtTimeAbsent(q[1..], k);
    }
  }

  /** Inserting adds exactly `x` and drops nothing. */
  lemma {:induction false} InsertPermutes(q: seq<Entry>, x: Entry)
    ensures multiset(Insert(q, x)) == multiset(q) + multiset{x}
  {
    if q != [] && !ScheduleLess(x, q[0]) {
      InsertPermutes(q[1..], x);
      assert q == [q[0]] + q[1..];
    }
  }

  lemma {:induction false} InsertSorted(q: seq<Entry>, x: Entry)
    requires Sorted(q)
    ensures Sorted(Insert(q, x))
  {
    if q == [] {
    } else if ScheduleLess(x, q[0]) {
      forall j | 0 <= j < |q|
        ensures LessEq(PublishTime(x), PublishTime(q[j]))
      {
        LessEqTransitive(PublishTime(x), PublishTime(q[0]), PublishTime(q[j]));
      }
    } else {
      var rest := Insert(q[1..], x);
      InsertSorted(q[1..], x);
      InsertPermutes(q[1..], x);
      LessIsStrictTotalOrder(PublishTime(x), PublishTime(q[0]), PublishTime(x));
      forall j | 0 <= j < |rest|
        ensures LessEq(PublishTime(q[0]), PublishTime(rest[j]))
      {
        assert rest[j] in multiset(rest);
        assert rest[j] == x || rest[j] in q[1..];
      }
    }
  }

  /** Inserting keeps every group of equal times in order and puts `x` last in its own. */
  lemma {:induction false} InsertKeepsTies(q: seq<Entry>, x: Entry, k: Timestamp)
    requires Sorted(q)
    ensures AtTime(Insert(q, x), k) == AtTime(q, k) + AtTime([x], k)
  {
    if q == [] {
    } else if ScheduleLess(x, q[0]) {
      if PublishTime(x) == k {
        forall i | 0 <= i < |q|
          ensures PublishTime(q[i]) != k
        {
          LessEqTransitive(PublishTime(x), PublishTime(q[0]), PublishTime(q[i]));
        }
        AtTimeAbsent(q, k);
      }
      AtTimeAppend([x], q, k);
    } else {
      InsertKeepsTies(q[1..], x, k);
      assert Insert(q, x)[1..] == Insert(q[1..], x);
    }
  }

  /** StableSort returns a sorted permutation of its input that keeps equal times in input order. */
  lemma {:induction false} StableSortCorrect(s: seq<Entry>)
    ensures Sorted(StableSort(s))
    ensures multiset(StableSort(s)) == multiset(s)
    ensures forall k :: AtTime(StableSort(s), k) == AtTime(s, k)
  {
    if s != [] {
      var init, last := s[..|s| - 1], s[|s| - 1];
      StableSortCorrect(init);
      InsertSorted(StableSort(init), last);
      InsertPermutes(StableSort(init), last);
      assert s == init + [last];
      forall k ensures AtTime(StableSort(s), k) == AtTime(s, k) {
        InsertKeepsTies(StableSort(init), last, k);
        AtTimeAppend(init, [last], k);
      }
    }
  }

  lemma AtTimeOfHead(q: seq<Entry>)
    requires q != []
    ensures AtTime(q, PublishTime(q[0])) != []
  {
  }

  /** Two sorted sequences with the same entries at every time are the same sequence. */
  lemma {:induction false} SortedTiesDetermine(a: seq<Entry>, b: seq<Entry>)
    requires Sorted(a) && Sorted(b)
    requires forall k :: AtTime(a, k) == AtTime(b, k)
    ensures a == b
    decreases |a|
  {
    if a == [] || b == [] {
      if a != [] {
        AtTimeOfHead(a);
      } else if b != [] {
        AtTimeOfHead(b);
      }
    } else {
      var ka, kb := PublishTime(a[0]), PublishTime(b[0]);
      if Less(ka, kb) {
        forall i | 0 <= i < |b| ensures PublishTime(b[i]) != ka {
          LessEqTransitive(ka, kb, PublishTime(b[i]));
        }
        AtTimeAbsent(b, ka);
        AtTimeOfHead(a);
      } else if Less(kb, ka) {
        forall i | 0 <= i < |a| ensures PublishTime(a[i]) != kb {
          LessEqTransitive(kb, ka, PublishTime(a[i]));
        }
        AtTimeAbsent(a, kb);
        AtTimeOfHead(b);
      } else {
        LessIsStrictTotalOrder(ka, kb, ka);
        assert AtTime(a, ka)[0] == a[0] && AtTime(b, ka)[0] == b[0];
        assert a[0] == b[0];
        forall k ensures AtTime(a[1..], k) == AtTime(b[1..], k) {
          var head := if ka == k then [a[0]] else [];
          assert AtTime(a, k) == head + AtTime(a[1..], k);
          assert AtTime(b, k) == head + AtTime(b[1..], k);
          assert AtTime(a[1..], k) == AtTime(a, k)[|head|..];
          assert AtTime(b[1..], k) == AtTime(b, k)[|head|..];
        }
        SortedTiesDetermine(a[1..], b[1..]);
      }
    }
  }

  /**
   * Any stable sort by publish time, Python's included, returns StableSort(s): being sorted
   * and keeping equal times in input order fixes the result.
   */
  lemma StableSortIsUnique(s: seq<Entry>, r: seq<Entry>)
    requires Sorted(r)
    requires forall k :: AtTime(r, k) == AtTime(s, k)
    ensures r == StableSort(s)
  {
    StableSortCorrect(s);
    SortedTiesDetermine(r, StableSort(s));
  }

  /** Appending to a sorted queue and sorting is inserting behind every entry not later than `x`. */
  lemma AppendThenSort(q: seq<Entry>, x: Entry)
    requires Sorted(q)
    ensures StableSort(q + [x]) == Insert(q, x)
  {
    InsertSorted(q, x);
    forall k ensures AtTime(Insert(q, x), k) == AtTime(q + [x], k) {
      InsertKeepsTies(q, x, k);
      AtTimeAppend(q, [x], k);
    }
    StableSortIsUnique(q + [x], Insert(q, x));
  }

  /** How many leading entries an insert of `x` passes over. */
  function InsertionPoint(q: seq<Entry>, x: Entry): (p: nat)
    ensures p <= |q|
  {
    if q == [] || ScheduleLess(x, q[0]) then 0 else 1 + InsertionPoint(q[1..], x)
  }

  /** Inserting is splicing `x` in at the insertion point; every other entry keeps its order. */
  lemma {:induction false} InsertSplices(q: seq<Entry>, x: Entry)
    ensures Insert(q, x) == q[..InsertionPoint(q, x)] + [x] + q[InsertionPoint(q, x)..]
  {
    if q != [] && !ScheduleLess(x, q[0]) {
      InsertSplices(q[1..], x);
      var p := InsertionPoint(q[1..], x);
      assert q[..p + 1] == [q[0]] + q[1..][..p];
      assert q[p + 1..] == q[1..][p..];
    }
  }

  /**
   * In a sorted queue the insertion point comes after every entry whose time is not later
   * than `x`'s and before every entry that is later.
   */
  lemma {:induction false} InsertionPointSeparates(q: seq<Entry>, x: Entry)
    requires Sorted(q)
    ensures forall i :: 0 <= i < InsertionPoint(q, x) ==> LessEq(PublishTime(q[i]), PublishTime(x))
    ensures forall i :: InsertionPoint(q, x) <= i < |q| ==> Less(PublishTime(x), PublishTime(q[i]))
  {
    if q == [] {
    } else if ScheduleLess(x, q[0]) {
      forall i | 0 <= i < |q| ensures Less(PublishTime(x), PublishTime(q[i])) {
        LessEqTransitive(PublishTime(x), PublishTime(q[0]), PublishTime(q[i]));
      }
    } else {
      InsertionPointSeparates(q[1..], x);
      LessIsStrictTotalOrder(PublishTime(x), PublishTime(q[0]), PublishTime(x));
      var p := InsertionPoint(q, x);
      forall i | 0 <= i < p ensures LessEq(PublishTime(q[i]), PublishTime(x)) {
        if i > 0 { assert q[i] == q[1..][i - 1]; }
      }
      forall i | p <= i < |q| ensures Less(PublishTime(x), PublishTime(q[i])) {
        assert q[i] == q[1..][i - 1];
      }
    }
  }

  /** In a sorted queue, a head that is not yet due means no entry is due. */
  lemma HeadNotDueMeansNoneDue(q: seq<Entry>, now: Timestamp)
    requires Sorted(q) && q != [] && BeforeScheduleTime(q[0], now)
    ensures forall i :: 0 <= i < |q| ==> BeforeScheduleTime(q[i], now)
  {
  }
}
