/**
 The bounded lists of slowest Ansible tasks in a deployment report: each record
 call appends a batch and, above the limit, stably sorts by descending duration
 and truncates.
 */
module TopTimings {
  const LIMIT: nat := 4096

  // ----- stable descending sort -----

  /** Insert after every element whose key is at least as large. */
  function Insert<T>(s: seq<T>, x: T, key: T -> int): (r: seq<T>)
    ensures |r| == |s| + 1
  {
    if s == [] || key(s[|s| - 1]) >= key(x) then s + [x]
    else Insert(s[..|s| - 1], x, key) + [s[|s| - 1]]
  }

  /** `sort.SliceStable` with "longer first". */
  function StableSort<T>(s: seq<T>, key: T -> int): (r: seq<T>)
    ensures |r| == |s|
  {
    if s == [] then [] else Insert(StableSort(s[..|s| - 1], key), s[|s| - 1], key)
  }

  predicate Descending<T>(s: seq<T>, key: T -> int) {
    forall i, j :: 0 <= i < j < |s| ==> key(s[i]) >= key(s[j])
  }

  /** The elements of one key, in order. */
  function OfKey<T>(s: seq<T>, v: int, key: T -> int): seq<T> {
    if s == [] then []
    else OfKey(s[..|s| - 1], v, key) + if key(s[|s| - 1]) == v then [s[|s| - 1]] else []
  }

  lemma {:induction false} InsertSorts<T>(s: seq<T>, x: T, key: T -> int)
    requires Descending(s, key)
    ensures Descending(Insert(s, x, key), key)
    ensures forall y <- Insert(s, x, key) :: y == x || y in s
  {
    if s != [] && key(s[|s| - 1]) < key(x) {
      var init, last := s[..|s| - 1], s[|s| - 1];
      InsertSorts(init, x, key);
      var r := Insert(init, x, key);
      forall i | 0 <= i < |r| ensures key(r[i]) >= key(last) {
        assert r[i] in r;
      }
    }
  }

  lemma {:induction false} InsertKeepsOrder<T>(s: seq<T>, x: T, v: int, key: T -> int)
    ensures OfKey(Insert(s, x, key), v, key) == OfKey(s, v, key) + if key(x) == v then [x] else []
  {
    if s == [] || key(s[|s| - 1]) >= key(x) {
      assert (s + [x])[..|s|] == s;
    } else {
      InsertKeepsOrder(s[..|s| - 1], x, v, key);
      assert Insert(s, x, key)[..|s|] == Insert(s[..|s| - 1], x, key);
    }
  }

  /** The result is descending and, for every duration, has the same entries in the same order. */
  lemma {:induction false} StableSortIsStable<T>(s: seq<T>, key: T -> int)
    ensures Descending(StableSort(s, key), key)
    ensures forall v :: OfKey(StableSort(s, key), v, key) == OfKey(s, v, key)
  {
    if s != [] {
      var init := StableSort(s[..|s| - 1], key);
      StableSortIsStable(s[..|s| - 1], key);
      InsertSorts(init, s[|s| - 1], key);
      forall v ensures OfKey(StableSort(s, key), v, key) == OfKey(s, v, key) {
        InsertKeepsOrder(init, s[|s| - 1], v, key);
      }
    }
  }

  lemma {:induction false} OfKeyMember<T>(s: seq<T>, v: int, key: T -> int)
    ensures (exists i :: 0 <= i < |s| && key(s[i]) == v) ==> OfKey(s, v, key) != []
    ensures (forall i :: 0 <= i < |s| ==> key(s[i]) != v) ==> OfKey(s, v, key) == []
  {
    if s != [] {
      OfKeyMember(s[..|s| - 1], v, key);
    }
  }

  /** Two descending lists with the same entries per duration end with the same key. */
  lemma {:induction false} SameLastKey<T>(a: seq<T>, b: seq<T>, key: T -> int)
    requires a != [] && b != [] && Descending(a, key) && Descending(b, key)
    requires forall v :: OfKey(a, v, key) == OfKey(b, v, key)
    ensures key(a[|a| - 1]) == key(b[|b| - 1])
  {
    var ka, kb := key(a[|a| - 1]), key(b[|b| - 1]);
    OfKeyMember(a, ka, key);
    OfKeyMember(b, ka, key);
    OfKeyMember(a, kb, key);
    OfKeyMember(b, kb, key);
  }

  lemma Unsnoc<T>(a: seq<T>, x: T, b: seq<T>, y: T)
    requires a + [x] == b + [y]
    ensures a == b && x == y
  {
    assert |a + [x]| == |a| + 1 && |b + [y]| == |b| + 1;
    assert (a + [x])[..|a|] == a && (b + [y])[..|b|] == b;
    assert (a + [x])[|a|] == x && (b + [y])[|b|] == y;
  }

  /** So the stable order is the only one: any stable descending arrangement of `s` is `StableSort(s)`. */
  lemma {:induction false} StableOrderIsUnique<T>(a: seq<T>, b: seq<T>, key: T -> int)
    requires Descending(a, key) && Descending(b, key)
    requires forall v :: OfKey(a, v, key) == OfKey(b, v, key)
    ensures a == b
  {
    if a == [] || b == [] {
      if a != [] {
        OfKeyMember(a, key(a[0]), key);
      }
      if b != [] {
        OfKeyMember(b, key(b[0]), key);
      }
    } else {
      SameLastKey(a, b, key);
      var a', b' := a[..|a| - 1], b[..|b| - 1];
      var k := key(a[|a| - 1]);
      assert OfKey(a, k, key) == OfKey(b, k, key);
      Unsnoc(OfKey(a', k, key), a[|a| - 1], OfKey(b', k, key), b[|b| - 1]);
      forall v ensures OfKey(a', v, key) == OfKey(b', v, key) {
        assert OfKey(a, v, key) == OfKey(b, v, key);
        if v != k {
          assert OfKey(a, v, key) == OfKey(a', v, key) && OfKey(b, v, key) == OfKey(b', v, key);
        }
      }
      StableOrderIsUnique(a', b', key);
      assert a == a' + [a[|a| - 1]] && b == b' + [b[|b| - 1]];
    }
  }

  // ----- streaming top-k -----

  /** Inserting beyond position `k` cannot be seen in the first `k`. */
  lemma {:induction false} InsertPrefix<T>(s: seq<T>, x: T, k: nat, key: T -> int)
    requires Descending(s, key) && k <= |s|
    ensures Insert(s, x, key)[..k] == Insert(s[..k], x, key)[..k]
  {
    if k == |s| {
      assert s[..k] == s;
    } else if key(s[|s| - 1]) >= key(x) {
      assert Insert(s, x, key)[..k] == s[..k];
      assert k > 0 ==> key(s[k - 1]) >= key(x);
      assert Insert(s[..k], x, key) == s[..k] + [x];
    } else {
      var init := s[..|s| - 1];
      InsertPrefix(init, x, k, key);
      assert init[..k] == s[..k];
      assert Insert(s, x, key)[..k] == Insert(init, x, key)[..k];
    }
  }

  lemma {:induction false} SortedIsFixed<T>(s: seq<T>, key: T -> int)
    requires Descending(s, key)
    ensures StableSort(s, key) == s
  {
    StableSortIsStable(s, key);
    StableOrderIsUnique(StableSort(s, key), s, key);
  }

  /** Lists whose tops agree still agree after one more entry. */
  lemma {:induction false} AgreeAfterOne<T>(p: seq<T>, q: seq<T>, x: T, k: nat, key: T -> int)
    requires k <= |p| && k <= |q| && StableSort(p, key)[..k] == StableSort(q, key)[..k]
    ensures StableSort(p + [x], key)[..k] == StableSort(q + [x], key)[..k]
  {
    assert (p + [x])[..|p|] == p && (q + [x])[..|q|] == q;
    StableSortIsStable(p, key);
    StableSortIsStable(q, key);
    InsertPrefix(StableSort(p, key), x, k, key);
    InsertPrefix(StableSort(q, key), x, k, key);
  }

  lemma {:induction false} AgreeAfterMore<T>(p: seq<T>, q: seq<T>, b: seq<T>, k: nat, key: T -> int)
    requires k <= |p| && k <= |q| && StableSort(p, key)[..k] == StableSort(q, key)[..k]
    ensures StableSort(p + b, key)[..k] == StableSort(q + b, key)[..k]
    decreases |b|
  {
    if b == [] {
      assert p + b == p && q + b == q;
    } else {
      AgreeAfterOne(p, q, b[0], k, key);
      AgreeAfterMore(p + [b[0]], q + [b[0]], b[1..], k, key);
      assert p + [b[0]] + b[1..] == p + b && q + [b[0]] + b[1..] == q + b;
    }
  }

  /** Truncating between two batches loses nothing that the final truncation would keep. */
  lemma {:induction false} TruncateEarly<T>(a: seq<T>, b: seq<T>, k: nat, key: T -> int)
    requires k <= |a|
    ensures StableSort(StableSort(a, key)[..k] + b, key)[..k] == StableSort(a + b, key)[..k]
  {
    var top := StableSort(a, key)[..k];
    StableSortIsStable(a, key);
    SortedIsFixed(top, key);
    assert top[..k] == top;
    AgreeAfterMore(top, a, b, k, key);
  }

  /** What the retained list must be for a whole stream. */
  function Top<T>(stream: seq<T>, key: T -> int): seq<T> {
    if |stream| <= LIMIT then stream else StableSort(stream, key)[..LIMIT]
  }

  /** A descending arrangement with the entries of each key in their order; there is only one. */
  ghost predicate StableOrder<T(!new)>(order: seq<T>, stream: seq<T>, key: T -> int) {
    Descending(order, key) && forall v :: OfKey(order, v, key) == OfKey(stream, v, key)
  }

  /** The whole stream up to 4096 entries, else the first 4096 of its stable order. */
  lemma TopIs<T(!new)>(stream: seq<T>, key: T -> int, order: seq<T>)
    requires StableOrder(order, stream, key)
    ensures |stream| <= 4096 ==> Top(stream, key) == stream
    ensures |stream| > 4096 ==> |order| >= 4096 && Top(stream, key) == order[..4096]
  {
    StableSortIsStable(stream, key);
    StableOrderIsUnique(order, StableSort(stream, key), key);
  }

  /** One record call is one step of the whole-stream function. */
  lemma TopStep<T>(stream: seq<T>, batch: seq<T>, key: T -> int)
    ensures Top(Top(stream, key) + batch, key) == Top(stream + batch, key)
  {
    if |stream| > LIMIT {
      TruncateEarly(stream, batch, LIMIT, key);
      var top := Top(stream, key);
      if batch == [] {
        assert top + batch == top && stream + batch == stream;
      }
    }
  }

  /** The body of both record calls: append the batch, and above the limit sort and truncate. */
  method AppendAndTrim<T>(kept: seq<T>, batch: seq<T>, key: T -> int, ghost stream: seq<T>) returns (r: seq<T>)
    requires kept == Top(stream, key)
    ensures r == Top(stream + batch, key)
  {
    r := kept;
    for i := 0 to |batch|
      invariant r == kept + batch[..i]
    {
      r := r + [batch[i]];
    }
    assert batch[..|batch|] == batch;
    TopStep(stream, batch, key);
    if |r| > LIMIT {
      r := StableSort(r, key);
      r := r[..LIMIT];
    }
  }

  // ----- the report -----

  datatype TaskTiming = TaskTiming(host: string, task: string, path: string, status: string,
                                   durationMS: int, changed: bool, markers: seq<string>)

  datatype TaskBatchTiming = TaskBatchTiming(task: string, path: string, durationMS: int)

  datatype ReportTiming = ReportTiming(phase: string, timing: TaskTiming)

  datatype ReportBatch = ReportBatch(phase: string, timing: TaskBatchTiming)

  function TimingKey(t: ReportTiming): int { t.timing.durationMS }

  function BatchKey(t: ReportBatch): int { t.timing.durationMS }

  function Tagged(phase: string, timings: seq<TaskTiming>): seq<ReportTiming> {
    seq(|timings|, i requires 0 <= i < |timings| => ReportTiming(phase, timings[i]))
  }

  function TaggedBatches(phase: string, timings: seq<TaskBatchTiming>): seq<ReportBatch> {
    seq(|timings|, i requires 0 <= i < |timings| => ReportBatch(phase, timings[i]))
  }

  /** The slowest tasks come first, whatever was recorded. */
  lemma SlowestFirst(timings: seq<ReportTiming>, batches: seq<ReportBatch>, i: nat, j: nat)
    requires i < j
    ensures |timings| > 4096 && j < 4096 ==>
              |Top(timings, TimingKey)| == 4096 &&
              Top(timings, TimingKey)[i].timing.durationMS >= Top(timings, TimingKey)[j].timing.durationMS
    ensures |batches| > 4096 && j < 4096 ==>
              |Top(batches, BatchKey)| == 4096 &&
              Top(batches, BatchKey)[i].timing.durationMS >= Top(batches, BatchKey)[j].timing.durationMS
  {
    StableSortIsStable(timings, TimingKey);
    StableSortIsStable(batches, BatchKey);
  }

  class DeploymentReport {
    var ansibleTaskTimings: seq<ReportTiming>
    var ansibleTaskBatches: seq<ReportBatch>
    ghost var timings: seq<ReportTiming>
    ghost var batches: seq<ReportBatch>

    /** Each retained list is the stable top of everything ever recorded. */
    ghost predicate Valid()
      reads this
    {
      ansibleTaskTimings == Top(timings, TimingKey) && ansibleTaskBatches == Top(batches, BatchKey)
    }

    constructor ()
      ensures Valid() && timings == [] && batches == []
    {
      ansibleTaskTimings, ansibleTaskBatches, timings, batches := [], [], [], [];
    }

    method RecordAnsibleTaskTimings(phase: string, recorded: seq<TaskTiming>)
      requires Valid()
      modifies this`ansibleTaskTimings, this`timings
      ensures Valid() && |timings| == |old(timings)| + |recorded| && timings[..|old(timings)|] == old(timings)
      ensures forall i :: 0 <= i < |recorded| ==> timings[|old(timings)| + i] == ReportTiming(phase, recorded[i])
    {
      ansibleTaskTimings := AppendAndTrim(ansibleTaskTimings, Tagged(phase, recorded), TimingKey, timings);
      timings := timings + Tagged(phase, recorded);
    }

    method RecordAnsibleTaskBatches(phase: string, recorded: seq<TaskBatchTiming>)
      requires Valid()
      modifies this`ansibleTaskBatches, this`batches
      ensures Valid() && |batches| == |old(batches)| + |recorded| && batches[..|old(batches)|] == old(batches)
      ensures forall i :: 0 <= i < |recorded| ==> batches[|old(batches)| + i] == ReportBatch(phase, recorded[i])
    {
      ansibleTaskBatches := AppendAndTrim(ansibleTaskBatches, TaggedBatches(phase, recorded), BatchKey, batches);
      batches := batches + TaggedBatches(phase, recorded);
    }
  }
}
