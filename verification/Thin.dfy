/** Thin-provisioning limits when a filesystem is expanded: each limit is rescaled with
    floor division, any number of times. */
module Thin {
  import opened Int64
  import opened Wrappers

  /** scaleThinSsdOnExpand: big-integer arithmetic, then the low 64 bits. Dividing by a
      zero total panics (None). */
  function ScaleThinSsd(oldTotal: int, oldVal: int, newTotal: int, keepRatio: bool): Option<int>
  {
    if !keepRatio then Some(oldVal)
    else if oldTotal == 0 then None
    else Some(Wrap(oldVal * newTotal / oldTotal))
  }

  // ----- one expansion

  lemma MultiplyKeepsOrder(x: int, y: int, t: int)
    requires t >= 0 && x <= y
    ensures x * t <= y * t
  {
  }

  lemma CancelFactor(x: int, y: int, t: int)
    requires t > 0
    ensures x * t < y * t ==> x < y
  {
    if y <= x {
      MultiplyKeepsOrder(y, x, t);
    }
  }

  lemma DivAtLeast(a: int, t: int, k: int)
    requires t > 0 && k * t <= a
    ensures k <= a / t
  {
    CancelFactor(k, a / t + 1, t);
  }

  lemma DivAtMost(a: int, t: int, k: int)
    requires t > 0 && a < (k + 1) * t
    ensures a / t <= k
  {
    CancelFactor(a / t, k + 1, t);
  }

  lemma Floor(v: int, t: int, t': int)
    requires t > 0
    ensures var q := v * t' / t;
            q * t <= v * t' < (q + 1) * t
  {
  }

  lemma ScaleIsMonotone(v: int, w: int, t: int, t': int)
    requires t > 0 && t' >= 0 && v <= w
    ensures v * t' / t <= w * t' / t
  {
    Floor(v, t, t');
    assert v * t' <= w * t';
    DivAtLeast(w * t', t, v * t' / t);
  }

  lemma ScaleGrows(v: int, t: int, t': int)
    requires 0 <= v && 0 < t <= t'
    ensures v <= v * t' / t
  {
    assert v * t <= v * t';
    DivAtLeast(v * t', t, v);
  }

  lemma ScalePins(t: int, t': int)
    requires 0 < t
    ensures t * t' / t == t'
  {
    DivAtLeast(t * t', t, t');
    DivAtMost(t * t', t, t');
  }

  /** The value sent to the cluster is the exact floor if and only if that fits in int64. */
  lemma ScaleIsExactWhenItFits(t: int, v: int, t': int)
    requires t > 0
    ensures ScaleThinSsd(t, v, t', true) == Some(v * t' / t) <==> Fits(v * t' / t)
  {
  }

  // ----- filesystems

  datatype Filesystem = Filesystem(total: int, thin: bool, minSsd: int, maxSsd: int)

  datatype Outcome = Resized(fs: Filesystem) | AlreadyBigger | Panics

  /** resizeFilesystem, up to the update call. */
  function Resize(fs: Filesystem, capacity: int, keepRatio: bool): Outcome
  {
    if fs.total > capacity then AlreadyBigger
    else if !fs.thin then Resized(fs.(total := capacity))
    else
      var minSsd := ScaleThinSsd(fs.total, fs.minSsd, capacity, keepRatio);
      var maxSsd := ScaleThinSsd(fs.total, fs.maxSsd, capacity, keepRatio);
      if minSsd.None? || maxSsd.None? then Panics
      else Resized(Filesystem(capacity, true, minSsd.value, maxSsd.value))
  }

  class FilesystemObject {
    var total: int
    var minSsd: int
    var maxSsd: int
    const thin: bool

    constructor (fs: Filesystem)
      ensures State() == fs
    {
      total, minSsd, maxSsd, thin := fs.total, fs.minSsd, fs.maxSsd, fs.thin;
    }

    function State(): Filesystem
      reads this
    {
      Filesystem(total, thin, minSsd, maxSsd)
    }

    /** resizeFilesystem; updateOk is the answer of the cluster to the update request, which
        carries the new total and, for a thin filesystem, both limits. */
    method ResizeFilesystem(capacity: int, keepRatio: bool, updateOk: bool) returns (outcome: Outcome)
      modifies this
      ensures outcome == Resize(old(State()), capacity, keepRatio)
      ensures State() == if outcome.Resized? && updateOk then outcome.fs else old(State())
      ensures old(Sound(State())) && thin && capacity <= MAX_INT64 ==>
                && outcome != Panics && Sound(State())
                && old(total) <= total && old(minSsd) <= minSsd && old(maxSsd) <= maxSsd
                && (keepRatio && old(maxSsd == total) ==> maxSsd == total)
                && (!keepRatio ==> minSsd == old(minSsd) && maxSsd == old(maxSsd))
      ensures old(Sound(State())) && thin && old(total) <= capacity <= MAX_INT64 && updateOk ==> total == capacity
    {
      if total > capacity {
        return AlreadyBigger;
      }
      if Sound(State()) && thin && capacity <= MAX_INT64 {
        ResizeKeepsSound(State(), capacity, keepRatio);
      }
      var update := Filesystem(capacity, thin, minSsd, maxSsd);
      if thin {
        if keepRatio && total == 0 {
          return Panics;
        }
        update := update.(minSsd := ScaleThinSsd(total, minSsd, capacity, keepRatio).value);
        update := update.(maxSsd := ScaleThinSsd(total, maxSsd, capacity, keepRatio).value);
      }
      if updateOk {
        total, minSsd, maxSsd := update.total, update.minSsd, update.maxSsd;
      }
      return Resized(update);
    }
  }

  /** Any sequence of requests; those below the current size are refused. */
  function ResizeAll(fs: Filesystem, requests: seq<int>, keepRatio: bool): Option<Filesystem>
  {
    if requests == [] then Some(fs)
    else
      match ResizeAll(fs, requests[..|requests| - 1], keepRatio)
      case None => None
      case Some(f) =>
        match Resize(f, requests[|requests| - 1], keepRatio)
        case Resized(f') => Some(f')
        case AlreadyBigger => Some(f)
        case Panics => None
  }

  predicate Sound(fs: Filesystem)
  {
    0 < fs.total <= MAX_INT64 && 0 <= fs.minSsd <= fs.maxSsd <= fs.total
  }

  lemma ResizeKeepsSound(fs: Filesystem, capacity: int, keepRatio: bool)
    requires Sound(fs) && fs.thin && fs.total <= capacity <= MAX_INT64
    ensures var r := Resize(fs, capacity, keepRatio);
            && r.Resized? && Sound(r.fs) && r.fs.thin && r.fs.total == capacity
            && fs.minSsd <= r.fs.minSsd && fs.maxSsd <= r.fs.maxSsd
            && (keepRatio && fs.maxSsd == fs.total ==> r.fs.maxSsd == r.fs.total)
            && (!keepRatio ==> r.fs.minSsd == fs.minSsd && r.fs.maxSsd == fs.maxSsd)
            && (keepRatio ==> r.fs.minSsd == fs.minSsd * capacity / fs.total)
            && (keepRatio ==> r.fs.maxSsd == fs.maxSsd * capacity / fs.total)
  {
    ScaleIsMonotone(fs.minSsd, fs.maxSsd, fs.total, capacity);
    ScaleIsMonotone(fs.maxSsd, fs.total, fs.total, capacity);
    ScalePins(fs.total, capacity);
    ScaleGrows(fs.minSsd, fs.total, capacity);
    ScaleGrows(fs.maxSsd, fs.total, capacity);
  }

  /** Over any sequence of requests the limits stay ordered within the total and within
      int64, never decrease, a maximum equal to the total stays pinned to it, and no limit
      exceeds its exact share of the total. */
  lemma {:induction false} ExpansionsKeepLimits(fs: Filesystem, requests: seq<int>, keepRatio: bool)
    requires Sound(fs) && fs.thin && forall i :: 0 <= i < |requests| ==> requests[i] <= MAX_INT64
    ensures ResizeAll(fs, requests, keepRatio).Some?
    ensures var f := ResizeAll(fs, requests, keepRatio).value;
            && Sound(f) && f.thin && fs.total <= f.total
            && fs.minSsd <= f.minSsd && fs.maxSsd <= f.maxSsd
            && (keepRatio && fs.maxSsd == fs.total ==> f.maxSsd == f.total)
            && f.minSsd * fs.total <= fs.minSsd * f.total
            && f.maxSsd * fs.total <= fs.maxSsd * f.total
    decreases |requests|
  {
    if requests != [] {
      var front, last := requests[..|requests| - 1], requests[|requests| - 1];
      ExpansionsKeepLimits(fs, front, keepRatio);
      var f := ResizeAll(fs, front, keepRatio).value;
      if f.total <= last {
        ResizeKeepsSound(f, last, keepRatio);
        var f' := Resize(f, last, keepRatio).fs;
        ShareStep(fs.minSsd, fs.total, f.minSsd, f.total, f'.minSsd, last, keepRatio);
        ShareStep(fs.maxSsd, fs.total, f.maxSsd, f.total, f'.maxSsd, last, keepRatio);
      }
    }
  }

  function Largest(first: int, rest: seq<int>): int
  {
    if rest == [] then first
    else
      var m := Largest(first, rest[..|rest| - 1]);
      if rest[|rest| - 1] >= m then rest[|rest| - 1] else m
  }

  /** A filesystem without thin provisioning takes the largest size asked for, from any start,
      keeps its other numbers and never panics. */
  lemma {:induction false} PlainExpansions(fs: Filesystem, requests: seq<int>, keepRatio: bool)
    requires !fs.thin
    ensures ResizeAll(fs, requests, keepRatio) == Some(fs.(total := Largest(fs.total, requests)))
    decreases |requests|
  {
    if requests != [] {
      PlainExpansions(fs, requests[..|requests| - 1], keepRatio);
    }
  }

  /** A resize panics exactly when the ratio of an empty thin filesystem is to be kept. */
  lemma PanicsExactly(fs: Filesystem, capacity: int, keepRatio: bool)
    ensures Resize(fs, capacity, keepRatio) == Panics <==> fs.thin && keepRatio && fs.total == 0 && capacity >= 0
    ensures Resize(fs, capacity, keepRatio) == AlreadyBigger <==> capacity < fs.total
  {
  }

  lemma ShareStep(v0: int, t0: int, v: int, t: int, v': int, t': int, keepRatio: bool)
    requires 0 < t0 && 0 < t <= t' && 0 <= v0 && v * t0 <= v0 * t
    requires v' == if keepRatio then v * t' / t else v
    ensures v' * t0 <= v0 * t'
  {
    if keepRatio {
      Floor(v, t, t');
      Chain(v', t0, t, v * t', v0 * t');
      assert v * t' * t0 <= v0 * t' * t by {
        assert v * t0 * t' <= v0 * t * t';
      }
    } else {
      assert v0 * t <= v0 * t';
    }
  }

  lemma Chain(q: int, a: int, t: int, x: int, y: int)
    requires 0 < a && 0 < t && q * t <= x
    ensures x * a <= y * t ==> q * a <= y
  {
    if x * a <= y * t {
      assert q * t * a <= x * a;
      assert (q * a) * t <= y * t;
    }
  }

  // ----- how far rounding drifts

  /** The limit after the totals of a sequence, starting from v at the first. */
  function Limit(v: int, totals: seq<int>): int
    requires totals != [] && forall i :: 0 <= i < |totals| ==> totals[i] > 0
  {
    if |totals| == 1 then v
    else Limit(v, totals[..|totals| - 1]) * totals[|totals| - 1] / totals[|totals| - 2]
  }

  /** 1/t1 + ... + 1/tn */
  function Reciprocals(totals: seq<int>): real
    requires totals != [] && forall i :: 0 <= i < |totals| ==> totals[i] > 0
  {
    if |totals| == 1 then 0.0
    else Reciprocals(totals[..|totals| - 1]) + 1.0 / totals[|totals| - 1] as real
  }

  lemma CancelRealFactor(r: real, s: real, p: real)
    requires p > 0.0
    ensures r * p < s * p ==> r < s
  {
    if s <= r {
      assert s * p <= r * p;
    }
  }

  lemma DivideInequality(x: int, t: int, y: int, t': int)
    requires 0 < t && 0 < t' && x * t' < y * t
    ensures x as real / t as real < y as real / t' as real
  {
    var r, s, p := x as real / t as real, y as real / t' as real, t as real * t' as real;
    assert r * t as real == x as real && s * t' as real == y as real;
    assert r * p == (x * t') as real && s * p == (y * t) as real;
    CancelRealFactor(r, s, p);
  }

  /** After n expansions, rounding has cost a limit less than 1/t1 + ... + 1/tn of its
      share of the total. */
  lemma {:induction false} DriftIsBounded(v: int, totals: seq<int>)
    requires totals != [] && forall i :: 0 <= i < |totals| ==> totals[i] > 0
    ensures var n := |totals| - 1;
            var drift := v as real / totals[0] as real - Limit(v, totals) as real / totals[n] as real;
            if n == 0 then drift == 0.0 else drift < Reciprocals(totals)
    decreases |totals|
  {
    var n := |totals| - 1;
    if n > 0 {
      var front := totals[..n];
      DriftIsBounded(v, front);
      var w, t, t' := Limit(v, front), totals[n - 1], totals[n];
      var q := w * t' / t;
      Floor(w, t, t');
      DivideInequality(w, t, q + 1, t');
      assert (q + 1) as real / t' as real == q as real / t' as real + 1.0 / t' as real;
    }
  }

  predicate Ascending(totals: seq<int>)
  {
    && (forall i :: 0 <= i < |totals| ==> 0 < totals[i] <= MAX_INT64)
    && (forall i :: 0 < i < |totals| ==> totals[i - 1] <= totals[i])
  }

  /** Growing a sound thin filesystem through a sequence of totals gives it exactly the
      limits that the drift is bounded for. */
  lemma {:induction false} ExpansionsFollowLimit(fs: Filesystem, totals: seq<int>)
    requires Sound(fs) && fs.thin && totals != [] && totals[0] == fs.total && Ascending(totals)
    ensures ResizeAll(fs, totals[1..], true)
            == Some(Filesystem(totals[|totals| - 1], true, Limit(fs.minSsd, totals), Limit(fs.maxSsd, totals)))
    decreases |totals|
  {
    var n := |totals| - 1;
    if n > 0 {
      var front, last := totals[..n], totals[n];
      assert Ascending(front);
      ExpansionsFollowLimit(fs, front);
      FollowOneMore(fs, front, last);
      assert totals == front + [last];
    }
  }

  lemma FollowOneMore(fs: Filesystem, front: seq<int>, last: int)
    requires Sound(fs) && fs.thin && front != [] && Ascending(front) && front[|front| - 1] <= last <= MAX_INT64
    requires ResizeAll(fs, front[1..], true)
             == Some(Filesystem(front[|front| - 1], true, Limit(fs.minSsd, front), Limit(fs.maxSsd, front)))
    ensures var totals := front + [last];
            ResizeAll(fs, totals[1..], true)
            == Some(Filesystem(last, true, Limit(fs.minSsd, totals), Limit(fs.maxSsd, totals)))
  {
    assert Sound(ResizeAll(fs, front[1..], true).value) by {
      ExpansionsKeepLimits(fs, front[1..], true);
    }
    ResizeOneMore(fs, front[1..], last);
    assert (front + [last])[1..] == front[1..] + [last];
    LimitOneMore(fs.minSsd, front, last);
    LimitOneMore(fs.maxSsd, front, last);
  }

  /** So the guaranteed and the maximum SSD share of a filesystem shrink, over any
      sequence of expansions, by less than the sum of the reciprocals of the new totals. */
  lemma ExpansionDriftIsBounded(fs: Filesystem, totals: seq<int>)
    requires Sound(fs) && fs.thin && |totals| > 1 && totals[0] == fs.total && Ascending(totals)
    ensures ResizeAll(fs, totals[1..], true).Some?
    ensures var f := ResizeAll(fs, totals[1..], true).value;
            && f.total == totals[|totals| - 1] > 0
            && fs.minSsd as real / fs.total as real - f.minSsd as real / f.total as real < Reciprocals(totals)
            && fs.maxSsd as real / fs.total as real - f.maxSsd as real / f.total as real < Reciprocals(totals)
  {
    ExpansionsFollowLimit(fs, totals);
    DriftIsBounded(fs.minSsd, totals);
    DriftIsBounded(fs.maxSsd, totals);
  }

  lemma LimitOneMore(v: int, front: seq<int>, last: int)
    requires front != [] && last > 0 && forall i :: 0 <= i < |front| ==> front[i] > 0
    ensures Limit(v, front + [last]) == Limit(v, front) * last / front[|front| - 1]
  {
    assert (front + [last])[..|front|] == front;
  }

  lemma ResizeOneMore(fs: Filesystem, front: seq<int>, last: int)
    requires ResizeAll(fs, front, true).Some?
    requires var f := ResizeAll(fs, front, true).value; Sound(f) && f.thin && f.total <= last <= MAX_INT64
    ensures var f := ResizeAll(fs, front, true).value;
            ResizeAll(fs, front + [last], true)
            == Some(Filesystem(last, true, f.minSsd * last / f.total, f.maxSsd * last / f.total))
  {
    assert (front + [last])[..|front|] == front;
    ResizeKeepsSound(ResizeAll(fs, front, true).value, last, true);
  }
}
