/**
  * Where a seek in time stops, and what the cursor it leaves behind shows from then on.
  */
module Mp4Seek {
  import opened Bytes
  import opened Mp4Table
  import opened Mp4Cursor

  /** The time at which run `i` starts. */
  function RunTime(times: seq<Run>, i: nat): nat
    requires i <= |times|
  {
    ExpandPrefix(times, i);
    TimeAt(times, Before(times, i))
  }

  /** The run in which the search for `target` stops, from run `i` on: the first one that ends at or after it. */
  ghost function StopsIn(times: seq<Run>, target: nat, i: nat): (r: nat)
    requires i <= |times|
    ensures i <= r <= |times| && (r < |times| ==> target <= RunTime(times, r + 1))
    ensures r > i ==> RunTime(times, r) < target
    decreases |times| - i
  {
    if i == |times| || RunTime(times, i + 1) >= target then i else StopsIn(times, target, i + 1)
  }

  /** The run in which the search for `target` stops. */
  ghost function StopRun(times: seq<Run>, target: nat): (r: nat)
    ensures r <= |times| && (r < |times| ==> target <= RunTime(times, r + 1))
    ensures r > 0 ==> RunTime(times, r) < target
  {
    StopsIn(times, target, 0)
  }

  /** A seek finds a sample: not beyond the last one, and not in a run of samples that take no time. */
  ghost predicate Found(t: Tables, target: nat) {
    var r := StopRun(t.times, target);
    && r < |t.times| && t.times[r].value > 0
    && (target < RunTime(t.times, r + 1) || r + 1 < |t.times|)
  }

  /** The target is the very time at which the run it is found in ends: the first sample behind that run. */
  ghost function EndOf(t: Tables, target: nat): (p: Option<nat>)
    ensures p.Some? ==> p.value <= Samples(t)
  {
    var r := StopRun(t.times, target);
    if r < |t.times| && target == RunTime(t.times, r + 1) then
      ExpandPrefix(t.times, r + 1);
      Some(Before(t.times, r + 1))
    else None
  }

  /** `k` is the last sample whose time is at most `target`. */
  ghost predicate Landing(times: seq<Run>, target: nat, k: nat) {
    k < |Expand(times)| && TimeAt(times, k) <= target < TimeAt(times, k + 1)
  }

  lemma LandingIsLast(times: seq<Run>, target: nat, k: nat, j: nat)
    requires Landing(times, target, k) && j < |Expand(times)|
    ensures TimeAt(times, j) <= target <==> j <= k
  {
    if j <= k {
      TimeMonotone(times, j, k);
    } else {
      TimeMonotone(times, k + 1, j);
    }
  }

  /** The sample a seek in time goes to: the last one not after the target, or the first one at a run's end. */
  ghost predicate LandsAt(t: Tables, target: nat, k: nat) {
    if EndOf(t, target).Some? then k == EndOf(t, target).value && k < Samples(t) && TimeAt(t.times, k) == target
    else Landing(t.times, target, k)
  }

  /** The time cursor has been sought: it is at the sample the target lands at, or late there. */
  ghost predicate Sought(t: Tables, target: nat, c: TimeCursor) {
    forall u: int {:trigger Unfold(u)} :: Unfold(u) ==>
      && c.pos <= Samples(t) && OnTime(t.times, c, c.pos, EndOf(t, target))
      && (if EndOf(t, target).Some? then c.pos == EndOf(t, target).value && TimeAt(t.times, c.pos) == target
          else Landing(t.times, target, c.pos))
  }

  /** `k` is the first key sample from `k0` on, or `k0` itself when no key is left. */
  ghost predicate KeyFrom(keys: Option<seq<uint32>>, k0: nat, k: nat) {
    if keys.None? || forall x :: x in keys.value ==> x <= k0 then k == k0
    else k0 <= k && k + 1 in keys.value && forall x :: x in keys.value && x > k0 ==> x >= k + 1
  }

  // ----- Run times

  lemma RunTimeStep(times: seq<Run>, i: nat)
    requires i < |times|
    ensures RunTime(times, i + 1) == RunTime(times, i) + times[i].count * times[i].value
    ensures RunTime(times, i + 1) <= TimeAt(times, |Expand(times)|)
  {
    TimeInRun(times, i, times[i].count);
    BeforeStep(times, i);
    ExpandPrefix(times, i + 1);
    TimeMonotone(times, Before(times, i + 1), |Expand(times)|);
  }

  lemma RunTimeMonotone(times: seq<Run>, i: nat, j: nat)
    requires i <= j <= |times|
    ensures RunTime(times, i) <= RunTime(times, j)
  {
    ExpandPrefix(times, i);
    ExpandPrefix(times, j);
    BeforeMonotone(times, i, j);
    TimeMonotone(times, Before(times, i), Before(times, j));
  }

  lemma {:induction false} StopsAt(times: seq<Run>, target: nat, j: nat, i: nat)
    requires j <= i <= |times| && (i == 0 || RunTime(times, i) < target)
    requires i < |times| ==> target <= RunTime(times, i + 1)
    ensures StopsIn(times, target, j) == i
    decreases i - j
  {
    if j < i {
      RunTimeMonotone(times, j + 1, i);
      StopsAt(times, target, j + 1, i);
    }
  }

  /** The search stops in the first run that ends at or after the target. */
  lemma StopRunIs(times: seq<Run>, target: nat, i: nat)
    requires i <= |times| && (i == 0 || RunTime(times, i) < target)
    requires i < |times| ==> target <= RunTime(times, i + 1)
    ensures StopRun(times, target) == i
  {
    StopsAt(times, target, 0, i);
  }

  /** A seek is late exactly when its target is the time at which some run ends. */
  lemma EndOfIs(t: Tables, target: nat)
    ensures EndOf(t, target).Some? <==> exists i :: 0 < i <= |t.times| && target == RunTime(t.times, i)
  {
    var r := StopRun(t.times, target);
    if i :| 0 < i <= |t.times| && target == RunTime(t.times, i) {
      if i <= r {
        RunTimeMonotone(t.times, i, r);
      } else {
        RunTimeMonotone(t.times, r + 1, i);
      }
    }
  }

  lemma RunTimeStart(times: seq<Run>)
    ensures RunTime(times, 0) == 0 && Before(times, 0) == 0
  {
    assert times[..0] == [];
  }

  /** The first sample behind a run exists exactly when another run follows. */
  lemma BehindRun(times: seq<Run>, r: nat)
    requires PositiveRuns(times) && r < |times|
    ensures Before(times, r + 1) < |Expand(times)| <==> r + 1 < |times|
    ensures Before(times, r + 1) <= |Expand(times)|
  {
    assert times[..|times|] == times;
    if r + 1 < |times| {
      BeforeStep(times, r + 1);
      BeforeMonotone(times, r + 2, |times|);
    }
  }

  /** Where the search has stopped decides whether there is a sample. */
  lemma FoundIs(t: Tables, target: nat, c: TimeCursor)
    requires PositiveRuns(t.times) && Sought(t, target, c)
    requires var r := StopRun(t.times, target); r < |t.times| && t.times[r].value > 0
    ensures c.pos <= Samples(t) && OnTime(t.times, c, c.pos, EndOf(t, target))
    ensures Found(t, target) <==> c.pos < Samples(t)
    ensures c.pos < Samples(t) ==> LandsAt(t, target, c.pos)
  {
    assert Unfold(0);
    BehindRun(t.times, StopRun(t.times, target));
  }

  // ----- The cursor behind a seek to the end of a run

  /**
    * Samples `p`, `p + 1`, ... as a seek to the end of a run, `p`, shows them: the cursor stays in the run that has
    * ended, so that from then on each step uses the difference of the sample before.
    */
  ghost predicate LateTime(times: seq<Run>, c: TimeCursor, k: nat, p: nat) {
    && 0 < p <= k == c.pos <= |Expand(times)| && c.run <= |times|
    && (if k == p then c.run < |times| && 0 < c.count == times[c.run].count && Before(times, c.run) + c.count == p
        else InRun(times, c.run, c.count, k - 1))
    && c.timestamp == LateTimeAt(times, k, p)
  }

  /** The time shown for sample `k`, modulo 2^32. */
  ghost function LateTimeAt(times: seq<Run>, k: nat, p: nat): uint32
    requires 0 < p <= k <= |Expand(times)|
  {
    (if k == p then TimeAt(times, p) else TimeAt(times, k - 1) + Expand(times)[p - 1]) % TWO32
  }

  /** The time of sample `k`, on a cursor that is late since sample `late.value`, or not at all. */
  ghost predicate OnTime(times: seq<Run>, c: TimeCursor, k: nat, late: Option<nat>) {
    if late.None? then TimeOk(times, c, k) else LateTime(times, c, k, late.value)
  }

  /** The cursor has come to sample `k`. */
  ghost predicate Follows(t: Tables, cr: Cursor, k: nat, late: Option<nat>) {
    && k < Samples(t)
    && forall u: int {:trigger Unfold(u)} :: Unfold(u) ==> Placed(t, cr, k) && OnTime(t.times, cr.time, k, late)
  }

  /** What a cursor that is late since `late`, or not late, shows as sample `k`. */
  ghost function ShownAt(t: Tables, k: nat, late: Option<nat>): Sample
    requires TablesOk(t) && k < Samples(t) && (late.Some? ==> 0 < late.value <= k)
  {
    if late.None? then SampleAt(t, k) else SampleAt(t, k).(time := LateTimeAt(t.times, k, late.value))
  }

  /**
    * The sample shown is the declared one, if and only if the difference before it is that of the run that had ended.
    */
  lemma ShownIsRight(t: Tables, k: nat, late: Option<nat>)
    requires TablesOk(t) && k < Samples(t) && (late.Some? ==> 0 < late.value <= k)
    ensures ShownAt(t, k, late) == SampleAt(t, k) <==>
              late.None? || k == late.value || Expand(t.times)[k - 1] == Expand(t.times)[late.value - 1]
  {
    if late.Some? {
      LateTimeRight(t.times, k, late.value);
    }
  }

  lemma FollowsShows(t: Tables, cr: Cursor, k: nat, late: Option<nat>)
    requires TablesOk(t) && Follows(t, cr, k, late)
    ensures late.Some? ==> 0 < late.value <= k
    ensures Shown(cr) == ShownAt(t, k, late)
  {
    assert Unfold(0);
    PlacedShowsSample(t, cr, k);
  }

  /** The samples shown from `start` on. */
  ghost predicate ShownFrom(t: Tables, shown: seq<Sample>, start: nat, late: Option<nat>)
    requires TablesOk(t) && start + |shown| <= Samples(t) && (late.Some? ==> 0 < late.value <= start)
  {
    forall i :: 0 <= i < |shown| ==> shown[i] == ShownAt(t, start + i, late)
  }

  lemma ShownMore(t: Tables, shown: seq<Sample>, start: nat, late: Option<nat>, cr: Cursor, k: nat)
    requires TablesOk(t) && k == start + |shown| <= Samples(t) && (late.Some? ==> 0 < late.value <= start)
    requires ShownFrom(t, shown, start, late) && Follows(t, cr, k, late)
    ensures ShownFrom(t, shown + [Shown(cr)], start, late)
  {
    FollowsShows(t, cr, k, late);
  }

  /** Every sample shown from `start` on is the declared one. */
  ghost predicate Declared(t: Tables, shown: seq<Sample>, start: nat)
    requires TablesOk(t) && start + |shown| <= Samples(t)
  {
    forall i :: 0 <= i < |shown| ==> shown[i] == SampleAt(t, start + i)
  }

  /** All differences still used behind sample `p` are those of the run that ended there. */
  ghost predicate SameSteps(t: Tables, start: nat, p: nat)
    requires 0 < p <= start < Samples(t)
  {
    forall j :: p <= j && start <= j + 1 < Samples(t) ==> Expand(t.times)[j] == Expand(t.times)[p - 1]
  }

  /**
    * Everything shown is right if and only if the target is not the end of a run, or the steps behind it are the same.
    */
  lemma AllRight(t: Tables, shown: seq<Sample>, start: nat, late: Option<nat>)
    requires TablesOk(t) && start + |shown| == Samples(t) && shown != [] && (late.Some? ==> 0 < late.value <= start)
    requires ShownFrom(t, shown, start, late)
    ensures Declared(t, shown, start) <==> late.None? || SameSteps(t, start, late.value)
  {
    forall i | 0 <= i < |shown|
      ensures shown[i] == SampleAt(t, start + i) <==>
                late.None? || start + i == late.value
                    || Expand(t.times)[start + i - 1] == Expand(t.times)[late.value - 1]
    {
      ShownIsRight(t, start + i, late);
    }
    if late.Some? && Declared(t, shown, start) {
      forall j | late.value <= j && start <= j + 1 < Samples(t)
        ensures Expand(t.times)[j] == Expand(t.times)[late.value - 1]
      {
        var i := j + 1 - start;
        assert shown[i] == SampleAt(t, start + i);
      }
    }
  }

  lemma LateTimeRight(times: seq<Run>, k: nat, p: nat)
    requires TimeAt(times, |Expand(times)|) < TWO32 && 0 < p <= k < |Expand(times)|
    ensures LateTimeAt(times, k, p) == TimeAt(times, k) <==> k == p || Expand(times)[k - 1] == Expand(times)[p - 1]
  {
    TimeMonotone(times, k, |Expand(times)|);
    if k == p {
      SmallMod(TimeAt(times, p));
    } else {
      TimeStep(times, k - 1);
      SameMod(TimeAt(times, k - 1), Expand(times)[p - 1], Expand(times)[k - 1]);
    }
  }

  lemma SameMod(a: nat, x: uint32, y: uint32)
    requires a + y < TWO32
    ensures (a + x) % TWO32 == a + y <==> x == y
  {
    if a + x >= TWO32 {
      ModUnique(a + x, 1, TWO32, a + x - TWO32);
    } else {
      SmallMod(a + x);
    }
  }

  lemma TickKeepsLate(times: seq<Run>, c: TimeCursor, k: nat, p: nat)
    requires PositiveRuns(times) && LateTime(times, c, k, p) && k < |Expand(times)|
    ensures c.run < |times| && LateTime(times, Ticked(times, c), k + 1, p)
  {
    if k == p {
      TickFirstLate(times, c, p);
    } else {
      LateInRun(times, c.run, c.count, k - 1);
      LateTimeStep(times, k, p, times[c.run].value);
    }
  }

  /** The first step from the end of a run repeats the difference of that run. */
  lemma TickFirstLate(times: seq<Run>, c: TimeCursor, p: nat)
    requires PositiveRuns(times) && LateTime(times, c, p, p) && p < |Expand(times)|
    ensures LateTime(times, Ticked(times, c), p + 1, p)
  {
    ExpandAt(times, c.run, c.count - 1);
    BeforeStep(times, c.run);
    LateTimeStep(times, p, p, times[c.run].value);
  }

  /** One step behind, the cursor moves through the runs as it should have before. */
  lemma LateInRun(times: seq<Run>, run: nat, place: nat, k: nat)
    requires PositiveRuns(times) && InRun(times, run, place, k) && k < |Expand(times)|
    ensures run < |times| && times[run].value == Expand(times)[k]
    ensures if place + 1 >= times[run].count then InRun(times, run + 1, 0, k + 1)
            else InRun(times, run, place + 1, k + 1)
  {
    InRunExists(times, run, place, k);
    NextInRun(times, run, place, k);
    ExpandAt(times, run, place);
  }

  lemma LateTimeStep(times: seq<Run>, k: nat, p: nat, v: uint32)
    requires 0 < p <= k < |Expand(times)| && v == Expand(times)[if k == p then p - 1 else k - 1]
    ensures Add32(LateTimeAt(times, k, p), v) == LateTimeAt(times, k + 1, p)
  {
    if k == p {
      SumWraps(TimeAt(times, p), v);
    } else {
      TimeStep(times, k - 1);
      SumWraps(TimeAt(times, k - 1) + Expand(times)[p - 1], v);
    }
  }

  lemma TickKeeps(times: seq<Run>, c: TimeCursor, k: nat, late: Option<nat>)
    requires PositiveRuns(times) && TimeAt(times, |Expand(times)|) < TWO32
    requires OnTime(times, c, k, late) && k < |Expand(times)|
    ensures c.run < |times| && OnTime(times, Ticked(times, c), k + 1, late)
  {
    if late.None? {
      TickKeepsTime(times, c, k);
    } else {
      TickKeepsLate(times, c, k, late.value);
    }
  }
}
