/** Satellite pass segmentation: cutting one satellite's sampled trajectory into passes, the maximal
    runs of samples at or above a minimum elevation. Steps whose propagation failed are passed over,
    and a pass reports its ends, its first highest point, and a duration that counts its points. */
module Passes {
  import opened Options

  const STEP_SECONDS: nat := 10

  /** Look angles at one propagation step; a step whose propagation failed has none. */
  datatype Look = Look(az: real, el: real, range: real)

  type Track = seq<Option<Look>>

  /** A point of a pass: its step number and its look angles. */
  datatype Point = Point(step: nat, look: Look)

  datatype Pass = Pass(aos: int, tca: int, los: int, maxElevation: real,
                       aosAzimuth: real, losAzimuth: real, duration: int, points: seq<Point>)

  function TimeOf(start: int, p: Point): int {
    start + p.step * STEP_SECONDS
  }

  predicate Above(o: Option<Look>, minEl: real) {
    o.Some? && o.value.el >= minEl
  }

  predicate Below(o: Option<Look>, minEl: real) {
    o.Some? && o.value.el < minEl
  }

  // ---------------------------------------------------------------------------
  // The runs of points at or above the minimum elevation
  // ---------------------------------------------------------------------------

  /** The runs closed by the first `k` steps, and the run still open after them. */
  function Closed(track: Track, k: nat, minEl: real): seq<seq<Point>>
    requires k <= |track|
  {
    if k == 0 then []
    else
      var before := Closed(track, k - 1, minEl);
      var open := Open(track, k - 1, minEl);
      if Below(track[k - 1], minEl) && open != [] then before + [open] else before
  }

  function Open(track: Track, k: nat, minEl: real): seq<Point>
    requires k <= |track|
  {
    if k == 0 then []
    else
      var o := track[k - 1];
      if Above(o, minEl) then Open(track, k - 1, minEl) + [Point(k - 1, o.value)]
      else if o.None? then Open(track, k - 1, minEl)
      else []
  }

  function Runs(track: Track, minEl: real): seq<seq<Point>> {
    RunsUpTo(track, |track|, minEl)
  }

  /** The position of the first maximum elevation. */
  function FirstMax(ps: seq<Point>): (i: nat)
    requires ps != []
    ensures i < |ps|
    ensures forall j | 0 <= j < |ps| :: ps[j].look.el <= ps[i].look.el
    ensures forall j | 0 <= j < i :: ps[j].look.el < ps[i].look.el
  {
    if |ps| == 1 then 0
    else
      var i := FirstMax(ps[..|ps| - 1]);
      if ps[|ps| - 1].look.el > ps[i].look.el then |ps| - 1 else i
  }

  function MakePass(start: int, ps: seq<Point>): Pass
    requires ps != []
  {
    var first, last, top := ps[0], ps[|ps| - 1], ps[FirstMax(ps)];
    Pass(TimeOf(start, first), TimeOf(start, top), TimeOf(start, last), top.look.el,
         first.look.az, last.look.az, (|ps| - 1) * STEP_SECONDS, ps)
  }

  function MakePasses(start: int, runs: seq<seq<Point>>): (ps: seq<Pass>)
    requires forall r <- runs :: r != []
    ensures |ps| == |runs|
    ensures forall i | 0 <= i < |runs| :: ps[i].points == runs[i]
  {
    seq(|runs|, i requires 0 <= i < |runs| => assert runs[i] in runs; MakePass(start, runs[i]))
  }

  lemma {:induction false} RunsNonEmpty(track: Track, k: nat, minEl: real)
    requires k <= |track|
    ensures forall r <- Closed(track, k, minEl) :: r != []
  {
    if k > 0 {
      RunsNonEmpty(track, k - 1, minEl);
    }
  }

  /** The passes of one satellite, as the loop finds them. */
  function PassesOf(start: int, track: Track, minEl: real): seq<Pass> {
    RunsNonEmpty(track, |track|, minEl);
    MakePasses(start, Runs(track, minEl))
  }

  /** The record appended when a pass ends. */
  function Finish(start: int, points: seq<Point>, tcaEl: real, tcaPoint: Option<Point>): Pass
    requires points != []
  {
    var first, last := points[0], points[|points| - 1];
    Pass(TimeOf(start, first), TimeOf(start, if tcaPoint.Some? then tcaPoint.value else first), TimeOf(start, last),
         tcaEl, first.look.az, last.look.az, (|points| - 1) * STEP_SECONDS, points)
  }

  lemma {:induction false} FinishIsMakePass(start: int, points: seq<Point>, tcaEl: real, tcaPoint: Option<Point>)
    requires points != [] && tcaPoint == Some(points[FirstMax(points)]) && tcaEl == tcaPoint.value.look.el
    ensures Finish(start, points, tcaEl, tcaPoint) == MakePass(start, points)
  {
  }

  lemma {:induction false} FirstMaxSnoc(points: seq<Point>, p: Point)
    requires points != []
    ensures FirstMax(points + [p]) == if p.look.el > points[FirstMax(points)].look.el then |points| else FirstMax(points)
  {
    assert (points + [p])[..|points|] == points;
  }

  lemma {:induction false} MakePassesSnoc(start: int, runs: seq<seq<Point>>, r: seq<Point>)
    requires (forall q <- runs :: q != []) && r != []
    ensures forall q <- runs + [r] :: q != []
    ensures MakePasses(start, runs + [r]) == MakePasses(start, runs) + [MakePass(start, r)]
  {
  }

  /** The loop's view of the open run: whether there is one, and its first maximum. */
  ghost predicate Tracks(open: seq<Point>, inPass: bool, tcaEl: real, tcaPoint: Option<Point>) {
    && (inPass <==> open != [])
    && (inPass ==> tcaPoint == Some(open[FirstMax(open)]) && tcaEl == tcaPoint.value.look.el)
  }

  /** The per-satellite loop over the valid steps. */
  method FindPasses(start: int, track: Track, minEl: real) returns (passes: seq<Pass>)
    ensures passes == PassesOf(start, track, minEl)
  {
    passes := [];
    var current: seq<Point> := [];
    var inPass := false;
    var tcaEl := -999.0;
    var tcaPoint: Option<Point> := None;
    RunsNonEmpty(track, |track|, minEl);
    for k := 0 to |track|
      invariant current == Open(track, k, minEl) && Tracks(current, inPass, tcaEl, tcaPoint)
      invariant forall r <- Closed(track, k, minEl) :: r != []
      invariant passes == MakePasses(start, Closed(track, k, minEl))
    {
      RunsNonEmpty(track, k + 1, minEl);
      if track[k].Some? {
        var look := track[k].value;
        if look.el >= minEl {
          var point := Point(k, look);
          if !inPass {
            inPass := true;
            current := [];
            tcaEl := look.el;
            tcaPoint := Some(point);
          } else {
            FirstMaxSnoc(current, point);
            if look.el > tcaEl {
              tcaEl := look.el;
              tcaPoint := Some(point);
            }
          }
          current := current + [point];
        } else if inPass {
          inPass := false;
          FinishIsMakePass(start, current, tcaEl, tcaPoint);
          MakePassesSnoc(start, Closed(track, k, minEl), current);
          passes := passes + [Finish(start, current, tcaEl, tcaPoint)];
          current := [];
          tcaEl := -999.0;
          tcaPoint := None;
        }
      }
    }
    if inPass {
      FinishIsMakePass(start, current, tcaEl, tcaPoint);
      MakePassesSnoc(start, Closed(track, |track|, minEl), current);
      passes := passes + [Finish(start, current, tcaEl, tcaPoint)];
    } else {
      assert Runs(track, minEl) == Closed(track, |track|, minEl);
    }
  }

  // ---------------------------------------------------------------------------
  // What the runs are
  // ---------------------------------------------------------------------------

  function Concat(runs: seq<seq<Point>>): seq<Point> {
    if runs == [] then [] else Concat(runs[..|runs| - 1]) + runs[|runs| - 1]
  }

  /** The valid points at or above the minimum elevation among the first `k` steps, in order. */
  function Visible(track: Track, k: nat, minEl: real): seq<Point>
    requires k <= |track|
  {
    if k == 0 then []
    else Visible(track, k - 1, minEl) + if Above(track[k - 1], minEl) then [Point(k - 1, track[k - 1].value)] else []
  }

  lemma {:induction false} ConcatSnoc(runs: seq<seq<Point>>, r: seq<Point>)
    ensures Concat(runs + [r]) == Concat(runs) + r
  {
    assert (runs + [r])[..|runs|] == runs;
  }

  lemma {:induction false} RunsCover(track: Track, k: nat, minEl: real)
    requires k <= |track|
    ensures Concat(Closed(track, k, minEl)) + Open(track, k, minEl) == Visible(track, k, minEl)
  {
    if k > 0 {
      RunsCover(track, k - 1, minEl);
      var before, open := Closed(track, k - 1, minEl), Open(track, k - 1, minEl);
      ConcatSnoc(before, open);
      if Above(track[k - 1], minEl) {
        assert Concat(before) + (open + [Point(k - 1, track[k - 1].value)])
            == Concat(before) + open + [Point(k - 1, track[k - 1].value)];
      }
    }
  }

  /** A run read off the track: points at increasing steps, each one the track's own sample at
      or above the minimum, with no valid sample skipped between its first and last point. */
  ghost predicate IsRun(track: Track, r: seq<Point>, minEl: real) {
    && r != []
    && (forall i | 0 <= i < |r| :: r[i].step < |track| && track[r[i].step] == Some(r[i].look) && r[i].look.el >= minEl)
    && (forall i, j | 0 <= i < j < |r| :: r[i].step < r[j].step)
    && (forall s | r[0].step <= s <= r[|r| - 1].step && track[s].Some? :: OnRun(r, s))
  }

  ghost predicate OnRun(r: seq<Point>, s: nat) {
    exists i :: 0 <= i < |r| && r[i].step == s
  }

  /** Between the two runs the track dips below the minimum. */
  ghost predicate Separated(track: Track, a: seq<Point>, b: seq<Point>, minEl: real) {
    a != [] && b != [] && exists s :: a[|a| - 1].step < s < b[0].step && s < |track| && track[s].Some? && track[s].value.el < minEl
  }

  ghost predicate AllSeparated(track: Track, runs: seq<seq<Point>>, minEl: real) {
    forall i | 0 < i < |runs| :: Separated(track, runs[i - 1], runs[i], minEl)
  }

  /** `r` is a run that nothing valid follows before step `k`. */
  ghost predicate RunAt(track: Track, r: seq<Point>, k: nat, minEl: real)
    requires k <= |track|
  {
    && IsRun(track, r, minEl) && r[|r| - 1].step < k
    && forall s | r[|r| - 1].step < s < k :: track[s].None?
  }

  lemma {:induction false} SingletonRun(track: Track, k: nat, look: Look, minEl: real)
    requires k < |track| && track[k] == Some(look) && look.el >= minEl
    ensures RunAt(track, [Point(k, look)], k + 1, minEl)
  {
    var r := [Point(k, look)];
    forall s | r[0].step <= s <= r[|r| - 1].step && track[s].Some? ensures OnRun(r, s) {
      assert r[0].step == s;
    }
  }

  lemma {:induction false} ExtendRun(track: Track, r: seq<Point>, k: nat, look: Look, minEl: real)
    requires k < |track| && RunAt(track, r, k, minEl)
    requires track[k] == Some(look) && look.el >= minEl
    ensures RunAt(track, r + [Point(k, look)], k + 1, minEl)
  {
    var r' := r + [Point(k, look)];
    forall s | r'[0].step <= s <= k && track[s].Some? ensures OnRun(r', s) {
      if s == k {
        assert r'[|r|].step == s;
      } else {
        assert OnRun(r, s);
        var i :| 0 <= i < |r| && r[i].step == s;
        assert r'[i].step == s;
      }
    }
  }

  lemma {:induction false} OpenIsRun(track: Track, k: nat, minEl: real)
    requires k <= |track|
    ensures Open(track, k, minEl) != [] ==> RunAt(track, Open(track, k, minEl), k, minEl)
  {
    if k > 0 {
      OpenIsRun(track, k - 1, minEl);
      var before, o := Open(track, k - 1, minEl), track[k - 1];
      if Above(o, minEl) {
        if before == [] {
          SingletonRun(track, k - 1, o.value, minEl);
          assert before + [Point(k - 1, o.value)] == [Point(k - 1, o.value)];
        } else {
          ExtendRun(track, before, k - 1, o.value, minEl);
        }
      }
    }
  }

  lemma {:induction false} ClosedAreRuns(track: Track, k: nat, minEl: real)
    requires k <= |track|
    ensures forall r <- Closed(track, k, minEl) :: IsRun(track, r, minEl)
  {
    if k > 0 {
      ClosedAreRuns(track, k - 1, minEl);
      OpenIsRun(track, k - 1, minEl);
    }
  }

  /** The runs of the first `k` steps, the open one included. */
  function RunsUpTo(track: Track, k: nat, minEl: real): seq<seq<Point>>
    requires k <= |track|
  {
    var open := Open(track, k, minEl);
    Closed(track, k, minEl) + if open == [] then [] else [open]
  }

  ghost predicate EndedBefore(track: Track, r: seq<Point>, k: int, minEl: real) {
    r != [] && exists s :: r[|r| - 1].step < s < k && s < |track| && track[s].Some? && track[s].value.el < minEl
  }

  lemma {:induction false} EndedLater(track: Track, r: seq<Point>, k: int, m: int, minEl: real)
    requires EndedBefore(track, r, k, minEl) && k <= m
    ensures EndedBefore(track, r, m, minEl)
  {
  }

  lemma {:induction false} AppendSeparated(track: Track, runs: seq<seq<Point>>, r: seq<Point>, minEl: real)
    requires AllSeparated(track, runs, minEl) && r != []
    requires runs != [] ==> EndedBefore(track, runs[|runs| - 1], r[0].step, minEl)
    ensures AllSeparated(track, runs + [r], minEl)
  {
    var all := runs + [r];
    forall i | 0 < i < |all| ensures Separated(track, all[i - 1], all[i], minEl) {
      assert all[i - 1] == runs[i - 1];
    }
  }

  lemma {:induction false} ExtendSeparated(track: Track, runs: seq<seq<Point>>, r: seq<Point>, p: Point, minEl: real)
    requires AllSeparated(track, runs + [r], minEl) && r != []
    ensures AllSeparated(track, runs + [r + [p]], minEl)
  {
    var before, after := runs + [r], runs + [r + [p]];
    forall i | 0 < i < |after| ensures Separated(track, after[i - 1], after[i], minEl) {
      assert Separated(track, before[i - 1], before[i], minEl);
    }
  }

  /** Runs are separated; a run that is no longer open ended at a dip. */
  lemma {:induction false} RunsSeparated(track: Track, k: nat, minEl: real)
    requires k <= |track|
    ensures AllSeparated(track, RunsUpTo(track, k, minEl), minEl)
    ensures var closed := Closed(track, k, minEl);
            Open(track, k, minEl) == [] && closed != [] ==> EndedBefore(track, closed[|closed| - 1], k, minEl)
  {
    if k > 0 {
      RunsSeparated(track, k - 1, minEl);
      OpenIsRun(track, k - 1, minEl);
      var closed, open := Closed(track, k - 1, minEl), Open(track, k - 1, minEl);
      var o := track[k - 1];
      if Above(o, minEl) {
        var p := Point(k - 1, o.value);
        if open == [] {
          assert open + [p] == [p] && RunsUpTo(track, k - 1, minEl) == closed;
          AppendSeparated(track, closed, [p], minEl);
        } else {
          ExtendSeparated(track, closed, open, p, minEl);
        }
      } else if Below(o, minEl) && open != [] {
        assert EndedBefore(track, open, k, minEl);
        assert RunsUpTo(track, k, minEl) == closed + [open];
      } else {
        assert RunsUpTo(track, k, minEl) == RunsUpTo(track, k - 1, minEl);
        if open == [] && closed != [] {
          EndedLater(track, closed[|closed| - 1], k - 1, k, minEl);
        }
      }
    }
  }

  // ---------------------------------------------------------------------------
  // Main results
  // ---------------------------------------------------------------------------

  function AllPoints(ps: seq<Pass>): seq<Point> {
    if ps == [] then [] else AllPoints(ps[..|ps| - 1]) + ps[|ps| - 1].points
  }

  lemma {:induction false} PointsAreRuns(ps: seq<Pass>, runs: seq<seq<Point>>)
    requires |ps| == |runs| && forall i | 0 <= i < |ps| :: ps[i].points == runs[i]
    ensures AllPoints(ps) == Concat(runs)
  {
    if ps != [] {
      PointsAreRuns(ps[..|ps| - 1], runs[..|runs| - 1]);
    }
  }

  /** The points of all passes, concatenated, are exactly the valid samples at or above the
      minimum elevation, in order. */
  lemma {:induction false} PassesCoverVisible(start: int, track: Track, minEl: real)
    ensures AllPoints(PassesOf(start, track, minEl)) == Visible(track, |track|, minEl)
  {
    RunsNonEmpty(track, |track|, minEl);
    RunsCover(track, |track|, minEl);
    PointsAreRuns(PassesOf(start, track, minEl), Runs(track, minEl));
    ConcatSnoc(Closed(track, |track|, minEl), Open(track, |track|, minEl));
    assert Closed(track, |track|, minEl) + [] == Closed(track, |track|, minEl);
  }

  lemma {:induction false} VisibleExactly(track: Track, k: nat, minEl: real, p: Point)
    requires k <= |track|
    ensures p in Visible(track, k, minEl) <==> p.step < k && track[p.step] == Some(p.look) && p.look.el >= minEl
  {
    if k > 0 {
      VisibleExactly(track, k - 1, minEl, p);
    }
  }

  /** A sample is a point of some pass if and only if its step propagated and its elevation is at least
      the minimum. */
  lemma {:induction false} PointsExactly(start: int, track: Track, minEl: real, p: Point)
    ensures p in AllPoints(PassesOf(start, track, minEl)) <==>
            p.step < |track| && track[p.step] == Some(p.look) && p.look.el >= minEl
  {
    PassesCoverVisible(start, track, minEl);
    VisibleExactly(track, |track|, minEl, p);
  }

  /** Every pass is a run of the track without a dip inside, and consecutive passes are separated
      by a valid sample below the minimum. */
  lemma {:induction false} PassesAreMaximalRuns(start: int, track: Track, minEl: real)
    ensures var ps := PassesOf(start, track, minEl);
            && (forall i | 0 <= i < |ps| :: IsRun(track, ps[i].points, minEl))
            && (forall i | 0 < i < |ps| :: Separated(track, ps[i - 1].points, ps[i].points, minEl))
  {
    var ps, runs := PassesOf(start, track, minEl), Runs(track, minEl);
    ClosedAreRuns(track, |track|, minEl);
    OpenIsRun(track, |track|, minEl);
    RunsSeparated(track, |track|, minEl);
    forall i | 0 <= i < |ps| ensures IsRun(track, ps[i].points, minEl) {
      assert ps[i].points == runs[i] && runs[i] in runs;
    }
    forall i | 0 < i < |ps| ensures Separated(track, ps[i - 1].points, ps[i].points, minEl) {
      assert ps[i - 1].points == runs[i - 1] && ps[i].points == runs[i];
    }
  }

  /** Acquisition and loss of signal are the times and azimuths of the first and the last visible
      sample of the pass; steps are ten seconds apart. */
  lemma {:induction false} PassEndsAreVisibleEnds(start: int, track: Track, minEl: real, n: nat)
    requires n < |PassesOf(start, track, minEl)|
    ensures var p := PassesOf(start, track, minEl)[n];
            && p.points != []
            && (forall i | 0 <= i < |p.points| :: p.aos <= start + 10 * p.points[i].step <= p.los)
            && (exists i | 0 <= i < |p.points| :: start + 10 * p.points[i].step == p.aos && p.points[i].look.az == p.aosAzimuth)
            && (exists i | 0 <= i < |p.points| :: start + 10 * p.points[i].step == p.los && p.points[i].look.az == p.losAzimuth)
  {
    PassesAreMaximalRuns(start, track, minEl);
    RunsNonEmpty(track, |track|, minEl);
    var p := PassesOf(start, track, minEl)[n];
    assert p == MakePass(start, p.points);
    var last := |p.points| - 1;
    assert TimeOf(start, p.points[0]) == p.aos && TimeOf(start, p.points[last]) == p.los;
    forall i | 0 <= i < |p.points| ensures p.aos <= TimeOf(start, p.points[i]) <= p.los {
      assert p.points[0].step <= p.points[i].step <= p.points[last].step;
    }
  }

  /** The moment of closest approach is the first point of maximum elevation, and the reported
      maximum is that point's elevation. */
  lemma {:induction false} TcaIsFirstMaximum(start: int, track: Track, minEl: real, n: nat)
    requires n < |PassesOf(start, track, minEl)|
    ensures var p := PassesOf(start, track, minEl)[n];
            exists i | 0 <= i < |p.points| ::
              && p.tca == start + 10 * p.points[i].step && p.maxElevation == p.points[i].look.el
              && (forall j | 0 <= j < |p.points| :: p.points[j].look.el <= p.maxElevation)
              && (forall j | 0 <= j < i :: p.points[j].look.el < p.maxElevation)
  {
    RunsNonEmpty(track, |track|, minEl);
    var r := Runs(track, minEl)[n];
    assert r in Runs(track, minEl);
    assert PassesOf(start, track, minEl)[n] == MakePass(start, r);
    var i := FirstMax(r);
    assert r[i].look.el == MakePass(start, r).maxElevation;
  }

  lemma {:induction false} StepsSpread(r: seq<Point>, k: nat)
    requires k < |r| && forall i, j | 0 <= i < j < |r| :: r[i].step < r[j].step
    ensures r[k].step - r[0].step >= k
  {
    if k > 0 {
      StepsSpread(r, k - 1);
    }
  }

  lemma {:induction false} StepsDense(r: seq<Point>, k: nat)
    requires k < |r| && forall i, j | 0 <= i < j < |r| :: r[i].step < r[j].step
    requires forall s | r[0].step <= s <= r[|r| - 1].step :: OnRun(r, s)
    ensures r[k].step - r[0].step == k
  {
    if k > 0 {
      StepsDense(r, k - 1);
      var s := r[k - 1].step + 1;
      assert r[k - 1].step < r[k].step && (k < |r| - 1 ==> r[k].step < r[|r| - 1].step);
      assert OnRun(r, s);
      var i :| 0 <= i < |r| && r[i].step == s;
      assert k <= i && r[k].step <= r[i].step;
    }
  }

  lemma {:induction false} StepsTight(r: seq<Point>, i: nat, k: nat)
    requires i <= k < |r| && forall i, j | 0 <= i < j < |r| :: r[i].step < r[j].step
    requires r[k].step - r[0].step == k
    ensures r[i].step == r[0].step + i
    decreases k
  {
    if i < k {
      StepsSpread(r, k - 1);
      StepsTight(r, i, k - 1);
    }
  }

  /** A run spans exactly its number of steps if and only if no step inside it is invalid. */
  lemma {:induction false} RunSpan(track: Track, r: seq<Point>, minEl: real)
    requires IsRun(track, r, minEl)
    ensures var first, last := r[0].step, r[|r| - 1].step;
            && last - first >= |r| - 1
            && (last - first == |r| - 1 <==> forall s | first <= s <= last :: track[s].Some?)
  {
    var last := |r| - 1;
    StepsSpread(r, last);
    if forall s | r[0].step <= s <= r[last].step :: track[s].Some? {
      StepsDense(r, last);
    }
    if r[last].step - r[0].step == last {
      forall s | r[0].step <= s <= r[last].step ensures track[s].Some? {
        var i := s - r[0].step;
        StepsTight(r, i, last);
        assert track[r[i].step] == Some(r[i].look);
      }
    }
  }

  /** The reported duration counts points. It never exceeds LOS - AOS, and equals it if and only
      if no step inside the pass failed to propagate. */
  lemma {:induction false} DurationExactlyWhenNoGap(start: int, track: Track, minEl: real, n: nat)
    requires n < |PassesOf(start, track, minEl)|
    ensures var p := PassesOf(start, track, minEl)[n];
            && p.points != [] && p.points[|p.points| - 1].step < |track|
            && p.duration == 10 * (|p.points| - 1) && p.duration <= p.los - p.aos
            && (p.duration == p.los - p.aos <==>
                forall s | p.points[0].step <= s <= p.points[|p.points| - 1].step :: track[s].Some?)
  {
    PassesAreMaximalRuns(start, track, minEl);
    RunsNonEmpty(track, |track|, minEl);
    var p := PassesOf(start, track, minEl)[n];
    assert p == MakePass(start, p.points);
    RunSpan(track, p.points, minEl);
  }
}
