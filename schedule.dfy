/**
  The fixed-step rule every driver applies: from the current time, step by
  h but never past tEnd (`if (h > tEnd - time) hh = tEnd - time;`), and
  keep stepping while time < tEnd. Time is an exact real here.
 */
module Schedule {

  /** The step actually applied at `time`. */
  function Clamp(h: real, tEnd: real, time: real): (hh: real)
    ensures hh <= h
    ensures time + hh <= tEnd
    ensures hh == h || time + hh == tEnd
    ensures time < tEnd && 0.0 < h ==> 0.0 < hh
  {
    if h > tEnd - time then tEnd - time else h
  }

  /** A bound on the steps still to come, used to show the loop ends. */
  function Remaining(time: real, tEnd: real, h: real): nat
    requires 0.0 < h
  {
    if time < tEnd then ((tEnd - time) / h).Floor + 1 else 0
  }

  lemma DivShift(a: real, h: real)
    requires 0.0 < h
    ensures (a - h) / h == a / h - 1.0
  {
    assert h / h == 1.0;
    assert (a - h) / h == a / h - h / h;
  }

  lemma RemainingDecreases(time: real, tEnd: real, h: real)
    requires 0.0 < h && time < tEnd
    ensures Remaining(time + Clamp(h, tEnd, time), tEnd, h) < Remaining(time, tEnd, h)
  {
    var next := time + Clamp(h, tEnd, time);
    if next < tEnd {
      var x := (tEnd - time) / h;
      assert next == time + h;
      DivShift(tEnd - time, h);
      assert tEnd - next == (tEnd - time) - h;
      assert (x - 1.0).Floor == x.Floor - 1;
    }
  }

  /** The number of steps the loop takes from `time`. */
  function StepCount(time: real, tEnd: real, h: real): nat
    requires 0.0 < h
    decreases Remaining(time, tEnd, h)
  {
    if time < tEnd then
      RemainingDecreases(time, tEnd, h);
      1 + StepCount(time + Clamp(h, tEnd, time), tEnd, h)
    else 0
  }

  /** The times the loop reaches from `time`, one per completed step. */
  function Grid(time: real, tEnd: real, h: real): (g: seq<real>)
    requires 0.0 < h
    ensures |g| == StepCount(time, tEnd, h)
    ensures tEnd <= time ==> g == []
    decreases Remaining(time, tEnd, h)
  {
    if time < tEnd then
      RemainingDecreases(time, tEnd, h);
      [time + Clamp(h, tEnd, time)] + Grid(time + Clamp(h, tEnd, time), tEnd, h)
    else []
  }

  /** Every time reached lies in (time, tEnd], and the last one is tEnd:
      the loop never overshoots and always lands on tEnd. */
  lemma {:induction false} GridInRange(time: real, tEnd: real, h: real)
    requires 0.0 < h
    ensures var g := Grid(time, tEnd, h);
      && (forall i :: 0 <= i < |g| ==> time < g[i] <= tEnd)
      && (time < tEnd ==> g != [] && g[|g| - 1] == tEnd)
    decreases Remaining(time, tEnd, h)
  {
    if time < tEnd {
      var next := time + Clamp(h, tEnd, time);
      RemainingDecreases(time, tEnd, h);
      GridInRange(next, tEnd, h);
      var g := Grid(time, tEnd, h);
      var rest := Grid(next, tEnd, h);
      assert g == [next] + rest;
      forall i | 0 <= i < |g|
        ensures time < g[i] <= tEnd
      {
        if 0 < i {
          assert g[i] == rest[i - 1];
        }
      }
    }
  }

  /** One step of the loop: the grid from `time` is the time reached
      followed by the grid from there. */
  lemma GridUnfold(time: real, tEnd: real, h: real)
    requires 0.0 < h && time < tEnd
    ensures Grid(time, tEnd, h) == [time + Clamp(h, tEnd, time)] + Grid(time + Clamp(h, tEnd, time), tEnd, h)
    ensures StepCount(time, tEnd, h) == 1 + StepCount(time + Clamp(h, tEnd, time), tEnd, h)
  {
  }

  /** One step along the grid: the time reached is the head of what was
      left, and one step fewer remains. */
  lemma GridStep(s0: seq<real>, before: seq<real>, time: real, next: real, tEnd: real, h: real)
    requires 0.0 < h && time < tEnd && next == time + Clamp(h, tEnd, time)
    requires s0 == before + Grid(time, tEnd, h)
    ensures s0 == before + [next] + Grid(next, tEnd, h)
    ensures StepCount(time, tEnd, h) == 1 + StepCount(next, tEnd, h)
  {
    GridUnfold(time, tEnd, h);
  }

  lemma TimesAssoc(a: seq<real>, x: real, b: seq<real>)
    ensures a + [x] + b == a + ([x] + b)
  {
  }

  function Ceil(x: real): int
  {
    -((-x).Floor)
  }

  lemma CeilShift(x: real)
    ensures Ceil(x - 1.0) == Ceil(x) - 1
  {
  }

  lemma CeilOfFraction(a: real, h: real)
    requires 0.0 < a <= h
    ensures Ceil(a / h) == 1
  {
    assert a / h <= h / h;
    assert h / h == 1.0;
  }

  /** The loop takes ceil((tEnd - time) / h) steps. */
  lemma {:induction false} StepCountIsCeil(time: real, tEnd: real, h: real)
    requires 0.0 < h && time < tEnd
    ensures StepCount(time, tEnd, h) == Ceil((tEnd - time) / h)
    decreases Remaining(time, tEnd, h)
  {
    var next := time + Clamp(h, tEnd, time);
    RemainingDecreases(time, tEnd, h);
    if next < tEnd {
      StepCountIsCeil(next, tEnd, h);
      DivShift(tEnd - time, h);
      assert tEnd - next == (tEnd - time) - h;
      CeilShift((tEnd - time) / h);
    } else {
      CeilOfFraction(tEnd - time, h);
    }
  }

  /** Times reached are strictly increasing, and each step is at most h. */
  lemma {:induction false} GridSteps(time: real, tEnd: real, h: real)
    requires 0.0 < h
    ensures var g := Grid(time, tEnd, h);
      (g != [] ==> g[0] - time <= h) &&
      forall i :: 0 < i < |g| ==> g[i - 1] < g[i] <= g[i - 1] + h
    decreases Remaining(time, tEnd, h)
  {
    if time < tEnd {
      var next := time + Clamp(h, tEnd, time);
      RemainingDecreases(time, tEnd, h);
      GridSteps(next, tEnd, h);
      var g := Grid(time, tEnd, h);
      assert g == [next] + Grid(next, tEnd, h);
      forall i | 0 < i < |g|
        ensures g[i - 1] < g[i] <= g[i - 1] + h
      {
        if i == 1 {
          assert g[1] == Grid(next, tEnd, h)[0];
        } else {
          assert g[i - 1] == Grid(next, tEnd, h)[i - 2] && g[i] == Grid(next, tEnd, h)[i - 1];
        }
      }
    }
  }

  /** Scenario: tEnd = 1.0, h = 0.5 gives two steps, landing at 0.5 and 1.0. */
  lemma HalfSteps()
    ensures Grid(0.0, 1.0, 0.5) == [0.5, 1.0]
  {
    assert Grid(1.0, 1.0, 0.5) == [];
    assert Grid(0.5, 1.0, 0.5) == [1.0];
  }

  /** Scenario: tEnd = 1.0, h = 0.3 gives 0.3, 0.3, 0.3 and a clamped 0.1. */
  lemma ClampedLastStep()
    ensures Grid(0.0, 1.0, 0.3) == [0.3, 0.6, 0.9, 1.0]
  {
    assert Grid(1.0, 1.0, 0.3) == [];
    assert Grid(0.9, 1.0, 0.3) == [1.0];
    assert Grid(0.6, 1.0, 0.3) == [0.9, 1.0];
    assert Grid(0.3, 1.0, 0.3) == [0.6, 0.9, 1.0];
  }

  /** The time reached after n steps of min(h, tEnd - time) from 0. */
  function TimeAt(n: nat, tEnd: real, h: real): real
  {
    if n == 0 then 0.0 else TimeAt(n - 1, tEnd, h) + Clamp(h, tEnd, TimeAt(n - 1, tEnd, h))
  }

  /** The steps of the loop are the fixed-step schedule: after n of them
      the steps still to come are the rest of the schedule from 0. */
  lemma {:induction false} TimeAtOnGrid(n: nat, tEnd: real, h: real)
    requires 0.0 < h && n <= StepCount(0.0, tEnd, h)
    ensures StepCount(TimeAt(n, tEnd, h), tEnd, h) == StepCount(0.0, tEnd, h) - n
    ensures Grid(TimeAt(n, tEnd, h), tEnd, h) == Grid(0.0, tEnd, h)[n..]
  {
    if n == 0 {
    } else {
      var t := TimeAt(n - 1, tEnd, h);
      TimeAtOnGrid(n - 1, tEnd, h);
      assert t < tEnd;
      GridUnfold(t, tEnd, h);
      assert Grid(0.0, tEnd, h)[n - 1..] == [Grid(0.0, tEnd, h)[n - 1]] + Grid(0.0, tEnd, h)[n..];
    }
  }

  /** The times the loop reaches are the schedule: the (i+1)-th step ends
      at the i-th time of the grid from 0 to tEnd. */
  lemma TimeAtIsGrid(i: nat, tEnd: real, h: real)
    requires 0.0 < h && i < StepCount(0.0, tEnd, h)
    ensures TimeAt(i + 1, tEnd, h) == Grid(0.0, tEnd, h)[i]
  {
    TimeAtOnGrid(i, tEnd, h);
    var t := TimeAt(i, tEnd, h);
    GridUnfold(t, tEnd, h);
    assert Grid(0.0, tEnd, h)[i..][0] == Grid(0.0, tEnd, h)[i];
  }

  /** A run whose steps all complete stops exactly at tEnd. */
  lemma TimeAtEnd(tEnd: real, h: real)
    requires 0.0 < h && 0.0 < tEnd
    ensures TimeAt(StepCount(0.0, tEnd, h), tEnd, h) == tEnd
  {
    GridInRange(0.0, tEnd, h);
    TimeAtIsGrid(StepCount(0.0, tEnd, h) - 1, tEnd, h);
  }
}
