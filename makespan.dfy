/**
 * The makespan check stats.py and vrp.py run on a finished solution: the
 * longest tour, measured as the sum of its consecutive hops, against a
 * global time window.
 */
module Makespan {
  import opened Routes

  /** `max_duration`: the largest hop sum over the tours, starting from 0. */
  function MaxDuration(tempo: Table, sol: Solution): int
    requires IsTable(tempo) && InRange(sol, |tempo|)
  {
    if sol == [] then 0
    else
      var rest := MaxDuration(tempo, sol[..|sol| - 1]);
      var last := HopSum(tempo, sol[|sol| - 1]);
      if last > rest then last else rest
  }

  /** It is the maximum: no tour takes longer, and it is 0 or the duration of
      some tour. */
  lemma {:induction false} MaxDurationIsMax(tempo: Table, sol: Solution)
    requires IsTable(tempo) && InRange(sol, |tempo|)
    ensures MaxDuration(tempo, sol) >= 0
    ensures forall q :: 0 <= q < |sol| ==> HopSum(tempo, sol[q]) <= MaxDuration(tempo, sol)
    ensures MaxDuration(tempo, sol) == 0 || exists q :: 0 <= q < |sol| && HopSum(tempo, sol[q]) == MaxDuration(tempo, sol)
    decreases |sol|
  {
    if sol != [] {
      var n := |sol| - 1;
      var pre := sol[..n];
      MaxDurationIsMax(tempo, pre);
      forall q | 0 <= q < n
        ensures HopSum(tempo, sol[q]) <= MaxDuration(tempo, sol)
      {
        assert sol[q] == pre[q];
      }
      if MaxDuration(tempo, sol) != 0 && MaxDuration(tempo, sol) != HopSum(tempo, sol[n]) {
        var q :| 0 <= q < n && HopSum(tempo, pre[q]) == MaxDuration(tempo, pre);
        assert sol[q] == pre[q];
      }
    }
  }

  /** The window is met exactly when it is not negative and every tour fits in it. */
  lemma WithinWindow(tempo: Table, sol: Solution, timeWindow: int)
    requires IsTable(tempo) && InRange(sol, |tempo|)
    ensures MaxDuration(tempo, sol) <= timeWindow <==>
      timeWindow >= 0 && forall q :: 0 <= q < |sol| ==> HopSum(tempo, sol[q]) <= timeWindow
  {
    MaxDurationIsMax(tempo, sol);
  }

  /** The loop computing `max_duration`, hop by hop. */
  method ComputeMaxDuration(sol: Solution, tempo: Table) returns (maxDuration: int)
    requires IsTable(tempo) && InRange(sol, |tempo|)
    ensures maxDuration == MaxDuration(tempo, sol)
  {
    maxDuration := 0;
    var m := 0;
    while m < |sol|
      invariant 0 <= m <= |sol|
      invariant maxDuration == MaxDuration(tempo, sol[..m])
    {
      var route := sol[m];
      assert sol[..m + 1][..m] == sol[..m];
      var dur := 0;
      var i := 0;
      while i < |route| - 1
        invariant 0 <= i <= if |route| == 0 then 0 else |route| - 1
        invariant dur == if |route| == 0 then 0 else Hops(tempo, route, 0, i)
      {
        dur := dur + tempo[route[i]][route[i + 1]];
        i := i + 1;
      }
      if dur > maxDuration {
        maxDuration := dur;
      }
      m := m + 1;
    }
    assert sol[..|sol|] == sol;
  }

  /** stats.py's `is_feasible`: every tour fits in the window. */
  method IsFeasible(sol: Solution, tempo: Table, timeWindow: int) returns (feasible: bool)
    requires IsTable(tempo) && InRange(sol, |tempo|)
    ensures feasible <==> timeWindow >= 0 && forall q :: 0 <= q < |sol| ==> HopSum(tempo, sol[q]) <= timeWindow
  {
    var maxDuration := ComputeMaxDuration(sol, tempo);
    WithinWindow(tempo, sol, timeWindow);
    feasible := maxDuration <= timeWindow;
  }

  /** What vrp.py reports: the minutes left, or the minutes over. */
  datatype WindowReport = Respected(spare: int) | Exceeded(over: int)

  /** vrp.py's verdict on the window; the window is reported respected
      exactly when every tour fits in it, and the minutes reported are the
      gap between the longest tour and the window. */
  method CheckWindow(sol: Solution, tempo: Table, timeWindow: int) returns (report: WindowReport)
    requires IsTable(tempo) && InRange(sol, |tempo|)
    ensures report.Respected? <==> timeWindow >= 0 && forall q :: 0 <= q < |sol| ==> HopSum(tempo, sol[q]) <= timeWindow
    ensures report.Respected? ==> report.spare >= 0 && report.spare == timeWindow - MaxDuration(tempo, sol)
    ensures report.Exceeded? ==> report.over > 0 && report.over == MaxDuration(tempo, sol) - timeWindow
  {
    var maxDuration := ComputeMaxDuration(sol, tempo);
    WithinWindow(tempo, sol, timeWindow);
    if maxDuration > timeWindow {
      report := Exceeded(maxDuration - timeWindow);
    } else {
      report := Respected(timeWindow - maxDuration);
    }
  }
}
