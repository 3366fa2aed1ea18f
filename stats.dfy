/** calculateStats: queue lengths and longest waits per approach over the
    waiting vehicles, and throughput and mean wait over the completed trips. */
module Statistics {
  import opened Model

  /** Number of waiting vehicles that arrived on `d`. */
  function QueueLength(vs: seq<Vehicle>, d: Direction): (n: nat)
    ensures n <= |vs|
    decreases |vs|
  {
    if vs == [] then 0
    else
      var last := vs[|vs| - 1];
      QueueLength(vs[..|vs| - 1], d) + (if last.status == Waiting && last.approach == d then 1 else 0)
  }

  /** The longest wait among waiting vehicles on `d`, starting from 0: a
      vehicle replaces the running value only when its wait is strictly larger. */
  function LongestWait(vs: seq<Vehicle>, d: Direction): (m: real)
    decreases |vs|
  {
    if vs == [] then 0.0
    else
      var m := LongestWait(vs[..|vs| - 1], d);
      var last := vs[|vs| - 1];
      if last.status == Waiting && last.approach == d && last.waitTime > m then last.waitTime else m
  }

  /** Sum of the trips' waits, folded from the left as `reduce` does. */
  function TotalWait(trips: seq<Trip>): real
    decreases |trips|
  {
    if trips == [] then 0.0 else TotalWait(trips[..|trips| - 1]) + trips[|trips| - 1].waitTime
  }

  function AverageWait(trips: seq<Trip>): real {
    if |trips| > 0 then TotalWait(trips) / (|trips| as real) else 0.0
  }

  /** The statistics record calculateStats builds; completed trips are carried over. */
  function StatsOf(vs: seq<Vehicle>, trips: seq<Trip>): Stats {
    Stats(|trips|, AverageWait(trips), Queues(vs), Longest(vs), trips)
  }

  /** `counts[d]++` */
  function Bump(p: PerDirection<nat>, d: Direction): PerDirection<nat> {
    match d
    case North => p.(north := p.north + 1)
    case South => p.(south := p.south + 1)
    case East => p.(east := p.east + 1)
    case West => p.(west := p.west + 1)
  }

  /** `longest[d] = w` */
  function Put(p: PerDirection<real>, d: Direction, w: real): PerDirection<real> {
    match d
    case North => p.(north := w)
    case South => p.(south := w)
    case East => p.(east := w)
    case West => p.(west := w)
  }

  function Queues(vs: seq<Vehicle>): PerDirection<nat> {
    PerDirection(QueueLength(vs, North), QueueLength(vs, South), QueueLength(vs, East), QueueLength(vs, West))
  }

  function Longest(vs: seq<Vehicle>): PerDirection<real> {
    PerDirection(LongestWait(vs, North), LongestWait(vs, South), LongestWait(vs, East), LongestWait(vs, West))
  }

  /** calculateStats, with its loop over the vehicles and its fold over the trips. */
  method CalculateStats(s: State) returns (r: State)
    ensures r == s.(stats := StatsOf(s.vehicles, s.stats.completedTrips))
  {
    var vs := s.vehicles;
    var queues: PerDirection<nat> := PerDirection(0, 0, 0, 0);
    var longest: PerDirection<real> := PerDirection(0.0, 0.0, 0.0, 0.0);
    for i := 0 to |vs|
      invariant queues == Queues(vs[..i])
      invariant longest == Longest(vs[..i])
    {
      var v := vs[i];
      assert vs[..i + 1][..i] == vs[..i];
      if v.status == Waiting {
        queues := Bump(queues, v.approach);
        if v.waitTime > longest.Get(v.approach) {
          longest := Put(longest, v.approach, v.waitTime);
        }
      }
    }
    assert vs[..|vs|] == vs;
    var trips := s.stats.completedTrips;
    var totalWait := 0.0;
    for j := 0 to |trips|
      invariant totalWait == TotalWait(trips[..j])
    {
      assert trips[..j + 1][..j] == trips[..j];
      totalWait := totalWait + trips[j].waitTime;
    }
    assert trips[..|trips|] == trips;
    var average := if |trips| > 0 then totalWait / (|trips| as real) else 0.0;
    r := s.(stats := Stats(|trips|, average, queues, longest, trips));
  }

  /** The longest wait on `d` is at least 0, bounds the wait of every waiting
      vehicle on `d`, and is either 0 or the wait of one of them. */
  lemma {:induction false} LongestWaitIsMaximum(vs: seq<Vehicle>, d: Direction)
    ensures LongestWait(vs, d) >= 0.0
    ensures forall i :: 0 <= i < |vs| && vs[i].status == Waiting && vs[i].approach == d ==>
      vs[i].waitTime <= LongestWait(vs, d)
    ensures LongestWait(vs, d) == 0.0 ||
      exists i :: 0 <= i < |vs| && vs[i].status == Waiting && vs[i].approach == d && vs[i].waitTime == LongestWait(vs, d)
    decreases |vs|
  {
    if vs != [] {
      var p := vs[..|vs| - 1];
      LongestWaitIsMaximum(p, d);
      if LongestWait(vs, d) != 0.0 && LongestWait(vs, d) == LongestWait(p, d) {
        var i :| 0 <= i < |p| && p[i].status == Waiting && p[i].approach == d && p[i].waitTime == LongestWait(p, d);
        assert vs[i] == p[i];
      }
    }
  }

  /** Only waiting vehicles count, one queue per approach: together the four
      queues hold every waiting vehicle. */
  lemma {:induction false} QueuesCountWaiting(vs: seq<Vehicle>)
    ensures QueueLength(vs, North) + QueueLength(vs, South) + QueueLength(vs, East) + QueueLength(vs, West)
         == WaitingCount(vs)
    decreases |vs|
  {
    if vs != [] {
      QueuesCountWaiting(vs[..|vs| - 1]);
    }
  }

  function WaitingCount(vs: seq<Vehicle>): nat
    decreases |vs|
  {
    if vs == [] then 0 else WaitingCount(vs[..|vs| - 1]) + (if vs[|vs| - 1].status == Waiting then 1 else 0)
  }

  /** Moving vehicles never enter the queues: with none waiting, every queue is empty and every longest wait is 0. */
  lemma {:induction false} NoWaitingNoQueues(vs: seq<Vehicle>, d: Direction)
    requires forall i :: 0 <= i < |vs| ==> vs[i].status == Moving
    ensures QueueLength(vs, d) == 0 && LongestWait(vs, d) == 0.0
    decreases |vs|
  {
    if vs != [] {
      NoWaitingNoQueues(vs[..|vs| - 1], d);
    }
  }

  /** The mean wait times the number of trips is their total wait; with no trips it is 0. */
  lemma AverageTimesCount(trips: seq<Trip>)
    ensures |trips| > 0 ==> AverageWait(trips) * (|trips| as real) == TotalWait(trips)
    ensures |trips| == 0 ==> AverageWait(trips) == 0.0
  {
  }

  /** With every trip's wait in [lo, hi], the total lies in [n * lo, n * hi]. */
  lemma {:induction false} TotalWaitBounds(trips: seq<Trip>, lo: real, hi: real)
    requires forall i :: 0 <= i < |trips| ==> lo <= trips[i].waitTime <= hi
    ensures (|trips| as real) * lo <= TotalWait(trips) <= (|trips| as real) * hi
    decreases |trips|
  {
    if trips != [] {
      TotalWaitBounds(trips[..|trips| - 1], lo, hi);
    }
  }

  /** With every trip's wait in [lo, hi], the mean wait lies in [lo, hi] too. */
  lemma AverageWaitBounds(trips: seq<Trip>, lo: real, hi: real)
    requires |trips| > 0
    requires forall i :: 0 <= i < |trips| ==> lo <= trips[i].waitTime <= hi
    ensures lo <= AverageWait(trips) <= hi
  {
    TotalWaitBounds(trips, lo, hi);
    var n := |trips| as real;
    AverageTimesCount(trips);
    var a := AverageWait(trips);
    assert a * n >= lo * n;
    assert a * n <= hi * n;
  }
}
