/**
 * The two view models fed by the polling service: the dashboard counts of `HomeViewModel` and
 * the refresh sequence of `TransporterListViewModel`.
 */
module ViewModels {
  import opened Wrappers
  import opened Models
  import opened Refresh

  /** How many elements of `s` satisfy `p` (LINQ `Count(predicate)`). */
  function CountWhere<T>(s: seq<T>, p: T -> bool): (n: nat)
    ensures n <= |s|
    ensures n == 0 <==> forall i :: 0 <= i < |s| ==> !p(s[i])
    ensures n == |s| <==> forall i :: 0 <= i < |s| ==> p(s[i])
  {
    if s == [] then 0
    else CountWhere(s[1..], p) + (if p(s[0]) then 1 else 0)
  }

  /** Counting is additive over concatenation. */
  lemma {:induction false} CountWhereAppend<T>(a: seq<T>, b: seq<T>, p: T -> bool)
    ensures CountWhere(a + b, p) == CountWhere(a, p) + CountWhere(b, p)
  {
    if a != [] {
      assert (a + b)[1..] == a[1..] + b;
      CountWhereAppend(a[1..], b, p);
    } else {
      assert a + b == b;
    }
  }

  /** A predicate implied by another counts at least as many elements. */
  lemma {:induction false} CountWhereMonotone<T>(s: seq<T>, p: T -> bool, q: T -> bool)
    requires forall i :: 0 <= i < |s| && p(s[i]) ==> q(s[i])
    ensures CountWhere(s, p) <= CountWhere(s, q)
  {
    if s != [] {
      CountWhereMonotone(s[1..], p, q);
    }
  }

  /** Ticks in two hours: `DateTime.AddHours(-2)`. */
  const TwoHoursTicks := 72_000_000_000

  /** A transporter is moving when its speed is above 0, speeding when above 80. */
  predicate Moving(t: PositionVm) { t.speed > 0.0 }
  predicate Speeding(t: PositionVm) { t.speed > 80.0 }

  /** A transporter is offline when its last report is strictly before `threshold`. */
  predicate OfflineBefore(threshold: int, t: PositionVm) { t.deviceDateTime < threshold }

  datatype Counts = Counts(total: nat, inMovement: nat, offline: nat, speeding: nat)

  /** The dashboard counts for one message at local time `nowTicks`. */
  function DashboardCounts(transporters: seq<PositionVm>, nowTicks: int): (c: Counts)
    ensures c.total == |transporters|
    ensures c.speeding <= c.inMovement <= c.total
    ensures c.offline <= c.total
    ensures c.inMovement == 0 <==> forall i :: 0 <= i < |transporters| ==> transporters[i].speed <= 0.0
  {
    CountWhereMonotone(transporters, Speeding, Moving);
    Counts(|transporters|, CountWhere(transporters, Moving),
           CountWhere(transporters, t => OfflineBefore(nowTicks - TwoHoursTicks, t)),
           CountWhere(transporters, Speeding))
  }

  /** Counts depend on the message alone: a longer message never lowers any of them. */
  lemma DashboardCountsGrow(a: seq<PositionVm>, b: seq<PositionVm>, nowTicks: int)
    ensures DashboardCounts(a, nowTicks).inMovement <= DashboardCounts(a + b, nowTicks).inMovement
    ensures DashboardCounts(a, nowTicks).offline <= DashboardCounts(a + b, nowTicks).offline
    ensures DashboardCounts(a, nowTicks).speeding <= DashboardCounts(a + b, nowTicks).speeding
  {
    CountWhereAppend(a, b, Moving);
    CountWhereAppend(a, b, t => OfflineBefore(nowTicks - TwoHoursTicks, t));
    CountWhereAppend(a, b, Speeding);
  }

  class HomeViewModel {
    var total: int
    var inMovement: int
    var offline: int
    var speeding: int
    /** Whether an `OnUpdated` callback is set. */
    var hasOnUpdated: bool
    /** How many times `OnUpdated` has been invoked. */
    ghost var updates: nat

    /** All counts zero, no callback. */
    constructor()
      ensures total == 0 && inMovement == 0 && offline == 0 && speeding == 0
      ensures !hasOnUpdated && updates == 0
    {
      total := 0;
      inMovement := 0;
      offline := 0;
      speeding := 0;
      hasOnUpdated := false;
      updates := 0;
    }

    method SetOnUpdated(present: bool)
      modifies this
      ensures hasOnUpdated == present
      ensures total == old(total) && inMovement == old(inMovement) && offline == old(offline)
      ensures speeding == old(speeding) && updates == old(updates)
    {
      hasOnUpdated := present;
    }

    /** `HandleRefreshMessage`: overwrite the four counts from the message, then invoke
        `OnUpdated` once if it is set. When two hours before `nowTicks` is before year 1,
        `AddHours` throws after `Total` and `InMovement` are set and the rest is skipped. */
    method HandleRefreshMessage(transporters: seq<PositionVm>, nowTicks: int) returns (error: Option<Exception>)
      requires 0 <= nowTicks
      modifies this
      ensures var c := DashboardCounts(transporters, nowTicks);
        && total == c.total && inMovement == c.inMovement
        && (error.None? <==> nowTicks >= TwoHoursTicks)
        && (error.None? ==> offline == c.offline && speeding == c.speeding)
        && (error.None? ==> updates == old(updates) + (if hasOnUpdated then 1 else 0))
        && (error.Some? ==> error.value == ArgumentOutOfRange && offline == old(offline)
                            && speeding == old(speeding) && updates == old(updates))
      ensures hasOnUpdated == old(hasOnUpdated)
      ensures error.None? ==> speeding <= inMovement <= total && offline <= total
    {
      var c := DashboardCounts(transporters, nowTicks);
      total := |transporters|;
      inMovement := CountWhere(transporters, Moving);
      if nowTicks - TwoHoursTicks < 0 {
        return Some(ArgumentOutOfRange);
      }
      var threshold := nowTicks - TwoHoursTicks;
      offline := CountWhere(transporters, t => OfflineBefore(threshold, t));
      speeding := CountWhere(transporters, Speeding);
      if hasOnUpdated {
        updates := updates + 1;
      }
      return None;
    }
  }

  /** One observable assignment made by `TransporterListViewModel.RefreshDataAsync`. */
  datatype Assignment =
    | SetTransporters(value: Option<seq<PositionVm>>)
    | SetIsRefreshing(flag: bool)
    | SetSharedTransporters(positions: seq<PositionVm>)

  class TransporterListViewModel {
    const dataRefresh: DataRefresh
    var transporters: Option<seq<PositionVm>>
    var isRefreshing: bool
    /** Every assignment made so far, in order. */
    ghost var assignments: seq<Assignment>

    constructor(dataRefresh: DataRefresh)
      ensures this.dataRefresh == dataRefresh
      ensures transporters.None? && !isRefreshing && assignments == []
    {
      this.dataRefresh := dataRefresh;
      transporters := None;
      isRefreshing := false;
      assignments := [];
    }

    /** `RefreshDataAsync`: clear the list and raise the flag, fetch, publish the result to the
        polling service on success, and lower the flag whatever happened; a failure propagates.
        The fetch's outcome is an input. */
    method RefreshData(fetched: Outcome<seq<PositionVm>>) returns (error: Option<Exception>)
      modifies this, dataRefresh`transporters
      ensures !isRefreshing
      ensures fetched.Ok? ==> error.None? && transporters == Some(fetched.value) && dataRefresh.transporters == fetched.value
      ensures fetched.Throws? ==> error == Some(fetched.error) && transporters.None?
                                  && dataRefresh.transporters == old(dataRefresh.transporters)
      ensures assignments == old(assignments) + [SetTransporters(None), SetIsRefreshing(true)]
        + (if fetched.Ok? then [SetTransporters(Some(fetched.value)), SetSharedTransporters(fetched.value)] else [])
        + [SetIsRefreshing(false)]
      ensures (transporters, isRefreshing) == Replay(old(transporters), old(isRefreshing), assignments[|old(assignments)|..])
    {
      ghost var before := assignments;
      RefreshStates(old(transporters), old(isRefreshing), fetched);
      transporters := None;
      isRefreshing := true;
      assignments := assignments + [SetTransporters(None), SetIsRefreshing(true)];
      if fetched.Ok? {
        transporters := Some(fetched.value);
        dataRefresh.transporters := fetched.value;
        assignments := assignments + [SetTransporters(transporters), SetSharedTransporters(fetched.value)];
        error := None;
      } else {
        error := Some(fetched.error);
      }
      isRefreshing := false;
      assignments := assignments + [SetIsRefreshing(false)];
      assert assignments[|before|..] == [SetTransporters(None), SetIsRefreshing(true)]
        + (if fetched.Ok? then [SetTransporters(Some(fetched.value)), SetSharedTransporters(fetched.value)] else [])
        + [SetIsRefreshing(false)];
    }
  }

  /** The state an assignment log leaves behind, starting from `(list, flag)`. */
  function Replay(list: Option<seq<PositionVm>>, flag: bool, log: seq<Assignment>): (Option<seq<PositionVm>>, bool)
    decreases |log|
  {
    if log == [] then (list, flag)
    else
      var (l, f) := Replay(list, flag, log[..|log| - 1]);
      match log[|log| - 1]
      case SetTransporters(v) => (v, f)
      case SetIsRefreshing(b) => (l, b)
      case SetSharedTransporters(_) => (l, f)
  }

  /** During any refresh the list is empty while the flag is up: the state just before the
      fetch is `(null, true)`, and the refresh ends with the flag down and the list holding the
      fetched positions on success, null on failure. */
  lemma RefreshStates(list: Option<seq<PositionVm>>, flag: bool, fetched: Outcome<seq<PositionVm>>)
    ensures var prefix := [SetTransporters(None), SetIsRefreshing(true)];
      Replay(list, flag, prefix) == (None, true)
    ensures var log := [SetTransporters(None), SetIsRefreshing(true)]
        + (if fetched.Ok? then [SetTransporters(Some(fetched.value)), SetSharedTransporters(fetched.value)] else [])
        + [SetIsRefreshing(false)];
      Replay(list, flag, log) == (if fetched.Ok? then Some(fetched.value) else None, false)
  {
    var prefix := [SetTransporters(None), SetIsRefreshing(true)];
    assert prefix[..1] == [SetTransporters(None)];
    assert prefix[..1][..0] == [];
    if fetched.Ok? {
      var log := prefix + [SetTransporters(Some(fetched.value)), SetSharedTransporters(fetched.value)] + [SetIsRefreshing(false)];
      var l3 := prefix + [SetTransporters(Some(fetched.value))];
      var l4 := l3 + [SetSharedTransporters(fetched.value)];
      assert l3[..2] == prefix;
      assert Replay(list, flag, l3) == (Some(fetched.value), true);
      assert l4[..3] == l3;
      assert Replay(list, flag, l4) == (Some(fetched.value), true);
      assert log[..4] == l4;
    } else {
      var log := prefix + [] + [SetIsRefreshing(false)];
      assert log[..2] == prefix;
    }
  }
}
