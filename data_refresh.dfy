/**
 * `DataRefresh`: the polling service. A timer runs while both the current screen and the app
 * are active; every sixth tick of it (every 30 seconds at one tick per 5 seconds) refreshes the
 * transporter positions and announces them. Timer callbacks and setter calls are taken as
 * sequential method calls.
 */
module Refresh {
  import opened Wrappers
  import opened Models

  /** A `CancellationTokenSource`: cancelled and disposed at most once each. */
  class CancellationTokenSource {
    var canceled: bool
    var disposed: bool

    constructor()
      ensures !canceled && !disposed
    {
      canceled := false;
      disposed := false;
    }

    method Cancel()
      modifies this
      ensures canceled && disposed == old(disposed)
    {
      canceled := true;
    }

    method Dispose()
      modifies this
      ensures disposed && canceled == old(canceled)
    {
      disposed := true;
    }
  }

  /** A `System.Threading.Timer` started with no delay and a period of five seconds. */
  class PollTimer {
    const dueSeconds: int
    const periodSeconds: int
    var disposed: bool

    constructor()
      ensures dueSeconds == 0 && periodSeconds == 5 && !disposed
    {
      dueSeconds := 0;
      periodSeconds := 5;
      disposed := false;
    }

    method Dispose()
      modifies this
      ensures disposed
    {
      disposed := true;
    }
  }

  /** Ticks per refresh: the counter fires when it reaches this. */
  const TicksPerRefresh := 6

  /** One tick on the counter: the new counter, and whether the tick refreshes. */
  function TickStep(counter: int): (int, bool) {
    if counter + 1 >= TicksPerRefresh then (0, true) else (counter + 1, false)
  }

  /** `n` ticks from `counter`: the counter after them and how many of them refresh. */
  function RunTicks(counter: int, n: nat): (int, nat)
    decreases n
  {
    if n == 0 then (counter, 0)
    else
      var (c, fired) := TickStep(counter);
      var (end, count) := RunTicks(c, n - 1);
      (end, count + (if fired then 1 else 0))
  }

  /** One refresh per six ticks: from any counter between 0 and 5, `n` ticks refresh
      `(counter + n) / 6` times and leave the counter at `(counter + n) % 6`. */
  lemma {:induction false} RunTicksCount(counter: int, n: nat)
    requires 0 <= counter < TicksPerRefresh
    ensures RunTicks(counter, n) == ((counter + n) % TicksPerRefresh, (counter + n) / TicksPerRefresh)
    decreases n
  {
    if n > 0 {
      var (c, fired) := TickStep(counter);
      RunTicksCount(c, n - 1);
      if fired {
        assert counter + n == TicksPerRefresh + (n - 1);
      } else {
        assert c + (n - 1) == counter + n;
      }
    }
  }

  class DataRefresh {
    var timer: PollTimer?
    var counter: int
    var isActiveScreen: bool
    var isAppActive: bool
    var cancellationTokenSource: CancellationTokenSource?
    var transporters: seq<PositionVm>

    /** The payload of every `DataRefreshedMessage` sent, in order. */
    ghost var messages: seq<seq<PositionVm>>
    /** The source whose token each fetch ran with; null for `CancellationToken.None`. */
    ghost var fetches: seq<CancellationTokenSource?>
    /** Ticks taken, and how many of them refreshed. */
    ghost var ticks: nat
    ghost var tickRefreshes: nat

    /** The timer and the source exist together, only while both flags hold, and are live; the
        counter stays below six and has counted every tick not yet turned into a refresh. */
    ghost predicate Valid()
      reads this, timer, cancellationTokenSource
    {
      && (timer == null <==> cancellationTokenSource == null)
      && (timer != null ==> isActiveScreen && isAppActive)
      && (timer != null ==> !timer.disposed && !cancellationTokenSource.canceled && !cancellationTokenSource.disposed)
      && 0 <= counter < TicksPerRefresh
      && ticks == TicksPerRefresh * tickRefreshes + counter
    }

    /** Screen inactive, app active, nothing running, no positions. */
    constructor()
      ensures Valid()
      ensures timer == null && cancellationTokenSource == null && counter == 0
      ensures !isActiveScreen && isAppActive && transporters == []
      ensures messages == [] && fetches == [] && ticks == 0
    {
      timer := null;
      counter := 0;
      isActiveScreen := false;
      isAppActive := true;
      cancellationTokenSource := null;
      transporters := [];
      messages := [];
      fetches := [];
      ticks := 0;
      tickRefreshes := 0;
    }

    /** Starts the timer with a fresh source when both flags hold and none runs; keeps a running
        one; otherwise cancels and disposes the source, disposes the timer and drops both. */
    method CheckTimerStatus()
      requires (timer == null <==> cancellationTokenSource == null)
      requires timer != null ==> !timer.disposed && !cancellationTokenSource.canceled && !cancellationTokenSource.disposed
      modifies this, timer, cancellationTokenSource
      ensures Running() <==> isActiveScreen && isAppActive
      ensures (timer == null <==> cancellationTokenSource == null)
      ensures timer != null ==> !timer.disposed && !cancellationTokenSource.canceled && !cancellationTokenSource.disposed
      ensures isActiveScreen && isAppActive && old(timer) != null ==>
        timer == old(timer) && cancellationTokenSource == old(cancellationTokenSource)
      ensures isActiveScreen && isAppActive && old(timer) == null ==> fresh(timer) && fresh(cancellationTokenSource)
      ensures !(isActiveScreen && isAppActive) && old(timer) != null ==>
        old(timer).disposed && old(cancellationTokenSource).canceled && old(cancellationTokenSource).disposed
      ensures isActiveScreen == old(isActiveScreen) && isAppActive == old(isAppActive)
      ensures counter == old(counter) && transporters == old(transporters)
      ensures messages == old(messages) && fetches == old(fetches)
      ensures ticks == old(ticks) && tickRefreshes == old(tickRefreshes)
    {
      if isActiveScreen && isAppActive {
        if timer == null {
          cancellationTokenSource := new CancellationTokenSource();
          timer := new PollTimer();
        }
      } else {
        if cancellationTokenSource != null {
          cancellationTokenSource.Cancel();
          cancellationTokenSource.Dispose();
        }
        cancellationTokenSource := null;
        if timer != null {
          timer.Dispose();
        }
        timer := null;
      }
    }

    /** Whether a timer is running. */
    predicate Running()
      reads this
    {
      timer != null
    }

    /** `SetScreenActive`: afterwards a timer runs exactly when both flags hold. */
    method SetScreenActive(isActive: bool)
      requires Valid()
      modifies this, timer, cancellationTokenSource
      ensures Valid()
      ensures isActiveScreen == isActive && isAppActive == old(isAppActive)
      ensures Running() <==> isActive && isAppActive
      ensures isActive && isAppActive && old(timer) != null ==>
        timer == old(timer) && cancellationTokenSource == old(cancellationTokenSource)
      ensures isActive && isAppActive && old(timer) == null ==> fresh(timer) && fresh(cancellationTokenSource)
      ensures !(isActive && isAppActive) && old(timer) != null ==>
        old(timer).disposed && old(cancellationTokenSource).canceled && old(cancellationTokenSource).disposed
      ensures counter == old(counter) && transporters == old(transporters)
      ensures messages == old(messages) && fetches == old(fetches) && ticks == old(ticks)
    {
      isActiveScreen := isActive;
      CheckTimerStatus();
    }

    /** `RefreshDataAsync`: a fetch that succeeds replaces the positions and sends one message
        with them; one that fails changes nothing. The fetch's outcome is an input. */
    method RefreshData(source: CancellationTokenSource?, fetched: Outcome<seq<PositionVm>>)
      modifies this
      ensures fetched.Ok? ==> transporters == fetched.value && messages == old(messages) + [fetched.value]
      ensures fetched.Throws? ==> transporters == old(transporters) && messages == old(messages)
      ensures fetches == old(fetches) + [source]
      ensures timer == old(timer) && cancellationTokenSource == old(cancellationTokenSource)
      ensures counter == old(counter) && isActiveScreen == old(isActiveScreen) && isAppActive == old(isAppActive)
      ensures ticks == old(ticks) && tickRefreshes == old(tickRefreshes)
    {
      fetches := fetches + [source];
      if fetched.Ok? {
        transporters := fetched.value;
        messages := messages + [transporters];
      }
    }

    /** `SetAppActive`: set the flag and the timer as `SetScreenActive` does; with `forceRefresh`,
        refresh once whatever the flags, with the token of the source running afterwards. */
    method SetAppActive(isActive: bool, forceRefresh: bool, fetched: Outcome<seq<PositionVm>>)
      requires Valid()
      modifies this, timer, cancellationTokenSource
      ensures Valid()
      ensures isAppActive == isActive && isActiveScreen == old(isActiveScreen)
      ensures Running() <==> isActiveScreen && isActive
      ensures isActiveScreen && isActive && old(timer) != null ==>
        timer == old(timer) && cancellationTokenSource == old(cancellationTokenSource)
      ensures isActiveScreen && isActive && old(timer) == null ==> fresh(timer) && fresh(cancellationTokenSource)
      ensures !(isActiveScreen && isActive) && old(timer) != null ==>
        old(timer).disposed && old(cancellationTokenSource).canceled && old(cancellationTokenSource).disposed
      ensures fetches == old(fetches) + (if forceRefresh then [cancellationTokenSource] else [])
      ensures forceRefresh && fetched.Ok? ==> transporters == fetched.value && messages == old(messages) + [fetched.value]
      ensures !(forceRefresh && fetched.Ok?) ==> transporters == old(transporters) && messages == old(messages)
      ensures counter == old(counter) && ticks == old(ticks)
    {
      isAppActive := isActive;
      CheckTimerStatus();
      if forceRefresh {
        RefreshData(cancellationTokenSource, fetched);
      }
    }

    /** `TickAsync`: count the tick; the sixth in a row resets the counter and refreshes. */
    method Tick(fetched: Outcome<seq<PositionVm>>)
      requires Valid()
      modifies this
      ensures Valid()
      ensures (counter, |fetches| - |old(fetches)| == 1) == TickStep(old(counter))
      ensures ticks == old(ticks) + 1
      ensures fetches == old(fetches) || fetches == old(fetches) + [cancellationTokenSource]
      ensures fetches == old(fetches) + [cancellationTokenSource] && fetched.Ok? ==>
        transporters == fetched.value && messages == old(messages) + [fetched.value]
      ensures fetches == old(fetches) || fetched.Throws? ==>
        transporters == old(transporters) && messages == old(messages)
      ensures timer == old(timer) && cancellationTokenSource == old(cancellationTokenSource)
      ensures isActiveScreen == old(isActiveScreen) && isAppActive == old(isAppActive)
    {
      counter := counter + 1;
      ticks := ticks + 1;
      if counter >= TicksPerRefresh {
        counter := 0;
        tickRefreshes := tickRefreshes + 1;
        RefreshData(cancellationTokenSource, fetched);
      }
    }

    /** `DisposeAsync`: cancel and dispose the source, dispose the timer, drop both. Calling it
        again finds nothing to dispose. */
    method Dispose()
      requires Valid()
      modifies this, timer, cancellationTokenSource
      ensures Valid()
      ensures timer == null && cancellationTokenSource == null
      ensures old(timer) != null ==>
        old(timer).disposed && old(cancellationTokenSource).canceled && old(cancellationTokenSource).disposed
      ensures isActiveScreen == old(isActiveScreen) && isAppActive == old(isAppActive)
      ensures counter == old(counter) && transporters == old(transporters)
      ensures messages == old(messages) && fetches == old(fetches) && ticks == old(ticks)
    {
      if cancellationTokenSource != null {
        cancellationTokenSource.Cancel();
        cancellationTokenSource.Dispose();
      }
      cancellationTokenSource := null;
      if timer != null {
        timer.Dispose();
      }
      timer := null;
    }
  }
}
