/**
 * `ActiveScreenComponentBase`: a page that tells the polling service it is on screen after its
 * first render and that it left the screen at the first navigation away from it.
 */
module Screens {
  import opened Refresh

  class ActiveScreenComponent {
    const refresh: DataRefresh
    var isCurrentScreen: bool
    /** Whether `HandleLocationChanged` is registered on `LocationChanged`. */
    ghost var subscribed: bool
    /** Whether the component has rendered once. */
    ghost var rendered: bool
    /** Every value this component passed to `SetScreenActive`, in order. */
    ghost var calls: seq<bool>

    /** At most one `true` call, at most one `false` call, the `false` one only after the
        `true` one, none before the first render; the flag is the last value passed. */
    ghost predicate Valid()
      reads this, refresh, refresh.timer, refresh.cancellationTokenSource
    {
      && refresh.Valid()
      && (!rendered ==> calls == [])
      && (rendered ==> calls == [true] || calls == [true, false])
      && isCurrentScreen == (|calls| > 0 && calls[|calls| - 1])
    }

    constructor(refresh: DataRefresh)
      requires refresh.Valid()
      ensures Valid() && this.refresh == refresh
      ensures !isCurrentScreen && !subscribed && !rendered && calls == []
    {
      this.refresh := refresh;
      isCurrentScreen := false;
      subscribed := false;
      rendered := false;
      calls := [];
    }

    /** `OnInitialized`: subscribe to location changes. */
    method OnInitialized()
      modifies this
      ensures subscribed
      ensures isCurrentScreen == old(isCurrentScreen) && rendered == old(rendered) && calls == old(calls)
    {
      subscribed := true;
    }

    /** `OnAfterRenderAsync`: the first render marks the screen current and activates polling;
        later renders change nothing. The renderer passes `firstRender` on the first call only. */
    method OnAfterRender(firstRender: bool)
      requires Valid()
      requires firstRender == !rendered
      modifies this, refresh, refresh.timer, refresh.cancellationTokenSource
      ensures Valid() && rendered && subscribed == old(subscribed)
      ensures firstRender ==> isCurrentScreen && calls == [true] && refresh.isActiveScreen
      ensures firstRender ==> refresh.isAppActive == old(refresh.isAppActive) && (refresh.Running() <==> refresh.isAppActive)
      ensures firstRender ==> refresh.counter == old(refresh.counter) && refresh.transporters == old(refresh.transporters)
      ensures firstRender ==> refresh.messages == old(refresh.messages) && refresh.fetches == old(refresh.fetches)
      ensures !firstRender ==> isCurrentScreen == old(isCurrentScreen) && calls == old(calls)
      ensures !firstRender ==> unchanged(refresh) && (refresh.timer != null ==> unchanged(refresh.timer))
    {
      if firstRender {
        isCurrentScreen := true;
        calls := calls + [true];
        rendered := true;
        refresh.SetScreenActive(true);
      }
    }

    /** `HandleLocationChanged`: leaving while current clears the flag and deactivates polling;
        otherwise nothing happens. */
    method HandleLocationChanged()
      requires Valid()
      modifies this, refresh, refresh.timer, refresh.cancellationTokenSource
      ensures Valid() && rendered == old(rendered) && subscribed == old(subscribed)
      ensures !isCurrentScreen
      ensures old(isCurrentScreen) ==> calls == old(calls) + [false] && !refresh.isActiveScreen && !refresh.Running()
      ensures old(isCurrentScreen) ==> refresh.isAppActive == old(refresh.isAppActive)
      ensures old(isCurrentScreen) ==> refresh.counter == old(refresh.counter) && refresh.transporters == old(refresh.transporters)
      ensures old(isCurrentScreen) ==> refresh.messages == old(refresh.messages) && refresh.fetches == old(refresh.fetches)
      ensures !old(isCurrentScreen) ==> calls == old(calls)
      ensures !old(isCurrentScreen) ==> unchanged(refresh) && (refresh.timer != null ==> unchanged(refresh.timer))
    {
      if isCurrentScreen {
        isCurrentScreen := false;
        calls := calls + [false];
        refresh.SetScreenActive(false);
      }
    }

    /** `Dispose`: unsubscribe; the flag and the polling service are left as they are. */
    method Dispose()
      modifies this
      ensures !subscribed
      ensures isCurrentScreen == old(isCurrentScreen) && rendered == old(rendered) && calls == old(calls)
    {
      subscribed := false;
    }
  }

  /** How many times `b` occurs in a call log. */
  function CallCount(calls: seq<bool>, b: bool): (n: nat)
    ensures n <= |calls|
    ensures n == 0 <==> b !in calls
  {
    if calls == [] then 0
    else CallCount(calls[..|calls| - 1], b) + (if calls[|calls| - 1] == b then 1 else 0)
  }

  /** A valid component has passed each value to the poller at most once, `false` only after
      `true`, and nothing before its first render. */
  lemma CallLogShape(c: ActiveScreenComponent)
    requires c.Valid()
    ensures CallCount(c.calls, true) <= 1 && CallCount(c.calls, false) <= 1
    ensures false in c.calls ==> c.calls == [true, false]
    ensures !c.rendered ==> c.calls == []
  {
    if c.calls == [true, false] {
      assert c.calls[..1] == [true];
      assert c.calls[..1][..0] == [];
    }
  }
}
