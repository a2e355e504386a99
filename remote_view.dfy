/**
  The remote-capture screen (components/RemoteView.tsx): a flash switch and a
  capture button that starts a one-second interval counting 3, 2, 1 down to
  the shutter. Each press starts an interval of its own with its own local
  `count`; nothing stops a second press while a countdown is running, and
  the shutter itself is not implemented (the code only has a comment there).
 */
module Remote {
  import opened Types

  /** The value `count` starts from on each press. */
  const StartCount: int := 3

  /**
    One run of the interval callback on its closure's `count`. `Some(c)`: the
    interval keeps running with `count` now `c`, and `c` is displayed.
    `None`: `count` reached zero, the interval cleared itself and the display
    was reset to null. In both cases the new `countdown` state equals the result.
   */
  function Fire(count: int): (next: Option<int>)
    ensures next.None? <==> count == 1
    ensures next.Some? ==> next.value == count - 1 && next.value != 0
  {
    if count - 1 == 0 then None else Some(count - 1)
  }

  /**
    The interval's state after `k` further firings; a cleared interval never
    fires again. While it runs it has lost exactly one per firing.
   */
  function FireN(count: int, k: nat): (r: Option<int>)
    ensures k == 0 ==> r == Some(count)
    ensures r.Some? ==> r.value == count - k
    decreases k
  {
    if k == 0 then Some(count)
    else match Fire(count)
      case None => None
      case Some(c) => FireN(c, k - 1)
  }

  /** An interval started at `count` runs exactly `count` firings and then stops. */
  lemma {:induction false} FireNFrom(count: int, k: nat)
    requires count >= 1
    ensures FireN(count, k) == if k < count then Some(count - k) else None
    decreases k
  {
    if k > 0 {
      if count > 1 {
        FireNFrom(count - 1, k - 1);
      }
    }
  }

  /**
    The countdown of one press: 3 right away, then 2 and 1 after the first two
    firings, null from the third firing on, with the interval cleared.
   */
  lemma CountdownFromStart(k: nat)
    ensures k < 3 ==> FireN(StartCount, k) == Some(3 - k)
    ensures k >= 3 ==> FireN(StartCount, k) == None
  {
    FireNFrom(StartCount, k);
  }

  /** A countdown value the screen can hold: null or one of 1, 2, 3. */
  predicate InRange(c: Option<int>)
  {
    c.None? || 1 <= c.value <= 3
  }

  lemma CountdownInRange(k: nat)
    ensures InRange(FireN(StartCount, k))
    ensures FireN(StartCount, k) != Some(0)
  {
    FireNFrom(StartCount, k);
  }

  /**
    What the live view shows: the number when `countdown` is truthy, else the
    "Live Preview" badge (`None`); JavaScript treats 0 as false.
   */
  function Displayed(c: Option<int>): (d: Option<int>)
    ensures d.Some? ==> c == d && d.value != 0
    ensures d.None? ==> c.None? || c == Some(0)
  {
    match c
    case Some(n) => if n != 0 then Some(n) else None
    case None => None
  }

  /** Every countdown the screen can hold is displayed as it is: 0 never reaches the screen. */
  lemma DisplayedInRange(c: Option<int>)
    requires InRange(c)
    ensures Displayed(c) == c
  {
  }

  /**
    The interval list after interval `i` fired: that interval holds its new
    count, or is gone once it cleared itself; every other interval keeps its
    count and its place in the order.
   */
  function AfterFire(intervals: seq<int>, i: nat): (r: seq<int>)
    requires i < |intervals|
    ensures Fire(intervals[i]).Some? ==>
      |r| == |intervals| && r[i] == Fire(intervals[i]).value
      && forall j :: 0 <= j < |intervals| && j != i ==> r[j] == intervals[j]
    ensures Fire(intervals[i]).None? ==>
      |r| == |intervals| - 1
      && (forall j :: 0 <= j < i ==> r[j] == intervals[j])
      && (forall j :: i < j < |intervals| ==> r[j - 1] == intervals[j])
  {
    match Fire(intervals[i])
    case None => intervals[..i] + intervals[i + 1..]
    case Some(c) => intervals[i := c]
  }

  class RemoteView {
    /** The `countdown` state: null, or the number on screen. */
    var countdown: Option<int>
    var flashEnabled: bool
    /** The local `count` of every interval still scheduled, oldest first. */
    var intervals: seq<int>

    ghost predicate Valid()
      reads this
    {
      InRange(countdown) && forall i :: 0 <= i < |intervals| ==> 1 <= intervals[i] <= 3
    }

    constructor ()
      ensures Valid()
      ensures countdown == None && flashEnabled && intervals == []
    {
      countdown := None;
      flashEnabled := true;
      intervals := [];
    }

    /** `handleCapture`: show 3 and schedule a new interval whose `count` is 3. */
    method HandleCapture()
      modifies this
      ensures countdown == Some(StartCount)
      ensures intervals == old(intervals) + [StartCount]
      ensures flashEnabled == old(flashEnabled)
      ensures old(Valid()) ==> Valid()
    {
      countdown := Some(StartCount);
      intervals := intervals + [StartCount];
    }

    /** One firing of the scheduled interval number `i`. */
    method Tick(i: nat)
      requires i < |intervals|
      modifies this
      ensures countdown == Fire(old(intervals[i]))
      ensures intervals == AfterFire(old(intervals), i)
      ensures flashEnabled == old(flashEnabled)
      ensures old(Valid()) ==> Valid()
    {
      var next := Fire(intervals[i]);
      intervals := AfterFire(intervals, i);
      countdown := next;
    }

    /** The flash button: flip `flashEnabled` and nothing else. */
    method ToggleFlash()
      modifies this
      ensures flashEnabled == !old(flashEnabled)
      ensures countdown == old(countdown) && intervals == old(intervals)
    {
      flashEnabled := !flashEnabled;
    }

    /**
      A press with no countdown running, followed by three firings: the screen
      shows 3, then 2 and 1 (`d1`, `d2`, `d3`: what is displayed after the press
      and the first two firings), then is back to null with no interval left.
     */
    method CaptureCycle() returns (d1: Option<int>, d2: Option<int>, d3: Option<int>)
      requires intervals == []
      modifies this
      ensures d1 == Some(3) && d2 == Some(2) && d3 == Some(1)
      ensures countdown == None && Displayed(countdown) == None && intervals == []
      ensures flashEnabled == old(flashEnabled)
    {
      HandleCapture();
      d1 := Displayed(countdown);
      Tick(0);
      d2 := Displayed(countdown);
      Tick(0);
      d3 := Displayed(countdown);
      Tick(0);
    }
  }
}
