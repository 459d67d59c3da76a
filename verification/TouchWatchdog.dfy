/** The touch flag of the helper service and the watchdog thread that releases a touch held for too long,
    as a timed automaton.

    Time advances only while the watchdog is asleep or waits with nothing to wait for: a waiter whose
    predicate holds, and a thread between two statements, runs first.  A run is any sequence of events;
    an event that is not enabled leaves the state as it is.
 */
module TouchWatchdog {

  const SLEEP := 3.0

  datatype Pc =
    | Head                  // at the test of the flag
    | Waiting               // in the wait, until the flag is set
    | Sleeping(from: real)  // in the sleep that began at `from`
    | Check(from: real)     // about to test the flag again
    | Forcing(from: real)   // about to release the touch

  datatype State = State(
    now: real,
    down: bool,
    since: real,  // when the flag last went from up to down
    pc: Pc)

  datatype Event = TouchDown | TouchUp | Elapse(delta: real) | Watch

  predicate CanElapse(s: State, delta: real) {
    delta > 0.0 &&
    match s.pc
    case Waiting => !s.down
    case Sleeping(from) => s.now + delta <= from + SLEEP
    case _ => false
  }

  predicate Enabled(s: State, e: Event) {
    match e
    case Elapse(delta) => CanElapse(s, delta)
    case Watch =>
      (match s.pc
       case Waiting => s.down
       case Sleeping(from) => s.now == from + SLEEP
       case _ => true)
    case _ => true
  }

  function Step(s: State, e: Event): State {
    if !Enabled(s, e) then s
    else
      match e
      case TouchDown => if s.down then s else s.(down := true, since := s.now)
      case TouchUp => s.(down := false)
      case Elapse(delta) => s.(now := s.now + delta)
      case Watch =>
        match s.pc
        case Head => s.(pc := if s.down then Sleeping(s.now) else Waiting)
        case Waiting => s.(pc := Head)
        case Sleeping(from) => s.(pc := Check(from))
        case Check(from) => s.(pc := if s.down then Forcing(from) else Head)
        case Forcing(_) => s.(down := false, pc := Head)
  }

  function After(s: State, es: seq<Event>): State {
    if es == [] then s else Step(After(s, es[..|es| - 1]), es[|es| - 1])
  }

  predicate Init(s: State) { !s.down && s.pc == Head }

  /** The watchdog is somewhere in the round that began to sleep at `from`. */
  predicate InRound(pc: Pc, from: real) { pc == Sleeping(from) || pc == Check(from) || pc == Forcing(from) }

  ghost predicate Inv(s: State) {
    match s.pc
    case Sleeping(from) => from <= s.now <= from + SLEEP && (s.down ==> from <= s.since <= s.now)
    case Check(from) => s.now == from + SLEEP && (s.down ==> from <= s.since <= s.now)
    case Forcing(from) => s.now == from + SLEEP && (s.down ==> from <= s.since <= s.now)
    case _ => s.down ==> s.since == s.now
  }

  lemma StepKeepsInv(s: State, e: Event)
    requires Inv(s)
    ensures Inv(Step(s, e))
  {
  }

  lemma {:induction false} RunKeepsInv(s: State, es: seq<Event>)
    requires Init(s)
    ensures Inv(After(s, es))
  {
    if es != [] {
      RunKeepsInv(s, es[..|es| - 1]);
      StepKeepsInv(After(s, es[..|es| - 1]), es[|es| - 1]);
    }
  }

  /** Main result: whatever the callers do, no touch stays down for more than three seconds. */
  lemma TouchIsBounded(s: State, es: seq<Event>)
    requires Init(s)
    ensures After(s, es).down ==> After(s, es).now <= After(s, es).since + 3.0
  {
    RunKeepsInv(s, es);
  }

  // ---------- Every touch is released ----------

  lemma OneMore(s: State, es: seq<Event>, e: Event)
    ensures After(s, es + [e]) == Step(After(s, es), e)
  {
    assert (es + [e])[..|es + [e]| - 1] == es;
  }

  lemma NoEvents(s: State)
    ensures After(s, []) == s
  {
  }

  lemma {:induction false} AfterConcat(s: State, a: seq<Event>, b: seq<Event>)
    ensures After(s, a + b) == After(After(s, a), b)
  {
    if b == [] {
      assert a + b == a;
    } else {
      var front := b[..|b| - 1];
      assert (a + b)[..|a + b| - 1] == a + front;
      AfterConcat(s, a, front);
    }
  }

  lemma OneFirst(s: State, e: Event, es: seq<Event>)
    ensures After(s, [e] + es) == After(Step(s, e), es)
  {
    hide Step;
    AfterConcat(s, [e], es);
    assert [] + [e] == [e];
    OneMore(s, [], e);
    NoEvents(s);
  }

  /** What the watchdog and the clock do when nobody touches: a waiter goes round the loop, a sleep runs to
      its end, and the touch is released. */
  function Undisturbed(pc: Pc, now: real): seq<Event> {
    match pc
    case Waiting => [Watch, Watch, Elapse(3.0), Watch, Watch, Watch]
    case Head => [Watch, Elapse(3.0), Watch, Watch, Watch]
    case Sleeping(from) => (if now < from + 3.0 then [Elapse(from + 3.0 - now)] else []) + [Watch, Watch, Watch]
    case Check(_) => [Watch, Watch]
    case Forcing(_) => [Watch]
  }

  /** When that is. */
  function ReleaseTime(pc: Pc, now: real): real {
    match pc
    case Waiting => now + 3.0
    case Head => now + 3.0
    case Sleeping(from) => from + 3.0
    case Check(_) => now
    case Forcing(_) => now
  }

  lemma ForcingReleases(s: State, from: real)
    requires s.down && (s.pc == Forcing(from) || s.pc == Check(from))
    ensures After(s, Undisturbed(s.pc, s.now)) == s.(down := false, pc := Head)
  {
    hide After;
    NoEvents(s.(down := false, pc := Head));
    if s.pc == Check(from) {
      OneFirst(s, Watch, [Watch]);
      assert [Watch] + [Watch] == [Watch, Watch];
    }
    OneFirst(s.(pc := Forcing(from)), Watch, []);
    assert [Watch] + [] == [Watch];
  }

  lemma SleepingReleases(s: State, from: real)
    requires s.down && s.pc == Sleeping(from) && s.now <= from + 3.0
    ensures After(s, Undisturbed(s.pc, s.now)) == s.(down := false, now := from + 3.0, pc := Head)
  {
    hide After;
    var woken := s.(now := from + 3.0);
    if s.now < from + 3.0 {
      OneFirst(s, Elapse(from + 3.0 - s.now), [Watch, Watch, Watch]);
    } else {
      assert [] + [Watch, Watch, Watch] == [Watch, Watch, Watch];
    }
    OneFirst(woken, Watch, [Watch, Watch]);
    assert [Watch] + [Watch, Watch] == [Watch, Watch, Watch];
    ForcingReleases(woken.(pc := Check(from)), from);
  }

  /** Main result: from every reachable state with the flag down, wherever the watchdog is, it releases the
      touch when nobody else does, no later than three seconds after it was set down. */
  lemma EveryTouchIsReleased(s: State, es: seq<Event>)
    requires Init(s) && After(s, es).down
    ensures var t := After(s, es);
            && After(t, Undisturbed(t.pc, t.now)) == t.(down := false, now := ReleaseTime(t.pc, t.now), pc := Head)
            && t.now <= ReleaseTime(t.pc, t.now) <= t.since + 3.0
  {
    RunKeepsInv(s, es);
    var t := After(s, es);
    hide After;
    match t.pc
    case Forcing(from) => ForcingReleases(t, from);
    case Check(from) => ForcingReleases(t, from);
    case Sleeping(from) => SleepingReleases(t, from);
    case Head => HeadReleases(t);
    case Waiting =>
      OneFirst(t, Watch, Undisturbed(Head, t.now));
      HeadReleases(t.(pc := Head));
      assert [Watch] + Undisturbed(Head, t.now) == Undisturbed(Waiting, t.now);
  }

  /** A touch lifted by the end of the sleep is not forced: the watchdog goes back to its loop and waits. */
  lemma LiftedTouchIsLeft(s: State, from: real)
    requires !s.down && s.pc == Sleeping(from) && s.now == from + 3.0
    ensures After(s, [Watch, Watch]) == s.(pc := Head)
    ensures After(s, [Watch, Watch, Watch]) == s.(pc := Waiting)
  {
    hide After;
    NoEvents(s);
    OneMore(s, [], Watch);
    OneMore(s, [Watch], Watch);
    OneMore(s, [Watch, Watch], Watch);
    assert [] + [Watch] == [Watch] && [Watch] + [Watch] == [Watch, Watch];
    assert [Watch, Watch] + [Watch] == [Watch, Watch, Watch];
  }

  lemma HeadReleases(s: State)
    requires s.down && s.pc == Head
    ensures After(s, Undisturbed(s.pc, s.now)) == s.(down := false, now := s.now + 3.0, pc := Head)
  {
    hide After;
    var asleep := s.(pc := Sleeping(s.now));
    OneFirst(s, Watch, Undisturbed(Sleeping(s.now), s.now));
    SleepingReleases(asleep, s.now);
    assert s.now + 3.0 - s.now == 3.0;
    assert [Watch] + Undisturbed(Sleeping(s.now), s.now) == Undisturbed(Head, s.now);
  }

  // ---------- What a forced release means ----------

  ghost predicate SleptSince(s: State, es: seq<Event>, j: nat, from: real) {
    && j < |es| && es[j] == Watch
    && After(s, es[..j]).pc == Head && After(s, es[..j]).down && After(s, es[..j]).now == from
    && forall k :: j < k <= |es| ==> InRound(After(s, es[..k]).pc, from)
  }

  lemma {:induction false} RoundBeganDown(s: State, es: seq<Event>, from: real)
    requires Init(s) && InRound(After(s, es).pc, from)
    ensures exists j: nat :: SleptSince(s, es, j, from)
  {
    assert es != [];
    var n := |es| - 1;
    var front := es[..n];
    assert es[..n + 1] == es;
    if InRound(After(s, front).pc, from) {
      RoundBeganDown(s, front, from);
      var j: nat :| SleptSince(s, front, j, from);
      assert es[..j] == front[..j];
      forall k | j < k <= |es|
        ensures InRound(After(s, es[..k]).pc, from)
      {
        if k <= n { assert es[..k] == front[..k]; }
      }
      assert SleptSince(s, es, j, from);
    } else {
      assert SleptSince(s, es, n, from);
    }
  }

  ghost predicate FoundDownAt(s: State, es: seq<Event>, k: nat, from: real) {
    && k < |es| && es[k] == Watch
    && After(s, es[..k]).pc == Check(from) && After(s, es[..k]).down
    && After(s, es[..k]).now == from + 3.0
  }

  lemma {:induction false} ForcingFoundDown(s: State, es: seq<Event>, from: real)
    requires Init(s) && After(s, es).pc == Forcing(from)
    ensures exists k: nat :: FoundDownAt(s, es, k, from)
  {
    assert es != [];
    var n := |es| - 1;
    var front := es[..n];
    if After(s, front).pc == Forcing(from) {
      ForcingFoundDown(s, front, from);
      var k: nat :| FoundDownAt(s, front, k, from);
      assert es[..k] == front[..k];
      assert FoundDownAt(s, es, k, from);
    } else {
      RunKeepsInv(s, front);
      assert FoundDownAt(s, es, n, from);
    }
  }

  lemma {:induction false} TimeGoesForward(s: State, es: seq<Event>, k: nat)
    requires k <= |es|
    ensures After(s, es[..k]).now <= After(s, es).now
  {
    if k == |es| {
      assert es[..k] == es;
    } else {
      var front := es[..|es| - 1];
      assert front[..k] == es[..k];
      TimeGoesForward(s, front, k);
    }
  }

  /** A forced release ends a sleep of three seconds that both began and ended with the flag down. */
  lemma ForcedReleaseAfterSleep(s: State, es: seq<Event>, from: real)
    requires Init(s) && After(s, es).pc == Forcing(from)
    ensures exists j: nat, k: nat :: j < k && SleptSince(s, es, j, from) && FoundDownAt(s, es, k, from)
  {
    RoundBeganDown(s, es, from);
    ForcingFoundDown(s, es, from);
    var j: nat :| SleptSince(s, es, j, from);
    var k: nat :| FoundDownAt(s, es, k, from);
    if k <= j {
      assert es[..k] == es[..j][..k];
      TimeGoesForward(s, es[..j], k);
      assert false;
    }
  }

  // ---------- What it does not mean ----------

  ghost predicate Reachable(s: State) { exists s0, es :: Init(s0) && After(s0, es) == s }

  lemma ReachStep(s: State, e: Event)
    requires Reachable(s)
    ensures Reachable(Step(s, e))
  {
    var s0, es :| Init(s0) && After(s0, es) == s;
    assert (es + [e])[..|es + [e]| - 1] == es;
    assert After(s0, es + [e]) == Step(s, e);
  }

  /** The log line of a forced release speaks of a touch longer than three seconds.  A touch that was
      lifted and set down again during the sleep is released early: here after one second. */
  lemma ShortTouchIsForced()
    ensures exists s :: Reachable(s) && s.pc.Forcing? && s.down && s.now - s.since == 1.0
  {
    var s0 := State(0.0, false, 0.0, Head);
    assert After(s0, []) == s0;
    var s1 := Step(s0, TouchDown);
    ReachStep(s0, TouchDown);
    var s2 := Step(s1, Watch);
    ReachStep(s1, Watch);
    var s3 := Step(s2, Elapse(2.0));
    ReachStep(s2, Elapse(2.0));
    var s4 := Step(s3, TouchUp);
    ReachStep(s3, TouchUp);
    var s5 := Step(s4, TouchDown);
    ReachStep(s4, TouchDown);
    var s6 := Step(s5, Elapse(1.0));
    ReachStep(s5, Elapse(1.0));
    var s7 := Step(s6, Watch);
    ReachStep(s6, Watch);
    ReachStep(s7, Watch);
    assert Step(s7, Watch) == State(3.0, true, 2.0, Forcing(0.0));
  }

  /** A touch was set down at some time after `from`. */
  ghost predicate Interrupted(s: State, es: seq<Event>, from: real) {
    exists k :: 0 <= k < |es| && After(s, es[..k]).now > from && es[k] == TouchDown && !After(s, es[..k]).down
  }

  lemma InterruptedExtends(s: State, es: seq<Event>, e: Event, from: real)
    ensures Interrupted(s, es + [e], from) <==>
            Interrupted(s, es, from) || (After(s, es).now > from && e == TouchDown && !After(s, es).down)
  {
    var more := es + [e];
    assert more[..|es|] == es;
    forall k | 0 <= k < |es|
      ensures more[..k] == es[..k] && more[k] == es[k]
    {
    }
    if Interrupted(s, more, from) {
      var k :| 0 <= k < |more| && After(s, more[..k]).now > from && more[k] == TouchDown && !After(s, more[..k]).down;
      if k < |es| { assert es[..k] == more[..k]; }
    }
    if Interrupted(s, es, from) {
      var k :| 0 <= k < |es| && After(s, es[..k]).now > from && es[k] == TouchDown && !After(s, es[..k]).down;
      assert more[..k] == es[..k];
    }
  }

  lemma NotInterruptedYet(s: State, es: seq<Event>, from: real)
    requires After(s, es).now <= from || es == []
    ensures !Interrupted(s, es, from)
  {
    forall k | 0 <= k < |es|
      ensures After(s, es[..k]).now <= from
    {
      TimeGoesForward(s, es, k);
    }
  }

  /** Along one round, the current or last touch began with the sleep unless one was set down later. */
  lemma {:induction false} SinceIffNotInterrupted(s: State, es: seq<Event>)
    requires s.pc.Sleeping? && s.down && s.since == s.now == s.pc.from
    ensures s.pc.from <= After(s, es).since <= After(s, es).now
    ensures After(s, es).since == s.pc.from <==> !Interrupted(s, es, s.pc.from)
  {
    if es != [] {
      hide *;
      var front, last := es[..|es| - 1], es[|es| - 1];
      assert front + [last] == es;
      SinceIffNotInterrupted(s, front);
      InterruptedExtends(s, front, last, s.pc.from);
      OneMore(s, front, last);
      SinceAfterStep(After(s, front), last, s.pc.from);
    } else {
      NotInterruptedYet(s, es, s.pc.from);
      NoEvents(s);
    }
  }

  lemma SinceAfterStep(s: State, e: Event, from: real)
    requires from <= s.since <= s.now
    ensures from <= Step(s, e).since <= Step(s, e).now
    ensures Step(s, e).since == from <==> s.since == from && !(s.now > from && e == TouchDown && !s.down)
  {
  }

  /** A run is interrupted where its part after time `from` is. */
  lemma {:induction false} InterruptedLater(s: State, a: seq<Event>, b: seq<Event>, from: real)
    requires After(s, a).now <= from
    ensures Interrupted(s, a + b, from) <==> Interrupted(After(s, a), b, from)
  {
    hide *;
    if b == [] {
      assert a + b == a;
      NotInterruptedYet(s, a, from);
      NotInterruptedYet(After(s, a), b, from);
    } else {
      var front, last := b[..|b| - 1], b[|b| - 1];
      InterruptedLater(s, a, front, from);
      AfterConcat(s, a, front);
      InterruptedExtends(s, a + front, last, from);
      InterruptedExtends(After(s, a), front, last, from);
      assert (a + front) + [last] == a + b && front + [last] == b;
    }
  }

  /** Main result: exactly when the log line is right.  In every run, the touch about to be forced has lasted
      the full three seconds if and only if no touch was set down after the sleep began. */
  lemma FullTouchIffNotInterrupted(s: State, es: seq<Event>, from: real)
    requires Init(s) && After(s, es).pc == Forcing(from) && After(s, es).down
    ensures After(s, es).now - After(s, es).since == 3.0 <==> !Interrupted(s, es, from)
  {
    RoundBeganDown(s, es, from);
    var j: nat :| SleptSince(s, es, j, from);
    SleepBegins(s, es, j, from);
    RunKeepsInv(s, es);
    var a, b := es[..j + 1], es[j + 1..];
    assert a + b == es;
    hide After, Interrupted, SleptSince;
    AfterConcat(s, a, b);
    InterruptedLater(s, a, b, from);
    SinceIffNotInterrupted(After(s, a), b);
  }

  lemma SleepBegins(s: State, es: seq<Event>, j: nat, from: real)
    requires Init(s) && SleptSince(s, es, j, from)
    ensures var t := After(s, es[..j + 1]);
            t.pc == Sleeping(from) && t.down && t.since == t.now == from
  {
    RunKeepsInv(s, es[..j]);
    assert es[..j + 1][..j] == es[..j];
  }

  // ---------- The service object ----------

  class TouchHelper {
    var now: real  // the clock the thread sleeps on
    var currentIsDown: bool
    var since: real
    var pc: Pc

    function Snapshot(): State
      reads this
    {
      State(now, currentIsDown, since, pc)
    }

    constructor (start: real)
      ensures Init(Snapshot()) && now == start
    {
      now, since, currentIsDown, pc := start, start, false, Head;
    }

    method TouchDown()
      modifies this
      ensures Snapshot() == Step(old(Snapshot()), Event.TouchDown)
      ensures currentIsDown && pc == old(pc) && now == old(now)
    {
      if !currentIsDown { since := now; }
      currentIsDown := true;
    }

    method TouchUp()
      modifies this
      ensures Snapshot() == Step(old(Snapshot()), Event.TouchUp)
      ensures !currentIsDown && pc == old(pc) && now == old(now)
    {
      currentIsDown := false;
    }

    method GetTouchStatus() returns (down: bool)
      ensures down == Snapshot().down
    {
      down := currentIsDown;
    }

    /** A touch ends the wait of the watchdog, which goes round the loop and releases it. */
    method WakeAndRelease() returns (ghost es: seq<Event>)
      requires pc == Waiting && currentIsDown
      modifies this
      ensures Snapshot() == After(old(Snapshot()), es)
      ensures !currentIsDown && now == old(now) + 3.0 && pc == Head
    {
      ghost var start := Snapshot();
      pc := Head;
      OneFirst(start, Watch, []);
      NoEvents(Snapshot());
      ghost var rest := RunOnce();
      OneFirst(start, Watch, rest);
      es := [Watch] + rest;
    }

    /** One pass of the watchdog loop with nobody else running: wait for a touch or sleep and test again. */
    method RunOnce() returns (ghost es: seq<Event>)
      requires pc == Head
      modifies this
      ensures Snapshot() == After(old(Snapshot()), es)
      ensures pc == if old(currentIsDown) then Head else Waiting
      ensures old(currentIsDown) ==> !currentIsDown && now == old(now) + SLEEP
      ensures !old(currentIsDown) ==> now == old(now)
    {
      ghost var s := Snapshot();
      if !currentIsDown {
        es := [Watch];
        OneMore(s, [], Watch);
        assert [] + [Watch] == es;
        pc := Waiting;
      } else {
        es := [Watch, Elapse(SLEEP), Watch, Watch, Watch];
        FiveSteps(s, es);
        now := now + SLEEP;  // sleep(3)
        if currentIsDown {
          TouchUp();
        }
      }
    }
  }

  lemma FiveSteps(s: State, es: seq<Event>)
    requires |es| == 5
    ensures After(s, es) == Step(Step(Step(Step(Step(s, es[0]), es[1]), es[2]), es[3]), es[4])
  {
    hide Step;
    OneMore(s, [], es[0]);
    OneMore(s, [es[0]], es[1]);
    OneMore(s, [es[0], es[1]], es[2]);
    OneMore(s, [es[0], es[1], es[2]], es[3]);
    OneMore(s, [es[0], es[1], es[2], es[3]], es[4]);
    assert [] + [es[0]] == [es[0]] && [es[0]] + [es[1]] == [es[0], es[1]];
    assert [es[0], es[1]] + [es[2]] == [es[0], es[1], es[2]];
    assert [es[0], es[1], es[2]] + [es[3]] == [es[0], es[1], es[2], es[3]];
    assert [es[0], es[1], es[2], es[3]] + [es[4]] == es;
  }
}
