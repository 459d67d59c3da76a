/** A sensor of the sub-HAL: its sampling period, the loop that samples it, and the calls it answers. */
module SamplingSensor {
  import opened Basics

  newtype int32 = x: int | -0x8000_0000 <= x < 0x8000_0000
  newtype int64 = x: int | -0x8000_0000_0000_0000 <= x < 0x8000_0000_0000_0000

  datatype Result = Ok | BadValue | InvalidOperation

  /** How a sensor answers the calls its class overrides. */
  datatype Kind = Continuous | OneShot

  datatype EventKind = Sample | FlushComplete | AdditionalInfo | Injected

  /** What is fixed when a sensor is constructed; delays are in microseconds. */
  datatype Info = Info(kind: Kind, minDelay: int32, maxDelay: int32, injectable: bool)

  // ---------- The sampling period ----------

  /** The implicit conversion of a 64-bit period to the 32-bit parameter of batch(). */
  function Narrow(x: int64): (y: int32)
    ensures (x as int - y as int) % 0x1_0000_0000 == 0
  {
    var low := x as int % 0x1_0000_0000;
    (if low < 0x8000_0000 then low else low - 0x1_0000_0000) as int32
  }

  lemma NarrowKeeps(x: int32)
    ensures Narrow(x as int64) == x
  {
  }

  /** std::clamp */
  function Clamp(v: int, lo: int, hi: int): int {
    if v < lo then lo else if hi < v then hi else v
  }

  /** The delays make sense and the products in nanoseconds fit 32 bits. */
  predicate DelaysFit(info: Info) {
    && info.minDelay <= info.maxDelay
    && -0x8000_0000 <= info.minDelay as int * 1000
    && info.maxDelay as int * 1000 < 0x8000_0000
  }

  function Lowest(info: Info): int { info.minDelay as int * 1000 }

  function Highest(info: Info): int { info.maxDelay as int * 1000 }

  /** When there is one period to choose from, or narrowing leaves the period alone, or on the far side of
      the bound it exceeded. */
  predicate NarrowsHarmlessly(info: Info, period: int64) {
    if info.minDelay == info.maxDelay then true
    else if period >= 0x8000_0000 then Narrow(period) as int >= Highest(info)
    else if period < -0x8000_0000 then Narrow(period) as int <= Lowest(info)
    else true
  }

  /** The period that is stored is the requested one, clamped, exactly when narrowing is harmless. */
  lemma StoredPeriodIsClampedRequest(info: Info, period: int64)
    requires DelaysFit(info)
    ensures Clamp(Narrow(period) as int, Lowest(info), Highest(info)) ==
            Clamp(period as int, Lowest(info), Highest(info))
            <==> NarrowsHarmlessly(info, period)
  {
    if -0x8000_0000 <= period < 0x8000_0000 {
      assert Narrow(period) as int == period as int;
    }
  }

  /** A request for the longest period can be stored as the shortest. */
  lemma LongPeriodStoredAsShortest(info: Info)
    requires DelaysFit(info) && 0 <= info.minDelay < info.maxDelay
    ensures Clamp(Narrow(0x1_0000_0000) as int, Lowest(info), Highest(info)) == Lowest(info)
    ensures Clamp(0x1_0000_0000, Lowest(info), Highest(info)) == Highest(info)
  {
  }

  // ---------- The sampling loop ----------

  /** What one pass of the loop sees: the flags under the mutex, the clock, and the period each of the two
      times it is read, which a concurrent batch() may change in between. */
  datatype Turn = Turn(enabled: bool, mode: Mode, now: int64, period: int64, periodAgain: int64)

  predicate Samples(t: Turn) { t.enabled && t.mode == Normal }

  datatype Log = Log(last: int, posts: seq<int>, waits: seq<int>)

  /** Times of the posts and lengths of the timed waits after some turns. */
  function LogAfter(last: int, turns: seq<Turn>): Log {
    if turns == [] then Log(last, [], [])
    else
      var log := LogAfter(last, turns[..|turns| - 1]);
      var t := turns[|turns| - 1];
      if !Samples(t) then log
      else if t.now as int >= log.last + t.period as int
      then Log(t.now as int, log.posts + [t.now as int], log.waits + [t.periodAgain as int])
      else log.(waits := log.waits + [log.last + t.period as int - t.now as int])
  }

  /** Any two posts are as many times p apart as there are posts from one to the other. */
  ghost predicate Spaced(posts: seq<int>, p: int) {
    forall i, j :: 0 <= i <= j < |posts| ==> posts[j] - posts[i] >= (j - i) * p
  }

  lemma NeighboursTooClose(posts: seq<int>, p: int, j: nat)
    requires 0 < j < |posts| && posts[j] - posts[j - 1] < p
    ensures !Spaced(posts, p)
  {
    OneTimes(j - (j - 1), p);
    assert posts[j] - posts[j - 1] < (j - (j - 1)) * p;
  }

  lemma OneTimes(n: int, p: int)
    requires n == 1
    ensures n * p == p
  {
  }

  lemma SpacedExtends(posts: seq<int>, p: int, now: int)
    requires Spaced(posts, p) && (posts != [] ==> now >= posts[|posts| - 1] + p)
    ensures Spaced(posts + [now], p)
  {
    var n := |posts|;
    forall i | 0 <= i < n
      ensures now - posts[i] >= (n - i) * p
    {
      assert posts[n - 1] - posts[i] >= (n - 1 - i) * p;
      assert (n - i) * p == (n - 1 - i) * p + p;
    }
  }

  /** With periods of at least p, whatever the clock does, the posts are p apart, and the first one comes p
      after the last sample before. */
  lemma {:induction false} PostsAreSpaced(last: int, turns: seq<Turn>, p: int)
    requires forall k :: 0 <= k < |turns| ==> turns[k].period as int >= p
    ensures var log := LogAfter(last, turns);
            && log.last == (if log.posts == [] then last else log.posts[|log.posts| - 1])
            && (log.posts != [] ==> log.posts[0] >= last + p)
            && Spaced(log.posts, p)
  {
    if turns != [] {
      var front, t := turns[..|turns| - 1], turns[|turns| - 1];
      PostsAreSpaced(last, front, p);
      var before, log := LogAfter(last, front), LogAfter(last, turns);
      if log.posts != before.posts { SpacedExtends(before.posts, p, t.now as int); }
    }
  }

  /** On a pass the sensor samples only if it is on and in normal mode and the period has passed since the last
      sample; then it posts at the time of the pass and waits for a period, else it waits for what is left. */
  lemma OneTurn(last: int, t: Turn)
    ensures !t.enabled || t.mode == DataInjection ==> LogAfter(last, [t]) == Log(last, [], [])
    ensures t.enabled && t.mode == Normal && t.now as int - last >= t.period as int ==>
              LogAfter(last, [t]) == Log(t.now as int, [t.now as int], [t.periodAgain as int])
    ensures t.enabled && t.mode == Normal && t.now as int - last < t.period as int ==>
              LogAfter(last, [t]) == Log(last, [], [last + t.period as int - t.now as int])
  {
    assert [t][..0] == [];
  }

  /** A sensor that is off or injecting neither posts nor waits for a sample. */
  lemma {:induction false} IdleTurns(last: int, turns: seq<Turn>)
    requires forall k :: 0 <= k < |turns| ==> !turns[k].enabled || turns[k].mode == DataInjection
    ensures LogAfter(last, turns) == Log(last, [], [])
  {
    if turns != [] { IdleTurns(last, turns[..|turns| - 1]); }
  }

  lemma {:induction false} LastIsClock(last: int, turns: seq<Turn>)
    requires InInt64(last)
    ensures InInt64(LogAfter(last, turns).last)
  {
    if turns != [] { LastIsClock(last, turns[..|turns| - 1]); }
  }

  lemma {:induction false} LogConcat(last: int, a: seq<Turn>, b: seq<Turn>)
    ensures var first, second := LogAfter(last, a), LogAfter(LogAfter(last, a).last, b);
            LogAfter(last, a + b) == Log(second.last, first.posts + second.posts, first.waits + second.waits)
  {
    if b == [] {
      assert a + b == a;
    } else {
      var front := b[..|b| - 1];
      assert (a + b)[..|a + b| - 1] == a + front;
      LogConcat(last, a, front);
    }
  }

  function Active(turns: seq<Turn>): seq<Turn> {
    if turns == [] then []
    else
      var front, t := turns[..|turns| - 1], turns[|turns| - 1];
      if t.enabled && t.mode != DataInjection then Active(front) + [t] else Active(front)
  }

  /** The turns on which a sensor is off or injecting might as well not have been. */
  lemma {:induction false} IdleTurnsDoNotMatter(last: int, turns: seq<Turn>)
    ensures LogAfter(last, turns) == LogAfter(last, Active(turns))
  {
    if turns != [] {
      hide LogAfter;
      var front, t := turns[..|turns| - 1], turns[|turns| - 1];
      IdleTurnsDoNotMatter(last, front);
      LogConcat(last, front, [t]);
      LogConcat(last, Active(front), [t]);
      OneTurn(LogAfter(last, front).last, t);
      assert front + [t] == turns;
    }
  }

  // ---------- Runs of calls and passes ----------

  /** What the calls write and the loop reads. */
  datatype Settings = Settings(enabled: bool, mode: Mode, period: int64)

  /** A call, or one pass of the loop at clock `now`.  batch() takes no lock: `between` is the last request
      that lands between the two times the pass reads the period. */
  datatype Event =
    | Batch(period: int64)
    | Activate(enable: bool)
    | SetMode(mode: Mode)
    | Pass(now: int64, between: Option<int64>)

  /** The period that batch() stores; a one-shot sensor ignores the request. */
  function Stored(info: Info, s: Settings, request: int64): (r: int64)
    requires DelaysFit(info)
  {
    if info.kind.OneShot? then s.period else Clamp(Narrow(request) as int, Lowest(info), Highest(info)) as int64
  }

  function Apply(info: Info, s: Settings, e: Event): Settings
    requires DelaysFit(info)
  {
    match e
    case Batch(request) => s.(period := Stored(info, s, request))
    case Activate(enable) => s.(enabled := enable)
    case SetMode(mode) => s.(mode := mode)
    case Pass(_, between) => if between.None? then s else s.(period := Stored(info, s, between.value))
  }

  function SettingsAfter(info: Info, s: Settings, es: seq<Event>): Settings
    requires DelaysFit(info)
  {
    if es == [] then s else Apply(info, SettingsAfter(info, s, es[..|es| - 1]), es[|es| - 1])
  }

  /** What the loop sees on a pass. */
  function Seen(info: Info, s: Settings, e: Event): seq<Turn>
    requires DelaysFit(info)
  {
    if e.Pass? then [Turn(s.enabled, s.mode, e.now, s.period, Apply(info, s, e).period)] else []
  }

  /** What it sees along a run. */
  function Turns(info: Info, s: Settings, es: seq<Event>): seq<Turn>
    requires DelaysFit(info)
  {
    if es == [] then []
    else
      var front, e := es[..|es| - 1], es[|es| - 1];
      var before := SettingsAfter(info, s, front);
      Turns(info, s, front) + Seen(info, before, e)
  }

  /** As construction leaves the fields: off, and with a period of zero that only batch() replaces. */
  const Constructed := Settings(false, Normal, 0)

  /** What the loop has done since construction. */
  function RunLog(info: Info, es: seq<Event>): Log
    requires DelaysFit(info)
  {
    LogAfter(0, Turns(info, Constructed, es))
  }

  predicate Requests(e: Event) { e.Batch? || (e.Pass? && e.between.Some?) }

  /** No call switches the sensor on, or out of injection. */
  predicate StaysOff(es: seq<Event>) { forall k :: 0 <= k < |es| ==> es[k] != Activate(true) }

  predicate StaysInjecting(es: seq<Event>) { forall k :: 0 <= k < |es| ==> es[k] != SetMode(Normal) }

  lemma {:induction false} OffOrInjecting(info: Info, s: Settings, es: seq<Event>)
    requires DelaysFit(info)
    requires (!s.enabled && StaysOff(es)) || (s.mode == DataInjection && StaysInjecting(es))
    ensures var t := SettingsAfter(info, s, es);
            (!s.enabled && StaysOff(es) ==> !t.enabled) &&
            (s.mode == DataInjection && StaysInjecting(es) ==> t.mode == DataInjection)
    ensures forall k :: 0 <= k < |Turns(info, s, es)| ==>
              !Turns(info, s, es)[k].enabled || Turns(info, s, es)[k].mode == DataInjection
  {
    if es != [] {
      hide Stored;
      OffOrInjecting(info, s, es[..|es| - 1]);
    }
  }

  /** batch() has been called. */
  ghost predicate Batched(es: seq<Event>) { exists k :: 0 <= k < |es| && Requests(es[k]) }

  lemma {:induction false} BatchSetsPeriod(info: Info, es: seq<Event>)
    requires DelaysFit(info) && info.kind.Continuous?
    ensures var period := SettingsAfter(info, Constructed, es).period as int;
            if Batched(es) then Lowest(info) <= period <= Highest(info) else period == 0
  {
    if es != [] {
      var front, n := es[..|es| - 1], |es| - 1;
      BatchSetsPeriod(info, front);
      if Batched(front) {
        var k :| 0 <= k < |front| && Requests(front[k]);
        assert Requests(es[k]);
      } else if Batched(es) {
        var k :| 0 <= k < |es| && Requests(es[k]);
        assert k < n ==> Requests(front[k]);
      } else {
        assert !Requests(es[n]);
      }
    }
  }

  lemma {:induction false} PeriodStaysUp(info: Info, s: Settings, es: seq<Event>, p: int)
    requires DelaysFit(info) && s.period as int >= p && (info.kind.Continuous? ==> p <= Lowest(info))
    ensures SettingsAfter(info, s, es).period as int >= p
    ensures forall k :: 0 <= k < |Turns(info, s, es)| ==>
              Turns(info, s, es)[k].period as int >= p && Turns(info, s, es)[k].periodAgain as int >= p
  {
    if es != [] { PeriodStaysUp(info, s, es[..|es| - 1], p); }
  }

  lemma {:induction false} RunConcat(info: Info, s: Settings, a: seq<Event>, b: seq<Event>)
    requires DelaysFit(info)
    ensures SettingsAfter(info, s, a + b) == SettingsAfter(info, SettingsAfter(info, s, a), b)
    ensures Turns(info, s, a + b) == Turns(info, s, a) + Turns(info, SettingsAfter(info, s, a), b)
  {
    if b == [] {
      assert a + b == a;
    } else {
      var front := b[..|b| - 1];
      assert (a + b)[..|a + b| - 1] == a + front;
      RunConcat(info, s, a, front);
    }
  }

  /** A run goes on: the new posts follow the old ones. */
  lemma RunGoesOn(info: Info, before: seq<Event>, es: seq<Event>)
    requires DelaysFit(info)
    ensures var was := RunLog(info, before);
            var now := LogAfter(was.last, Turns(info, SettingsAfter(info, Constructed, before), es));
            RunLog(info, before + es) == Log(now.last, was.posts + now.posts, was.waits + now.waits)
  {
    RunConcat(info, Constructed, before, es);
    LogConcat(0, Turns(info, Constructed, before), Turns(info, SettingsAfter(info, Constructed, before), es));
  }

  /** As the run `before` goes on with `es`, the posts keep the minimum delay from the last one in `before`. */
  ghost predicate KeepsDelayAlong(info: Info, before: seq<Event>, es: seq<Event>)
    requires DelaysFit(info)
  {
    var posts, n := RunLog(info, before + es).posts, |RunLog(info, before).posts|;
    n <= |posts| && Spaced(posts[if n == 0 then 0 else n - 1..], info.minDelay as int * 1000)
  }

  /** However it goes on. */
  ghost predicate KeepsMinimumDelay(info: Info, before: seq<Event>)
    requires DelaysFit(info)
  {
    forall es :: KeepsDelayAlong(info, before, es)
  }

  lemma PeriodKeepsDelay(info: Info, before: seq<Event>, es: seq<Event>)
    requires DelaysFit(info) && SettingsAfter(info, Constructed, before).period as int >= Lowest(info)
    ensures KeepsDelayAlong(info, before, es)
  {
    hide Turns, SettingsAfter, Stored;
    var s, was := SettingsAfter(info, Constructed, before), RunLog(info, before);
    var turns := Turns(info, s, es);
    PeriodStaysUp(info, s, es, Lowest(info));
    RunGoesOn(info, before, es);
    PostsAreSpaced(was.last, turns, Lowest(info));
    LastPost(info, before);
    var more, n := LogAfter(was.last, turns).posts, |was.posts|;
    if n > 0 {
      assert (was.posts + more)[n - 1..] == [was.last] + more;
      SpacedAfter(was.last, more, Lowest(info));
    } else {
      assert (was.posts + more)[0..] == more;
    }
  }

  lemma LastPost(info: Info, es: seq<Event>)
    requires DelaysFit(info)
    ensures var log := RunLog(info, es);
            InInt64(log.last) && log.last == if log.posts == [] then 0 else log.posts[|log.posts| - 1]
  {
    LastIsClock(0, Turns(info, Constructed, es));
    PostsAreSpaced(0, Turns(info, Constructed, es), -0x8000_0000_0000_0000);
  }

  lemma SpacedAfter(last: int, posts: seq<int>, p: int)
    requires Spaced(posts, p) && (posts != [] ==> posts[0] >= last + p)
    ensures Spaced([last] + posts, p)
  {
    var all := [last] + posts;
    forall j | 0 < j < |all|
      ensures all[j] - all[0] >= (j - 0) * p
    {
      assert posts[j - 1] - posts[0] >= (j - 1 - 0) * p;
      assert j * p == (j - 1) * p + p;
    }
    forall i, j | 0 < i <= j < |all|
      ensures all[j] - all[i] >= (j - i) * p
    {
      assert posts[j - 1] - posts[i - 1] >= ((j - 1) - (i - 1)) * p;
    }
  }

  /** The sensor is switched on and the loop passes twice without the clock moving. */
  function TwoPasses(now: int64): seq<Event> {
    [Activate(true), SetMode(Normal), Pass(now, None), Pass(now, None)]
  }

  lemma TwoPassesTurns(info: Info, s: Settings, now: int64)
    requires DelaysFit(info)
    ensures var t := Turn(true, Normal, now, s.period, s.period);
            Turns(info, s, TwoPasses(now)) == [t, t]
  {
    hide Turns, SettingsAfter, Stored;
    var on, c := [Activate(true), SetMode(Normal)], Pass(now, None);
    SwitchedOn(info, s);
    LongerRun(info, s, on, c);
    LongerRun(info, s, on + [c], c);
    assert on + [c] + [c] == TwoPasses(now);
  }

  lemma SwitchedOn(info: Info, s: Settings)
    requires DelaysFit(info)
    ensures var on := [Activate(true), SetMode(Normal)];
            SettingsAfter(info, s, on) == Settings(true, Normal, s.period) && Turns(info, s, on) == []
  {
    hide Turns, SettingsAfter, Stored;
    var a, b := Activate(true), SetMode(Normal);
    NoRun(info, s);
    LongerRun(info, s, [], a);
    LongerRun(info, s, [a], b);
    assert [] + [a] == [a] && [a] + [b] == [a, b];
  }

  lemma NoRun(info: Info, s: Settings)
    requires DelaysFit(info)
    ensures SettingsAfter(info, s, []) == s && Turns(info, s, []) == []
  {
  }

  lemma LongerRun(info: Info, s: Settings, front: seq<Event>, e: Event)
    requires DelaysFit(info)
    ensures var before := SettingsAfter(info, s, front);
            && SettingsAfter(info, s, front + [e]) == Apply(info, before, e)
            && Turns(info, s, front + [e]) == Turns(info, s, front) + Seen(info, before, e)
  {
    assert (front + [e])[..|front + [e]| - 1] == front;
  }

  lemma TwoPassesLog(last: int, now: int64, period: int64)
    requires now as int >= last + period as int
    ensures var t := Turn(true, Normal, now, period, period);
            LogAfter(last, [t, t]) ==
            if period > 0 then Log(now as int, [now as int], [period as int, period as int])
            else Log(now as int, [now as int, now as int], [period as int, period as int])
  {
    var t := Turn(true, Normal, now, period, period);
    assert [t, t][..1] == [t] && [t][..0] == [];
    assert LogAfter(last, [t]) == Log(now as int, [now as int], [period as int]);
  }

  /** Before any batch() the period is zero, and two passes at one reading of the clock both post. */
  lemma UnbatchedPostsCoincide(info: Info, before: seq<Event>)
    requires DelaysFit(info) && SettingsAfter(info, Constructed, before).period == 0
    ensures var was := RunLog(info, before);
            InInt64(was.last) && RunLog(info, before + TwoPasses(was.last as int64)).posts ==
                                 was.posts + [was.last, was.last]
  {
    hide Turns, SettingsAfter, TwoPasses, LogAfter;
    LastPost(info, before);
    var last := RunLog(info, before).last;
    RunGoesOn(info, before, TwoPasses(last as int64));
    TwoPassesTurns(info, SettingsAfter(info, Constructed, before), last as int64);
    TwoPassesLog(last, last as int64, 0);
  }

  /** Main result: whatever periods are asked for through the sub-HAL, however they are narrowed on the way
      and whatever the clock does, the posts from some point on keep the minimum delay exactly if a batch()
      came before that point; a sensor enabled before its first batch() runs with a period of zero. */
  lemma MinimumDelayIffBatched(info: Info, before: seq<Event>)
    requires DelaysFit(info)
    ensures KeepsMinimumDelay(info, before) <==>
            info.minDelay <= 0 || (info.kind.Continuous? && Batched(before))
  {
    if info.kind.Continuous? { BatchSetsPeriod(info, before); } else { OneShotPeriod(info, before); }
    if SettingsAfter(info, Constructed, before).period as int >= Lowest(info) {
      forall es
        ensures KeepsDelayAlong(info, before, es)
      {
        PeriodKeepsDelay(info, before, es);
      }
    } else {
      UnbatchedBreaksDelay(info, before);
    }
  }

  lemma {:induction false} OneShotPeriod(info: Info, es: seq<Event>)
    requires DelaysFit(info) && info.kind.OneShot?
    ensures SettingsAfter(info, Constructed, es).period == 0
  {
    if es != [] { OneShotPeriod(info, es[..|es| - 1]); }
  }

  lemma UnbatchedBreaksDelay(info: Info, before: seq<Event>)
    requires DelaysFit(info) && info.minDelay > 0 && SettingsAfter(info, Constructed, before).period == 0
    ensures !KeepsMinimumDelay(info, before)
  {
    hide RunLog, SettingsAfter, TwoPasses;
    UnbatchedPostsCoincide(info, before);
    var was := RunLog(info, before);
    var es, n := TwoPasses(was.last as int64), |was.posts|;
    var posts := RunLog(info, before + es).posts;
    var tail := posts[if n == 0 then 0 else n - 1..];
    var m := |tail| - 1;
    assert tail[m] == was.last && tail[m - 1] == was.last;
    NeighboursTooClose(tail, Lowest(info), m);
    assert !KeepsDelayAlong(info, before, es);
  }

  // ---------- Waits ----------

  ghost predicate NoNegativeWait(log: Log) { forall k :: 0 <= k < |log.waits| ==> log.waits[k] >= 0 }

  /** A wait is negative only if the period is when it is read again. */
  lemma {:induction false} WaitsAreNotNegative(last: int, turns: seq<Turn>)
    requires forall k :: 0 <= k < |turns| ==> turns[k].periodAgain >= 0
    ensures NoNegativeWait(LogAfter(last, turns))
  {
    if turns != [] {
      WaitsAreNotNegative(last, turns[..|turns| - 1]);
    }
  }

  /** Main result: for any requests and any clock, batched or not, the loop never asks for a negative wait,
      exactly if the minimum delay is not negative (or the sensor is one-shot and ignores requests). */
  lemma WaitsNeverNegativeIffDelayIsNot(info: Info)
    requires DelaysFit(info)
    ensures (forall es :: NoNegativeWait(RunLog(info, es))) <==> info.minDelay >= 0 || info.kind.OneShot?
  {
    if info.minDelay >= 0 || info.kind.OneShot? {
      forall es
        ensures NoNegativeWait(RunLog(info, es))
      {
        PeriodStaysUp(info, Constructed, es, 0);
        WaitsAreNotNegative(0, Turns(info, Constructed, es));
      }
    } else {
      NegativeDelayNegativeWait(info);
    }
  }

  lemma NegativeDelayNegativeWait(info: Info)
    requires DelaysFit(info) && info.minDelay < 0 && info.kind.Continuous?
    ensures exists es :: !NoNegativeWait(RunLog(info, es))
  {
    hide Turns, SettingsAfter;
    var request := Lowest(info) as int64;
    var batch := [Batch(request)];
    NoRun(info, Constructed);
    LongerRun(info, Constructed, [], Batch(request));
    assert [] + [Batch(request)] == batch;
    assert SettingsAfter(info, Constructed, batch).period == request && Turns(info, Constructed, batch) == [];
    RunGoesOn(info, batch, TwoPasses(0));
    TwoPassesTurns(info, SettingsAfter(info, Constructed, batch), 0);
    TwoPassesLog(0, 0, request);
    assert RunLog(info, batch + TwoPasses(0)).waits[0] == Lowest(info);
    assert !NoNegativeWait(RunLog(info, batch + TwoPasses(0)));
  }

  // ---------- The object ----------

  /** Everything about a sensor that a caller can observe or change. */
  datatype View = View(
    handle: int,
    info: Info,
    enabled: bool,
    mode: Mode,
    period: int64,
    last: int64,
    posted: seq<EventKind>)

  /** Readings for which the 64-bit sums cannot overflow: from 1970 to 2116. */
  predicate ClockFits(t: int64) { 0 <= t < 0x4000_0000_0000_0000 }

  predicate PeriodFits(t: int64) { -0x8000_0000 <= t < 0x8000_0000 }

  predicate PassesFit(es: seq<Event>) { forall k :: 0 <= k < |es| && es[k].Pass? ==> ClockFits(es[k].now) }

  class Sensor {
    const handle: int
    const info: Info
    var isEnabled: bool
    var mode: Mode
    var samplingPeriodNs: int64
    var lastSampleTimeNs: int64
    var posted: seq<EventKind>
    var notified: nat  // notifications of the condition variable the loop waits on

    function Look(): View
      reads this
    {
      View(handle, info, isEnabled, mode, samplingPeriodNs, lastSampleTimeNs, posted)
    }

    function Own(): Settings
      reads this
    {
      Settings(isEnabled, mode, samplingPeriodNs)
    }

    constructor (handle: int, info: Info)
      ensures this.handle == handle && this.info == info
      ensures Own() == Constructed && lastSampleTimeNs == 0 && posted == []
    {
      this.handle, this.info := handle, info;
      isEnabled, mode, samplingPeriodNs, lastSampleTimeNs, posted := false, Normal, 0, 0, [];
      notified := 0;
    }

    /** Stores the clamped period; one-shot sensors ignore the call.  The loop is notified of a change. */
    method Batch(period: int32)
      requires DelaysFit(info)
      modifies this`samplingPeriodNs, this`notified
      ensures Own() == Apply(info, old(Own()), Event.Batch(period as int64))
      ensures notified == old(notified) + if Own() != old(Own()) then 1 else 0
      ensures info.kind.OneShot? ==> samplingPeriodNs == old(samplingPeriodNs)
      ensures info.kind.Continuous? ==>
                var lowest, highest := info.minDelay as int * 1000, info.maxDelay as int * 1000;
                && lowest <= samplingPeriodNs as int <= highest
                && (lowest <= period as int <= highest ==> samplingPeriodNs as int == period as int)
                && (period as int < lowest ==> samplingPeriodNs as int == lowest)
                && (period as int > highest ==> samplingPeriodNs as int == highest)
    {
      hide Narrow;
      NarrowKeeps(period);
      if info.kind.OneShot? { return; }
      var clamped := Clamp(period as int, Lowest(info), Highest(info)) as int64;
      if samplingPeriodNs != clamped {
        samplingPeriodNs := clamped;
        notified := notified + 1;
      }
    }

    method Activate(enable: bool)
      requires DelaysFit(info)
      modifies this`isEnabled, this`notified
      ensures Own() == Apply(info, old(Own()), Event.Activate(enable)) && isEnabled == enable
      ensures notified == old(notified) + if Own() != old(Own()) then 1 else 0
    {
      if isEnabled != enable {
        isEnabled := enable;
        notified := notified + 1;
      }
    }

    method SetOperationMode(newMode: Mode)
      requires DelaysFit(info)
      modifies this`mode, this`notified
      ensures Own() == Apply(info, old(Own()), SetMode(newMode)) && mode == newMode
      ensures notified == old(notified) + if Own() != old(Own()) then 1 else 0
    {
      if mode != newMode {
        mode := newMode;
        notified := notified + 1;
      }
    }

    /** Only an enabled sensor that is not one-shot reports a completed flush. */
    method Flush() returns (r: Result)
      modifies this`posted
      ensures r == Ok <==> info.kind.Continuous? && isEnabled
      ensures r != Ok ==> r == BadValue && posted == old(posted)
      ensures r == Ok ==> posted == old(posted) + [FlushComplete]
    {
      if info.kind.OneShot? || !isEnabled { return BadValue; }
      posted := posted + [FlushComplete];
      r := Ok;
    }

    method InjectEvent(kind: EventKind) returns (r: Result)
      modifies this`posted
      ensures r == if kind.AdditionalInfo? then Ok else if !info.injectable then InvalidOperation
                   else if mode == DataInjection then Ok else BadValue
      ensures posted == if kind.AdditionalInfo? || r != Ok then old(posted) else old(posted) + [kind]
    {
      r := Ok;
      if kind.AdditionalInfo? {
        return;
      } else if !info.injectable {
        r := InvalidOperation;
      } else if mode == DataInjection {
        posted := posted + [kind];
      } else {
        r := BadValue;
      }
    }

    /** One pass of the loop, in 64-bit arithmetic; a request may land between the two times the period is
        read. */
    method Pass(now: int64, between: Option<int64>) returns (posts: seq<int64>, waits: seq<int64>)
      requires DelaysFit(info) && ClockFits(lastSampleTimeNs) && PeriodFits(samplingPeriodNs) && ClockFits(now)
      modifies this
      ensures Own() == Apply(info, old(Own()), Event.Pass(now, between))
      ensures ClockFits(lastSampleTimeNs) && PeriodFits(samplingPeriodNs)
      ensures var turn := Turn(old(isEnabled), old(mode), now, old(samplingPeriodNs), samplingPeriodNs);
              Log(lastSampleTimeNs as int, AsInts(posts), AsInts(waits)) ==
              LogAfter(old(lastSampleTimeNs) as int, [turn])
      ensures var active, due := isEnabled && mode == Normal, now - old(lastSampleTimeNs) >= old(samplingPeriodNs);
              && posts == (if active && due then [now] else [])
              && lastSampleTimeNs == (if active && due then now else old(lastSampleTimeNs))
              && waits == if !active then [] else if due then [samplingPeriodNs]
                          else [old(lastSampleTimeNs) + old(samplingPeriodNs) - now]
      ensures isEnabled == old(isEnabled) && mode == old(mode)
      ensures posted == old(posted) + seq(|posts|, _ => Sample)
    {
      posts, waits := [], [];
      ghost var last := lastSampleTimeNs as int;
      if !isEnabled || mode == DataInjection {
        if between.Some? { Batch(Narrow(between.value)); }
      } else {
        var nextSampleTime := lastSampleTimeNs + samplingPeriodNs;
        if between.Some? { Batch(Narrow(between.value)); }
        if now >= nextSampleTime {
          lastSampleTimeNs := now;
          nextSampleTime := lastSampleTimeNs + samplingPeriodNs;
          posted := posted + [Sample];
          posts := [now];
        }
        waits := [nextSampleTime - now];
      }
      OneTurn(last, Turn(old(isEnabled), old(mode), now, old(samplingPeriodNs), samplingPeriodNs));
    }

    /** The passes of the loop and the calls that come between and during them. */
    method Run(es: seq<Event>) returns (posts: seq<int64>, waits: seq<int64>)
      requires DelaysFit(info) && ClockFits(lastSampleTimeNs) && PeriodFits(samplingPeriodNs) && PassesFit(es)
      modifies this
      ensures Own() == SettingsAfter(info, old(Own()), es)
      ensures Log(lastSampleTimeNs as int, AsInts(posts), AsInts(waits)) ==
              LogAfter(old(lastSampleTimeNs) as int, Turns(info, old(Own()), es))
      ensures posted == old(posted) + seq(|posts|, _ => Sample)
      ensures (!old(isEnabled) && StaysOff(es)) || (old(mode) == DataInjection && StaysInjecting(es)) ==>
                posts == [] && waits == [] && posted == old(posted) && lastSampleTimeNs == old(lastSampleTimeNs)
    {
      hide Apply, Turns, SettingsAfter;
      posts, waits := [], [];
      ghost var last, s := lastSampleTimeNs as int, Own();
      NoRun(info, s);
      var k := 0;
      while k < |es|
        invariant k <= |es| && ClockFits(lastSampleTimeNs) && PeriodFits(samplingPeriodNs)
        invariant Own() == SettingsAfter(info, s, es[..k])
        invariant Log(lastSampleTimeNs as int, AsInts(posts), AsInts(waits)) ==
                  LogAfter(last, Turns(info, s, es[..k]))
        invariant posted == old(posted) + seq(|posts|, _ => Sample)
      {
        OneMoreEvent(info, s, es, k, last);
        PeriodStillFits(info, Own(), es[k]);
        match es[k] {
          case Batch(request) =>
            NarrowedAlready(info, Own(), request);
            Batch(Narrow(request));
          case Activate(enable) => Activate(enable);
          case SetMode(newMode) => SetOperationMode(newMode);
          case Pass(now, between) =>
            var morePosts, moreWaits := Pass(now, between);
            AsIntsConcat(posts, morePosts);
            AsIntsConcat(waits, moreWaits);
            posts, waits := posts + morePosts, waits + moreWaits;
        }
        k := k + 1;
      }
      assert es[..k] == es;
      if (!s.enabled && StaysOff(es)) || (s.mode == DataInjection && StaysInjecting(es)) {
        OffOrInjecting(info, s, es);
        IdleTurns(last, Turns(info, s, es));
      }
    }
  }

  lemma OneMoreEvent(info: Info, s: Settings, es: seq<Event>, k: nat, last: int)
    requires DelaysFit(info) && k < |es|
    ensures var before := SettingsAfter(info, s, es[..k]);
            && SettingsAfter(info, s, es[..k + 1]) == Apply(info, before, es[k])
            && var log := LogAfter(last, Turns(info, s, es[..k]));
               var more := LogAfter(log.last, Seen(info, before, es[k]));
               LogAfter(last, Turns(info, s, es[..k + 1])) ==
               Log(more.last, log.posts + more.posts, log.waits + more.waits)
  {
    assert es[..k + 1] == es[..k] + [es[k]];
    LongerRun(info, s, es[..k], es[k]);
    LogConcat(last, Turns(info, s, es[..k]), Seen(info, SettingsAfter(info, s, es[..k]), es[k]));
  }

  lemma AsIntsConcat(a: seq<int64>, b: seq<int64>)
    ensures AsInts(a + b) == AsInts(a) + AsInts(b)
  {
  }

  lemma NarrowedAlready(info: Info, s: Settings, request: int64)
    requires DelaysFit(info)
    ensures Apply(info, s, Batch(Narrow(request) as int64)) == Apply(info, s, Batch(request))
  {
    hide Narrow;
    NarrowKeeps(Narrow(request));
  }

  lemma PeriodStillFits(info: Info, s: Settings, e: Event)
    requires DelaysFit(info) && PeriodFits(s.period)
    ensures PeriodFits(Apply(info, s, e).period)
  {
  }

  predicate InInt64(x: int) { -0x8000_0000_0000_0000 <= x < 0x8000_0000_0000_0000 }

  function AsInts(xs: seq<int64>): seq<int> { seq(|xs|, i requires 0 <= i < |xs| => xs[i] as int) }
}
