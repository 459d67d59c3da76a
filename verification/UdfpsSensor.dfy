/** The fingerprint sensor object.  Each method is the source's own sequence of updates, run without
    interruption, and is proved to be the matching run of the step system in UdfpsThread. */
module UdfpsSensor {
  import opened Basics
  import opened UdfpsThread

  /** What the next poll() meets: an error, or the device's report and what reading its state would answer. */
  datatype Answer = PollError | PollAnswer(device: bool, fp: bool, touch: bool)

  /** One uninterrupted call: the caller enters and takes up to five steps. */
  function CallEvents(entry: CallPc): seq<Event> {
    [Begin(0, entry), Caller(0), Caller(0), Caller(0), Caller(0), Caller(0)]
  }

  lemma CallUnrolls(s: State, entry: CallPc)
    ensures var s1 := Step(s, Begin(0, entry));
            var s2 := Step(s1, Caller(0));
            var s3 := Step(s2, Caller(0));
            var s4 := Step(s3, Caller(0));
            var s5 := Step(s4, Caller(0));
            After(s, CallEvents(entry)) == Step(s5, Caller(0))
  {
    var c := Caller(0);
    var s1 := Step(s, Begin(0, entry));
    var s2 := Step(s1, c);
    var s3 := Step(s2, c);
    var s4 := Step(s3, c);
    var s5 := Step(s4, c);
    AfterCons(s5, c, []);
    AfterCons(s4, c, [c] + []);
    AfterCons(s3, c, [c] + ([c] + []));
    AfterCons(s2, c, [c] + ([c] + ([c] + [])));
    AfterCons(s1, c, [c] + ([c] + ([c] + ([c] + []))));
    assert CallEvents(entry) == [Begin(0, entry)] + ([c] + ([c] + ([c] + ([c] + ([c] + [])))));
    AfterCons(s, Begin(0, entry), [c] + ([c] + ([c] + ([c] + ([c] + [])))));
  }

  /** The only caller takes one step. */
  lemma SoloStep(s: State, c: CallPc)
    requires s.calls == map[0 := c] && (IsEntry(c) ==> s.holder == Free)
    ensures Step(s, Caller(0)) ==
            Effect(s, 0, c).(calls := if IsLast(c) then map[] else map[0 := NextPc(s, c)])
  {
    assert map[0 := c] - {0} == map[];
    if !IsLast(c) {
      assert map[0 := c][0 := NextPc(s, c)] == map[0 := NextPc(s, c)];
    }
  }

  /** The only caller takes n steps. */
  function Solo(s: State, n: nat): State
    decreases n
  {
    if n == 0 then s else Solo(Step(s, Caller(0)), n - 1)
  }

  lemma SoloEnds(s: State, n: nat)
    requires s.calls == map[]
    ensures Solo(s, n) == s
  {
  }

  lemma SoloGoesOn(s: State, c: CallPc, n: nat)
    requires s.calls == map[0 := c] && (IsEntry(c) ==> s.holder == Free) && n > 0
    ensures var t := Effect(s, 0, c).(calls := if IsLast(c) then map[] else map[0 := NextPc(s, c)]);
            Solo(s, n) == if IsLast(c) then t else Solo(t, n - 1)
  {
    SoloStep(s, c);
    if IsLast(c) {
      SoloEnds(Effect(s, 0, c).(calls := map[]), n - 1);
    }
  }

  lemma CallIsSolo(s: State, entry: CallPc)
    requires s.calls == map[] && IsEntry(entry)
    ensures After(s, CallEvents(entry)) == Solo(s.(calls := map[0 := entry]), 5)
  {
    hide After, CallEvents;
    CallUnrolls(s, entry);
    var s1 := s.(calls := map[0 := entry]);
    assert Step(s, Begin(0, entry)) == s1;
    var s2 := Step(s1, Caller(0));
    var s3 := Step(s2, Caller(0));
    assert Solo(s1, 5) == Solo(s2, 4);
    assert Solo(s2, 4) == Solo(s3, 3);
    assert Solo(s3, 3) == Step(Step(Step(s3, Caller(0)), Caller(0)), Caller(0));
  }

  /** The five steps of an uninterrupted activate(). */
  lemma ActivateEffect(s: State, enable: bool)
    requires s.calls == map[] && s.holder == Free
    ensures After(s, CallEvents(ActivateLock(enable))) ==
            if s.enabled == enable then s
            else s.(enabled := enable, pipe := if s.pipeOpen then s.pipe + 1 else s.pipe,
                    worker := if s.worker.Asleep? then Woken else s.worker)
  {
    hide Solo, Step, After, CallEvents;
    CallIsSolo(s, ActivateLock(enable));
    var s1 := s.(calls := map[0 := ActivateLock(enable)]);
    SoloGoesOn(s1, ActivateLock(enable), 5);
    var s2 := s.(holder := HeldByCaller(0), calls := map[0 := ActivateTest(enable)]);
    SoloGoesOn(s2, ActivateTest(enable), 4);
    if s.enabled == enable {
      SoloGoesOn(s2.(calls := map[0 := ActivateUnlock]), ActivateUnlock, 3);
    } else {
      FlagChanged(s2.(enabled := enable, calls := map[0 := ActivateWrite]));
    }
  }

  lemma FlagChanged(s: State)
    requires s.calls == map[0 := ActivateWrite] && s.holder == HeldByCaller(0)
    ensures Solo(s, 3) ==
            s.(holder := Free, pipe := Interrupted(s), worker := Notified(s.worker), calls := map[])
  {
    hide Solo, Step;
    SoloGoesOn(s, ActivateWrite, 3);
    var s4 := s.(pipe := Interrupted(s), calls := map[0 := ActivateNotify]);
    SoloGoesOn(s4, ActivateNotify, 2);
    SoloGoesOn(s4.(worker := Notified(s.worker), calls := map[0 := ActivateUnlock]), ActivateUnlock, 1);
  }

  /** The steps of an uninterrupted setOperationMode(): the byte is written even when nothing changed. */
  lemma SetModeEffect(s: State, mode: Mode)
    requires s.calls == map[] && s.holder == Free
    ensures After(s, CallEvents(ModeLock(mode))) ==
            s.(mode := mode, pipe := if s.pipeOpen then s.pipe + 1 else s.pipe,
               worker := if s.worker.Asleep? && s.mode != mode then Woken else s.worker)
  {
    hide Solo, Step, After, CallEvents;
    CallIsSolo(s, ModeLock(mode));
    SoloGoesOn(s.(calls := map[0 := ModeLock(mode)]), ModeLock(mode), 5);
    var s2 := s.(holder := HeldByCaller(0), calls := map[0 := ModeTest(mode)]);
    if s.mode == mode { ModeStays(s2, mode); } else { ModeChanges(s2, mode); }
  }

  lemma ModeStays(s: State, mode: Mode)
    requires s.calls == map[0 := ModeTest(mode)] && s.holder == HeldByCaller(0) && s.mode == mode
    ensures Solo(s, 4) == s.(holder := Free, pipe := Interrupted(s), calls := map[])
  {
    hide Solo, Step;
    SoloGoesOn(s, ModeTest(mode), 4);
    SoloGoesOn(s.(calls := map[0 := ModeUnlock]), ModeUnlock, 3);
    SoloGoesOn(s.(holder := Free, calls := map[0 := ModeWrite]), ModeWrite, 2);
  }

  lemma ModeChanges(s: State, mode: Mode)
    requires s.calls == map[0 := ModeTest(mode)] && s.holder == HeldByCaller(0) && s.mode != mode
    ensures Solo(s, 4) == s.(mode := mode, holder := Free, pipe := Interrupted(s),
                             worker := Notified(s.worker), calls := map[])
  {
    hide Solo, Step;
    SoloGoesOn(s, ModeTest(mode), 4);
    ModeChanged(s.(mode := mode, calls := map[0 := ModeNotify]));
  }

  lemma ModeChanged(s: State)
    requires s.calls == map[0 := ModeNotify] && s.holder == HeldByCaller(0)
    ensures Solo(s, 3) ==
            s.(holder := Free, pipe := Interrupted(s), worker := Notified(s.worker), calls := map[])
  {
    hide Solo, Step;
    SoloGoesOn(s, ModeNotify, 3);
    var s4 := s.(worker := Notified(s.worker), calls := map[0 := ModeUnlock]);
    SoloGoesOn(s4, ModeUnlock, 2);
    SoloGoesOn(s4.(holder := Free, calls := map[0 := ModeWrite]), ModeWrite, 1);
  }

  /** A run grows by one event. */
  lemma Extend(s: State, es: seq<Event>, e: Event)
    ensures After(s, es + [e]) == Step(After(s, es), e)
    ensures PostCount(s, es + [e]) == PostCount(s, es) + if Posts(After(s, es), e) then 1 else 0
  {
    assert (es + [e])[..|es + [e]| - 1] == es;
  }

  lemma {:induction false} PostCountConcat(s: State, a: seq<Event>, b: seq<Event>)
    ensures PostCount(s, a + b) == PostCount(s, a) + PostCount(After(s, a), b)
  {
    if b == [] {
      assert a + b == a;
    } else {
      var front := b[..|b| - 1];
      assert (a + b)[..|a + b| - 1] == a + front;
      PostCountConcat(s, a, front);
      AfterConcat(s, a, front);
    }
  }

  predicate IsCall(e: Event) { e.Caller? || e.Begin? }

  lemma {:induction false} NoCallsNoActivations(s: State, es: seq<Event>)
    requires forall e :: e in es ==> !IsCall(e)
    ensures ActivationCount(s, es) == 0
  {
    if es != [] {
      assert es[|es| - 1] in es;
      NoCallsNoActivations(s, es[..|es| - 1]);
    }
  }

  predicate Blocks(s: State, a: Answer) { s.pipe == 0 && a.PollAnswer? && !a.device }

  function Reported(s: State, a: Answer): PollResult {
    if a.PollError? then Failed else Ready(s.pipe > 0, a.device && a.fp)
  }

  predicate Touches(a: Answer) { a.PollAnswer? && a.touch }

  /** A finger: poll() reports it on the fingerprint descriptor and reading its state confirms it. */
  predicate Finger(a: Answer) { a.PollAnswer? && a.device && a.fp && a.touch }

  /** The device has nothing to report. */
  predicate Silent(a: Answer) { a.PollAnswer? && !a.device }

  /** Some answer is a finger, an error. */
  predicate SomeFinger(answers: seq<Answer>) { exists k :: 0 <= k < |answers| && Finger(answers[k]) }

  predicate SomeError(answers: seq<Answer>) { exists k :: 0 <= k < |answers| && answers[k].PollError? }

  lemma OneMoreAnswer(answers: seq<Answer>, k: nat)
    requires k < |answers|
    ensures SomeFinger(answers[..k + 1]) <==> SomeFinger(answers[..k]) || Finger(answers[k])
    ensures SomeError(answers[..k + 1]) <==> SomeError(answers[..k]) || answers[k].PollError?
  {
    var front := answers[..k];
    assert answers[..k + 1] == front + [answers[k]];
    assert (front + [answers[k]])[k] == answers[k];
    assert forall j :: 0 <= j < k ==> (front + [answers[k]])[j] == front[j];
  }

  /** One trip round the loop with the sensor on: unlock, poll, lock, act. */
  function RoundEvents(s: State, a: Answer): seq<Event> {
    if Blocks(s, a) then [Worker(false)]
    else [Worker(false), if a.PollError? then PollFailed else PollReady(a.device, a.device && a.fp),
          Worker(false), Worker(Touches(a))]
  }

  lemma OneEvent(s: State, e: Event)
    ensures After(s, [e]) == Step(s, e) && PostCount(s, [e]) == if Posts(s, e) then 1 else 0
  {
    Extend(s, [], e);
    assert [] + [e] == [e];
  }

  lemma ThreeEvents(s: State, e0: Event, e1: Event, e2: Event)
    ensures var s1 := Step(s, e0);
            var s2 := Step(s1, e1);
            && After(s, [e0, e1, e2]) == Step(s2, e2)
            && (!Posts(s, e0) && !Posts(s1, e1) ==>
                  PostCount(s, [e0, e1, e2]) == if Posts(s2, e2) then 1 else 0)
  {
    hide Step, Posts;
    Extend(s, [], e0);
    Extend(s, [e0], e1);
    Extend(s, [e0, e1], e2);
    assert [] + [e0] == [e0] && [e0] + [e1] == [e0, e1] && [e0, e1] + [e2] == [e0, e1, e2];
  }

  lemma FourEvents(s: State, e0: Event, e1: Event, e2: Event, e3: Event)
    ensures var s1 := Step(s, e0);
            var s2 := Step(s1, e1);
            var s3 := Step(s2, e2);
            && After(s, [e0, e1, e2, e3]) == Step(s3, e3)
            && (!Posts(s, e0) && !Posts(s1, e1) && !Posts(s2, e2) ==>
                  PostCount(s, [e0, e1, e2, e3]) == if Posts(s3, e3) then 1 else 0)
  {
    hide Step, Posts, After, PostCount;
    ThreeEvents(s, e0, e1, e2);
    Extend(s, [e0, e1, e2], e3);
    assert [e0, e1, e2] + [e3] == [e0, e1, e2, e3];
  }

  lemma RoundUnrolls(s: State, a: Answer)
    requires s.worker == Head && s.holder == HeldByWorker && !s.stop && Wanted(s)
    ensures var polling := s.(holder := Free, worker := Polling);
            if Blocks(s, a) then After(s, RoundEvents(s, a)) == polling && PostCount(s, RoundEvents(s, a)) == 0
            else
              var acting := s.(worker := Handle(Reported(s, a)));
              && After(s, RoundEvents(s, a)) == Step(acting, Worker(Touches(a)))
              && PostCount(s, RoundEvents(s, a)) == if Posts(acting, Worker(Touches(a))) then 1 else 0
  {
    hide After, PostCount;
    var polling := s.(holder := Free, worker := Polling);
    assert Step(s, Worker(false)) == polling;
    if Blocks(s, a) {
      OneEvent(s, Worker(false));
    } else {
      var polled := if a.PollError? then PollFailed else PollReady(a.device, a.device && a.fp);
      PollReturns(s, a, polled);
      FourEvents(s, Worker(false), polled, Worker(false), Worker(Touches(a)));
    }
  }

  lemma PollReturns(s: State, a: Answer, polled: Event)
    requires s.worker == Head && s.holder == HeldByWorker && !Blocks(s, a)
    requires polled == if a.PollError? then PollFailed else PollReady(a.device, a.device && a.fp)
    ensures var polling := s.(holder := Free, worker := Polling);
            && Step(Step(polling, polled), Worker(false)) == s.(worker := Handle(Reported(s, a)))
            && !Posts(polling, polled) && !Posts(Step(polling, polled), Worker(false))
  {
    var polling := s.(holder := Free, worker := Polling);
    assert Step(polling, polled) == polling.(worker := Relock(Reported(s, a)));
  }

  /** Left in poll() with the sensor on, the worker answers a finger by one post and switches the sensor off,
      even if stale bytes are in the pipe. */
  lemma TouchIsPosted(s: State)
    requires Inv(s) && s.calls == map[] && Wanted(s) && s.worker == Polling
    ensures var es := [PollReady(true, true), Worker(true), Worker(true)];
            && PostCount(s, es) == 1
            && After(s, es) == s.(enabled := false, holder := HeldByWorker, worker := Head)
  {
    hide After, PostCount;
    assert s.holder == Free;
    var rc := Ready(s.pipe > 0, true);
    assert Step(s, PollReady(true, true)) == s.(worker := Relock(rc));
    assert Step(s.(worker := Relock(rc)), Worker(true)) == s.(holder := HeldByWorker, worker := Handle(rc));
    ThreeEvents(s, PollReady(true, true), Worker(true), Worker(true));
  }

  /** The thread goes round the loop again. */
  predicate GoesRound(s: State) { s.worker == Head && !s.stop && Wanted(s) }

  /** Main result: what one trip round the loop makes of an answer.  A finger is posted once, exactly, and
      switches the sensor off; an error stops the thread; anything else eats at most one byte. */
  lemma RoundHeedsAnswer(s: State, a: Answer)
    requires s.holder == HeldByWorker && GoesRound(s)
    ensures PostCount(s, RoundEvents(s, a)) == if Finger(a) then 1 else 0
    ensures After(s, RoundEvents(s, a)) ==
            if a.PollError? then s.(stop := true)
            else if Finger(a) then s.(enabled := false)
            else if s.pipe > 0 then s.(pipe := s.pipe - 1)
            else if a.device then s
            else s.(holder := Free, worker := Polling)
  {
    hide After, PostCount, RoundEvents, Step, Posts;
    RoundUnrolls(s, a);
    if !Blocks(s, a) { ActingHeedsAnswer(s, a); }
  }

  lemma ActingHeedsAnswer(s: State, a: Answer)
    requires s.holder == HeldByWorker && GoesRound(s) && !Blocks(s, a)
    ensures var acting := s.(worker := Handle(Reported(s, a)));
            && Posts(acting, Worker(Touches(a))) == Finger(a)
            && Step(acting, Worker(Touches(a))) ==
               if a.PollError? then s.(stop := true)
               else if Finger(a) then s.(enabled := false)
               else if s.pipe > 0 then s.(pipe := s.pipe - 1)
               else s
  {
    var acting := s.(worker := Handle(Reported(s, a)));
    assert Enabled(acting, Worker(Touches(a)));
    assert Step(acting, Worker(Touches(a))) == WorkerStep(acting, Touches(a));
  }

  lemma RoundHasNoCalls(s: State, a: Answer)
    ensures forall e :: e in RoundEvents(s, a) ==> !IsCall(e)
  {
  }

  /** From the loop test to where the thread exits, sleeps or polls. */
  function Rest(s: State): seq<Event> {
    if !s.stop && !Wanted(s) then [Worker(false), Worker(false)] else [Worker(false)]
  }

  /** The thread goes round the loop once for each answer. */
  function Rounds(s: State, answers: seq<Answer>): seq<Event> {
    if answers == [] then []
    else
      var front := Rounds(s, answers[..|answers| - 1]);
      front + RoundEvents(After(s, front), answers[|answers| - 1])
  }

  /** What the thread does from the start, meeting the first n answers and going round as often as it can. */
  ghost predicate MeetsAnswers(s: State, answers: seq<Answer>, n: nat, trace: seq<Event>) {
    && n <= |answers|
    && var s1 := Step(s, Worker(false));
       && (forall k :: 0 <= k < n ==> GoesRound(After(s1, Rounds(s1, answers[..k]))))
       && (n < |answers| ==> !GoesRound(After(s1, Rounds(s1, answers[..n]))))
       && trace == Parked(s1, [Worker(false)], Rounds(s1, answers[..n]))
  }

  /** A thread blocked in poll() stays there; otherwise it goes where the loop test leads. */
  function Parked(s: State, before: seq<Event>, rounds: seq<Event>): seq<Event> {
    before + rounds + if After(s, rounds).worker.Polling? then [] else Rest(After(s, rounds))
  }

  lemma NoRounds(s: State, answers: seq<Answer>)
    ensures Rounds(s, answers[..0]) == [] && After(s, []) == s && PostCount(s, []) == 0
    ensures !SomeFinger(answers[..0]) && !SomeError(answers[..0])
  {
  }

  lemma OneMoreRound(s: State, answers: seq<Answer>, k: nat)
    requires k < |answers|
    ensures Rounds(s, answers[..k + 1]) ==
            Rounds(s, answers[..k]) + RoundEvents(After(s, Rounds(s, answers[..k])), answers[k])
  {
    assert answers[..k + 1][..k] == answers[..k];
  }

  lemma RestUnrolls(s: State)
    requires s.worker == Head && s.holder == HeldByWorker
    ensures PostCount(s, Rest(s)) == 0 && (forall e :: e in Rest(s) ==> !IsCall(e))
    ensures After(s, Rest(s)) ==
            s.(holder := Free, worker := if s.stop then Exited else if Wanted(s) then Polling else Asleep)
  {
    OneEvent(s, Worker(false));
    Extend(s, [Worker(false)], Worker(false));
    assert [Worker(false)] + [Worker(false)] == [Worker(false), Worker(false)];
  }

  /** The parts of the thread's trace, put together. */
  lemma WholeTrace(s: State, rounds: seq<Event>, es: seq<Event>)
    requires s.worker == Start
    ensures var s1, trace := Step(s, Worker(false)), [Worker(false)] + rounds + es;
            && After(s, trace) == After(After(s1, rounds), es)
            && PostCount(s, trace) == PostCount(s1, rounds) + PostCount(After(s1, rounds), es)
            && After(After(s1, rounds), []) == After(s1, rounds) && PostCount(After(s1, rounds), []) == 0
  {
    var s1 := Step(s, Worker(false));
    OneEvent(s, Worker(false));
    AfterConcat(s1, rounds, es);
    PostCountConcat(s1, rounds, es);
    AfterConcat(s, [Worker(false)], rounds + es);
    PostCountConcat(s, [Worker(false)], rounds + es);
    assert [Worker(false)] + rounds + es == [Worker(false)] + (rounds + es);
  }

  /** Without calls there is at most one post, which leaves the sensor off. */
  lemma PostsAtMostOnce(s: State, trace: seq<Event>)
    requires forall e :: e in trace ==> !IsCall(e)
    ensures PostCount(s, trace) <= 1
    ensures PostCount(s, trace) == 1 ==> !After(s, trace).enabled
  {
    NoCallsNoActivations(s, trace);
    PostsNeedActivations(s, trace);
  }

  class Sensor {
    var isEnabled: bool
    var mode: Mode
    var stopThread: bool
    const pipeOpen: bool
    var waitPipe: nat      // bytes written and not yet read
    var worker: WorkerPc   // where the run thread is
    var posted: nat        // events given to the framework

    function Snapshot(): State
      reads this
    {
      State(isEnabled, mode, stopThread, pipeOpen, waitPipe,
            if WorkerHolds(worker) then HeldByWorker else Free, worker, map[])
    }

    constructor (pipeOpen: bool, pollFdOpen: bool)
      ensures Init(Snapshot()) && posted == 0
      ensures stopThread == !(pipeOpen && pollFdOpen)
      ensures this.pipeOpen == pipeOpen
    {
      isEnabled, mode, waitPipe, posted := false, Normal, 0, 0;
      worker := Start;
      this.pipeOpen := pipeOpen;
      stopThread := !pipeOpen || !pollFdOpen;
    }

    method InterruptPoll()
      modifies this`waitPipe
      ensures waitPipe == old(Interrupted(Snapshot()))
    {
      if !pipeOpen { return; }
      waitPipe := waitPipe + 1;
    }

    method NotifyAll()
      modifies this`worker
      ensures worker == Notified(old(worker))
    {
      if worker.Asleep? { worker := Woken; }
    }

    method Activate(enable: bool)
      requires !WorkerHolds(worker)
      modifies this
      ensures Snapshot() == After(old(Snapshot()), CallEvents(ActivateLock(enable)))
      ensures posted == old(posted)
    {
      ActivateEffect(Snapshot(), enable);
      if isEnabled != enable {
        isEnabled := enable;
        InterruptPoll();
        NotifyAll();
      }
    }

    method SetOperationMode(newMode: Mode)
      requires !WorkerHolds(worker)
      modifies this
      ensures Snapshot() == After(old(Snapshot()), CallEvents(ModeLock(newMode)))
      ensures posted == old(posted)
    {
      SetModeEffect(Snapshot(), newMode);
      if mode != newMode {
        mode := newMode;
        NotifyAll();
      }
      InterruptPoll();
    }

    /** What the run thread does with the result of poll(). */
    method HandlePoll(rc: PollResult, touch: bool)
      requires worker == Handle(rc) && Enabled(Snapshot(), Worker(touch))
      modifies this
      ensures Snapshot() == Step(old(Snapshot()), Worker(touch))
      ensures posted == old(posted) + if rc.Ready? && rc.fp && touch then 1 else 0
      ensures posted == old(posted) + if old(Posts(Snapshot(), Worker(touch))) then 1 else 0
      ensures isEnabled == (old(isEnabled) && !(rc.Ready? && rc.fp && touch))
      ensures stopThread == (old(stopThread) || rc.Failed?)
    {
      worker := Head;
      if rc.Failed? {
        stopThread := true;
        return;
      }
      if rc.fp && touch {
        isEnabled := false;
        posted := posted + 1;
      } else if rc.pipeIn {
        waitPipe := waitPipe - 1;
      }
    }

    /** One trip round the loop of the run thread with the sensor on. */
    method PollOnce(a: Answer) returns (blocked: bool)
      requires Inv(Snapshot()) && worker == Head && !stopThread && isEnabled && mode == Normal
      modifies this
      ensures Snapshot() == After(old(Snapshot()), old(RoundEvents(Snapshot(), a)))
      ensures posted == old(posted) + PostCount(old(Snapshot()), old(RoundEvents(Snapshot(), a)))
      ensures blocked == old(Blocks(Snapshot(), a))
      ensures worker == if blocked then Polling else Head
      ensures posted == old(posted) + if Finger(a) then 1 else 0
      ensures isEnabled == !Finger(a) && stopThread == a.PollError? && mode == Normal
      ensures waitPipe == if old(waitPipe) > 0 && a.PollAnswer? && !Finger(a) then old(waitPipe) - 1 else old(waitPipe)
      ensures blocked == (old(waitPipe) == 0 && a.PollAnswer? && !a.device)
    {
      hide After, PostCount, RoundEvents;
      RoundUnrolls(Snapshot(), a);
      worker := Polling;
      if waitPipe == 0 && a.PollAnswer? && !a.device {
        return true;
      }
      var rc := if a.PollError? then Failed else Ready(waitPipe > 0, a.device && a.fp);
      worker := Handle(rc);
      HandlePoll(rc, a.PollAnswer? && a.touch);
      blocked := false;
    }

    /** The loop test, and where it leads when the thread exits, waits or is left in poll(). */
    method Park()
      requires worker == Head
      modifies this`worker
      ensures Snapshot() == After(old(Snapshot()), old(Rest(Snapshot())))
      ensures worker == if stopThread then Exited else if isEnabled && mode == Normal then Polling else Asleep
    {
      RestUnrolls(Snapshot());
      if stopThread {
        worker := Exited;
      } else if !isEnabled || mode == DataInjection {
        worker := Asleep;
      } else {
        worker := Polling;
      }
    }

    /** The loop of the run thread: round for round, until it has to stop, wait or block or the answers
        run out. */
    method GoRound(answers: seq<Answer>) returns (blocked: bool, ghost rounds: seq<Event>, ghost met: nat)
      requires Inv(Snapshot()) && worker == Head
      modifies this
      ensures worker == (if blocked then Polling else Head) && met <= |answers|
      ensures blocked ==> isEnabled && mode == Normal && !stopThread
      ensures rounds == Rounds(old(Snapshot()), answers[..met]) && forall e :: e in rounds ==> !IsCall(e)
      ensures Snapshot() == After(old(Snapshot()), rounds)
      ensures posted == old(posted) + PostCount(old(Snapshot()), rounds)
      ensures forall k :: 0 <= k < met ==> GoesRound(After(old(Snapshot()), Rounds(old(Snapshot()), answers[..k])))
      ensures met < |answers| ==> !GoesRound(Snapshot())
      ensures posted == old(posted) + if SomeFinger(answers[..met]) then 1 else 0
      ensures isEnabled == (old(isEnabled) && !SomeFinger(answers[..met]))
      ensures stopThread == (old(stopThread) || SomeError(answers[..met]))
      ensures met < |answers| ==> blocked || stopThread || !isEnabled || mode == DataInjection
      ensures blocked ==> waitPipe == 0 && met > 0 && Silent(answers[met - 1])
    {
      hide After, PostCount, RoundEvents, Inv, Rounds, SomeFinger, SomeError;
      ghost var start := Snapshot();
      NoRounds(start, answers);
      blocked, rounds := false, [];
      var k := 0;
      while !stopThread && !blocked
        invariant worker == (if blocked then Polling else Head) && k <= |answers|
        invariant blocked ==> isEnabled && mode == Normal && !stopThread
        invariant rounds == Rounds(start, answers[..k]) && forall e :: e in rounds ==> !IsCall(e)
        invariant forall j :: 0 <= j < k ==> GoesRound(After(start, Rounds(start, answers[..j])))
        invariant Snapshot() == After(start, rounds) && Inv(Snapshot())
        invariant posted == old(posted) + PostCount(start, rounds)
        invariant posted == old(posted) + if SomeFinger(answers[..k]) then 1 else 0
        invariant isEnabled == (old(isEnabled) && !SomeFinger(answers[..k]))
        invariant stopThread == (old(stopThread) || SomeError(answers[..k]))
        invariant blocked ==> waitPipe == 0 && k > 0 && Silent(answers[k - 1])
        decreases |answers| - k, !blocked
      {
        if !isEnabled || mode == DataInjection || k == |answers| {
          break;
        }
        ghost var s := Snapshot();
        ghost var es := RoundEvents(s, answers[k]);
        RoundHasNoCalls(s, answers[k]);
        AfterConcat(start, rounds, es);
        PostCountConcat(start, rounds, es);
        RunKeepsInv(s, es);
        OneMoreRound(start, answers, k);
        OneMoreAnswer(answers, k);
        blocked := PollOnce(answers[k]);
        rounds := rounds + es;
        k := k + 1;
      }
      met := k;
    }

    /** The run thread while nobody calls, until it exits, blocks or the answers run out: its trace is that
        of the answers it meets.  It posts once, and switches the sensor off, exactly if one of them is a
        finger, and it exits exactly if it was told to stop or one of them is an error. */
    method Run(answers: seq<Answer>) returns (ghost trace: seq<Event>, ghost met: nat)
      requires Inv(Snapshot()) && worker == Start
      modifies this
      ensures MeetsAnswers(old(Snapshot()), answers, met, trace)
      ensures Snapshot() == After(old(Snapshot()), trace) && (forall e :: e in trace ==> !IsCall(e))
      ensures posted == old(posted) + PostCount(old(Snapshot()), trace) <= old(posted) + 1
      ensures met <= |answers| && posted == old(posted) + if SomeFinger(answers[..met]) then 1 else 0
      ensures isEnabled == (old(isEnabled) && !SomeFinger(answers[..met]))
      ensures stopThread == (old(stopThread) || SomeError(answers[..met]))
      ensures met < |answers| ==> stopThread || !isEnabled || mode == DataInjection
                                  || (waitPipe == 0 && met > 0 && Silent(answers[met - 1]))
      ensures worker.Exited? == stopThread
      ensures worker.Asleep? == (!stopThread && (!isEnabled || mode == DataInjection))
    {
      hide After, PostCount, RoundEvents, Inv, Rounds, SomeFinger, SomeError;
      ghost var start := Snapshot();
      StepKeepsInv(start, Worker(false));
      worker := Head;
      var blocked, rounds, n := GoRound(answers);
      ghost var es := [];
      if !blocked {
        es := Rest(Snapshot());
        RestUnrolls(Snapshot());
        Park();
      }
      trace, met := [Worker(false)] + rounds + es, n;
      WholeTrace(start, rounds, es);
      PostsAtMostOnce(start, trace);
    }
  }
}
