/** The worker thread of the under-display fingerprint sensor and the callers that race with it.

    The worker alternates between waiting on a condition variable and an unlocked poll() over a wake
    pipe and the fingerprint device.  Every instruction that touches shared state is one event here,
    the mutex has an explicit holder, and any number of callers may be half way through a call.  A run
    is any sequence of events; an event that is not enabled leaves the state as it is.
 */
module UdfpsThread {
  import opened Basics

  datatype Holder = Free | HeldByWorker | HeldByCaller(id: nat)

  /** What poll() reported: an error, or which of its two descriptors were ready as requested. */
  datatype PollResult = Failed | Ready(pipeIn: bool, fp: bool)

  datatype WorkerPc =
    | Start                   // about to take the mutex for the first time
    | Head                    // at the loop test
    | WaitTest                // evaluating the predicate of the wait
    | Asleep                  // blocked in the wait, mutex released
    | Woken                   // notified, wants the mutex back
    | Polling                 // inside poll(), mutex released
    | Relock(rc: PollResult)  // poll() has returned, wants the mutex
    | Handle(rc: PollResult)  // acting on what poll() reported
    | Exited

  datatype CallPc =
    | ActivateLock(enable: bool)
    | ActivateTest(enable: bool)
    | ActivateWrite
    | ActivateNotify
    | ActivateUnlock
    | ModeLock(mode: Mode)
    | ModeTest(mode: Mode)
    | ModeNotify
    | ModeUnlock
    | ModeWrite

  datatype State = State(
    enabled: bool,
    mode: Mode,
    stop: bool,
    pipeOpen: bool,
    pipe: nat,  // bytes in the wake pipe
    holder: Holder,
    worker: WorkerPc,
    calls: map<nat, CallPc>)

  datatype Event =
    | Begin(id: nat, call: CallPc)
    | Caller(id: nat)
    | Worker(touch: bool)                   // touch: what reading the fingerprint state would answer
    | SpuriousWake
    | PollReady(device: bool, fp: bool)     // device: anything reported for the fingerprint descriptor
    | PollFailed

  // ---------- Steps ----------

  predicate IsEntry(c: CallPc) { c.ActivateLock? || c.ModeLock? }

  predicate CallerHolds(c: CallPc) { !IsEntry(c) && !c.ModeWrite? }

  predicate WorkerHolds(w: WorkerPc) { w.Head? || w.WaitTest? || w.Handle? }

  /** The worker will read a byte when it acts on this result. */
  predicate Consumes(rc: PollResult, touch: bool) { rc.Ready? && rc.pipeIn && !(rc.fp && touch) }

  /** The sensor should be polling. */
  predicate Wanted(s: State) { s.enabled && s.mode == Normal }

  predicate Enabled(s: State, e: Event) {
    match e
    case Begin(id, call) => id !in s.calls && IsEntry(call)
    case Caller(id) => id in s.calls && (IsEntry(s.calls[id]) ==> s.holder == Free)
    case Worker(touch) =>
      (match s.worker
       case Start => s.holder == Free
       case Woken => s.holder == Free
       case Relock(_) => s.holder == Free
       case Handle(rc) => Consumes(rc, touch) ==> s.pipe > 0  // reading an empty pipe blocks
       case Head => true
       case WaitTest => true
       case _ => false)
    case SpuriousWake => s.worker.Asleep?
    case PollReady(device, fp) => s.worker.Polling? && (s.pipe > 0 || device) && (fp ==> device)
    case PollFailed => s.worker.Polling?
  }

  function Notified(w: WorkerPc): WorkerPc { if w.Asleep? then Woken else w }

  function Interrupted(s: State): nat { if s.pipeOpen then s.pipe + 1 else s.pipe }

  predicate IsLast(c: CallPc) { c.ActivateUnlock? || c.ModeWrite? }

  /** Where a caller continues after its instruction. */
  function NextPc(s: State, c: CallPc): CallPc
    requires !IsLast(c)
  {
    match c
    case ActivateLock(enable) => ActivateTest(enable)
    case ActivateTest(enable) => if s.enabled != enable then ActivateWrite else ActivateUnlock
    case ActivateWrite => ActivateNotify
    case ActivateNotify => ActivateUnlock
    case ModeLock(mode) => ModeTest(mode)
    case ModeTest(mode) => if s.mode != mode then ModeNotify else ModeUnlock
    case ModeNotify => ModeUnlock
    case ModeUnlock => ModeWrite
  }

  /** What a caller's instruction does to the state it shares. */
  function Effect(s: State, id: nat, c: CallPc): State {
    match c
    case ActivateLock(_) => s.(holder := HeldByCaller(id))
    case ActivateTest(enable) => s.(enabled := enable)
    case ActivateWrite => s.(pipe := Interrupted(s))
    case ActivateNotify => s.(worker := Notified(s.worker))
    case ActivateUnlock => s.(holder := Free)
    case ModeLock(_) => s.(holder := HeldByCaller(id))
    case ModeTest(mode) => s.(mode := mode)
    case ModeNotify => s.(worker := Notified(s.worker))
    case ModeUnlock => s.(holder := Free)
    case ModeWrite => s.(pipe := Interrupted(s))
  }

  function CallerStep(s: State, id: nat): State
    requires id in s.calls
  {
    var c := s.calls[id];
    var calls := if IsLast(c) then s.calls - {id} else s.calls[id := NextPc(s, c)];
    Effect(s, id, c).(calls := calls)
  }

  function WorkerStep(s: State, touch: bool): State
    requires Enabled(s, Worker(touch))
  {
    match s.worker
    case Start => s.(holder := HeldByWorker, worker := Head)
    case Head =>
      if s.stop then s.(holder := Free, worker := Exited)
      else if !s.enabled || s.mode == DataInjection then s.(worker := WaitTest)
      else s.(holder := Free, worker := Polling)
    case WaitTest =>
      if Wanted(s) || s.stop then s.(worker := Head) else s.(holder := Free, worker := Asleep)
    case Woken => s.(holder := HeldByWorker, worker := WaitTest)
    case Relock(rc) => s.(holder := HeldByWorker, worker := Handle(rc))
    case Handle(rc) =>
      if rc == Failed then s.(stop := true, worker := Head)
      else if rc.fp && touch then s.(enabled := false, worker := Head)
      else if rc.pipeIn then s.(pipe := s.pipe - 1, worker := Head)
      else s.(worker := Head)
  }

  function Step(s: State, e: Event): State {
    if !Enabled(s, e) then s
    else
      match e
      case Begin(id, call) => s.(calls := s.calls[id := call])
      case Caller(id) => CallerStep(s, id)
      case Worker(touch) => WorkerStep(s, touch)
      case SpuriousWake => s.(worker := Woken)
      case PollReady(_, fp) => s.(worker := Relock(Ready(s.pipe > 0, fp)))
      case PollFailed => s.(worker := Relock(Failed))
  }

  /** An event is posted to the framework. */
  predicate Posts(s: State, e: Event) {
    e.Worker? && s.worker.Handle? && s.worker.rc.Ready? && s.worker.rc.fp && e.touch
  }

  /** The enabled flag goes from false to true. */
  predicate Activates(s: State, e: Event) {
    e.Caller? && e.id in s.calls && s.calls[e.id] == ActivateTest(true) && !s.enabled
  }

  // ---------- Runs ----------

  function After(s: State, es: seq<Event>): State {
    if es == [] then s else Step(After(s, es[..|es| - 1]), es[|es| - 1])
  }

  function PostCount(s: State, es: seq<Event>): nat {
    if es == [] then 0
    else
      var front := es[..|es| - 1];
      PostCount(s, front) + if Posts(After(s, front), es[|es| - 1]) then 1 else 0
  }

  function ActivationCount(s: State, es: seq<Event>): nat {
    if es == [] then 0
    else
      var front := es[..|es| - 1];
      ActivationCount(s, front) + if Activates(After(s, front), es[|es| - 1]) then 1 else 0
  }

  /** As construction leaves it: when a descriptor could not be opened the worker is told to stop. */
  predicate Init(s: State) {
    && !s.enabled && s.mode == Normal && s.pipe == 0 && s.holder == Free
    && s.worker == Start && s.calls == map[]
    && (!s.pipeOpen ==> s.stop)
  }

  // ---------- What every step keeps ----------

  /** The caller has changed, or may have changed, what the worker must see and still owes the pipe a byte. */
  predicate OwesByte(c: CallPc) { c.ActivateWrite? || c.ModeNotify? || c.ModeUnlock? || c.ModeWrite? }

  predicate OwesNotify(c: CallPc) { c.ActivateWrite? || c.ActivateNotify? || c.ModeNotify? }

  ghost predicate SomeCaller(s: State, owes: CallPc -> bool) {
    exists id :: id in s.calls && owes(s.calls[id])
  }

  ghost predicate MutexAgrees(s: State) {
    && (s.holder == HeldByWorker <==> WorkerHolds(s.worker))
    && (forall id :: id in s.calls ==> (CallerHolds(s.calls[id]) <==> s.holder == HeldByCaller(id)))
    && (s.holder.HeldByCaller? ==> s.holder.id in s.calls)
  }

  /** A poll that no longer has a reason to run can be broken. */
  ghost predicate NoStrandedPoll(s: State) {
    s.worker.Polling? && !Wanted(s) ==> s.pipe > 0 || SomeCaller(s, OwesByte)
  }

  /** A sleeper that has a reason to run is about to be notified. */
  ghost predicate NoLostWakeup(s: State) {
    s.worker.Asleep? && Wanted(s) ==> SomeCaller(s, OwesNotify)
  }

  ghost predicate ReadNeverBlocks(s: State) {
    (s.worker.Relock? || s.worker.Handle?) && s.worker.rc.Ready? && s.worker.rc.pipeIn ==> s.pipe > 0
  }

  ghost predicate StopSeen(s: State) {
    && (s.stop ==> s.worker.Start? || s.worker.Head? || s.worker.Exited?)
    && (s.worker.Exited? ==> s.stop)
    && (!s.pipeOpen ==> s.stop)
  }

  ghost predicate Inv(s: State) {
    MutexAgrees(s) && NoStrandedPoll(s) && NoLostWakeup(s) && ReadNeverBlocks(s) && StopSeen(s)
  }

  lemma OtherCallersKept(s: State, t: State, id: nat, owes: CallPc -> bool)
    requires SomeCaller(s, owes)
    requires forall j :: j in s.calls && j != id ==> j in t.calls && t.calls[j] == s.calls[j]
    requires id in s.calls && owes(s.calls[id]) ==> id in t.calls && owes(t.calls[id])
    ensures SomeCaller(t, owes)
  {
    var j :| j in s.calls && owes(s.calls[j]);
    assert j in t.calls && owes(t.calls[j]);
  }

  /** One caller moves, taking or releasing the mutex only for itself. */
  lemma MutexMoves(s: State, t: State, id: nat)
    requires MutexAgrees(s) && id in s.calls
    requires t.calls.Keys == s.calls.Keys || t.calls.Keys == s.calls.Keys - {id}
    requires forall j :: j in t.calls && j != id ==> t.calls[j] == s.calls[j]
    requires WorkerHolds(t.worker) == WorkerHolds(s.worker)
    requires t.holder == s.holder || (s.holder == Free && t.holder == HeldByCaller(id))
             || (s.holder == HeldByCaller(id) && t.holder == Free)
    requires t.holder == HeldByCaller(id) <==> id in t.calls && CallerHolds(t.calls[id])
    ensures MutexAgrees(t)
  {
    forall j | j in t.calls
      ensures CallerHolds(t.calls[j]) <==> t.holder == HeldByCaller(j)
    {
      assert j in s.calls && (CallerHolds(s.calls[j]) <==> s.holder == HeldByCaller(j));
    }
  }

  lemma CallerKeepsMutex(s: State, id: nat)
    requires MutexAgrees(s) && Enabled(s, Caller(id))
    ensures MutexAgrees(Step(s, Caller(id)))
  {
    var c, t := s.calls[id], CallerStep(s, id);
    assert t.holder == if IsEntry(c) then HeldByCaller(id)
                       else if c.ActivateUnlock? || c.ModeUnlock? then Free else s.holder;
    assert id in t.calls ==> (CallerHolds(t.calls[id]) <==> !c.ModeUnlock?);
    assert WorkerHolds(t.worker) == WorkerHolds(s.worker);
    MutexMoves(s, t, id);
  }

  lemma CallerKeepsPollInterruptible(s: State, id: nat)
    requires Inv(s) && Enabled(s, Caller(id))
    ensures NoStrandedPoll(Step(s, Caller(id)))
  {
    var c, t := s.calls[id], Step(s, Caller(id));
    if t.worker.Polling? && !Wanted(t) && t.pipe == 0 {
      assert s.worker.Polling?;
      if id in t.calls && OwesByte(t.calls[id]) {
        assert SomeCaller(t, OwesByte);
      } else {
        OtherCallersKept(s, t, id, OwesByte);
      }
    }
  }

  lemma CallerKeepsWakeup(s: State, id: nat)
    requires Inv(s) && Enabled(s, Caller(id))
    ensures NoLostWakeup(Step(s, Caller(id)))
  {
    var c, t := s.calls[id], Step(s, Caller(id));
    if t.worker.Asleep? && Wanted(t) {
      if id in t.calls && OwesNotify(t.calls[id]) {
        assert SomeCaller(t, OwesNotify);
      } else {
        OtherCallersKept(s, t, id, OwesNotify);
      }
    }
  }

  lemma WorkerSideKeepsInv(s: State, e: Event)
    requires Inv(s) && Enabled(s, e) && !e.Caller? && !e.Begin?
    ensures Inv(Step(s, e))
  {
    var t := Step(s, e);
    assert t.calls == s.calls;
    if SomeCaller(s, OwesByte) { OtherCallersKept(s, t, 0, OwesByte); }
    if SomeCaller(s, OwesNotify) { OtherCallersKept(s, t, 0, OwesNotify); }
  }

  lemma BeginKeepsInv(s: State, id: nat, call: CallPc)
    requires Inv(s) && Enabled(s, Begin(id, call))
    ensures Inv(Step(s, Begin(id, call)))
  {
    var t := Step(s, Begin(id, call));
    if SomeCaller(s, OwesByte) { OtherCallersKept(s, t, id, OwesByte); }
    if SomeCaller(s, OwesNotify) { OtherCallersKept(s, t, id, OwesNotify); }
  }

  lemma CallerKeepsProgress(s: State, id: nat)
    requires ReadNeverBlocks(s) && StopSeen(s) && Enabled(s, Caller(id))
    ensures ReadNeverBlocks(Step(s, Caller(id))) && StopSeen(Step(s, Caller(id)))
  {
    var t := CallerStep(s, id);
    assert t.pipe >= s.pipe && t.stop == s.stop && t.pipeOpen == s.pipeOpen;
    assert t.worker == s.worker || (s.worker.Asleep? && t.worker.Woken?);
  }

  lemma CallerKeepsInv(s: State, id: nat)
    requires Inv(s) && Enabled(s, Caller(id))
    ensures Inv(Step(s, Caller(id)))
  {
    CallerKeepsMutex(s, id);
    CallerKeepsProgress(s, id);
    CallerKeepsPollInterruptible(s, id);
    CallerKeepsWakeup(s, id);
  }

  lemma StepKeepsInv(s: State, e: Event)
    requires Inv(s)
    ensures Inv(Step(s, e))
  {
    if Enabled(s, e) {
      match e
      case Caller(id) => CallerKeepsInv(s, id);
      case Begin(id, call) => BeginKeepsInv(s, id, call);
      case _ => WorkerSideKeepsInv(s, e);
    }
  }

  lemma {:induction false} RunKeepsInv(s: State, es: seq<Event>)
    requires Inv(s)
    ensures Inv(After(s, es))
  {
    if es != [] {
      RunKeepsInv(s, es[..|es| - 1]);
      StepKeepsInv(After(s, es[..|es| - 1]), es[|es| - 1]);
    }
  }

  /** Main result: in every state of every interleaving the mutex has one holder, a poll without a reason
      to run can be broken, a sleeper with a reason to run is about to be notified, and the read under the
      mutex never blocks. */
  lemma ReachableStatesAreSafe(s: State, es: seq<Event>)
    requires Init(s)
    ensures Inv(After(s, es))
  {
    hide After;
    RunKeepsInv(s, es);
  }

  // ---------- One event per activation ----------

  predicate InFlight(w: WorkerPc) { w.Polling? || w.Relock? || w.Handle? }

  function Armed(s: State): nat { if s.enabled || InFlight(s.worker) then 1 else 0 }

  lemma StepAccounts(s: State, e: Event)
    ensures (if Posts(s, e) then 1 else 0) + Armed(Step(s, e)) <= (if Activates(s, e) then 1 else 0) + Armed(s)
  {
  }

  /** Main result: whatever the interleaving, posts never outrun activations. */
  lemma {:induction false} PostsNeedActivations(s: State, es: seq<Event>)
    ensures PostCount(s, es) + Armed(After(s, es)) <= ActivationCount(s, es) + Armed(s)
  {
    if es != [] {
      var front := es[..|es| - 1];
      PostsNeedActivations(s, front);
      StepAccounts(After(s, front), es[|es| - 1]);
    }
  }

  /** Between any two posts the sensor was switched on afresh. */
  lemma FreshActivationBetweenPosts(s: State, first: Event, t: State, between: seq<Event>, second: Event)
    requires Posts(s, first) && t == Step(s, first)
    requires Posts(After(t, between), second)
    ensures ActivationCount(t, between) >= 1
  {
    PostsNeedActivations(t, between);
  }

  /** Event j sends the worker into poll(), with the sensor on and in normal mode. */
  ghost predicate EntersPollAt(s: State, es: seq<Event>, j: nat)
    requires j < |es|
  {
    var before, after := After(s, es[..j]), After(s, es[..j + 1]);
    before.worker.Head? && Wanted(before) && !before.stop && after.worker.Polling?
  }

  ghost predicate InFlightSince(s: State, es: seq<Event>, j: nat) {
    && j < |es| && EntersPollAt(s, es, j)
    && forall k :: j < k <= |es| ==> InFlight(After(s, es[..k]).worker)
  }

  lemma PollEntry(s: State, e: Event)
    requires !InFlight(s.worker) && InFlight(Step(s, e).worker)
    ensures s.worker.Head? && Wanted(s) && !s.stop && Step(s, e).worker.Polling?
  {
  }

  lemma InFlightExtends(s: State, es: seq<Event>, e: Event, j: nat)
    requires InFlightSince(s, es, j) && InFlight(After(s, es + [e]).worker)
    ensures InFlightSince(s, es + [e], j)
  {
    var more := es + [e];
    assert more[..j] == es[..j] && more[..j + 1] == es[..j + 1] && more[..|more|] == more;
    forall k | j < k <= |more|
      ensures InFlight(After(s, more[..k]).worker)
    {
      if k <= |es| { assert more[..k] == es[..k]; }
    }
  }

  lemma {:induction false} PollWasEnteredArmed(s: State, es: seq<Event>)
    requires Init(s) && InFlight(After(s, es).worker)
    ensures exists j: nat :: InFlightSince(s, es, j)
  {
    assert es != [];
    var n := |es| - 1;
    var front := es[..n];
    assert front + [es[n]] == es && es[..n + 1] == es;
    if InFlight(After(s, front).worker) {
      PollWasEnteredArmed(s, front);
      var j: nat :| InFlightSince(s, front, j);
      InFlightExtends(s, front, es[n], j);
    } else {
      PollEntry(After(s, front), es[n]);
      assert InFlightSince(s, es, n);
    }
  }

  /** Every post answers a poll that was entered with the sensor on and in normal mode. */
  lemma PostAnswersArmedPoll(s: State, es: seq<Event>, post: Event)
    requires Init(s) && Posts(After(s, es), post)
    ensures exists j: nat :: InFlightSince(s, es, j)
  {
    PollWasEnteredArmed(s, es);
  }

  // ---------- Progress ----------

  lemma {:induction false} AfterConcat(s: State, a: seq<Event>, b: seq<Event>)
    ensures After(s, a + b) == After(After(s, a), b)
  {
    if b == [] {
      assert a + b == a;
    } else {
      var front := b[..|b| - 1];
      assert (a + b)[..|a + b| - 1] == a + front;
      AfterConcat(s, a, front);
    }
  }

  lemma AfterCons(s: State, e: Event, es: seq<Event>)
    ensures After(s, [e] + es) == After(Step(s, e), es)
  {
    AfterConcat(s, [e], es);
    assert [e][..0] == [];
    assert After(s, [e]) == Step(s, e);
  }

  /** How many instructions a caller still has before its byte is in the pipe. */
  function ByteDistance(c: CallPc): nat
    requires OwesByte(c)
  {
    match c
    case ModeNotify => 3
    case ModeUnlock => 2
    case _ => 1
  }

  ghost predicate ReleasesPoll(s: State, id: nat, es: seq<Event>) {
    && (forall e :: e in es ==> e == Caller(id) || e == PollReady(false, false))
    && After(s, es).worker == Relock(Ready(true, false))
  }

  function Debt(s: State, id: nat): nat
    requires s.pipe > 0 || (id in s.calls && OwesByte(s.calls[id]))
  {
    if s.pipe > 0 then 0 else ByteDistance(s.calls[id])
  }

  lemma CallerPaysDebt(s: State, id: nat)
    requires s.pipeOpen && s.pipe == 0 && id in s.calls && OwesByte(s.calls[id])
    requires Enabled(s, Caller(id)) && s.worker.Polling?
    ensures var t := Step(s, Caller(id));
            && t.worker.Polling? && t.pipeOpen
            && (t.pipe > 0 || (id in t.calls && OwesByte(t.calls[id])))
            && Debt(t, id) == Debt(s, id) - 1
  {
  }

  lemma {:induction false} OwedByteReleasesPoll(s: State, id: nat)
    requires s.worker.Polling? && s.pipeOpen && MutexAgrees(s)
    requires s.pipe > 0 || (id in s.calls && OwesByte(s.calls[id]))
    ensures exists es :: |es| <= Debt(s, id) + 1 && ReleasesPoll(s, id, es)
    decreases Debt(s, id)
  {
    if s.pipe > 0 {
      AfterCons(s, PollReady(false, false), []);
      assert ReleasesPoll(s, id, [PollReady(false, false)] + []);
    } else {
      var t := Step(s, Caller(id));
      CallerKeepsMutex(s, id);
      CallerPaysDebt(s, id);
      OwedByteReleasesPoll(t, id);
      var es :| |es| <= Debt(s, id) && ReleasesPoll(t, id, es);
      AfterCons(s, Caller(id), es);
      assert ReleasesPoll(s, id, [Caller(id)] + es);
    }
  }

  /** There is always a way out: a poll the sensor no longer wants can be broken by at most four steps of
      one caller and the kernel, without a finger or another caller. */
  lemma StrandedPollCanReturn(s: State, es: seq<Event>)
    requires Init(s)
    requires After(s, es).worker.Polling? && !Wanted(After(s, es))
    ensures exists id, more :: |more| <= 4 && ReleasesPoll(After(s, es), id, more)
  {
    ReachableStatesAreSafe(s, es);
    var t := After(s, es);
    if t.pipe > 0 {
      OwedByteReleasesPoll(t, 0);
    } else {
      var id :| id in t.calls && OwesByte(t.calls[id]);
      OwedByteReleasesPoll(t, id);
    }
  }

  /** The worker has not left poll() at any point of the run. */
  ghost predicate StaysPolling(s: State, es: seq<Event>) {
    forall k :: 0 <= k <= |es| ==> After(s, es[..k]).worker.Polling?
  }

  /** How often caller id is scheduled. */
  function Scheduled(es: seq<Event>, id: nat): nat {
    if es == [] then 0
    else Scheduled(es[..|es| - 1], id) + if es[|es| - 1] == Caller(id) then 1 else 0
  }

  /** The kernel can end the poll now; or caller id, who owes the byte, is not blocked, and its turns so far
      and the instructions it still has before its byte is written are at most n together. */
  ghost predicate Breaking(s: State, id: nat, turns: nat, n: nat) {
    || (s.pipe > 0 && Enabled(s, PollReady(false, false)))
    || (id in s.calls && OwesByte(s.calls[id]) && Enabled(s, Caller(id)) && turns + ByteDistance(s.calls[id]) <= n)
  }

  lemma BreakingGoesOn(s: State, id: nat, turns: nat, n: nat, e: Event)
    requires s.pipeOpen && s.worker.Polling? && Step(s, e).worker.Polling?
    requires Breaking(s, id, turns, n)
    ensures Breaking(Step(s, e), id, turns + if e == Caller(id) then 1 else 0, n)
  {
    if s.pipe == 0 && e == Caller(id) { CallerPaysDebt(s, id); }
  }

  lemma {:induction false} BreakingThroughout(s: State, id: nat, n: nat, es: seq<Event>)
    requires s.pipeOpen && StaysPolling(s, es) && Breaking(s, id, 0, n)
    ensures Breaking(After(s, es), id, Scheduled(es, id), n) && After(s, es).pipeOpen
  {
    if es != [] {
      var front, last := es[..|es| - 1], es[|es| - 1];
      forall k | 0 <= k <= |front|
        ensures After(s, front[..k]).worker.Polling?
      {
        assert front[..k] == es[..k];
      }
      BreakingThroughout(s, id, n, front);
      assert es[..|es|] == es && front[..|front|] == front;
      BreakingGoesOn(After(s, front), id, Scheduled(front, id), n, last);
    }
  }

  /** However the run goes on, as long as the worker has not left poll(). */
  ghost predicate KeepsBreaking(s: State, id: nat, n: nat) {
    forall more :: StaysPolling(s, more) ==> Breaking(After(s, more), id, Scheduled(more, id), n)
  }

  lemma SomebodyBreaks(s: State)
    requires Inv(s) && s.worker.Polling? && !Wanted(s)
    ensures s.pipeOpen && exists id :: Breaking(s, id, 0, 3)
  {
    if s.pipe > 0 {
      assert Breaking(s, 0, 0, 3);
    } else {
      var id :| id in s.calls && OwesByte(s.calls[id]);
      assert Breaking(s, id, 0, 3);
    }
  }

  /** Main result: a poll the sensor no longer wants can always be ended.  Whatever everybody does from then
      on, for as long as the worker has not left poll() there is a byte the kernel can end it with, or one
      and the same caller can run and has had fewer than three turns, the last of which writes the byte. */
  lemma StrandedPollReturns(s: State, es: seq<Event>)
    requires Init(s)
    requires After(s, es).worker.Polling? && !Wanted(After(s, es))
    ensures exists id :: KeepsBreaking(After(s, es), id, 3)
  {
    hide After, StaysPolling, Breaking;
    ReachableStatesAreSafe(s, es);
    var t := After(s, es);
    SomebodyBreaks(t);
    var id :| Breaking(t, id, 0, 3);
    forall more | StaysPolling(t, more)
      ensures Breaking(After(t, more), id, Scheduled(more, id), 3)
    {
      BreakingThroughout(t, id, 3, more);
    }
    assert KeepsBreaking(t, id, 3);
  }

  /** The worker's own next step when nobody calls and no finger is there. */
  function Move(s: State): Event {
    if s.worker.Polling? then PollReady(false, false) else Worker(false)
  }

  function Moves(s: State, n: nat): State
    decreases n
  {
    if n == 0 then s else Moves(Step(s, Move(s)), n - 1)
  }

  /** The worker rests where the flags say it should. */
  predicate Settled(s: State) {
    if s.stop then s.worker.Exited?
    else if Wanted(s) then s.worker.Polling? && s.pipe == 0
    else s.worker.Asleep?
  }

  function Rank(s: State): nat {
    10 * s.pipe +
    match s.worker
    case Start => 40
    case Woken => 20
    case WaitTest => if Wanted(s) || s.stop then 19 else 10
    case Head => 14
    case Polling => 13
    case Relock(rc) => if Consumes(rc, false) then 12 else 30
    case Handle(rc) => if Consumes(rc, false) then 11 else 29
    case Asleep => 0
    case Exited => 0
  }

  lemma MoveRanksDown(s: State)
    requires Inv(s) && s.calls == map[] && !Settled(s)
    ensures Rank(Step(s, Move(s))) < Rank(s)
    ensures Step(s, Move(s)).calls == map[]
    ensures Step(s, Move(s)).enabled == s.enabled && Step(s, Move(s)).mode == s.mode
  {
    assert !SomeCaller(s, OwesByte) && !SomeCaller(s, OwesNotify);
  }

  /** Main result: left alone, the worker settles from every state the invariant allows: it drains stale
      bytes, then sleeps if the sensor is off or injecting, and polls on an empty pipe if it is on. */
  lemma {:induction false} WorkerSettles(s: State)
    requires Inv(s) && s.calls == map[]
    ensures exists n: nat :: n <= Rank(s) && Settled(Moves(s, n))
                        && Moves(s, n).enabled == s.enabled && Moves(s, n).mode == s.mode
    decreases Rank(s)
  {
    if Settled(s) {
      assert Settled(Moves(s, 0));
    } else {
      var t := Step(s, Move(s));
      StepKeepsInv(s, Move(s));
      MoveRanksDown(s);
      WorkerSettles(t);
      var n: nat :| n <= Rank(t) && Settled(Moves(t, n))
                    && Moves(t, n).enabled == s.enabled && Moves(t, n).mode == s.mode;
      assert Moves(s, n + 1) == Moves(t, n);
    }
  }
}
