/** The fingerprint HAL wrapper between the framework, the vendor HAL, the panel and the touch helper. */
module FingerprintHal {
  import opened Basics

  type Client = nat

  /** Framework calls and vendor callbacks; `payload` stands for the arguments that are passed on. */
  datatype Call =
    | SetNotify(client: Option<Client>)
    | PreEnroll
    | Enroll(payload: int)
    | PostEnroll
    | GetAuthenticatorId
    | Cancel
    | Enumerate
    | Remove(payload: int)
    | SetActiveGroup(payload: int)
    | Authenticate(payload: int)
    | IsUdfps(payload: int)
    | OnFingerDown(payload: int)
    | OnFingerUp
    | OnEnrollResult(payload: int)
    | OnAcquired(payload: int)
    | OnAuthenticated(fingerId: nat, payload: int)
    | OnError(payload: int)
    | OnRemoved(payload: int)
    | OnEnumerate(payload: int)
    | OnAcquired22(payload: int)
    | OnEngineeringInfoUpdated
    | OnFingerprintCmd(cmdId: int)

  /** A call, and whether writes to the two panel files succeed while it runs. */
  datatype Event = Event(call: Call, dimOk: bool, pressOk: bool)

  /** What is found at construction: the vendor HAL, the touch helper, the kind of sensor. */
  datatype Config = Config(hal: bool, helper: bool, uff: bool)

  datatype State = State(
    enrolling: bool,
    dim: int,                          // the panel's dim layer file
    press: int,                        // the panel's finger press file
    touch: bool,                       // the helper's touch flag
    client: Option<Client>,
    delivered: seq<(Client, Call)>,    // vendor callbacks passed to a client
    forwarded: seq<Call>)              // calls passed to the vendor HAL

  const CMD_ON_TOUCH_DOWN := 1201
  const CMD_ON_TOUCH_UP := 1202

  // ---------- One call ----------

  function Dim(s: State, value: int, e: Event): State { if e.dimOk then s.(dim := value) else s }

  function Press(s: State, value: int, e: Event): State { if e.pressOk then s.(press := value) else s }

  function Touch(c: Config, s: State, down: bool): State { if c.helper then s.(touch := down) else s }

  /** What a call does to the wrapper's own fields, the panel and the helper. */
  function Update(c: Config, s: State, e: Event): State {
    match e.call
    case SetNotify(client) => s.(client := client)
    case PreEnroll => if !c.hal then s else Dim(s.(enrolling := true), 1, e)
    case Enroll(_) => if !c.hal then s else Dim(s, 1, e)
    case PostEnroll => if !c.hal then s else Dim(s.(enrolling := false), 0, e)
    case Cancel => if !c.hal || s.enrolling then s else Dim(s, 0, e)
    case Authenticate(_) => if !c.hal then s else s.(enrolling := false)
    case OnFingerDown(_) => Press(if s.enrolling then s else Dim(s, 1, e), 1, e)
    case OnFingerUp => var t := Press(s, 0, e); if t.enrolling then t else Dim(t, 0, e)
    case OnEnrollResult(_) => Touch(c, s, false)
    case OnAuthenticated(fingerId, _) => Touch(c, Press(if fingerId != 0 then Dim(s, 0, e) else s, 0, e), false)
    case OnError(_) => var t := Press(s, 0, e); if t.enrolling then t else Dim(t, 0, e)
    case OnFingerprintCmd(cmdId) =>
      if cmdId == CMD_ON_TOUCH_DOWN then Touch(c, s, true)
      else if cmdId == CMD_ON_TOUCH_UP then Touch(c, s, false)
      else s
    case _ => s
  }

  function Forward(c: Config, s: State, call: Call): State {
    if c.hal then s.(forwarded := s.forwarded + [call]) else s
  }

  function Deliver(s: State, call: Call): State {
    if s.client.Some? then s.(delivered := s.delivered + [(s.client.value, call)]) else s
  }

  /** Where a call goes next: vendor callbacks to the client, framework calls to the vendor HAL. */
  function PassOn(c: Config, s: State, call: Call): State {
    match call
    case OnFingerDown(_) => if c.uff then s else Forward(c, s, call)
    case OnFingerUp => if c.uff then s else Forward(c, s, call)
    case OnEnrollResult(_) => Deliver(s, call)
    case OnAcquired(_) => Deliver(s, call)
    case OnAuthenticated(_, _) => Deliver(s, call)
    case OnError(_) => Deliver(s, call)
    case OnRemoved(_) => Deliver(s, call)
    case OnEnumerate(_) => Deliver(s, call)
    case OnAcquired22(_) => Deliver(s, call)
    case OnEngineeringInfoUpdated => s
    case OnFingerprintCmd(_) => s
    case _ => Forward(c, s, call)
  }

  function Step(c: Config, s: State, e: Event): State { PassOn(c, Update(c, s, e), e.call) }

  function After(c: Config, s: State, es: seq<Event>): State {
    if es == [] then s else Step(c, After(c, s, es[..|es| - 1]), es[|es| - 1])
  }

  lemma AfterOneMore(c: Config, s: State, es: seq<Event>, k: nat)
    requires k < |es|
    ensures After(c, s, es[..k + 1]) == Step(c, After(c, s, es[..k]), es[k])
  {
    assert es[..k + 1][..k] == es[..k];
  }

  lemma {:induction false} AfterConcat(c: Config, s: State, a: seq<Event>, b: seq<Event>)
    ensures After(c, s, a + b) == After(c, After(c, s, a), b)
  {
    hide Step;
    if b == [] {
      assert a + b == a;
    } else {
      var front := b[..|b| - 1];
      assert (a + b)[..|a + b| - 1] == a + front;
      AfterConcat(c, s, a, front);
    }
  }

  // ---------- Enrolment keeps the dim layer lit ----------

  predicate Lit(s: State) { s.enrolling && s.dim == 1 }

  /** Ends enrolment, or puts the dim layer out while it lasts. */
  predicate Breaks(e: Event) {
    e.call.PostEnroll? || e.call.Authenticate? || (e.call.OnAuthenticated? && e.call.fingerId != 0 && e.dimOk)
  }

  lemma StaysLit(c: Config, s: State, e: Event)
    requires c.hal && Lit(s)
    ensures Lit(Step(c, s, e)) <==> !Breaks(e)
  {
    hide Step;
    StepWritesFlags(c, s, e);
    StepWritesDim(c, s, e);
  }

  lemma {:induction false} LitSoFar(c: Config, s: State, es: seq<Event>)
    requires c.hal && Lit(s) && forall k :: 0 <= k < |es| ==> !Breaks(es[k])
    ensures Lit(After(c, s, es))
  {
    if es != [] {
      LitSoFar(c, s, es[..|es| - 1]);
      StaysLit(c, After(c, s, es[..|es| - 1]), es[|es| - 1]);
    }
  }

  /** Main result: from a preEnroll whose write succeeds, enrolment stays on and the dim layer lit at every
      point, whatever else is called and whichever writes fail, exactly when no event of the run ends
      enrolment or recognises a finger. */
  lemma EnrolmentKeepsDimLayerLit(c: Config, s: State, pre: Event, es: seq<Event>)
    requires c.hal && pre.call.PreEnroll? && pre.dimOk
    ensures (forall k :: 0 <= k <= |es| ==> Lit(After(c, Step(c, s, pre), es[..k])))
            <==> forall k :: 0 <= k < |es| ==> !Breaks(es[k])
  {
    var t := Step(c, s, pre);
    if forall k :: 0 <= k < |es| ==> !Breaks(es[k]) {
      forall k | 0 <= k <= |es|
        ensures Lit(After(c, t, es[..k]))
      {
        LitSoFar(c, t, es[..k]);
      }
    }
    if forall k :: 0 <= k <= |es| ==> Lit(After(c, t, es[..k])) {
      forall k | 0 <= k < |es|
        ensures !Breaks(es[k])
      {
        AfterOneMore(c, t, es, k);
        assert Lit(After(c, t, es[..k])) && Lit(After(c, t, es[..k + 1]));
        StaysLit(c, After(c, t, es[..k]), es[k]);
      }
    }
  }

  lemma {:induction false} NoHalNoEnrolment(c: Config, s: State, es: seq<Event>)
    requires !c.hal && !s.enrolling
    ensures !After(c, s, es).enrolling
  {
    if es != [] {
      hide Step;
      NoHalNoEnrolment(c, s, es[..|es| - 1]);
      StepWritesFlags(c, After(c, s, es[..|es| - 1]), es[|es| - 1]);
    }
  }

  // ---------- Every part of the state is its last write ----------

  /** The value left by a sequence of optional writes. */
  function LastWrite<T>(writes: seq<Option<T>>, init: T): T {
    if writes == [] then init
    else if writes[|writes| - 1].Some? then writes[|writes| - 1].value
    else LastWrite(writes[..|writes| - 1], init)
  }

  lemma {:induction false} LastWriteMeaning<T>(writes: seq<Option<T>>, init: T, k: nat)
    requires k < |writes| && writes[k].Some?
    requires forall j :: k < j < |writes| ==> writes[j].None?
    ensures LastWrite(writes, init) == writes[k].value
  {
    if k < |writes| - 1 { LastWriteMeaning(writes[..|writes| - 1], init, k); }
  }

  function EnrollingWrite(c: Config, e: Event): Option<bool> {
    if !c.hal then None
    else if e.call.PreEnroll? then Some(true)
    else if e.call.PostEnroll? || e.call.Authenticate? then Some(false)
    else None
  }

  function DimWrite(c: Config, enrolling: bool, e: Event): Option<int> {
    if !e.dimOk then None
    else
      match e.call
      case PreEnroll => if c.hal then Some(1) else None
      case Enroll(_) => if c.hal then Some(1) else None
      case PostEnroll => if c.hal then Some(0) else None
      case Cancel => if c.hal && !enrolling then Some(0) else None
      case OnFingerDown(_) => if enrolling then None else Some(1)
      case OnFingerUp => if enrolling then None else Some(0)
      case OnError(_) => if enrolling then None else Some(0)
      case OnAuthenticated(fingerId, _) => if fingerId != 0 then Some(0) else None
      case _ => None
  }

  function PressWrite(e: Event): Option<int> {
    if !e.pressOk then None
    else
      match e.call
      case OnFingerDown(_) => Some(1)
      case OnFingerUp => Some(0)
      case OnError(_) => Some(0)
      case OnAuthenticated(_, _) => Some(0)
      case _ => None
  }

  function TouchWrite(c: Config, e: Event): Option<bool> {
    if !c.helper then None
    else
      match e.call
      case OnEnrollResult(_) => Some(false)
      case OnAuthenticated(_, _) => Some(false)
      case OnFingerprintCmd(cmdId) =>
        if cmdId == CMD_ON_TOUCH_DOWN then Some(true) else if cmdId == CMD_ON_TOUCH_UP then Some(false) else None
      case _ => None
  }

  function ClientWrite(e: Event): Option<Option<Client>> {
    if e.call.SetNotify? then Some(e.call.client) else None
  }

  function EnrollingWrites(c: Config, es: seq<Event>): seq<Option<bool>> {
    if es == [] then [] else EnrollingWrites(c, es[..|es| - 1]) + [EnrollingWrite(c, es[|es| - 1])]
  }

  /** The flag after a run, from the trace alone. */
  function EnrollingAfter(c: Config, init: bool, es: seq<Event>): bool {
    LastWrite(EnrollingWrites(c, es), init)
  }

  function DimWrites(c: Config, init: bool, es: seq<Event>): seq<Option<int>> {
    if es == [] then []
    else
      var front := es[..|es| - 1];
      DimWrites(c, init, front) + [DimWrite(c, EnrollingAfter(c, init, front), es[|es| - 1])]
  }

  function PressWrites(es: seq<Event>): seq<Option<int>> {
    if es == [] then [] else PressWrites(es[..|es| - 1]) + [PressWrite(es[|es| - 1])]
  }

  function TouchWrites(c: Config, es: seq<Event>): seq<Option<bool>> {
    if es == [] then [] else TouchWrites(c, es[..|es| - 1]) + [TouchWrite(c, es[|es| - 1])]
  }

  function ClientWrites(es: seq<Event>): seq<Option<Option<Client>>> {
    if es == [] then [] else ClientWrites(es[..|es| - 1]) + [ClientWrite(es[|es| - 1])]
  }

  /** The client known after a run, from the trace alone. */
  function ClientAfter(init: Option<Client>, es: seq<Event>): Option<Client> {
    LastWrite(ClientWrites(es), init)
  }

  predicate IsVendorCallback(call: Call) {
    || call.OnEnrollResult? || call.OnAcquired? || call.OnAuthenticated? || call.OnError?
    || call.OnRemoved? || call.OnEnumerate? || call.OnAcquired22?
  }

  /** Calls the vendor HAL sees: under-film sensors handle finger events on their own. */
  predicate IsForwarded(c: Config, call: Call) {
    && c.hal && !IsVendorCallback(call) && !call.OnEngineeringInfoUpdated? && !call.OnFingerprintCmd?
    && ((call.OnFingerDown? || call.OnFingerUp?) ==> !c.uff)
  }

  function ForwardedCalls(c: Config, es: seq<Event>): seq<Call> {
    if es == [] then []
    else ForwardedCalls(c, es[..|es| - 1]) + if IsForwarded(c, es[|es| - 1].call) then [es[|es| - 1].call] else []
  }

  /** Vendor callbacks, each paired with the client known when it arrived. */
  function Deliveries(init: Option<Client>, es: seq<Event>): seq<(Client, Call)> {
    if es == [] then []
    else
      var front, call := es[..|es| - 1], es[|es| - 1].call;
      var client := ClientAfter(init, front);
      Deliveries(init, front) + if client.Some? && IsVendorCallback(call) then [(client.value, call)] else []
  }

  lemma OneMoreWrite<T>(writes: seq<Option<T>>, w: Option<T>, init: T)
    ensures LastWrite(writes + [w], init) == if w.Some? then w.value else LastWrite(writes, init)
  {
    assert (writes + [w])[..|writes|] == writes;
  }

  lemma PassOnOnlyRecords(c: Config, s: State, call: Call)
    ensures var t := PassOn(c, s, call);
            t == s.(delivered := t.delivered, forwarded := t.forwarded)
  {
  }

  lemma UpdateOnlyWrites(c: Config, s: State, e: Event)
    ensures Update(c, s, e).delivered == s.delivered && Update(c, s, e).forwarded == s.forwarded
  {
  }

  /** One call writes the flags and files as the tables say. */
  lemma StepWritesFlags(c: Config, s: State, e: Event)
    ensures Step(c, s, e).enrolling == EnrollingWrite(c, e).GetOr(s.enrolling)
    ensures Step(c, s, e).client == ClientWrite(e).GetOr(s.client)
  {
    hide PassOn;
    PassOnOnlyRecords(c, Update(c, s, e), e.call);
  }

  lemma StepWritesDim(c: Config, s: State, e: Event)
    ensures Step(c, s, e).dim == DimWrite(c, s.enrolling, e).GetOr(s.dim)
  {
    hide PassOn;
    PassOnOnlyRecords(c, Update(c, s, e), e.call);
  }

  lemma StepWritesPress(c: Config, s: State, e: Event)
    ensures Step(c, s, e).press == PressWrite(e).GetOr(s.press)
  {
    hide PassOn;
    PassOnOnlyRecords(c, Update(c, s, e), e.call);
  }

  lemma StepWritesTouch(c: Config, s: State, e: Event)
    ensures Step(c, s, e).touch == TouchWrite(c, e).GetOr(s.touch)
  {
    hide PassOn;
    PassOnOnlyRecords(c, Update(c, s, e), e.call);
  }

  lemma StepForwards(c: Config, s: State, e: Event)
    ensures Step(c, s, e).forwarded == if IsForwarded(c, e.call) then s.forwarded + [e.call] else s.forwarded
  {
    hide Update;
    UpdateOnlyWrites(c, s, e);
  }

  lemma StepDelivers(c: Config, s: State, e: Event)
    ensures Step(c, s, e).delivered ==
            if s.client.Some? && IsVendorCallback(e.call) then s.delivered + [(s.client.value, e.call)] else s.delivered
  {
    StepWritesFlags(c, s, e);
    PassOnOnlyRecords(c, Update(c, s, e), e.call);
    hide Update;
    UpdateOnlyWrites(c, s, e);
  }

  /** Main result: after any run the flags and files hold the last value some event of the trace wrote to
      them, where an event that heeds the enrolling flag sees the last value written to that. */
  lemma {:induction false} StateIsLastWrite(c: Config, s: State, es: seq<Event>)
    ensures After(c, s, es).enrolling == EnrollingAfter(c, s.enrolling, es)
    ensures After(c, s, es).dim == LastWrite(DimWrites(c, s.enrolling, es), s.dim)
    ensures After(c, s, es).press == LastWrite(PressWrites(es), s.press)
    ensures After(c, s, es).touch == LastWrite(TouchWrites(c, es), s.touch)
    ensures After(c, s, es).client == ClientAfter(s.client, es)
  {
    if es != [] {
      hide Step;
      var front, e := es[..|es| - 1], es[|es| - 1];
      StateIsLastWrite(c, s, front);
      var before := After(c, s, front);
      StepWritesFlags(c, before, e);
      StepWritesDim(c, before, e);
      StepWritesPress(c, before, e);
      StepWritesTouch(c, before, e);
      OneMoreWrite(EnrollingWrites(c, front), EnrollingWrite(c, e), s.enrolling);
      OneMoreWrite(DimWrites(c, s.enrolling, front), DimWrite(c, EnrollingAfter(c, s.enrolling, front), e), s.dim);
      OneMoreWrite(PressWrites(front), PressWrite(e), s.press);
      OneMoreWrite(TouchWrites(c, front), TouchWrite(c, e), s.touch);
      OneMoreWrite(ClientWrites(front), ClientWrite(e), s.client);
    }
  }

  /** Main result: the client gets exactly the vendor callbacks that arrive while one is known, once each
      and in order. */
  lemma {:induction false} CallbacksAreDeliveredInOrder(c: Config, s: State, es: seq<Event>)
    ensures After(c, s, es).delivered == s.delivered + Deliveries(s.client, es)
  {
    if es != [] {
      hide Step;
      var front, e := es[..|es| - 1], es[|es| - 1];
      CallbacksAreDeliveredInOrder(c, s, front);
      StateIsLastWrite(c, s, front);
      StepDelivers(c, After(c, s, front), e);
      Regroup(s.delivered, Deliveries(s.client, front), (ClientAfter(s.client, front).GetOr(0), e.call));
    }
  }

  /** The vendor HAL gets exactly the calls meant for it, once each and in order. */
  lemma {:induction false} CallsAreForwardedInOrder(c: Config, s: State, es: seq<Event>)
    ensures After(c, s, es).forwarded == s.forwarded + ForwardedCalls(c, es)
  {
    if es != [] {
      hide Step;
      var front, e := es[..|es| - 1], es[|es| - 1];
      CallsAreForwardedInOrder(c, s, front);
      StepForwards(c, After(c, s, front), e);
      Regroup(s.forwarded, ForwardedCalls(c, front), e.call);
    }
  }

  lemma Regroup<T>(a: seq<T>, b: seq<T>, x: T)
    ensures (a + b) + [x] == a + (b + [x]) && b + [] == b
  {
  }

  // ---------- What the calls come to ----------

  /** Commands 1201 and 1202 set and clear the helper's touch flag, if there is a helper; no other command does
      anything. */
  lemma CommandsDriveTouch(c: Config, s: State, e: Event)
    requires e.call.OnFingerprintCmd?
    ensures Step(c, s, e) ==
            if c.helper && e.call.cmdId == 1201 then s.(touch := true)
            else if c.helper && e.call.cmdId == 1202 then s.(touch := false)
            else s
  {
  }

  lemma TwoEvents(c: Config, s: State, a: Event, b: Event)
    ensures After(c, s, [a, b]) == Step(c, Step(c, s, a), b)
  {
    hide Step;
    assert [a, b][..1] == [a] && [a][..0] == [];
    assert After(c, s, [a]) == Step(c, s, a);
  }

  /** The client given last is told of every vendor callback. */
  lemma NotifiedClientIsTold(c: Config, s: State, notify: Event, e: Event, client: Client)
    requires notify.call == Call.SetNotify(Some(client))
    requires || e.call.OnEnrollResult? || e.call.OnAcquired? || e.call.OnAuthenticated? || e.call.OnError?
             || e.call.OnRemoved? || e.call.OnEnumerate? || e.call.OnAcquired22?
    ensures After(c, s, [notify, e]).client == Some(client)
    ensures After(c, s, [notify, e]).delivered == s.delivered + [(client, e.call)]
  {
    TwoEvents(c, s, notify, e);
    var t := Step(c, s, notify);
    assert t.client == Some(client) && t.delivered == s.delivered;
    hide Step;
    StepWritesFlags(c, t, e);
    StepDelivers(c, t, e);
  }

  /** Every framework call but the finger events reaches the vendor HAL, if there is one. */
  lemma FrameworkCallsAreForwarded(c: Config, s: State, e: Event)
    requires || e.call.SetNotify? || e.call.PreEnroll? || e.call.Enroll? || e.call.PostEnroll?
             || e.call.GetAuthenticatorId? || e.call.Cancel? || e.call.Enumerate? || e.call.Remove?
             || e.call.SetActiveGroup? || e.call.Authenticate? || e.call.IsUdfps?
    ensures Step(c, s, e).forwarded == if c.hal then s.forwarded + [e.call] else s.forwarded
    ensures Step(c, s, e).delivered == s.delivered
  {
    hide Step;
    StepForwards(c, s, e);
    StepDelivers(c, s, e);
  }

  /** A finger outside enrolment lights the panel and presses while it is down, and leaves neither when it is
      up again; during enrolment the layer is left alone. */
  lemma FingerDownAndUp(c: Config, s: State, down: Event, up: Event)
    requires down.call.OnFingerDown? && up.call.OnFingerUp?
    requires down.dimOk && down.pressOk && up.dimOk && up.pressOk
    ensures var t, u := Step(c, s, down), After(c, s, [down, up]);
            && t.press == 1 && t.dim == (if s.enrolling then s.dim else 1)
            && u.press == 0 && u.dim == (if s.enrolling then s.dim else 0)
            && u.enrolling == s.enrolling && u.touch == s.touch && u.delivered == s.delivered
            && u.forwarded == if c.hal && !c.uff then s.forwarded + [down.call, up.call] else s.forwarded
  {
    TwoEvents(c, s, down, up);
    assert s.forwarded + [down.call] + [up.call] == s.forwarded + [down.call, up.call];
  }

  /** An authentication ends the press and the touch, puts the layer out if it recognised a finger, even while
      enrolling, and tells the client. */
  lemma AuthenticationReleases(c: Config, s: State, e: Event)
    requires e.call.OnAuthenticated? && e.dimOk && e.pressOk && s.client.Some?
    ensures var t := Step(c, s, e);
            && t.press == 0 && (c.helper ==> !t.touch) && t.enrolling == s.enrolling
            && t.dim == (if e.call.fingerId != 0 then 0 else s.dim)
            && t.delivered == s.delivered + [(s.client.value, e.call)]
  {
  }

  /** Enrolment lights the layer and puts it out at its end; an enrol request on its own lights it too. */
  lemma EnrolmentLightsAndEnds(c: Config, s: State, pre: Event, post: Event)
    requires c.hal && pre.dimOk && post.dimOk && post.call.PostEnroll?
    requires pre.call.PreEnroll? || pre.call.Enroll?
    ensures var t, u := Step(c, s, pre), After(c, s, [pre, post]);
            && t.dim == 1 && (pre.call.PreEnroll? ==> t.enrolling)
            && u.dim == 0 && !u.enrolling && u.press == s.press && u.touch == s.touch
            && u.forwarded == s.forwarded + [pre.call, post.call]
  {
    TwoEvents(c, s, pre, post);
    assert s.forwarded + [pre.call] + [post.call] == s.forwarded + [pre.call, post.call];
  }

  /** An enrolment result ends the touch; authentication starts by ending enrolment. */
  lemma ResultEndsTouchAuthenticateEndsEnrolment(c: Config, s: State, e: Event)
    ensures e.call.OnEnrollResult? && c.helper ==> !Step(c, s, e).touch
    ensures e.call.Authenticate? && c.hal ==> !Step(c, s, e).enrolling && Step(c, s, e).dim == s.dim
  {
  }

  /** Cancelling and errors put the layer out unless enrolling; an error also ends the press. */
  lemma CancelAndErrorDarken(c: Config, s: State, e: Event)
    requires (e.call.Cancel? && c.hal) || e.call.OnError?
    requires e.dimOk && e.pressOk
    ensures Step(c, s, e).dim == if s.enrolling then s.dim else 0
    ensures Step(c, s, e).press == if e.call.OnError? then 0 else s.press
    ensures Step(c, s, e).enrolling == s.enrolling
  {
  }
}
