/** The wrapper object.  Every entry point is the source's sequence of updates and is proved to be one step
    of FingerprintHal. */
module BiometricsFingerprint {
  import opened Basics
  import opened FingerprintHal

  /** What a framework call returns: the vendor HAL's answer, or a substitute when there is none. */
  datatype Reply = FromHal | Zero | HwUnavailable | No

  class Wrapper {
    const hal: bool     // the vendor HAL was found
    const helper: bool  // the touch helper was found
    const uff: bool
    var client: Option<Client>
    var isEnrolling: bool
    var dimLayer: int
    var fpPress: int
    var touch: bool
    var delivered: seq<(Client, Call)>
    var forwarded: seq<Call>

    function Setup(): Config { Config(hal, helper, uff) }

    function Snapshot(): State
      reads this
    {
      State(isEnrolling, dimLayer, fpPress, touch, client, delivered, forwarded)
    }

    /** The panel files and the touch flag are outside and keep the values they have. */
    constructor (config: Config, dimLayer: int, fpPress: int, touch: bool)
      ensures Setup() == config
      ensures Snapshot() == State(false, dimLayer, fpPress, touch, None, [], [])
    {
      hal, helper, uff := config.hal, config.helper, config.uff;
      isEnrolling, client, delivered, forwarded := false, None, [], [];
      this.dimLayer, this.fpPress, this.touch := dimLayer, fpPress, touch;
    }

    /** A failed write is logged and otherwise ignored. */
    method SetDimlayerHbm(value: int, ok: bool)
      modifies this`dimLayer
      ensures dimLayer == if ok then value else old(dimLayer)
    {
      if ok {
        dimLayer := value;
      }
    }

    method SetFpPress(value: int, ok: bool)
      modifies this`fpPress
      ensures fpPress == if ok then value else old(fpPress)
    {
      if ok {
        fpPress := value;
      }
    }

    method TouchDown()
      modifies this`touch
      ensures touch == (helper || old(touch))
    {
      if helper {
        touch := true;
      }
    }

    method TouchUp()
      modifies this`touch
      ensures touch == (!helper && old(touch))
    {
      if helper {
        touch := false;
      }
    }

    method CallHal(call: Call)
      modifies this`forwarded
      ensures forwarded == old(forwarded) + [call]
    {
      forwarded := forwarded + [call];
    }

    method CallClient(call: Call)
      requires client.Some?
      modifies this`delivered
      ensures delivered == old(delivered) + [(client.value, call)]
    {
      delivered := delivered + [(client.value, call)];
    }

    method SetNotify(newClient: Option<Client>, dimOk: bool, pressOk: bool) returns (r: Reply)
      modifies this
      ensures Snapshot() == Step(Setup(), old(Snapshot()), Event(Call.SetNotify(newClient), dimOk, pressOk))
      ensures r == if hal then FromHal else Zero
    {
      client := newClient;
      if !hal {
        return Zero;
      }
      CallHal(Call.SetNotify(newClient));
      r := FromHal;
    }

    method PreEnroll(dimOk: bool, pressOk: bool) returns (r: Reply)
      modifies this
      ensures Snapshot() == Step(Setup(), old(Snapshot()), Event(Call.PreEnroll, dimOk, pressOk))
      ensures r == if hal then FromHal else Zero
    {
      if !hal {
        return Zero;
      }
      isEnrolling := true;
      SetDimlayerHbm(1, dimOk);
      CallHal(Call.PreEnroll);
      r := FromHal;
    }

    method Enroll(payload: int, dimOk: bool, pressOk: bool) returns (r: Reply)
      modifies this
      ensures Snapshot() == Step(Setup(), old(Snapshot()), Event(Call.Enroll(payload), dimOk, pressOk))
      ensures r == if hal then FromHal else HwUnavailable
    {
      if !hal {
        return HwUnavailable;
      }
      SetDimlayerHbm(1, dimOk);
      CallHal(Call.Enroll(payload));
      r := FromHal;
    }

    method PostEnroll(dimOk: bool, pressOk: bool) returns (r: Reply)
      modifies this
      ensures Snapshot() == Step(Setup(), old(Snapshot()), Event(Call.PostEnroll, dimOk, pressOk))
      ensures r == if hal then FromHal else HwUnavailable
    {
      if !hal {
        return HwUnavailable;
      }
      isEnrolling := false;
      SetDimlayerHbm(0, dimOk);
      CallHal(Call.PostEnroll);
      r := FromHal;
    }

    method GetAuthenticatorId(dimOk: bool, pressOk: bool) returns (r: Reply)
      modifies this
      ensures Snapshot() == Step(Setup(), old(Snapshot()), Event(Call.GetAuthenticatorId, dimOk, pressOk))
      ensures r == if hal then FromHal else Zero
    {
      if !hal {
        return Zero;
      }
      CallHal(Call.GetAuthenticatorId);
      r := FromHal;
    }

    method Cancel(dimOk: bool, pressOk: bool) returns (r: Reply)
      modifies this
      ensures Snapshot() == Step(Setup(), old(Snapshot()), Event(Call.Cancel, dimOk, pressOk))
      ensures r == if hal then FromHal else HwUnavailable
    {
      if !hal {
        return HwUnavailable;
      }
      if !isEnrolling {
        SetDimlayerHbm(0, dimOk);
      }
      CallHal(Call.Cancel);
      r := FromHal;
    }

    method Enumerate(dimOk: bool, pressOk: bool) returns (r: Reply)
      modifies this
      ensures Snapshot() == Step(Setup(), old(Snapshot()), Event(Call.Enumerate, dimOk, pressOk))
      ensures r == if hal then FromHal else HwUnavailable
    {
      if !hal {
        return HwUnavailable;
      }
      CallHal(Call.Enumerate);
      r := FromHal;
    }

    method Remove(payload: int, dimOk: bool, pressOk: bool) returns (r: Reply)
      modifies this
      ensures Snapshot() == Step(Setup(), old(Snapshot()), Event(Call.Remove(payload), dimOk, pressOk))
      ensures r == if hal then FromHal else HwUnavailable
    {
      if !hal {
        return HwUnavailable;
      }
      CallHal(Call.Remove(payload));
      r := FromHal;
    }

    method SetActiveGroup(payload: int, dimOk: bool, pressOk: bool) returns (r: Reply)
      modifies this
      ensures Snapshot() == Step(Setup(), old(Snapshot()), Event(Call.SetActiveGroup(payload), dimOk, pressOk))
      ensures r == if hal then FromHal else HwUnavailable
    {
      if !hal {
        return HwUnavailable;
      }
      CallHal(Call.SetActiveGroup(payload));
      r := FromHal;
    }

    method Authenticate(payload: int, dimOk: bool, pressOk: bool) returns (r: Reply)
      modifies this
      ensures Snapshot() == Step(Setup(), old(Snapshot()), Event(Call.Authenticate(payload), dimOk, pressOk))
      ensures r == if hal then FromHal else HwUnavailable
    {
      if !hal {
        return HwUnavailable;
      }
      isEnrolling := false;
      CallHal(Call.Authenticate(payload));
      r := FromHal;
    }

    method IsUdfps(payload: int, dimOk: bool, pressOk: bool) returns (r: Reply)
      modifies this
      ensures Snapshot() == Step(Setup(), old(Snapshot()), Event(Call.IsUdfps(payload), dimOk, pressOk))
      ensures r == if hal then FromHal else No
    {
      if !hal {
        return No;
      }
      CallHal(Call.IsUdfps(payload));
      r := FromHal;
    }

    method OnFingerDown(payload: int, dimOk: bool, pressOk: bool)
      modifies this
      ensures Snapshot() == Step(Setup(), old(Snapshot()), Event(Call.OnFingerDown(payload), dimOk, pressOk))
    {
      if !isEnrolling {
        SetDimlayerHbm(1, dimOk);
      }
      SetFpPress(1, pressOk);
      if uff || !hal {
        return;
      }
      CallHal(Call.OnFingerDown(payload));
    }

    method OnFingerUp(dimOk: bool, pressOk: bool)
      modifies this
      ensures Snapshot() == Step(Setup(), old(Snapshot()), Event(Call.OnFingerUp, dimOk, pressOk))
    {
      SetFpPress(0, pressOk);
      if !isEnrolling {
        SetDimlayerHbm(0, dimOk);
      }
      if uff || !hal {
        return;
      }
      CallHal(Call.OnFingerUp);
    }

    method OnEnrollResult(payload: int, dimOk: bool, pressOk: bool)
      modifies this
      ensures Snapshot() == Step(Setup(), old(Snapshot()), Event(Call.OnEnrollResult(payload), dimOk, pressOk))
    {
      TouchUp();
      if client.None? {
        return;
      }
      CallClient(Call.OnEnrollResult(payload));
    }

    method OnAcquired(payload: int, dimOk: bool, pressOk: bool)
      modifies this
      ensures Snapshot() == Step(Setup(), old(Snapshot()), Event(Call.OnAcquired(payload), dimOk, pressOk))
    {
      if client.None? {
        return;
      }
      CallClient(Call.OnAcquired(payload));
    }

    method OnAuthenticated(fingerId: nat, payload: int, dimOk: bool, pressOk: bool)
      modifies this
      ensures Snapshot() ==
              Step(Setup(), old(Snapshot()), Event(Call.OnAuthenticated(fingerId, payload), dimOk, pressOk))
    {
      if fingerId != 0 {
        SetDimlayerHbm(0, dimOk);
      }
      SetFpPress(0, pressOk);
      TouchUp();
      if client.None? {
        return;
      }
      CallClient(Call.OnAuthenticated(fingerId, payload));
    }

    method OnError(payload: int, dimOk: bool, pressOk: bool)
      modifies this
      ensures Snapshot() == Step(Setup(), old(Snapshot()), Event(Call.OnError(payload), dimOk, pressOk))
    {
      SetFpPress(0, pressOk);
      if !isEnrolling {
        SetDimlayerHbm(0, dimOk);
      }
      if client.None? {
        return;
      }
      CallClient(Call.OnError(payload));
    }

    method OnRemoved(payload: int, dimOk: bool, pressOk: bool)
      modifies this
      ensures Snapshot() == Step(Setup(), old(Snapshot()), Event(Call.OnRemoved(payload), dimOk, pressOk))
    {
      if client.None? {
        return;
      }
      CallClient(Call.OnRemoved(payload));
    }

    method OnEnumerate(payload: int, dimOk: bool, pressOk: bool)
      modifies this
      ensures Snapshot() == Step(Setup(), old(Snapshot()), Event(Call.OnEnumerate(payload), dimOk, pressOk))
    {
      if client.None? {
        return;
      }
      CallClient(Call.OnEnumerate(payload));
    }

    method OnAcquired22(payload: int, dimOk: bool, pressOk: bool)
      modifies this
      ensures Snapshot() == Step(Setup(), old(Snapshot()), Event(Call.OnAcquired22(payload), dimOk, pressOk))
    {
      if client.None? {
        return;
      }
      CallClient(Call.OnAcquired22(payload));
    }

    /** Ignored. */
    method OnEngineeringInfoUpdated(dimOk: bool, pressOk: bool)
      modifies this
      ensures Snapshot() == Step(Setup(), old(Snapshot()), Event(Call.OnEngineeringInfoUpdated, dimOk, pressOk))
    {
    }

    method OnFingerprintCmd(cmdId: int, dimOk: bool, pressOk: bool)
      modifies this
      ensures Snapshot() == Step(Setup(), old(Snapshot()), Event(Call.OnFingerprintCmd(cmdId), dimOk, pressOk))
      ensures touch == if helper && cmdId == 1201 then true else if helper && cmdId == 1202 then false else old(touch)
    {
      if cmdId == CMD_ON_TOUCH_DOWN {
        TouchDown();
      } else if cmdId == CMD_ON_TOUCH_UP {
        TouchUp();
      }
    }

    /** One framework call or vendor callback. */
    method Handle(e: Event)
      modifies this
      ensures Snapshot() == Step(Setup(), old(Snapshot()), e)
    {
      match e.call {
        case SetNotify(newClient) => var _ := SetNotify(newClient, e.dimOk, e.pressOk);
        case PreEnroll => var _ := PreEnroll(e.dimOk, e.pressOk);
        case Enroll(payload) => var _ := Enroll(payload, e.dimOk, e.pressOk);
        case PostEnroll => var _ := PostEnroll(e.dimOk, e.pressOk);
        case GetAuthenticatorId => var _ := GetAuthenticatorId(e.dimOk, e.pressOk);
        case Cancel => var _ := Cancel(e.dimOk, e.pressOk);
        case Enumerate => var _ := Enumerate(e.dimOk, e.pressOk);
        case Remove(payload) => var _ := Remove(payload, e.dimOk, e.pressOk);
        case SetActiveGroup(payload) => var _ := SetActiveGroup(payload, e.dimOk, e.pressOk);
        case Authenticate(payload) => var _ := Authenticate(payload, e.dimOk, e.pressOk);
        case IsUdfps(payload) => var _ := IsUdfps(payload, e.dimOk, e.pressOk);
        case OnFingerDown(payload) => OnFingerDown(payload, e.dimOk, e.pressOk);
        case OnFingerUp => OnFingerUp(e.dimOk, e.pressOk);
        case OnEnrollResult(payload) => OnEnrollResult(payload, e.dimOk, e.pressOk);
        case OnAcquired(payload) => OnAcquired(payload, e.dimOk, e.pressOk);
        case OnAuthenticated(fingerId, payload) => OnAuthenticated(fingerId, payload, e.dimOk, e.pressOk);
        case OnError(payload) => OnError(payload, e.dimOk, e.pressOk);
        case OnRemoved(payload) => OnRemoved(payload, e.dimOk, e.pressOk);
        case OnEnumerate(payload) => OnEnumerate(payload, e.dimOk, e.pressOk);
        case OnAcquired22(payload) => OnAcquired22(payload, e.dimOk, e.pressOk);
        case OnEngineeringInfoUpdated => OnEngineeringInfoUpdated(e.dimOk, e.pressOk);
        case OnFingerprintCmd(cmdId) => OnFingerprintCmd(cmdId, e.dimOk, e.pressOk);
      }
    }

    /** The wrapper's life: whatever arrives, one after the other.  Its fields, the panel, the touch flag and
        what the client and the vendor HAL were given all follow from the trace. */
    method Serve(events: seq<Event>)
      modifies this
      ensures Snapshot() == After(Setup(), old(Snapshot()), events)
      ensures isEnrolling == EnrollingAfter(Setup(), old(isEnrolling), events)
      ensures dimLayer == LastWrite(DimWrites(Setup(), old(isEnrolling), events), old(dimLayer))
      ensures fpPress == LastWrite(PressWrites(events), old(fpPress))
      ensures touch == LastWrite(TouchWrites(Setup(), events), old(touch))
      ensures client == ClientAfter(old(client), events)
      ensures delivered == old(delivered) + Deliveries(old(client), events)
      ensures forwarded == old(forwarded) + ForwardedCalls(Setup(), events)
      ensures !hal && !old(isEnrolling) ==> !isEnrolling
      ensures hal && StartsEnrolment(events) ==> isEnrolling && dimLayer == 1
    {
      hide After, Step, LastWrite, DimWrites, PressWrites, TouchWrites, EnrollingAfter, ClientAfter;
      hide Deliveries, ForwardedCalls, StartsEnrolment;
      ghost var start := Snapshot();
      var k := 0;
      NoEvents(Setup(), start);
      assert events[..0] == [];
      while k < |events|
        invariant k <= |events| && Snapshot() == After(Setup(), start, events[..k])
      {
        AfterOneMore(Setup(), start, events, k);
        Handle(events[k]);
        k := k + 1;
      }
      assert events[..k] == events;
      StateIsLastWrite(Setup(), start, events);
      CallbacksAreDeliveredInOrder(Setup(), start, events);
      CallsAreForwardedInOrder(Setup(), start, events);
      if !hal && !old(isEnrolling) { NoHalNoEnrolment(Setup(), start, events); }
      if hal && StartsEnrolment(events) { EnrolmentStaysLit(Setup(), start, events); }
    }
  }

  lemma NoEvents(c: Config, s: State)
    ensures After(c, s, []) == s
  {
  }

  /** Somewhere enrolment starts, with its write succeeding, and nothing after that breaks it. */
  predicate StartsEnrolment(events: seq<Event>) {
    exists k :: 0 <= k < |events| && events[k].call.PreEnroll? && events[k].dimOk
                && forall j :: k < j < |events| ==> !Breaks(events[j])
  }

  lemma LitFromStart(c: Config, s: State, events: seq<Event>, k: nat)
    requires c.hal && k < |events| && events[k].call.PreEnroll? && events[k].dimOk
    requires forall j :: k < j < |events| ==> !Breaks(events[j])
    ensures Lit(After(c, s, events))
  {
    hide After, Step, Breaks, Lit;
    var rest := events[k + 1..];
    AfterOneMore(c, s, events, k);
    AfterConcat(c, s, events[..k + 1], rest);
    assert events[..k + 1] + rest == events;
    EnrolmentKeepsDimLayerLit(c, After(c, s, events[..k]), events[k], rest);
    assert rest[..|rest|] == rest;
  }

  lemma EnrolmentStaysLit(c: Config, s: State, events: seq<Event>)
    requires c.hal && StartsEnrolment(events)
    ensures After(c, s, events).enrolling && After(c, s, events).dim == 1
  {
    hide After, Step, Breaks;
    var k: nat :| k < |events| && events[k].call.PreEnroll? && events[k].dimOk
                  && forall j :: k < j < |events| ==> !Breaks(events[j]);
    LitFromStart(c, s, events, k);
  }
}
