/** The helper service object: its vector of owners is compacted in place, and each public method is
    proved to be the matching step of CallbackRegistry. */
module UdfpsHelper {
  import opened Basics
  import opened CallbackRegistry

  function Without(links: set<Entry>, gone: seq<Entry>): set<Entry> {
    set l | l in links && l !in gone
  }

  lemma {:induction false} KeepNext(es: seq<Entry>, drop: Entry -> bool, i: nat)
    requires i < |es|
    ensures Keep(es[..i + 1], drop) == if drop(es[i]) then Keep(es[..i], drop) else Keep(es[..i], drop) + [es[i]]
  {
    assert es[..i + 1][..i] == es[..i];
  }

  /** Compaction has looked at the first i entries: the kept ones fill the first `end` slots, and the
      dropped ones are `gone`, followed by what slots end to i still own. */
  ghost predicate Compacted(es: seq<Entry>, drop: Entry -> bool, slots: seq<Owner>, end: nat, i: nat,
                            gone: seq<Entry>)
  {
    && end < i <= |slots| == |es|
    && (forall k :: i <= k < |slots| ==> slots[k] == Some(es[k]))
    && Full(slots[..end])
    && Owned(slots[..end]) == Keep(es[..i], drop)
    && gone + Owned(slots[end..i]) == Dropped(es[..i], drop)
  }

  lemma {:induction false} NothingDroppedYet(es: seq<Entry>, drop: Entry -> bool, slots: seq<Owner>, i: nat)
    requires i <= |slots| == |es|
    requires forall k :: 0 <= k < i ==> slots[k] == Some(es[k]) && !drop(es[k])
    ensures Owned(slots[..i]) == Keep(es[..i], drop) && Dropped(es[..i], drop) == []
  {
    if i > 0 {
      NothingDroppedYet(es, drop, slots, i - 1);
      KeepNext(es, drop, i - 1);
      KeepNext(es, e => !drop(e), i - 1);
      assert slots[..i][..i - 1] == slots[..i - 1];
    }
  }

  lemma CompactionStarts(es: seq<Entry>, drop: Entry -> bool, slots: seq<Owner>, end: nat)
    requires end < |slots| == |es| && drop(es[end])
    requires forall k :: 0 <= k < |es| ==> slots[k] == Some(es[k])
    requires forall k :: 0 <= k < end ==> !drop(es[k])
    ensures Compacted(es, drop, slots, end, end + 1, [])
  {
    NothingDroppedYet(es, drop, slots, end);
    KeepNext(es, drop, end);
    KeepNext(es, e => !drop(e), end);
    assert slots[end..end + 1] == [slots[end]];
  }

  lemma OwnedNext(slots: seq<Owner>, from: nat, i: nat)
    requires from <= i < |slots|
    ensures Owned(slots[from..i + 1]) ==
            if slots[i].Some? then Owned(slots[from..i]) + [slots[i].value] else Owned(slots[from..i])
  {
    assert slots[from..i + 1][..i - from] == slots[from..i];
  }

  lemma CompactionDrops(es: seq<Entry>, drop: Entry -> bool, slots: seq<Owner>, end: nat, i: nat, gone: seq<Entry>)
    requires Compacted(es, drop, slots, end, i, gone) && i < |es| && drop(es[i])
    ensures Compacted(es, drop, slots, end, i + 1, gone)
  {
    hide Keep, Owned, Full;
    KeepNext(es, drop, i);
    KeepNext(es, e => !drop(e), i);
    OwnedNext(slots, end, i);
  }

  lemma OwnedAppend(slots: seq<Owner>, entry: Entry)
    ensures Owned(slots + [Some(entry)]) == Owned(slots) + [entry]
  {
    OwnedConcat(slots, [Some(entry)]);
  }

  /** Slot i is moved to slot `end`: the front grows by it, the middle loses its first slot. */
  lemma OwnersAfterMove(slots: seq<Owner>, end: nat, i: nat)
    requires end < i < |slots| && slots[i].Some?
    ensures var moved := slots[end := slots[i]][i := None];
            && Owned(moved[..end + 1]) == Owned(slots[..end]) + [slots[i].value]
            && Owned(slots[end..i]) == Owned([slots[end]]) + Owned(moved[end + 1..i + 1])
  {
    var moved := slots[end := slots[i]][i := None];
    OwnedConcat(slots[..end], [slots[i]]);
    assert moved[..end + 1] == slots[..end] + [slots[i]];
    var middle := slots[end + 1..i];
    OwnedConcat([slots[end]], middle);
    assert slots[end..i] == [slots[end]] + middle;
    OwnedConcat(middle, [None]);
    assert moved[end + 1..i + 1] == middle + [None];
  }

  lemma CompactionMoves(es: seq<Entry>, drop: Entry -> bool, slots: seq<Owner>, end: nat, i: nat, gone: seq<Entry>)
    requires Compacted(es, drop, slots, end, i, gone) && i < |es| && !drop(es[i])
    ensures Compacted(es, drop, slots[end := slots[i]][i := None], end + 1, i + 1, gone + Owned([slots[end]]))
  {
    hide Keep, Owned;
    KeepNext(es, drop, i);
    KeepNext(es, e => !drop(e), i);
    OwnersAfterMove(slots, end, i);
  }

  lemma WithoutMore(links: set<Entry>, gone: seq<Entry>, more: seq<Entry>)
    ensures Without(Without(links, gone), more) == Without(links, gone + more)
  {
  }

  /** What can happen to the service. */
  datatype Call =
    | Registering(callback: Option<Binder>, linkOk: bool, address: nat, reply: Reply)
    | Unregistering(callback: Option<Binder>)
    | TouchChanged(deaf: set<Entry>)  // the entries that answer that they are dead
    | Died(binder: Binder)
    | Notice(link: Entry)

  /** The events a call amounts to.  What cannot happen, a notice that is not outstanding or an object at an
      address in use, amounts to nothing. */
  ghost function EventsOf(s: State, call: Call): seq<Event> {
    match call
    case Registering(callback, linkOk, address, reply) =>
      if callback.None? || InUse(s.registry, address) then []
      else [Register(callback.value, linkOk, address), Greet(callback.value, reply)]
    case Unregistering(callback) => if callback.None? then [] else [Unregister(callback.value)]
    case TouchChanged(deaf) => [Broadcast(set e | e in s.registry && e in deaf)]
    case Died(b) => [Die(b)]
    case Notice(link) => if link in s.pending then [Deliver(link)] else []
  }

  ghost function Trace(s: State, calls: seq<Call>): seq<Event> {
    if calls == [] then []
    else
      var front := Trace(s, calls[..|calls| - 1]);
      front + EventsOf(After(s, front), calls[|calls| - 1])
  }

  lemma NoCalls(s: State)
    ensures After(s, Trace(s, [])) == s
  {
  }

  lemma OneMoreCall(s: State, calls: seq<Call>, k: nat)
    requires k < |calls|
    ensures var before := After(s, Trace(s, calls[..k]));
            After(s, Trace(s, calls[..k + 1])) == After(before, EventsOf(before, calls[k]))
  {
    var front := Trace(s, calls[..k]);
    assert calls[..k + 1][..k] == calls[..k];
    AfterConcat(s, front, EventsOf(After(s, front), calls[k]));
  }

  lemma ShortRuns(s: State, es: seq<Event>)
    requires |es| <= 2
    ensures After(s, es) ==
            if |es| == 0 then s else if |es| == 1 then Step(s, es[0]) else Step(Step(s, es[0]), es[1])
  {
    hide Step;
    if |es| > 0 {
      AfterCons(s, es[0], es[1..]);
      assert [es[0]] + es[1..] == es;
      if |es| == 2 {
        AfterCons(Step(s, es[0]), es[1], []);
        assert [es[1]] + [] == es[1..];
      }
    }
  }

  lemma SafeRegistry(s: State)
    requires Inv(s)
    ensures s.links == set e | e in s.registry
    ensures s.pending == {} ==> forall e :: e in s.registry ==> e.binder !in s.dead
  {
    if s.pending == {} {
      forall e | e in s.registry
        ensures e.binder !in s.dead
      {
        assert e in s.links;
        assert e.binder in s.dead ==> e in s.pending;
      }
    }
  }

  /** The vector after a registration: without a link it is as before; else it has one entry more, unless the
      callback answers that it is dead, which leaves the entries of other binders. */
  ghost predicate Registered(was: seq<Entry>, entry: Entry, linked: bool, reply: Reply, now: seq<Entry>) {
    if !linked then now == was
    else if reply != DeadObject then now == was + [entry]
    else forall e :: e in now <==> e in was && e.binder != entry.binder
  }

  /** Exactly the entries with some property are gone. */
  ghost predicate Lost(was: seq<Entry>, which: Entry -> bool, now: seq<Entry>) {
    forall e :: e in now <==> e in was && !which(e)
  }

  lemma Registrations(was: seq<Entry>, entry: Entry, reply: Reply)
    ensures Registered(was, entry, false, reply, was)
    ensures reply != DeadObject ==> Registered(was, entry, true, reply, was + [entry])
  {
  }

  lemma Dropping(was: seq<Entry>, entry: Entry, linked: seq<Entry>, now: seq<Entry>)
    requires linked == was + [entry] && Lost(linked, Wraps(entry.binder), now)
    ensures Registered(was, entry, true, DeadObject, now)
  {
    assert forall e :: e in linked <==> e in was || e == entry;
  }

  /** A registration with its first notification is the registration, undone if the callback is dead. */
  lemma RegisterThenGreet(s: State, b: Binder, linkOk: bool, address: nat, reply: Reply)
    requires s.greeting == multiset{} && !InUse(s.registry, address)
    ensures var u := Step(s, Event.Register(b, linkOk, address)).(greeting := multiset{});
            Step(Step(s, Event.Register(b, linkOk, address)), Greet(b, reply)) ==
            if linkOk && b !in s.dead && reply == DeadObject then Step(u, Event.Unregister(b)) else u
  {
    hide Remove, InUse;
    var t := Step(s, Event.Register(b, linkOk, address));
    assert multiset{b} - multiset{b} == multiset{};
    if linkOk && b !in s.dead {
      assert t.greeting == multiset{b};
    }
  }

  class Helper {
    var slots: seq<Owner>        // callbacks_
    var tested: seq<Entry>       // entries the removal predicate was asked about, in order
    var destroyed: seq<Entry>
    var links: set<Entry>
    var pending: set<Entry>
    var dead: set<Binder>
    var next: nat

    /** Between calls every slot owns an entry. */
    predicate Valid()
      reads this
    {
      Full(slots)
    }

    function Snapshot(): State
      reads this
    {
      State(Owned(slots), destroyed, links, pending, dead, multiset{}, next)
    }

    constructor ()
      ensures Valid() && Snapshot() == Empty && Inv(Snapshot()) && tested == []
    {
      slots, tested, destroyed := [], [], [];
      links, pending, dead, next := {}, {}, {}, 0;
    }

    /** The destructor of an entry: one whose callback was set unlinks, which also cancels an undelivered
        notice. */
    method Destroy(e: Entry, callbackSet: bool)
      modifies this`destroyed, this`links, this`pending
      ensures destroyed == old(destroyed) + [e]
      ensures links == (if callbackSet then old(links) - {e} else old(links))
      ensures pending == (if callbackSet then old(pending) - {e} else old(pending))
    {
      destroyed := destroyed + [e];
      if !callbackSet { return; }
      links := links - {e};
      pending := pending - {e};
    }

    /** Move-assigns slot i to slot to: the target's old entry is destroyed, the source is left empty. */
    method MoveAssign(to: nat, i: nat)
      requires to < i < |slots|
      modifies this`slots, this`destroyed, this`links, this`pending
      ensures slots == old(slots)[to := old(slots)[i]][i := None]
      ensures destroyed == old(destroyed) + old(Owned([slots[to]]))
      ensures links == Without(old(links), old(Owned([slots[to]])))
      ensures pending == Without(old(pending), old(Owned([slots[to]])))
    {
      if slots[to].Some? {
        Destroy(slots[to].value, true);
      }
      slots := slots[to := slots[i]][i := None];
    }

    /** std::find_if over the owners, the first pass of remove_if. */
    method FindIf(drop: Entry -> bool) returns (first: nat)
      requires Valid()
      modifies this`tested
      ensures first <= |slots| == |Owned(slots)|
      ensures forall k :: 0 <= k < first ==> !drop(slots[k].value)
      ensures first < |slots| ==> drop(slots[first].value)
      ensures var seen := if first < |slots| then first + 1 else first;
              tested == old(tested) + Owned(slots)[..seen]
    {
      hide Owned;
      OwnedFull(slots);
      first := 0;
      while first < |slots|
        invariant first <= |slots|
        invariant tested == old(tested) + Owned(slots)[..first]
        invariant forall k :: 0 <= k < first ==> !drop(slots[k].value)
      {
        tested := tested + [slots[first].value];
        if drop(slots[first].value) { return; }
        first := first + 1;
      }
    }

    /** The second pass of remove_if, from the first entry that is to go. */
    method Compact(drop: Entry -> bool, first: nat, ghost es: seq<Entry>) returns (end: nat, ghost gone: seq<Entry>)
      requires Compacted(es, drop, slots, first, first + 1, [])
      modifies this`slots, this`tested, this`destroyed, this`links, this`pending
      ensures end < |slots| && Compacted(es, drop, slots, end, |slots|, gone)
      ensures tested == old(tested) + es[first + 1..]
      ensures destroyed == old(destroyed) + gone
      ensures links == Without(old(links), gone) && pending == Without(old(pending), gone)
    {
      hide Keep, Owned;
      end, gone := first, [];
      var i: nat := first + 1;
      while i < |slots|
        invariant first < i
        invariant Compacted(es, drop, slots, end, i, gone)
        invariant tested == old(tested) + es[first + 1..i]
        invariant destroyed == old(destroyed) + gone
        invariant links == Without(old(links), gone) && pending == Without(old(pending), gone)
      {
        tested := tested + [slots[i].value];
        if !drop(slots[i].value) {
          ghost var lost := Owned([slots[end]]);
          CompactionMoves(es, drop, slots, end, i, gone);
          WithoutMore(old(links), gone, lost);
          WithoutMore(old(pending), gone, lost);
          MoveAssign(end, i);
          gone := gone + lost;
          end := end + 1;
        } else {
          CompactionDrops(es, drop, slots, end, i, gone);
        }
        i := i + 1;
      }
    }

    /** std::remove_if.  The predicate is asked once about every entry, in order; the entries to keep
        are moved to the front in order, and every other entry is destroyed already (`gone`) or still
        owned by the tail that is returned for erasure, the two together in the old order. */
    method RemoveIf(drop: Entry -> bool) returns (end: nat, ghost gone: seq<Entry>)
      requires Valid()
      modifies this`slots, this`tested, this`destroyed, this`links, this`pending
      ensures end <= |slots| == |old(slots)|
      ensures Full(slots[..end]) && Owned(slots[..end]) == Keep(old(Owned(slots)), drop)
      ensures tested == old(tested) + old(Owned(slots))
      ensures destroyed == old(destroyed) + gone
      ensures gone + Owned(slots[end..]) == Dropped(old(Owned(slots)), drop)
      ensures links == Without(old(links), gone) && pending == Without(old(pending), gone)
      ensures end < |slots| <==> exists k :: 0 <= k < |old(slots)| && drop(old(slots)[k].value)
    {
      hide Keep, Owned;
      ghost var es := Owned(slots);
      OwnedFull(slots);
      end := FindIf(drop);
      if end == |slots| {
        gone := [];
        NothingDroppedYet(es, drop, slots, end);
        assert slots[..end] == slots && es[..end] == es;
        assert slots[end..] == [] && Owned([]) == [] by { OwnedFull([]); }
      } else {
        CompactionStarts(es, drop, slots, end);
        end, gone := Compact(drop, end, es);
        assert es[..|es|] == es && slots[end..|slots|] == slots[end..];
      }
    }

    /** vector::erase of the tail: whatever it still owns is destroyed, in order. */
    method EraseFrom(end: nat)
      requires end <= |slots|
      modifies this`slots, this`destroyed, this`links, this`pending
      ensures slots == old(slots)[..end]
      ensures destroyed == old(destroyed) + Owned(old(slots)[end..])
      ensures links == Without(old(links), Owned(old(slots)[end..]))
      ensures pending == Without(old(pending), Owned(old(slots)[end..]))
    {
      ghost var was := slots;
      var k := end;
      while k < |slots|
        invariant end <= k <= |slots| && slots == was
        invariant destroyed == old(destroyed) + Owned(was[end..k])
        invariant links == Without(old(links), Owned(was[end..k]))
        invariant pending == Without(old(pending), Owned(was[end..k]))
      {
        assert was[end..k + 1][..k - end] == was[end..k];
        if slots[k].Some? {
          Destroy(slots[k].value, true);
        }
        k := k + 1;
      }
      assert was[end..k] == was[end..];
      slots := slots[..end];
    }

    /** The erase-remove idiom: exactly one step of removal in the state machine. */
    method EraseRemoveIf(drop: Entry -> bool) returns (removed: bool)
      requires Valid()
      modifies this`slots, this`tested, this`destroyed, this`links, this`pending
      ensures Valid()
      ensures Snapshot() == Remove(old(Snapshot()), drop)
      ensures tested == old(tested) + old(Owned(slots))
      ensures removed <==> exists e :: e in old(Owned(slots)) && drop(e)
    {
      hide Keep;
      ghost var before := Snapshot();
      OwnedFull(slots);
      var end, gone := RemoveIf(drop);
      removed := end != |slots|;
      ghost var rest := Owned(slots[end..]);
      WithoutMore(before.links, gone, rest);
      WithoutMore(before.pending, gone, rest);
      EraseFrom(end);
      assert destroyed == before.destroyed + (gone + rest);
    }

    method UnregisterCallback(callback: Option<Binder>) returns (status: Status)
      requires Valid()
      modifies this`slots, this`tested, this`destroyed, this`links, this`pending
      ensures Valid()
      ensures callback.None? ==> status == NullPointer && Snapshot() == old(Snapshot()) && tested == old(tested)
      ensures callback.Some? ==>
                && Snapshot() == Step(old(Snapshot()), Unregister(callback.value))
                && tested == old(tested) + old(Owned(slots))
                && Lost(old(Owned(slots)), Wraps(callback.value), Owned(slots))
                && status == if exists e :: e in old(Owned(slots)) && e.binder == callback.value
                             then Success else IllegalArgument
    {
      if callback.None? { return NullPointer; }
      RemovalsRemoveExactly(Snapshot(), callback.value, {});
      var removed := EraseRemoveIf(Wraps(callback.value));
      status := if removed then Success else IllegalArgument;
    }

    /** LinkedCallback::Make and emplace_back; binder refuses to link a dead callback, and the object made
        for it is destroyed before its callback is set. */
    method MakeLinked(b: Binder, linkOk: bool, address: nat) returns (made: bool)
      requires Valid() && !InUse(Owned(slots), address)
      modifies this`slots, this`destroyed, this`links, this`pending, this`next
      ensures Valid()
      ensures made == (linkOk && b !in dead)
      ensures Snapshot() == Step(old(Snapshot()), Register(b, linkOk, address)).(greeting := multiset{})
      ensures var entry := Entry(old(next), address, b);
              && Owned(slots) == (if made then old(Owned(slots)) + [entry] else old(Owned(slots)))
              && links == (if made then old(links) + {entry} else old(links))
              && destroyed == if made then old(destroyed) else old(destroyed) + [entry]
    {
      hide Owned;
      var entry := Entry(next, address, b);
      next := next + 1;
      if !linkOk || b in dead {
        Destroy(entry, false);
        return false;
      }
      links := links + {entry};
      OwnedAppend(slots, entry);
      slots := slots + [Some(entry)];
      made := true;
    }

    /** Registers, then tells the callback the current state and drops it again if it is dead already. */
    method RegisterCallback(callback: Option<Binder>, linkOk: bool, address: nat, reply: Reply)
      returns (status: Status)
      requires Valid() && !InUse(Owned(slots), address)
      modifies this`slots, this`tested, this`destroyed, this`links, this`pending, this`next
      ensures Valid()
      ensures callback.None? ==> status == NullPointer && Snapshot() == old(Snapshot())
      ensures callback.Some? ==>
                var b := callback.value;
                && Snapshot() == Step(Step(old(Snapshot()), Register(b, linkOk, address)), Greet(b, reply))
                && status == (if linkOk && b !in dead then Success else IllegalState)
                && Registered(old(Owned(slots)), Entry(old(next), address, b), status == Success, reply, Owned(slots))
    {
      if callback.None? { return NullPointer; }
      hide Keep, Owned, InUse, Step, Lost, Registered, Full;
      var b := callback.value;
      RegisterThenGreet(Snapshot(), b, linkOk, address, reply);
      Registrations(Owned(slots), Entry(next, address, b), reply);
      var made := MakeLinked(b, linkOk, address);
      if !made { return IllegalState; }
      if reply == DeadObject {
        ghost var linked := Owned(slots);
        var _ := UnregisterCallback(callback);
        Dropping(old(Owned(slots)), Entry(old(next), address, b), linked, Owned(slots));
      }
      status := Success;
    }

    /** Notifies every callback and drops those that answer that they are dead. */
    method OnUdfpsTouchStatusChanged(reply: Entry -> Reply)
      requires Valid()
      modifies this`slots, this`tested, this`destroyed, this`links, this`pending
      ensures Valid()
      ensures tested == old(tested) + old(Owned(slots))
      ensures var gone := set e | e in old(Owned(slots)) && reply(e) == DeadObject;
              Snapshot() == Step(old(Snapshot()), Broadcast(gone))
      ensures forall e :: e in Owned(slots) <==> e in old(Owned(slots)) && reply(e) != DeadObject
    {
      ghost var before := Snapshot();
      var isDead := (e: Entry) => reply(e) == DeadObject;
      var _ := EraseRemoveIf(isDead);
      ghost var gone := set e | e in before.registry && reply(e) == DeadObject;
      KeepMembers(before.registry, isDead);
      KeepAgrees(before.registry, isDead, Within(gone));
      KeepAgrees(before.registry, e => !isDead(e), e => !Within(gone)(e));
    }

    /** The callback's process dies: binder queues a notice for each of its links. */
    method BinderDies(b: Binder)
      requires Valid()
      modifies this`dead, this`pending
      ensures Valid() && Snapshot() == Step(old(Snapshot()), Die(b))
      ensures dead == old(dead) + {b} && forall l :: l in links && l.binder == b ==> l in pending
    {
      dead := dead + {b};
      pending := pending + set l | l in links && l.binder == b;
    }

    /** Binder delivers a notice: OnCallbackDied on the cookie's object unregisters its callback. */
    method OnCallbackDied(link: Entry)
      requires Valid() && link in pending
      modifies this`slots, this`tested, this`destroyed, this`links, this`pending
      ensures Valid() && Snapshot() == Step(old(Snapshot()), Deliver(link))
      ensures forall e :: e in Owned(slots) <==> e in old(Owned(slots)) && e.binder != link.binder
    {
      pending := pending - {link};
      var _ := UnregisterCallback(Some(link.binder));
    }

    method IsInUse(address: nat) returns (used: bool)
      requires Valid()
      ensures used == InUse(Owned(slots), address)
    {
      OwnedFull(slots);
      used := exists k :: 0 <= k < |slots| && slots[k].value.cookie == address;
      if used {
        ghost var k :| 0 <= k < |slots| && slots[k].value.cookie == address;
        assert Owned(slots)[k] in Owned(slots);
      }
    }

    /** One call from outside. */
    method Handle(call: Call)
      requires Valid() && Inv(Snapshot())
      modifies this
      ensures Valid() && Inv(Snapshot())
      ensures Snapshot() == After(old(Snapshot()), EventsOf(old(Snapshot()), call))
      ensures match call
              case Registering(callback, linkOk, address, reply) =>
                callback.Some? && !InUse(old(Owned(slots)), address) ==>
                  var entry := Entry(old(next), address, callback.value);
                  Registered(old(Owned(slots)), entry, linkOk && entry.binder !in dead, reply, Owned(slots))
              case Unregistering(callback) =>
                callback.Some? ==> Lost(old(Owned(slots)), (e: Entry) => e.binder == callback.value, Owned(slots))
              case TouchChanged(deaf) => Lost(old(Owned(slots)), (e: Entry) => e in deaf, Owned(slots))
              case Died(b) => b in dead && slots == old(slots)
              case Notice(link) =>
                link in old(pending) ==> Lost(old(Owned(slots)), (e: Entry) => e.binder == link.binder, Owned(slots))
    {
      hide After, Step, Inv, Owned, Keep, InUse;
      ghost var s := Snapshot();
      ghost var es := EventsOf(s, call);
      match call {
        case Registering(callback, linkOk, address, reply) =>
          var used := IsInUse(address);
          if !used {
            var _ := RegisterCallback(callback, linkOk, address, reply);
          }
        case Unregistering(callback) =>
          var _ := UnregisterCallback(callback);
        case TouchChanged(deaf) =>
          var reply := (e: Entry) => if e in deaf then DeadObject else Reply.Ok;
          assert es[0].gone == set e | e in Owned(slots) && reply(e) == DeadObject;
          OnUdfpsTouchStatusChanged(reply);
        case Died(b) =>
          BinderDies(b);
        case Notice(link) =>
          if link in pending {
            OnCallbackDied(link);
          }
      }
      ShortRuns(s, es);
      RunKeepsInv(s, es);
    }

    /** The service's life, whatever is called and whoever dies, in any order: a run of the state machine.
        The live links are always those of the entries in the vector, and once no notice is outstanding no
        entry of a dead binder is left. */
    method Serve(calls: seq<Call>)
      requires Valid() && Inv(Snapshot())
      modifies this
      ensures Valid() && Inv(Snapshot())
      ensures Snapshot() == After(old(Snapshot()), Trace(old(Snapshot()), calls))
      ensures links == set e | e in Owned(slots)
      ensures pending == {} ==> forall k :: 0 <= k < |slots| ==> slots[k].value.binder !in dead
    {
      hide After, Step, Inv, Owned, EventsOf, Trace;
      ghost var start := Snapshot();
      NoCalls(start);
      var k := 0;
      assert calls[..0] == [];
      while k < |calls|
        invariant k <= |calls| && Valid() && Inv(Snapshot())
        invariant Snapshot() == After(start, Trace(start, calls[..k]))
      {
        OneMoreCall(start, calls, k);
        Handle(calls[k]);
        k := k + 1;
      }
      assert calls[..k] == calls;
      SafeRegistry(Snapshot());
      OwnedFull(slots);
    }
  }
}
