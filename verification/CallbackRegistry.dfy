/** The registry of touch callbacks: a vector of uniquely owned LinkedCallback objects, each tied to a
    binder by a death link whose cookie is the object itself.

    Removal is the compaction loop of std::remove_if over owning pointers (ISO C++, [alg.remove])
    followed by erase.  A move assignment destroys what the target slot owned, and destroying a
    LinkedCallback unlinks it.
 */
module CallbackRegistry {
  import opened Basics

  type Binder = nat

  /** A LinkedCallback: which object it is, its address, which is the cookie of its death link and may be
      that of an object destroyed earlier, and the binder it wraps. */
  datatype Entry = Entry(id: nat, cookie: nat, binder: Binder)

  /** An owning pointer. */
  type Owner = Option<Entry>

  datatype Reply = Ok | DeadObject | OtherError

  datatype Status = Success | NullPointer | IllegalState | IllegalArgument

  // ---------- Sequences of entries ----------

  function Keep(es: seq<Entry>, drop: Entry -> bool): seq<Entry> {
    if es == [] then []
    else
      var front, last := es[..|es| - 1], es[|es| - 1];
      if drop(last) then Keep(front, drop) else Keep(front, drop) + [last]
  }

  function Dropped(es: seq<Entry>, drop: Entry -> bool): seq<Entry> {
    Keep(es, e => !drop(e))
  }

  function Owned(slots: seq<Owner>): seq<Entry> {
    if slots == [] then []
    else
      var front, last := slots[..|slots| - 1], slots[|slots| - 1];
      if last.None? then Owned(front) else Owned(front) + [last.value]
  }

  predicate Full(slots: seq<Owner>) { forall i :: 0 <= i < |slots| ==> slots[i].Some? }

  lemma {:induction false} OwnedConcat(a: seq<Owner>, b: seq<Owner>)
    ensures Owned(a + b) == Owned(a) + Owned(b)
  {
    if b == [] {
      assert a + b == a;
    } else {
      var n := |b| - 1;
      assert (a + b)[..|a + b| - 1] == a + b[..n];
      OwnedConcat(a, b[..n]);
    }
  }

  lemma {:induction false} OwnedFull(slots: seq<Owner>)
    requires Full(slots)
    ensures |Owned(slots)| == |slots|
    ensures forall i :: 0 <= i < |slots| ==> Owned(slots)[i] == slots[i].value
  {
    if slots != [] { OwnedFull(slots[..|slots| - 1]); }
  }

  lemma {:induction false} KeepMembers(es: seq<Entry>, drop: Entry -> bool)
    ensures forall e :: e in Keep(es, drop) <==> e in es && !drop(e)
  {
    if es != [] {
      KeepMembers(es[..|es| - 1], drop);
      assert es == es[..|es| - 1] + [es[|es| - 1]];
    }
  }

  lemma {:induction false} KeepTwice(es: seq<Entry>, d1: Entry -> bool, d2: Entry -> bool)
    ensures Keep(Keep(es, d1), d2) == Keep(es, e => d1(e) || d2(e))
  {
    if es != [] {
      var front, last := es[..|es| - 1], es[|es| - 1];
      KeepTwice(front, d1, d2);
      if !d1(last) {
        assert (Keep(front, d1) + [last])[..|Keep(front, d1)|] == Keep(front, d1);
      }
    }
  }

  lemma {:induction false} KeepAgrees(es: seq<Entry>, d1: Entry -> bool, d2: Entry -> bool)
    requires forall e :: e in es ==> d1(e) == d2(e)
    ensures Keep(es, d1) == Keep(es, d2)
  {
    if es != [] {
      assert es == es[..|es| - 1] + [es[|es| - 1]];
      KeepAgrees(es[..|es| - 1], d1, d2);
    }
  }

  /** Keeping and dropping split the entries between them. */
  lemma {:induction false} KeepPartitions(es: seq<Entry>, drop: Entry -> bool)
    ensures multiset(Keep(es, drop)) + multiset(Dropped(es, drop)) == multiset(es)
  {
    if es != [] {
      KeepPartitions(es[..|es| - 1], drop);
      assert es == es[..|es| - 1] + [es[|es| - 1]];
    }
  }

  // ---------- The registry as a state machine ----------

  datatype State = State(
    registry: seq<Entry>,         // owned entries, oldest first
    destroyed: seq<Entry>,        // entries whose destructor has run, in that order
    links: set<Entry>,            // live death links: the cookie and the binder it watches
    pending: set<Entry>,          // links whose binder has died and whose notice is not yet delivered
    dead: set<Binder>,
    greeting: multiset<Binder>,   // registrations whose first notification is still to come
    next: nat)                    // how many objects have been made

  datatype Event =
    | Register(binder: Binder, linkOk: bool, address: nat)  // address: what the allocator returns
    | Greet(binder: Binder, reply: Reply)
    | Unregister(binder: Binder)
    | Broadcast(gone: set<Entry>)  // the entries that answer DEAD_OBJECT
    | Die(binder: Binder)
    | Deliver(link: Entry)

  function Wraps(b: Binder): Entry -> bool { (e: Entry) => e.binder == b }

  function Within(gone: set<Entry>): Entry -> bool { (e: Entry) => e in gone }

  /** Drops entries from the vector; each destructor unlinks its entry and cancels its notice. */
  function Remove(s: State, drop: Entry -> bool): State {
    var lost := Dropped(s.registry, drop);
    s.(registry := Keep(s.registry, drop),
       destroyed := s.destroyed + lost,
       links := (set l | l in s.links && l !in lost),
       pending := (set l | l in s.pending && l !in lost))
  }

  predicate InUse(es: seq<Entry>, address: nat) { exists e :: e in es && e.cookie == address }

  predicate Enabled(s: State, e: Event) {
    match e
    case Register(_, _, address) => !InUse(s.registry, address)
    case Greet(b, _) => b in s.greeting
    case Deliver(link) => link in s.pending
    case _ => true
  }

  function Step(s: State, e: Event): State {
    if !Enabled(s, e) then s
    else
      match e
      case Register(b, linkOk, address) =>
        var entry := Entry(s.next, address, b);
        if linkOk && b !in s.dead then
          s.(registry := s.registry + [entry], links := s.links + {entry},
             greeting := s.greeting + multiset{b}, next := s.next + 1)
        else s.(destroyed := s.destroyed + [entry], next := s.next + 1)
      case Greet(b, reply) =>
        var t := s.(greeting := s.greeting - multiset{b});
        if reply == DeadObject then Remove(t, Wraps(b)) else t
      case Unregister(b) => Remove(s, Wraps(b))
      case Broadcast(gone) => Remove(s, Within(gone))
      case Die(b) => s.(dead := s.dead + {b}, pending := s.pending + (set l | l in s.links && l.binder == b))
      case Deliver(link) => Remove(s.(pending := s.pending - {link}), Wraps(link.binder))
  }

  function After(s: State, es: seq<Event>): State {
    if es == [] then s else Step(After(s, es[..|es| - 1]), es[|es| - 1])
  }

  const Empty := State([], [], {}, {}, {}, multiset{}, 0)

  function Made(s: State): multiset<Entry> { multiset(s.registry) + multiset(s.destroyed) }

  /** Every entry ever made is owned once or was destroyed once, never both. */
  ghost predicate OwnedOnce(s: State) {
    && |Made(s)| == s.next
    && (forall e :: e in Made(s) ==> Made(s)[e] == 1 && e.id < s.next)
    && (forall e, f :: e in Made(s) && f in Made(s) && e.id == f.id ==> e == f)
  }

  /** No two owned entries share an address. */
  ghost predicate AddressesDiffer(s: State) {
    forall e, f :: e in s.registry && f in s.registry && e.cookie == f.cookie ==> e == f
  }

  ghost predicate LinksMatch(s: State) { s.links == set e | e in s.registry }

  ghost predicate NoticesMatch(s: State) { s.pending == set l | l in s.links && l.binder in s.dead }

  ghost predicate Inv(s: State) { OwnedOnce(s) && AddressesDiffer(s) && LinksMatch(s) && NoticesMatch(s) }

  lemma RemoveKeepsOwnership(s: State, drop: Entry -> bool)
    requires OwnedOnce(s)
    ensures OwnedOnce(Remove(s, drop))
  {
    KeepPartitions(s.registry, drop);
    assert Made(Remove(s, drop)) == Made(s);
  }

  lemma RemoveKeepsAddresses(s: State, drop: Entry -> bool)
    requires AddressesDiffer(s)
    ensures AddressesDiffer(Remove(s, drop))
  {
    KeepMembers(s.registry, drop);
  }

  lemma RemoveKeepsLinks(s: State, drop: Entry -> bool)
    requires LinksMatch(s)
    ensures LinksMatch(Remove(s, drop))
    ensures forall l :: l in Remove(s, drop).links <==> l in s.links && !drop(l)
  {
    KeepMembers(s.registry, drop);
    KeepMembers(s.registry, e => !drop(e));
  }

  lemma RemoveCancels(s: State, drop: Entry -> bool)
    requires s.pending <= s.links && LinksMatch(s)
    ensures forall l :: l in Remove(s, drop).pending <==> l in s.pending && !drop(l)
  {
    KeepMembers(s.registry, e => !drop(e));
  }

  lemma RemoveKeepsInv(s: State, drop: Entry -> bool)
    requires Inv(s)
    ensures Inv(Remove(s, drop))
  {
    RemoveKeepsOwnership(s, drop);
    RemoveKeepsAddresses(s, drop);
    RemoveKeepsLinks(s, drop);
    RemoveCancels(s, drop);
  }

  lemma SameEntries(s: State, t: State)
    requires OwnedOnce(s) && t.registry == s.registry && t.destroyed == s.destroyed && t.next == s.next
    ensures OwnedOnce(t)
  {
    assert Made(t) == Made(s);
  }

  lemma DieKeepsInv(s: State, b: Binder)
    requires Inv(s)
    ensures Inv(Step(s, Die(b)))
  {
    SameEntries(s, Step(s, Die(b)));
  }

  lemma GreetingsDoNotMatter(s: State, greeting: multiset<Binder>)
    requires Inv(s)
    ensures Inv(s.(greeting := greeting))
  {
    SameEntries(s, s.(greeting := greeting));
  }

  lemma GreetKeepsInv(s: State, b: Binder, reply: Reply)
    requires Inv(s) && b in s.greeting
    ensures Inv(Step(s, Greet(b, reply)))
  {
    hide Inv, Remove;
    var t := s.(greeting := s.greeting - multiset{b});
    GreetingsDoNotMatter(s, t.greeting);
    RemoveKeepsInv(t, Wraps(b));
  }

  lemma DeliverKeepsInv(s: State, link: Entry)
    requires Inv(s) && link in s.pending
    ensures Inv(Step(s, Deliver(link)))
  {
    hide Keep, OwnedOnce;
    var t := s.(pending := s.pending - {link});
    SameEntries(s, t);
    RemoveKeepsOwnership(t, Wraps(link.binder));
    RemoveKeepsAddresses(t, Wraps(link.binder));
    RemoveKeepsLinks(t, Wraps(link.binder));
    RemoveCancels(t, Wraps(link.binder));
  }

  lemma NewEntryIsOwnedOnce(s: State, t: State, entry: Entry)
    requires OwnedOnce(s) && entry.id == s.next && t.next == s.next + 1
    requires || (t.registry == s.registry + [entry] && t.destroyed == s.destroyed)
             || (t.registry == s.registry && t.destroyed == s.destroyed + [entry])
    ensures OwnedOnce(t)
  {
    assert entry !in Made(s);
    assert Made(t) == Made(s) + multiset{entry};
    forall e | e in Made(t)
      ensures Made(t)[e] == 1 && e.id < t.next && (e == entry || e in Made(s))
    {
      assert e == entry || e in Made(s);
    }
  }

  lemma NewEntryIsLinked(s: State, t: State, entry: Entry)
    requires LinksMatch(s) && NoticesMatch(s) && entry.binder !in s.dead
    requires AddressesDiffer(s) && !InUse(s.registry, entry.cookie)
    requires t.registry == s.registry + [entry] && t.links == s.links + {entry}
    requires t.pending == s.pending && t.dead == s.dead
    ensures LinksMatch(t) && NoticesMatch(t) && AddressesDiffer(t)
  {
  }

  lemma RegisterKeepsInv(s: State, b: Binder, linkOk: bool, address: nat)
    requires Inv(s) && Enabled(s, Register(b, linkOk, address))
    ensures Inv(Step(s, Register(b, linkOk, address)))
  {
    var entry, t := Entry(s.next, address, b), Step(s, Register(b, linkOk, address));
    hide OwnedOnce;
    NewEntryIsOwnedOnce(s, t, entry);
    if linkOk && b !in s.dead {
      hide LinksMatch, NoticesMatch, AddressesDiffer;
      NewEntryIsLinked(s, t, entry);
    }
  }

  lemma StepKeepsInv(s: State, e: Event)
    requires Inv(s)
    ensures Inv(Step(s, e))
  {
    hide Inv, Remove;
    if Enabled(s, e) {
      match e
      case Register(b, linkOk, address) => RegisterKeepsInv(s, b, linkOk, address);
      case Greet(b, reply) => GreetKeepsInv(s, b, reply);
      case Unregister(b) => RemoveKeepsInv(s, Wraps(b));
      case Broadcast(gone) => RemoveKeepsInv(s, Within(gone));
      case Die(b) => DieKeepsInv(s, b);
      case Deliver(link) => DeliverKeepsInv(s, link);
    }
  }

  lemma {:induction false} RunKeepsInv(s: State, es: seq<Event>)
    requires Inv(s)
    ensures Inv(After(s, es))
  {
    hide Inv, Step;
    if es != [] {
      RunKeepsInv(s, es[..|es| - 1]);
      StepKeepsInv(After(s, es[..|es| - 1]), es[|es| - 1]);
    }
  }

  /** Main result: after any run of registrations, removals, broadcasts and deaths, every entry made is
      owned exactly once or was destroyed exactly once, the live death links are exactly the owned
      entries, and the outstanding notices are exactly the owned entries whose binder has died. */
  lemma LinksAreOwnedEntries(es: seq<Event>)
    ensures Inv(After(Empty, es))
  {
    RunKeepsInv(Empty, es);
  }

  /** A cookie that binder still holds, on a link or on a notice, is the address of exactly one living
      object, the one that was linked, even when the allocator hands out addresses again. */
  lemma NoDanglingCookie(es: seq<Event>, l: Entry)
    requires l in After(Empty, es).links || l in After(Empty, es).pending
    ensures var s := After(Empty, es);
            && l in s.registry && l !in s.destroyed
            && (forall e :: e in s.registry && e.cookie == l.cookie ==> e == l)
            && (forall m :: (m in s.links || m in s.pending) && m.cookie == l.cookie ==> m == l)
  {
    LinksAreOwnedEntries(es);
    var s := After(Empty, es);
    assert l in s.registry && l in Made(s);
    assert Made(s)[l] == multiset(s.registry)[l] + multiset(s.destroyed)[l];
  }

  /** A registration leaves the registry, the links, the notices and the greetings alone exactly when the
      object cannot be linked; then that object, which never had a link, is destroyed at once. */
  lemma FailedLinkLeavesNothing(s: State, b: Binder, linkOk: bool, address: nat)
    requires Inv(s) && Enabled(s, Register(b, linkOk, address))
    ensures var t, entry := Step(s, Register(b, linkOk, address)), Entry(s.next, address, b);
            && (t.registry == s.registry && t.links == s.links && t.pending == s.pending && t.greeting == s.greeting
                <==> !linkOk || b in s.dead)
            && (!linkOk || b in s.dead ==>
                  t.destroyed == s.destroyed + [entry] && entry !in s.links && entry !in t.links)
            && (linkOk && b !in s.dead ==> t.registry == s.registry + [entry] && t.links == s.links + {entry})
  {
    var t, entry := Step(s, Register(b, linkOk, address)), Entry(s.next, address, b);
    forall l | l in s.links
      ensures l.id < s.next
    {
      assert l in s.registry && l in Made(s);
    }
    if linkOk && b !in s.dead { assert |t.registry| == |s.registry| + 1; }
  }

  /** The first notification: an answer other than that the callback is dead leaves the registry alone, and
      that one removes exactly the entries of the binder. */
  lemma GreetDropsOnlyDead(s: State, b: Binder, reply: Reply)
    requires b in s.greeting
    ensures var t := Step(s, Greet(b, reply));
            && t.greeting == s.greeting - multiset{b}
            && (reply != DeadObject ==> t == s.(greeting := t.greeting))
            && (reply == DeadObject ==> forall e :: e in t.registry <==> e in s.registry && e.binder != b)
  {
    KeepMembers(s.registry, Wraps(b));
  }

  /** Unregistering removes exactly the entries of the binder, a broadcast exactly those that answer that they
      are dead. */
  lemma RemovalsRemoveExactly(s: State, b: Binder, gone: set<Entry>)
    ensures forall e :: e in Step(s, Unregister(b)).registry <==> e in s.registry && e.binder != b
    ensures forall e :: e in Step(s, Broadcast(gone)).registry <==> e in s.registry && e !in gone
  {
    KeepMembers(s.registry, Wraps(b));
    KeepMembers(s.registry, Within(gone));
  }

  // ---------- Dead callbacks drain ----------

  function Gone(dead: set<Binder>): Entry -> bool { (e: Entry) => e.binder in dead }

  /** Delivering a notice removes every entry of that binder, and with it their notices. */
  lemma DeliveryShrinks(s: State, link: Entry)
    requires Inv(s) && link in s.pending
    ensures Step(s, Deliver(link)).pending < s.pending
    ensures Step(s, Deliver(link)).registry == Keep(s.registry, Wraps(link.binder))
    ensures forall e :: e in Step(s, Deliver(link)).registry ==> e.binder != link.binder
  {
    var t := s.(pending := s.pending - {link});
    RemoveCancels(t, Wraps(link.binder));
    KeepMembers(s.registry, Wraps(link.binder));
    assert link !in Step(s, Deliver(link)).pending;
  }

  predicate OnlyDeliveries(es: seq<Event>) { forall e :: e in es ==> e.Deliver? }

  lemma DeliveryKeepsLiving(s: State, e: Event)
    requires Inv(s) && e.Deliver?
    ensures Step(s, e).dead == s.dead
    ensures Keep(Step(s, e).registry, Gone(s.dead)) == Keep(s.registry, Gone(s.dead))
  {
    if Enabled(s, e) {
      var b := e.link.binder;
      assert b in s.dead;
      KeepTwice(s.registry, Wraps(b), Gone(s.dead));
      KeepAgrees(s.registry, (x: Entry) => Wraps(b)(x) || Gone(s.dead)(x), Gone(s.dead));
    }
  }

  /** Main result: deliver notices in any order until none is left, and the registry is what it was
      without the entries of dead binders, in the old order. */
  lemma {:induction false} DeadCallbacksDrain(s: State, es: seq<Event>)
    requires Inv(s) && OnlyDeliveries(es)
    ensures Inv(After(s, es)) && After(s, es).dead == s.dead
    ensures Keep(After(s, es).registry, Gone(s.dead)) == Keep(s.registry, Gone(s.dead))
    ensures After(s, es).pending == {} ==> After(s, es).registry == Keep(s.registry, Gone(s.dead))
  {
    if es != [] {
      var n := |es| - 1;
      assert es[n] in es;
      DeadCallbacksDrain(s, es[..n]);
      StepKeepsInv(After(s, es[..n]), es[n]);
      DeliveryKeepsLiving(After(s, es[..n]), es[n]);
    }
    var t := After(s, es);
    if t.pending == {} {
      forall e | e in t.registry
        ensures !Gone(s.dead)(e)
      {
        assert e in t.links;
        assert e.binder in t.dead ==> e in t.pending;
      }
      KeepAll(t.registry, Gone(s.dead));
    }
  }

  lemma {:induction false} KeepAll(es: seq<Entry>, drop: Entry -> bool)
    requires forall e :: e in es ==> !drop(e)
    ensures Keep(es, drop) == es
  {
    if es != [] {
      assert es == es[..|es| - 1] + [es[|es| - 1]];
      KeepAll(es[..|es| - 1], drop);
    }
  }

  /** Draining always ends: as long as a notice is pending, delivering it is possible, and there are at
      most as many deliveries as notices. */
  lemma {:induction false} DrainEnds(s: State)
    requires Inv(s)
    ensures exists es :: |es| <= |s.pending| && OnlyDeliveries(es) && After(s, es).pending == {}
    decreases |s.pending|
  {
    hide Inv, Step;
    if s.pending == {} {
      assert After(s, []).pending == {};
    } else {
      var link :| link in s.pending;
      var t := Step(s, Deliver(link));
      DeliveryShrinks(s, link);
      SmallerSet(t.pending, s.pending);
      StepKeepsInv(s, Deliver(link));
      DrainEnds(t);
      var es :| |es| <= |t.pending| && OnlyDeliveries(es) && After(t, es).pending == {};
      AfterCons(s, Deliver(link), es);
      var all := [Deliver(link)] + es;
      assert |all| <= |s.pending| && OnlyDeliveries(all) && After(s, all).pending == {};
    }
  }

  lemma SmallerSet<T>(a: set<T>, b: set<T>)
    requires a < b
    ensures |a| < |b|
  {
    assert |b| == |a| + |b - a| by { assert a + (b - a) == b; }
    var x :| x in b && x !in a;
    assert x in b - a;
  }

  lemma {:induction false} AfterConcat(s: State, a: seq<Event>, b: seq<Event>)
    ensures After(s, a + b) == After(After(s, a), b)
  {
    hide Step;
    if b == [] {
      assert a + b == a;
    } else {
      var front := b[..|b| - 1];
      assert (a + b)[..|a + b| - 1] == a + front;
      AfterConcat(s, a, front);
    }
  }

  lemma AfterCons(s: State, e: Event, es: seq<Event>)
    ensures After(s, [e] + es) == After(Step(s, e), es)
  {
    hide Step;
    AfterConcat(s, [e], es);
    assert [e][..0] == [];
    assert After(s, [e]) == Step(s, e);
  }
}
