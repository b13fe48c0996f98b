/** `Signal` and `Connection` (Core/Connection.h).

    A callback is identified by a number (its slot); firing a signal records, in the
    signal's `log`, which slots ran with which arguments. A listener's shared validity
    flag is owned by the listener entry and only observed through a `Connection`'s weak
    reference, which therefore succeeds exactly while the listener is still in the list;
    the flag is set to false only after the listener has been erased, so the model
    keeps the presence of the listener and not the flag. */
module Signals {
  import opened Seqs

  datatype Listener = Listener(id: nat, slot: nat, once: bool)

  /** One invocation of a callback. */
  datatype Call<A> = Call(slot: nat, args: A)

  /** The callbacks `Fire(a)` runs for the listeners `ls`, in list order. */
  function Calls<A>(ls: seq<Listener>, a: A): (r: seq<Call<A>>)
    ensures |r| == |ls|
    ensures forall i :: 0 <= i < |ls| ==> r[i] == Call(ls[i].slot, a)
  {
    seq(|ls|, (i: int) requires 0 <= i < |ls| => Call(ls[i].slot, a))
  }

  /** The listeners left by `Disconnect(id)`. */
  function Without(ls: seq<Listener>, id: nat): seq<Listener> {
    Filter(ls, (l: Listener) => l.id != id)
  }

  /** The listeners that stay after a `Fire`: one-shot listeners disconnect themselves. */
  function Persistent(ls: seq<Listener>): seq<Listener> {
    Filter(ls, (l: Listener) => !l.once)
  }

  /** A second `Fire` disconnects nothing more: the listeners a `Fire` leaves are all
      persistent. */
  lemma PersistentIdempotent(ls: seq<Listener>)
    ensures Persistent(Persistent(ls)) == Persistent(ls)
  {
    FilterAllKept(ls, (l: Listener) => !l.once);
    FilterKeepsAll(Persistent(ls), (l: Listener) => !l.once);
  }

  /** The calls made by n `Fire`s of a signal whose listeners start as ls. */
  function Fired<A>(ls: seq<Listener>, a: A, n: nat): seq<Call<A>>
    decreases n
  {
    if n == 0 then [] else Calls(ls, a) + Fired(Persistent(ls), a, n - 1)
  }

  /** The listeners left by n `Fire`s. */
  function AfterFiring(ls: seq<Listener>, n: nat): seq<Listener> {
    if n == 0 then ls else Persistent(ls)
  }

  /** One more `Fire` calls the listeners the earlier ones left, so the first firing
      calls every listener and each later one only the persistent listeners. */
  lemma {:induction false} FiredSnoc<A>(ls: seq<Listener>, a: A, n: nat)
    ensures Fired(ls, a, n + 1) == Fired(ls, a, n) + Calls(AfterFiring(ls, n), a)
    decreases n
  {
    if n > 0 {
      FiredSnoc(Persistent(ls), a, n - 1);
      PersistentIdempotent(ls);
      assert AfterFiring(Persistent(ls), n - 1) == AfterFiring(ls, n);
      assert Fired(ls, a, n + 1) == Calls(ls, a) + (Fired(Persistent(ls), a, n - 1) + Calls(AfterFiring(ls, n), a));
    } else {
      assert Fired(ls, a, 1) == Calls(ls, a) + [];
    }
  }

  /** Ids strictly increase along the list and are all below the next id to hand out. */
  ghost predicate IdsIncreasing(ls: seq<Listener>, next: nat) {
    (forall i, j :: 0 <= i < j < |ls| ==> ls[i].id < ls[j].id) &&
    (forall i :: 0 <= i < |ls| ==> ls[i].id < next)
  }

  /** Dropping listeners keeps the ids increasing. */
  lemma {:induction false} FilterKeepsIdsIncreasing(ls: seq<Listener>, next: nat, keep: Listener -> bool)
    requires IdsIncreasing(ls, next)
    ensures IdsIncreasing(Filter(ls, keep), next)
    decreases |ls|
  {
    if |ls| > 0 {
      var init := ls[..|ls| - 1];
      var last := ls[|ls| - 1];
      FilterKeepsIdsIncreasing(init, next, keep);
      var f := Filter(init, keep);
      forall i | 0 <= i < |f|
        ensures f[i].id < last.id
      {
        FilterMember(init, keep, f[i]);
      }
    }
  }

  /** Disconnecting an id nobody holds changes nothing. */
  lemma WithoutAbsent(ls: seq<Listener>, id: nat)
    requires forall i :: 0 <= i < |ls| ==> ls[i].id != id
    ensures Without(ls, id) == ls
  {
    FilterKeepsAll(ls, (l: Listener) => l.id != id);
  }

  /** After `Disconnect(id)` no listener has that id, and every other listener is still
      there. */
  lemma WithoutExactly(ls: seq<Listener>, id: nat, l: Listener)
    ensures l in Without(ls, id) <==> l in ls && l.id != id
  {
    FilterMember(ls, (l: Listener) => l.id != id, l);
  }

  class Signal<A> {
    var listeners: seq<Listener>
    var nextId: nat
    var log: seq<Call<A>>

    ghost predicate Valid()
      reads this
    {
      IdsIncreasing(listeners, nextId)
    }

    constructor()
      ensures listeners == [] && nextId == 0 && log == [] && Valid()
    {
      listeners := [];
      nextId := 0;
      log := [];
    }

    predicate Has(id: nat)
      reads this
    {
      exists i :: 0 <= i < |listeners| && listeners[i].id == id
    }

    /** `AddListener` / `AddListenerOnce`: the listener takes the next id. */
    method AddListener(slot: nat, once: bool, autoDisconnect: bool) returns (c: Connection<A>)
      requires Valid()
      modifies this
      ensures Valid()
      ensures listeners == old(listeners) + [Listener(old(nextId), slot, once)]
      ensures nextId == old(nextId) + 1 && log == old(log)
      ensures fresh(c) && c.signal == this && c.id == old(nextId)
      ensures c.autoDisconnect == autoDisconnect && c.runs == 0
    {
      var id := nextId;
      nextId := nextId + 1;
      listeners := listeners + [Listener(id, slot, once)];
      c := new Connection(this, id, autoDisconnect);
    }

    method Connect(slot: nat) returns (c: Connection<A>)
      requires Valid()
      modifies this
      ensures Valid()
      ensures listeners == old(listeners) + [Listener(old(nextId), slot, false)]
      ensures nextId == old(nextId) + 1 && log == old(log)
      ensures fresh(c) && c.signal == this && c.id == old(nextId) && c.autoDisconnect && c.runs == 0
    {
      c := AddListener(slot, false, true);
    }

    method ConnectPersistent(slot: nat) returns (c: Connection<A>)
      requires Valid()
      modifies this
      ensures Valid()
      ensures listeners == old(listeners) + [Listener(old(nextId), slot, false)]
      ensures nextId == old(nextId) + 1 && log == old(log)
      ensures fresh(c) && c.signal == this && c.id == old(nextId) && !c.autoDisconnect && c.runs == 0
    {
      c := AddListener(slot, false, false);
    }

    method ConnectOnce(slot: nat) returns (c: Connection<A>)
      requires Valid()
      modifies this
      ensures Valid()
      ensures listeners == old(listeners) + [Listener(old(nextId), slot, true)]
      ensures nextId == old(nextId) + 1 && log == old(log)
      ensures fresh(c) && c.signal == this && c.id == old(nextId) && c.autoDisconnect && c.runs == 0
    {
      c := AddListener(slot, true, true);
    }

    method ConnectOncePersistent(slot: nat) returns (c: Connection<A>)
      requires Valid()
      modifies this
      ensures Valid()
      ensures listeners == old(listeners) + [Listener(old(nextId), slot, true)]
      ensures nextId == old(nextId) + 1 && log == old(log)
      ensures fresh(c) && c.signal == this && c.id == old(nextId) && !c.autoDisconnect && c.runs == 0
    {
      c := AddListener(slot, true, false);
    }

    /** `Fire`: every listener's callback runs once, in list order; the one-shot
        listeners then disconnect themselves. */
    method Fire(a: A)
      modifies this
      ensures old(Valid()) ==> Valid()
      ensures log == old(log) + Calls(old(listeners), a)
      ensures listeners == Persistent(old(listeners)) && nextId == old(nextId)
    {
      var ls := listeners;
      for i := 0 to |ls|
        invariant log == old(log) + Calls(ls[..i], a)
        invariant listeners == ls && nextId == old(nextId)
      {
        assert Calls(ls[..i + 1], a) == Calls(ls[..i], a) + [Call(ls[i].slot, a)];
        log := log + [Call(ls[i].slot, a)];
      }
      assert ls[..|ls|] == ls;
      var kept: seq<Listener> := [];
      for i := 0 to |ls|
        invariant kept == Filter(ls[..i], (l: Listener) => !l.once)
        invariant listeners == ls && nextId == old(nextId) && log == old(log) + Calls(ls, a)
      {
        FilterSnoc(ls, i, (l: Listener) => !l.once);
        if !ls[i].once {
          kept := kept + [ls[i]];
        }
      }
      if IdsIncreasing(ls, nextId) {
        FilterKeepsIdsIncreasing(ls, nextId, (l: Listener) => !l.once);
      }
      listeners := kept;
    }

    /** `Disconnect(id)`: erases every listener with that id, keeping the others in
        order. */
    method Disconnect(id: nat)
      requires Valid()
      modifies this
      ensures Valid() && !Has(id)
      ensures listeners == Without(old(listeners), id)
      ensures nextId == old(nextId) && log == old(log)
    {
      var ls := listeners;
      var kept: seq<Listener> := [];
      for i := 0 to |ls|
        invariant kept == Filter(ls[..i], (l: Listener) => l.id != id)
        invariant unchanged(this)
      {
        FilterSnoc(ls, i, (l: Listener) => l.id != id);
        if ls[i].id != id {
          kept := kept + [ls[i]];
        }
      }
      assert ls[..|ls|] == ls;
      FilterKeepsIdsIncreasing(ls, nextId, (l: Listener) => l.id != id);
      FilterAllKept(ls, (l: Listener) => l.id != id);
      listeners := kept;
    }

    method DisconnectAll()
      modifies this
      ensures listeners == [] && nextId == old(nextId) && log == old(log)
    {
      listeners := [];
    }
  }

  /** A connection handle: the signal and listener id its disconnect function erases,
      whether its destructor disconnects, and how often that function has run. */
  class Connection<A> {
    var signal: Signal?<A>
    var id: nat
    var autoDisconnect: bool
    var runs: nat

    /** `Connection()`: no listener behind it. */
    constructor Empty()
      ensures signal == null && autoDisconnect && runs == 0
    {
      signal := null;
      id := 0;
      autoDisconnect := true;
      runs := 0;
    }

    constructor(s: Signal<A>, id: nat, autoDisconnect: bool)
      ensures signal == s && this.id == id && this.autoDisconnect == autoDisconnect && runs == 0
    {
      signal := s;
      this.id := id;
      this.autoDisconnect := autoDisconnect;
      runs := 0;
    }

    /** `Disconnect`: the disconnect function runs exactly when the listener is still
        connected, and erases it. */
    method Disconnect()
      requires signal != null ==> signal.Valid()
      modifies this, signal
      ensures signal == old(signal) && id == old(id) && autoDisconnect == old(autoDisconnect)
      ensures signal != null ==> signal.Valid() && !signal.Has(id)
      ensures old(signal != null && signal.Has(id)) ==>
        runs == old(runs) + 1 && signal.listeners == Without(old(signal.listeners), id)
      ensures !old(signal != null && signal.Has(id)) ==>
        runs == old(runs) && (signal != null ==> signal.listeners == old(signal.listeners))
      ensures signal != null ==> signal.nextId == old(signal.nextId) && signal.log == old(signal.log)
    {
      if signal != null && signal.Has(id) {
        signal.Disconnect(id);
        runs := runs + 1;
      }
    }

    /** `Detach`. */
    method Detach()
      modifies this
      ensures !autoDisconnect && signal == old(signal) && id == old(id) && runs == old(runs)
    {
      autoDisconnect := false;
    }

    /** `~Connection`: disconnects only when auto-disconnect is on. */
    method Destroy()
      requires signal != null ==> signal.Valid()
      modifies this, signal
      ensures signal == old(signal) && id == old(id) && autoDisconnect == old(autoDisconnect)
      ensures signal != null ==> signal.Valid()
      ensures autoDisconnect && old(signal != null && signal.Has(id)) ==>
        runs == old(runs) + 1 && signal.listeners == Without(old(signal.listeners), id)
      ensures !autoDisconnect ==> runs == old(runs) && (signal != null ==> signal.listeners == old(signal.listeners))
      ensures signal != null ==> signal.nextId == old(signal.nextId) && signal.log == old(signal.log)
    {
      if autoDisconnect {
        Disconnect();
      }
    }

    /** The move constructor: the new handle takes over; the source no longer refers to
        the listener and no longer disconnects on destruction. */
    constructor Moved(other: Connection<A>)
      modifies other
      ensures signal == old(other.signal) && id == old(other.id)
      ensures autoDisconnect == old(other.autoDisconnect) && runs == 0
      ensures other.signal == null && !other.autoDisconnect
    {
      signal := other.signal;
      id := other.id;
      autoDisconnect := other.autoDisconnect;
      runs := 0;
      new;
      other.signal := null;
      other.autoDisconnect := false;
    }

    /** Move assignment: the target first disconnects its own listener, then takes over
        the source's. Self-assignment does nothing. */
    method MoveAssign(other: Connection<A>)
      requires signal != null ==> signal.Valid()
      modifies this, other, signal
      ensures other == this ==> signal == old(signal) && autoDisconnect == old(autoDisconnect) && runs == old(runs)
      ensures other != this ==> signal == old(other.signal) && id == old(other.id)
      ensures other != this ==> autoDisconnect == old(other.autoDisconnect)
      ensures other != this ==> other.signal == null && !other.autoDisconnect
      ensures other != this && old(signal != null && signal.Has(id)) ==>
        old(signal).listeners == Without(old(signal.listeners), old(id))
    {
      if other != this {
        Disconnect();
        signal := other.signal;
        id := other.id;
        autoDisconnect := other.autoDisconnect;
        other.signal := null;
        other.autoDisconnect := false;
      }
    }
  }

  /** Erasing the newest listener gives back the list it was added to. */
  lemma WithoutNewest(ls: seq<Listener>, l: Listener)
    requires forall i :: 0 <= i < |ls| ==> ls[i].id < l.id
    ensures Without(ls + [l], l.id) == ls
  {
    FilterAppend(ls, [l], (x: Listener) => x.id != l.id);
    WithoutAbsent(ls, l.id);
    assert Without([l], l.id) == Filter([], (x: Listener) => x.id != l.id);
  }

  /** A `Connect(...)` whose result is discarded: the temporary handle is destroyed at
      once and takes the new listener with it. */
  method ConnectDiscarded<A>(s: Signal<A>, slot: nat)
    requires s.Valid()
    modifies s
    ensures s.Valid()
    ensures s.listeners == old(s.listeners) && s.nextId == old(s.nextId) + 1 && s.log == old(s.log)
  {
    ghost var before := s.listeners;
    ghost var l := Listener(s.nextId, slot, false);
    var c := s.Connect(slot);
    assert s.listeners == before + [l];
    assert s.Has(l.id) by {
      assert s.listeners[|before|].id == l.id;
    }
    c.Destroy();
    WithoutNewest(before, l);
  }

  /** A one-shot listener runs on the first `Fire` and is gone for the second. */
  method OnceFiresOnce<A>(s: Signal<A>, slot: nat, a: A, b: A)
    requires s.Valid() && s.listeners == []
    modifies s
    ensures s.log == old(s.log) + [Call(slot, a)]
  {
    var c := s.ConnectOncePersistent(slot);
    s.Fire(a);
    assert s.listeners == [] by {
      assert Persistent([Listener(old(s.nextId), slot, true)]) == [];
    }
    s.Fire(b);
  }
}
