/** Input bindings (Client/Input/InputAction.h, InputContext.h, InputService.h).

    An action is an object with a key list, a priority and two signals; a context
    owns actions by name and keeps, per key, the actions bound to it; the service
    keeps the contexts in priority order. A callback is a slot number (see
    `Signals`): an action's `Pressed` signal runs `callback(true)` and its `Released`
    signal `callback(false)`. SDL events are reduced to the three cases the code
    tells apart. */
module Input {
  import opened Wrappers
  import opened Seqs
  import opened Signals

  /** `SDL_Keycode`. */
  type Key = int

  datatype Event = KeyDown(key: Key) | KeyUp(key: Key) | OtherEvent

  // ---------------------------------------------------------------------------
  // Ordering by descending priority (std::sort with `a.priority > b.priority`)
  // ---------------------------------------------------------------------------

  predicate SortedDescending<T>(s: seq<T>, key: T -> int) {
    forall i, j :: 0 <= i < j < |s| ==> key(s[i]) >= key(s[j])
  }

  /** x placed into a descending list before the first element with a smaller key. */
  function Insert<T>(x: T, s: seq<T>, key: T -> int): (r: seq<T>)
    ensures multiset(r) == multiset(s) + multiset{x}
    decreases |s|
  {
    if |s| == 0 then [x]
    else if key(s[0]) >= key(x) then
      assert s == [s[0]] + s[1..];
      [s[0]] + Insert(x, s[1..], key)
    else [x] + s
  }

  lemma {:induction false} InsertSorted<T>(x: T, s: seq<T>, key: T -> int)
    requires SortedDescending(s, key)
    ensures SortedDescending(Insert(x, s, key), key)
    decreases |s|
  {
    if |s| > 0 && key(s[0]) >= key(x) {
      var rest := Insert(x, s[1..], key);
      InsertSorted(x, s[1..], key);
      forall i | 0 <= i < |rest|
        ensures key(s[0]) >= key(rest[i])
      {
        assert rest[i] in multiset(rest);
        if rest[i] != x {
          assert rest[i] in multiset(s[1..]);
          var j :| 0 <= j < |s[1..]| && s[1..][j] == rest[i];
          assert s[j + 1] == rest[i];
        }
      }
    }
  }

  /** `std::sort` by descending priority. The C++ sort is not stable, so the order
      among equal priorities is not specified; this is one sort that meets the
      contract. */
  method SortDescending<T>(s: seq<T>, key: T -> int) returns (r: seq<T>)
    ensures multiset(r) == multiset(s)
    ensures SortedDescending(r, key)
  {
    r := [];
    for i := 0 to |s|
      invariant multiset(r) == multiset(s[..i])
      invariant SortedDescending(r, key)
    {
      assert s[..i + 1] == s[..i] + [s[i]];
      InsertSorted(s[i], r, key);
      r := Insert(s[i], r, key);
    }
    assert s[..|s|] == s;
  }

  // ---------------------------------------------------------------------------
  // InputAction
  // ---------------------------------------------------------------------------

  /** The keys left by `RemoveKey(key)`. */
  function WithoutKey(keys: seq<Key>, key: Key): seq<Key> {
    Filter(keys, (k: Key) => k != key)
  }

  /** After `RemoveKey(key)` the key no longer matches and every other key still
      does. */
  lemma WithoutKeyExactly(keys: seq<Key>, key: Key, other: Key)
    ensures other in WithoutKey(keys, key) <==> other in keys && other != key
  {
    FilterMember(keys, (k: Key) => k != key, other);
  }

  class InputAction {
    const name: string
    var boundKeys: seq<Key>
    var priority: int
    const Pressed: Signal<()>
    const Released: Signal<()>

    ghost predicate Valid()
      reads this, Pressed, Released
    {
      Distinct(boundKeys) && Pressed.Valid() && Released.Valid()
    }

    /** `InputAction(n, p)`: no keys, the given priority (0 by default). */
    constructor(n: string, p: int)
      ensures name == n && boundKeys == [] && priority == p
      ensures fresh(Pressed) && fresh(Released) && Pressed != Released
      ensures Pressed.listeners == [] && Released.listeners == [] && Pressed.log == [] && Released.log == []
      ensures Pressed.nextId == 0 && Released.nextId == 0
      ensures Valid()
    {
      name := n;
      boundKeys := [];
      priority := p;
      Pressed := new Signal();
      Released := new Signal();
    }

    predicate Matches(key: Key)
      reads this
    {
      key in boundKeys
    }

    /** Appends the key unless it is already bound, so no key is listed twice. */
    method AddKey(key: Key)
      modifies this
      ensures boundKeys == if key in old(boundKeys) then old(boundKeys) else old(boundKeys) + [key]
      ensures priority == old(priority)
      ensures old(Distinct(boundKeys)) ==> Distinct(boundKeys)
      ensures Matches(key)
    {
      if !Matches(key) {
        boundKeys := boundKeys + [key];
      }
    }

    /** Erases every copy of the key, keeping the other keys in order. */
    method RemoveKey(key: Key)
      modifies this
      ensures boundKeys == WithoutKey(old(boundKeys), key)
      ensures priority == old(priority)
      ensures old(Distinct(boundKeys)) ==> Distinct(boundKeys)
      ensures !Matches(key)
    {
      var ks := boundKeys;
      var kept: seq<Key> := [];
      for i := 0 to |ks|
        invariant kept == Filter(ks[..i], (k: Key) => k != key)
        invariant boundKeys == ks && priority == old(priority)
      {
        FilterSnoc(ks, i, (k: Key) => k != key);
        if ks[i] != key {
          kept := kept + [ks[i]];
        }
      }
      assert ks[..|ks|] == ks;
      if Distinct(ks) {
        FilterDistinct(ks, (k: Key) => k != key);
      }
      WithoutKeyExactly(ks, key, key);
      boundKeys := kept;
    }

    method SetPriority(p: int)
      modifies this
      ensures priority == p && boundKeys == old(boundKeys)
    {
      priority := p;
    }
  }

  /** An action's priority, read through a snapshot of the priorities. */
  function PriorityIn(prios: map<InputAction, int>): InputAction -> int {
    (a: InputAction) => if a in prios then prios[a] else 0
  }

  /** The signals of a set of actions. */
  ghost function SignalsOf(acts: set<InputAction>): set<object> {
    (set a | a in acts :: a.Pressed as object) + (set a | a in acts :: a.Released as object)
  }

  // ---------------------------------------------------------------------------
  // InputContext: the key lists as values
  // ---------------------------------------------------------------------------

  /** `keyToActions`: per key, the actions bound to it, best first. */
  type Lists = map<Key, seq<InputAction>>

  /** Per action, the keys it lists as bound. */
  type Bindings = map<InputAction, seq<Key>>

  /** Every stored list is nonempty, and an action is listed under a key only while
      the key is among the action's bound keys, so every listed pointer is owned by
      the context. */
  predicate ListsOk(m: Lists, bound: Bindings) {
    (forall k :: k in m ==> m[k] != []) &&
    forall k, a :: k in m && a in m[k] ==> a in bound && k in bound[a]
  }

  /** More keys per action keep every listing justified. */
  lemma ListsOkGrow(m: Lists, b0: Bindings, b1: Bindings)
    requires ListsOk(m, b0)
    requires forall a, k :: a in b0 && k in b0[a] ==> a in b1 && k in b1[a]
    ensures ListsOk(m, b1)
  {
    forall k, a | k in m && a in m[k]
      ensures a in b1 && k in b1[a]
    {
      assert a in b0 && k in b0[a];
    }
  }

  /** The `keyToActions[key].push_back(act)` loop: each listed key, in order, gets act
      appended to its list (a missing list starts empty). */
  function Pushed(m: Lists, act: InputAction, keys: seq<Key>): Lists
    decreases |keys|
  {
    if |keys| == 0 then m
    else
      var p := Pushed(m, act, keys[..|keys| - 1]);
      var k := keys[|keys| - 1];
      p[k := (if k in p then p[k] else []) + [act]]
  }

  /** What the push loop leaves under each key: the old list followed by one copy of
      act per occurrence of the key among the arguments; no other key changes. */
  lemma {:induction false} PushedContents(m: Lists, act: InputAction, keys: seq<Key>, k: Key)
    ensures k in Pushed(m, act, keys) <==> k in m || k in keys
    ensures k in Pushed(m, act, keys) ==>
      Pushed(m, act, keys)[k] == (if k in m then m[k] else []) + Repeat(act, Count(keys, k))
    decreases |keys|
  {
    if |keys| > 0 {
      var init, last := keys[..|keys| - 1], keys[|keys| - 1];
      PushedContents(m, act, init, k);
      assert keys == init + [last];
      CountSnoc(init, last, k);
      RepeatSnoc(act, Count(init, k));
    }
  }

  /** Pushing act under keys that are bound to it keeps the lists justified. */
  lemma {:induction false} PushedKeepsOk(m: Lists, bound: Bindings, act: InputAction, keys: seq<Key>)
    requires ListsOk(m, bound) && act in bound
    requires forall k :: k in keys ==> k in bound[act]
    ensures ListsOk(Pushed(m, act, keys), bound)
    decreases |keys|
  {
    if |keys| > 0 {
      PushedKeepsOk(m, bound, act, keys[..|keys| - 1]);
    }
  }

  /** The sorting loop's effect: the same keys, every list a permutation of its old
      self, the lists of `keys` sorted by descending `key`, the others untouched. */
  predicate Rearranged(m0: Lists, m1: Lists, keys: seq<Key>, key: InputAction -> int) {
    m1.Keys == m0.Keys &&
    (forall k :: k in m0 ==> multiset(m1[k]) == multiset(m0[k])) &&
    (forall k :: k in m0 && k in keys ==> SortedDescending(m1[k], key)) &&
    (forall k :: k in m0 && k !in keys ==> m1[k] == m0[k])
  }

  /** One more list sorted in place of its old order. */
  lemma RearrangedSnoc(m0: Lists, m1: Lists, keys: seq<Key>, k: Key, sorted: seq<InputAction>, key: InputAction -> int)
    requires Rearranged(m0, m1, keys, key) && k in m1
    requires multiset(sorted) == multiset(m1[k]) && SortedDescending(sorted, key)
    ensures Rearranged(m0, m1[k := sorted], keys + [k], key)
  {
  }

  /** Reordering lists keeps them justified. */
  lemma RearrangedKeepsOk(m0: Lists, m1: Lists, keys: seq<Key>, key: InputAction -> int, bound: Bindings)
    requires ListsOk(m0, bound) && Rearranged(m0, m1, keys, key)
    ensures ListsOk(m1, bound)
  {
    forall k, a | k in m1 && a in m1[k]
      ensures a in bound && k in bound[a]
    {
      assert a in multiset(m1[k]);
    }
    forall k | k in m1
      ensures m1[k] != []
    {
      assert |multiset(m1[k])| == |multiset(m0[k])|;
    }
  }

  /** `vec.erase(std::remove(vec.begin(), vec.end(), act), vec.end())`. */
  function FilterOut(v: seq<InputAction>, act: InputAction): seq<InputAction> {
    Filter(v, (a: InputAction) => a != act)
  }

  /** The erase loop over one vector. */
  method EraseAction(v: seq<InputAction>, act: InputAction) returns (kept: seq<InputAction>)
    ensures kept == FilterOut(v, act)
    ensures forall a :: a in kept <==> a in v && a != act
  {
    kept := [];
    for i := 0 to |v|
      invariant kept == Filter(v[..i], (a: InputAction) => a != act)
    {
      FilterSnoc(v, i, (a: InputAction) => a != act);
      if v[i] != act {
        kept := kept + [v[i]];
      }
    }
    assert v[..|v|] == v;
    forall a
      ensures a in kept <==> a in v && a != act
    {
      FilterMember(v, (a: InputAction) => a != act, a);
    }
  }

  /** Removing act from the list of one key, and the list itself once it is empty. */
  function UnlistAt(m: Lists, key: Key, act: InputAction): Lists {
    if key !in m then m
    else
      var v := FilterOut(m[key], act);
      if v == [] then m - {key} else m[key := v]
  }

  /** After `UnlistAt`, act is gone from the key's list, every other listing stays,
      and every stored list is still nonempty. */
  lemma UnlistAtExactly(m: Lists, key: Key, act: InputAction)
    requires forall k :: k in m ==> m[k] != []
    ensures forall k :: k in UnlistAt(m, key, act) ==> UnlistAt(m, key, act)[k] != []
    ensures forall k, a :: k in UnlistAt(m, key, act) && a in UnlistAt(m, key, act)[k] ==>
      k in m && a in m[k] && (k != key || a != act)
    ensures forall k, a :: k in m && a in m[k] && (k != key || a != act) ==>
      k in UnlistAt(m, key, act) && a in UnlistAt(m, key, act)[k]
  {
    if key in m {
      forall a
        ensures a in FilterOut(m[key], act) <==> a in m[key] && a != act
      {
        FilterMember(m[key], (a: InputAction) => a != act, a);
      }
      var r := UnlistAt(m, key, act);
      forall k, a | k in r && a in r[k]
        ensures k in m && a in m[k] && (k != key || a != act)
      {
        if k == key {
          assert r[k] == FilterOut(m[key], act);
          FilterMember(m[key], (a: InputAction) => a != act, a);
        } else {
          assert r[k] == m[k];
        }
      }
    }
  }

  /** `UnbindKey` keeps the lists justified once the key is dropped from act's keys. */
  lemma UnlistAtKeepsOk(m: Lists, bound: Bindings, key: Key, act: InputAction)
    requires ListsOk(m, bound) && act in bound
    ensures ListsOk(UnlistAt(m, key, act), bound[act := WithoutKey(bound[act], key)])
  {
    UnlistAtExactly(m, key, act);
    var m1, b1 := UnlistAt(m, key, act), bound[act := WithoutKey(bound[act], key)];
    forall k, a | k in m1 && a in m1[k]
      ensures a in b1 && k in b1[a]
    {
      if a == act {
        WithoutKeyExactly(bound[act], key, k);
      }
    }
  }

  /** The loop of `UnbindAction`: act removed from the list of each key, in order. */
  function UnlistKeys(m: Lists, keys: seq<Key>, act: InputAction): Lists
    decreases |keys|
  {
    if |keys| == 0 then m
    else UnlistAt(UnlistKeys(m, keys[..|keys| - 1], act), keys[|keys| - 1], act)
  }

  /** After `UnlistKeys`, act is listed under none of the keys, and every other
      listing stays. */
  lemma {:induction false} UnlistKeysExactly(m: Lists, keys: seq<Key>, act: InputAction)
    requires forall k :: k in m ==> m[k] != []
    ensures forall k :: k in UnlistKeys(m, keys, act) ==> UnlistKeys(m, keys, act)[k] != []
    ensures forall k, a :: k in UnlistKeys(m, keys, act) && a in UnlistKeys(m, keys, act)[k] ==>
      k in m && a in m[k] && (k !in keys || a != act)
    ensures forall k, a :: k in m && a in m[k] && (k !in keys || a != act) ==>
      k in UnlistKeys(m, keys, act) && a in UnlistKeys(m, keys, act)[k]
    decreases |keys|
  {
    if |keys| > 0 {
      var init := keys[..|keys| - 1];
      UnlistKeysExactly(m, init, act);
      UnlistAtExactly(UnlistKeys(m, init, act), keys[|keys| - 1], act);
      assert keys == init + [keys[|keys| - 1]];
    }
  }

  /** `UnbindAction` leaves no pointer to the erased action: unlisting it from all of
      its bound keys removes it from every list, and the lists stay justified by the
      remaining actions. */
  lemma UnlistBoundKeys(m: Lists, bound: Bindings, act: InputAction)
    requires ListsOk(m, bound) && act in bound
    ensures forall k :: k in UnlistKeys(m, bound[act], act) ==> act !in UnlistKeys(m, bound[act], act)[k]
    ensures ListsOk(UnlistKeys(m, bound[act], act), bound - {act})
  {
    UnlistKeysExactly(m, bound[act], act);
    var m1 := UnlistKeys(m, bound[act], act);
    forall k, a | k in m1 && a in m1[k]
      ensures a != act && a in bound - {act} && k in (bound - {act})[a]
    {
      assert k in m && a in m[k];
    }
  }

  /** The actions of a context, by name. */
  type Actions = map<string, InputAction>

  /** Each action is stored under its own name; so no action is stored twice. */
  predicate Named(acts: Actions) {
    forall n :: n in acts ==> acts[n].name == n
  }

  /** No two actions share a signal, and an action's two signals differ. */
  predicate SignalsApart(acts: Actions) {
    forall a, b :: a in acts.Values && b in acts.Values ==>
      a.Pressed != a.Released &&
      (a != b ==> a.Pressed != b.Pressed && a.Pressed != b.Released && a.Released != b.Released)
  }

  /** Every action lists each of its keys once. */
  ghost predicate KeysDistinct(acts: Actions)
    reads acts.Values
  {
    forall a :: a in acts.Values ==> Distinct(a.boundKeys)
  }

  /** Every action's two signals satisfy their own invariant. */
  ghost predicate SignalsValid(acts: Actions)
    reads SignalsOf(acts.Values)
  {
    forall a :: a in acts.Values ==> a.Pressed.Valid() && a.Released.Valid()
  }

  /** A new name adds its action to the stored actions. */
  lemma ValuesAdd(acts: Actions, n: string, a: InputAction)
    requires n !in acts
    ensures acts[n := a].Values == acts.Values + {a}
  {
    forall b | b in acts.Values
      ensures b in acts[n := a].Values
    {
      var m :| m in acts && acts[m] == b;
      assert acts[n := a][m] == b;
    }
    forall b | b in acts[n := a].Values
      ensures b in acts.Values || b == a
    {
      var m :| m in acts[n := a] && acts[n := a][m] == b;
      if m != n {
        assert acts[m] == b;
      }
    }
    assert acts[n := a][n] == a;
  }

  /** Erasing a name erases its action and no other, since names are unique. */
  lemma ValuesRemove(acts: Actions, n: string)
    requires Named(acts) && n in acts
    ensures (acts - {n}).Values == acts.Values - {acts[n]}
  {
    forall b | b in acts.Values && b != acts[n]
      ensures b in (acts - {n}).Values
    {
      var m :| m in acts && acts[m] == b;
      assert (acts - {n})[m] == b;
    }
    forall b | b in (acts - {n}).Values
      ensures b != acts[n]
    {
      var m :| m in acts - {n} && (acts - {n})[m] == b;
      assert b.name == m;
    }
  }

  /** Each action's bound keys. */
  ghost function BoundOf(acts: Actions): Bindings
    reads acts.Values
  {
    map a | a in acts.Values :: a.boundKeys
  }

  /** Each action's priority, the comparator's `GetPriority()`. */
  function Priorities(acts: Actions): map<InputAction, int>
    reads acts.Values
  {
    map a | a in acts.Values :: a.priority
  }

  /** The keys `AddKey` leaves after each of `keys` in turn. */
  function AddedKeys(ks: seq<Key>, keys: seq<Key>): (r: seq<Key>)
    ensures |r| >= |ks| && r[..|ks|] == ks
    decreases |keys|
  {
    if |keys| == 0 then ks
    else
      var p := AddedKeys(ks, keys[..|keys| - 1]);
      var k := keys[|keys| - 1];
      if k in p then p else p + [k]
  }

  /** The keys after the `AddKey` calls are the old keys followed by the new ones,
      each listed once. */
  lemma {:induction false} AddedKeysContents(ks: seq<Key>, keys: seq<Key>)
    ensures forall k :: k in AddedKeys(ks, keys) <==> k in ks || k in keys
    ensures Distinct(ks) ==> Distinct(AddedKeys(ks, keys))
    decreases |keys|
  {
    if |keys| > 0 {
      var init := keys[..|keys| - 1];
      AddedKeysContents(ks, init);
      assert keys == init + [keys[|keys| - 1]];
    }
  }

  // ---------------------------------------------------------------------------
  // InputContext
  // ---------------------------------------------------------------------------

  class InputContext {
    var actions: Actions
    var keyToActions: Lists

    /** The signals of the context's actions. */
    ghost function Signals(): set<object>
      reads this
    {
      SignalsOf(actions.Values)
    }

    /** The objects binding under a name may change: the action stored under it, if
        any, and its two signals. */
    ghost function Touched(name: string): set<object>
      reads this, actions.Values
    {
      if name in actions then {actions[name], actions[name].Pressed, actions[name].Released} else {}
    }

    ghost predicate Valid()
      reads this, actions.Values, Signals()
    {
      Named(actions) && SignalsApart(actions) && KeysDistinct(actions) &&
      ListsOk(keyToActions, BoundOf(actions)) && SignalsValid(actions)
    }

    constructor()
      ensures actions == map[] && keyToActions == map[]
      ensures Valid()
    {
      actions := map[];
      keyToActions := map[];
    }

    /** `GetAction`: the action stored under the name, if any (a null pointer when
        none). */
    method GetAction(name: string) returns (r: Option<InputAction>)
      requires Valid()
      ensures r.Some? <==> name in actions
      ensures r.Some? ==> r.value == actions[name] && r.value.name == name
    {
      if name in actions {
        return Some(actions[name]);
      }
      return None;
    }

    /** The signal a key event fires: the `Pressed` (key down) or `Released` (key up)
        signal of the first action listed under the key, if the key has a list. */
    function Target(ev: Event): (r: Option<Signal<()>>)
      reads this
      ensures r.Some? ==> ev.KeyDown? || ev.KeyUp?
      ensures r.Some? ==>
        (ev.key in keyToActions && keyToActions[ev.key] != [] &&
         r.value == (if ev.KeyDown? then keyToActions[ev.key][0].Pressed else keyToActions[ev.key][0].Released))
      ensures (ev.KeyDown? || ev.KeyUp?) && ev.key in keyToActions && keyToActions[ev.key] != [] ==> r.Some?
    {
      if ev.OtherEvent? || ev.key !in keyToActions || keyToActions[ev.key] == [] then None
      else if ev.KeyDown? then Some(keyToActions[ev.key][0].Pressed)
      else Some(keyToActions[ev.key][0].Released)
    }

    /** The target signal belongs to one of the context's own actions. */
    lemma TargetOwned(ev: Event)
      requires Valid() && Target(ev).Some?
      ensures keyToActions[ev.key][0] in actions.Values
      ensures Target(ev).value in Signals()
    {
      var a := keyToActions[ev.key][0];
      assert a in keyToActions[ev.key];
      assert a in BoundOf(actions);
    }

    /** `HandleEvent`: a key event whose key has a list fires the target signal
        once; nothing else changes. */
    method HandleEvent(ev: Event) returns (ghost fired: Option<Signal<()>>)
      modifies if Target(ev).Some? then {Target(ev).value} else {}
      ensures fired == old(Target(ev))
      ensures old(Valid()) ==> Valid()
      ensures fired.Some? ==>
        var s := fired.value;
        s.log == old(s.log) + Calls(old(s.listeners), ()) && s.listeners == Persistent(old(s.listeners))
    {
      fired := Target(ev);
      if ev.OtherEvent? {
        return;
      }
      if ev.key !in keyToActions {
        return;
      }
      var vec := keyToActions[ev.key];
      if vec != [] {
        var top := vec[0];
        var s := if ev.KeyDown? then top.Pressed else top.Released;
        if Valid() {
          TargetOwned(ev);
        }
        FireOwned(s);
      }
    }

    /** Firing one of the context's own signals keeps the context valid. */
    method FireOwned(s: Signal<()>)
      modifies s
      ensures old(Valid()) && s in old(Signals()) ==> Valid()
      ensures s.log == old(s.log) + Calls(old(s.listeners), ()) && s.listeners == Persistent(old(s.listeners))
    {
      s.Fire(());
      if old(Valid()) && s in old(Signals()) {
        assert forall a :: a in actions.Values ==> unchanged(a);
        forall a | a in actions.Values
          ensures a.Pressed.Valid() && a.Released.Valid()
        {
          if a.Pressed != s && a.Released != s {
            assert unchanged(a.Pressed) && unchanged(a.Released);
          }
        }
      }
    }

    /** The first half of `BindWithPriority`: the action stored under the name gets the
        priority, or a new action with it is stored. */
    method Obtain(name: string, priority: int) returns (act: InputAction)
      requires Valid()
      modifies this, if name in actions then {actions[name]} else {}
      ensures Valid()
      ensures keyToActions == old(keyToActions)
      ensures name in actions && act == actions[name] && act.priority == priority
      ensures name in old(actions) ==>
        act == old(actions[name]) && actions == old(actions) && act.boundKeys == old(act.boundKeys)
      ensures name !in old(actions) ==>
        fresh(act) && fresh(act.Pressed) && fresh(act.Released) && actions == old(actions)[name := act] &&
        act.boundKeys == [] && act.Pressed.listeners == [] && act.Released.listeners == [] &&
        act.Pressed.nextId == 0 && act.Released.nextId == 0 && act.Pressed.log == [] && act.Released.log == []
    {
      if name !in actions {
        act := Create(name, priority);
      } else {
        act := actions[name];
        Reprioritize(act, priority);
      }
    }

    /** `std::make_unique<InputAction>(name, priority)`, stored under the name. */
    method Create(name: string, priority: int) returns (act: InputAction)
      requires Valid() && name !in actions
      modifies this
      ensures Valid()
      ensures keyToActions == old(keyToActions) && actions == old(actions)[name := act]
      ensures fresh(act) && fresh(act.Pressed) && fresh(act.Released)
      ensures act.priority == priority && act.boundKeys == []
      ensures act.Pressed.listeners == [] && act.Released.listeners == [] && act.Pressed.log == [] && act.Released.log == []
      ensures act.Pressed.nextId == 0 && act.Released.nextId == 0
    {
      act := new InputAction(name, priority);
      ghost var bound0 := BoundOf(actions);
      actions := actions[name := act];
      ValuesAdd(old(actions), name, act);
      assert forall a :: a in old(actions.Values) ==> unchanged(a) && unchanged(a.Pressed) && unchanged(a.Released);
      ListsOkGrow(keyToActions, bound0, BoundOf(actions));
    }

    /** `actPtr->SetPriority(priority)` on a stored action. */
    method Reprioritize(act: InputAction, priority: int)
      requires Valid() && act in actions.Values
      modifies act
      ensures Valid()
      ensures act.priority == priority && act.boundKeys == old(act.boundKeys)
    {
      act.SetPriority(priority);
      assert forall a :: a in actions.Values ==> a.boundKeys == old(a.boundKeys);
      assert BoundOf(actions) == old(BoundOf(actions));
    }

    /** The persistent connections of `BindWithPriority`: the callback with `true` on
        `Pressed` and with `false` on `Released`. */
    method Hook(act: InputAction, slot: nat)
      requires Valid() && act in actions.Values
      modifies act.Pressed, act.Released
      ensures Valid()
      ensures act.Pressed.listeners == old(act.Pressed.listeners) + [Listener(old(act.Pressed.nextId), slot, false)]
      ensures act.Released.listeners == old(act.Released.listeners) + [Listener(old(act.Released.nextId), slot, false)]
      ensures act.Pressed.log == old(act.Pressed.log) && act.Released.log == old(act.Released.log)
    {
      var c1 := act.Pressed.ConnectPersistent(slot);
      var c2 := act.Released.ConnectPersistent(slot);
      assert forall a :: a in actions.Values ==> unchanged(a);
      assert BoundOf(actions) == old(BoundOf(actions));
      forall a | a in actions.Values
        ensures a.Pressed.Valid() && a.Released.Valid()
      {
        if a != act {
          assert a.Pressed != act.Pressed && a.Pressed != act.Released;
          assert a.Released != act.Pressed && a.Released != act.Released;
        }
      }
    }

    /** `(actPtr->AddKey(keys), ...)`. */
    method AddKeys(act: InputAction, keys: seq<Key>)
      requires Valid() && act in actions.Values
      modifies act
      ensures Valid()
      ensures act.boundKeys == AddedKeys(old(act.boundKeys), keys) && act.priority == old(act.priority)
    {
      ghost var bound0 := BoundOf(actions);
      for i := 0 to |keys|
        invariant act.boundKeys == AddedKeys(old(act.boundKeys), keys[..i]) && act.priority == old(act.priority)
      {
        assert keys[..i + 1][..i] == keys[..i];
        act.AddKey(keys[i]);
      }
      assert keys[..|keys|] == keys;
      AddedKeysContents(old(act.boundKeys), keys);
      ListsOkGrow(keyToActions, bound0, BoundOf(actions));
    }

    /** `for (auto key : {keys...}) keyToActions[key].push_back(actPtr)`. */
    method PushAll(act: InputAction, keys: seq<Key>)
      requires Valid() && act in actions.Values
      requires forall k :: k in keys ==> k in act.boundKeys
      modifies this
      ensures Valid() && actions == old(actions)
      ensures keyToActions == Pushed(old(keyToActions), act, keys)
    {
      for i := 0 to |keys|
        invariant actions == old(actions)
        invariant keyToActions == Pushed(old(keyToActions), act, keys[..i])
      {
        assert keys[..i + 1][..i] == keys[..i];
        var k := keys[i];
        var list := if k in keyToActions then keyToActions[k] else [];
        keyToActions := keyToActions[k := list + [act]];
      }
      assert keys[..|keys|] == keys;
      assert forall a :: a in actions.Values ==> unchanged(a);
      PushedKeepsOk(old(keyToActions), BoundOf(actions), act, keys);
    }

    /** The `std::sort` loop over the argument keys, by descending priority. */
    method SortLists(keys: seq<Key>)
      requires Valid()
      requires forall k :: k in keys ==> k in keyToActions
      modifies this
      ensures Valid() && actions == old(actions)
      ensures Rearranged(old(keyToActions), keyToActions, keys, PriorityIn(Priorities(actions)))
    {
      var key := PriorityIn(Priorities(actions));
      for i := 0 to |keys|
        invariant actions == old(actions)
        invariant Rearranged(old(keyToActions), keyToActions, keys[..i], key)
      {
        var k := keys[i];
        assert keys[..i + 1] == keys[..i] + [k];
        var sorted := SortDescending(keyToActions[k], key);
        RearrangedSnoc(old(keyToActions), keyToActions, keys[..i], k, sorted, key);
        keyToActions := keyToActions[k := sorted];
      }
      assert keys[..|keys|] == keys;
      assert forall a :: a in actions.Values ==> unchanged(a);
      RearrangedKeepsOk(old(keyToActions), keyToActions, keys, key, BoundOf(actions));
    }
    /** `BindWithPriority(name, priority, callback, keys...)`; `BindAction` is the
        same with priority 0. The action under the name is reused with the new
        priority or created with it; the callback is connected persistently to both
        signals; each key is added to the action's keys once; the action is appended
        to the list of each argument key, once per occurrence; and the lists of the
        argument keys are sorted by descending priority. Lists of other keys keep
        their order, even when the reused action's priority changed. */
    method BindWithPriority(name: string, priority: int, slot: nat, keys: seq<Key>)
      requires Valid()
      modifies this, Touched(name)
      ensures Valid()
      ensures name in actions && actions[name].priority == priority
      ensures name in old(actions) ==> actions == old(actions)
      ensures name !in old(actions) ==> fresh(actions[name]) && actions == old(actions)[name := actions[name]]
      ensures actions[name].boundKeys ==
        AddedKeys(if name in old(actions) then old(actions[name].boundKeys) else [], keys)
      ensures name in old(actions) ==>
        actions[name].Pressed.listeners ==
          old(actions[name].Pressed.listeners) + [Listener(old(actions[name].Pressed.nextId), slot, false)] &&
        actions[name].Released.listeners ==
          old(actions[name].Released.listeners) + [Listener(old(actions[name].Released.nextId), slot, false)]
      ensures name !in old(actions) ==>
        actions[name].Pressed.listeners == [Listener(0, slot, false)] &&
        actions[name].Released.listeners == [Listener(0, slot, false)]
      ensures Rearranged(Pushed(old(keyToActions), actions[name], keys), keyToActions, keys,
                         PriorityIn(Priorities(actions)))
    {
      var act := Prepare(name, priority, slot);
      Register(act, keys);
    }

    /** The first half of `BindWithPriority`: the action under the name, with the
        priority and the callback connected to its two signals. */
    method Prepare(name: string, priority: int, slot: nat) returns (act: InputAction)
      requires Valid()
      modifies this, Touched(name)
      ensures Valid()
      ensures keyToActions == old(keyToActions)
      ensures name in actions && act == actions[name] && act.priority == priority
      ensures name in old(actions) ==>
        act == old(actions[name]) && actions == old(actions) && act.boundKeys == old(act.boundKeys) &&
        act.Pressed.listeners == old(act.Pressed.listeners) + [Listener(old(act.Pressed.nextId), slot, false)] &&
        act.Released.listeners == old(act.Released.listeners) + [Listener(old(act.Released.nextId), slot, false)]
      ensures name !in old(actions) ==>
        fresh(act) && actions == old(actions)[name := act] && act.boundKeys == [] &&
        act.Pressed.listeners == [Listener(0, slot, false)] && act.Released.listeners == [Listener(0, slot, false)]
    {
      act := Obtain(name, priority);
      Hook(act, slot);
    }

    /** The second half of `BindWithPriority`: the keys added to the action, the
        action pushed onto their lists, and those lists sorted. */
    method Register(act: InputAction, keys: seq<Key>)
      requires Valid() && act in actions.Values
      modifies this, act
      ensures Valid() && actions == old(actions)
      ensures act.boundKeys == AddedKeys(old(act.boundKeys), keys) && act.priority == old(act.priority)
      ensures Rearranged(Pushed(old(keyToActions), act, keys), keyToActions, keys, PriorityIn(Priorities(actions)))
    {
      AddKeys(act, keys);
      AddedKeysContents(old(act.boundKeys), keys);
      PushAll(act, keys);
      forall k | k in keys
        ensures k in keyToActions
      {
        PushedContents(old(keyToActions), act, keys, k);
      }
      SortLists(keys);
    }

    /** `vec.erase(std::remove(...))` on the key's list, and `keyToActions.erase`
        once the list is empty. */
    method EraseFromKey(key: Key, act: InputAction)
      modifies this
      ensures actions == old(actions)
      ensures keyToActions == UnlistAt(old(keyToActions), key, act)
    {
      if key in keyToActions {
        var vec := EraseAction(keyToActions[key], act);
        if vec == [] {
          keyToActions := keyToActions - {key};
        } else {
          keyToActions := keyToActions[key := vec];
        }
      }
    }

    /** `UnbindKey`: an unknown name changes nothing; otherwise the key leaves the
        action's keys and the action leaves the key's list, which is erased when it
        becomes empty. */
    method UnbindKey(name: string, key: Key)
      requires Valid()
      modifies this, if name in actions then {actions[name]} else {}
      ensures Valid() && actions == old(actions)
      ensures name !in actions ==> keyToActions == old(keyToActions)
      ensures name in actions ==>
        actions[name].boundKeys == WithoutKey(old(actions[name].boundKeys), key) &&
        actions[name].priority == old(actions[name].priority) &&
        keyToActions == UnlistAt(old(keyToActions), key, actions[name])
    {
      if name !in actions {
        return;
      }
      var act := actions[name];
      ghost var bound0 := BoundOf(actions);
      act.RemoveKey(key);
      EraseFromKey(key, act);
      assert forall a :: a in actions.Values ==> unchanged(a.Pressed) && unchanged(a.Released);
      ghost var bound1 := bound0[act := WithoutKey(bound0[act], key)];
      forall a | a in actions.Values
        ensures a in bound1 && BoundOf(actions)[a] == bound1[a]
      {
        if a != act {
          assert unchanged(a);
        }
      }
      assert BoundOf(actions) == bound1;
      UnlistAtKeepsOk(old(keyToActions), bound0, key, act);
    }

    /** `UnbindAction`: an unknown name changes nothing; otherwise the action leaves
        the list of each of its keys (empty lists are erased) and is erased, so no
        list keeps a pointer to it. */
    method UnbindAction(name: string)
      requires Valid()
      modifies this
      ensures Valid()
      ensures name !in old(actions) ==> actions == old(actions) && keyToActions == old(keyToActions)
      ensures name in old(actions) ==>
        actions == old(actions) - {name} &&
        keyToActions == UnlistKeys(old(keyToActions), old(actions[name].boundKeys), old(actions[name]))
      ensures name in old(actions) ==>
        forall k :: k in keyToActions ==> old(actions[name]) !in keyToActions[k]
    {
      if name !in actions {
        return;
      }
      var act := actions[name];
      ghost var bound0 := BoundOf(actions);
      var ks := act.boundKeys;
      for i := 0 to |ks|
        invariant actions == old(actions)
        invariant keyToActions == UnlistKeys(old(keyToActions), ks[..i], act)
      {
        EraseFromKey(ks[i], act);
        assert ks[..i + 1][..i] == ks[..i];
      }
      assert ks[..|ks|] == ks;
      UnlistBoundKeys(old(keyToActions), bound0, act);
      actions := actions - {name};
      ValuesRemove(old(actions), name);
      assert forall a :: a in old(actions.Values) ==> unchanged(a) && unchanged(a.Pressed) && unchanged(a.Released);
      assert BoundOf(actions) == bound0 - {act};
    }

    /** `ClearAllBindings`. */
    method ClearAllBindings()
      modifies this
      ensures actions == map[] && keyToActions == map[]
      ensures Valid()
    {
      actions := map[];
      keyToActions := map[];
    }
  }

  /** n copies of x. */
  function Repeat<T>(x: T, n: nat): (r: seq<T>)
    ensures |r| == n && forall i :: 0 <= i < n ==> r[i] == x
  {
    seq(n, (i: int) => x)
  }

  lemma RepeatSnoc<T>(x: T, n: nat)
    ensures Repeat(x, n + 1) == Repeat(x, n) + [x]
  {
  }

  /** How often k occurs in s. */
  function Count(s: seq<Key>, k: Key): (r: nat)
    ensures r > 0 <==> k in s
  {
    if |s| == 0 then 0 else Count(s[..|s| - 1], k) + (if s[|s| - 1] == k then 1 else 0)
  }

  lemma CountSnoc(s: seq<Key>, x: Key, k: Key)
    ensures Count(s + [x], k) == Count(s, k) + (if x == k then 1 else 0)
  {
    assert (s + [x])[..|s|] == s;
  }

  // ---------------------------------------------------------------------------
  // InputService
  // ---------------------------------------------------------------------------

  datatype ContextEntry = ContextEntry(context: InputContext, priority: int)

  function EntryPriority(e: ContextEntry): int { e.priority }

  /** The entries other than those for `ctx`, in order. */
  function WithoutContext(es: seq<ContextEntry>, ctx: InputContext): seq<ContextEntry> {
    Filter(es, (e: ContextEntry) => e.context != ctx)
  }

  /** The entries' targets, in order. */
  function PlanOf(es: seq<ContextEntry>, ev: Event): (p: seq<Option<Signal<()>>>)
    reads set e | e in es :: e.context
    ensures |p| == |es| && forall j :: 0 <= j < |p| ==> p[j] == es[j].context.Target(ev)
  {
    if |es| == 0 then [] else PlanOf(es[..|es| - 1], ev) + [es[|es| - 1].context.Target(ev)]
  }

  /** The signals a plan fires. */
  function TargetsOf(p: seq<Option<Signal<()>>>): set<Signal<()>> {
    set j | 0 <= j < |p| && p[j].Some? :: p[j].value
  }

  /** How many entries fire the signal. */
  function Hits(p: seq<Option<Signal<()>>>, s: Signal<()>): nat {
    |Filter(p, (t: Option<Signal<()>>) => t == Some(s))|
  }

  lemma HitsSnoc(p: seq<Option<Signal<()>>>, i: nat, s: Signal<()>)
    requires i < |p|
    ensures Hits(p[..i + 1], s) == Hits(p[..i], s) + (if p[i] == Some(s) then 1 else 0)
  {
    FilterSnoc(p, i, (t: Option<Signal<()>>) => t == Some(s));
  }

  /** One more `Fire` after n of them. */
  lemma FiredOnceMore(ls0: seq<Listener>, log0: seq<Call<()>>, n: nat,
                      ls: seq<Listener>, log: seq<Call<()>>, ls1: seq<Listener>, log1: seq<Call<()>>)
    requires log == log0 + Fired(ls0, (), n) && ls == AfterFiring(ls0, n)
    requires log1 == log + Calls(ls, ()) && ls1 == Persistent(ls)
    ensures log1 == log0 + Fired(ls0, (), n + 1) && ls1 == AfterFiring(ls0, n + 1)
  {
    FiredSnoc(ls0, (), n);
    PersistentIdempotent(ls0);
  }

  /** What `n` dispatches of a key event have done to a context's target signal
      `s`, whose listeners and calls were `ls0` and `log0` before. */
  ghost predicate FiredTimes(s: Signal<()>, ls0: seq<Listener>, log0: seq<Call<()>>, n: nat)
    reads s
  {
    s.log == log0 + Fired(ls0, (), n) && s.listeners == AfterFiring(ls0, n)
  }

  class InputService {
    var contexts: seq<ContextEntry>
    var enabled: bool

    constructor()
      ensures contexts == [] && enabled
    {
      contexts := [];
      enabled := true;
    }

    method SetEnabled(state: bool)
      modifies this
      ensures enabled == state && contexts == old(contexts)
    {
      enabled := state;
    }

    /** Appends the entry, then sorts the list by descending priority. */
    method RegisterContext(ctx: InputContext, priority: int)
      modifies this
      ensures multiset(contexts) == multiset(old(contexts)) + multiset{ContextEntry(ctx, priority)}
      ensures SortedDescending(contexts, EntryPriority)
      ensures enabled == old(enabled)
    {
      contexts := contexts + [ContextEntry(ctx, priority)];
      contexts := SortDescending(contexts, EntryPriority);
    }

    /** Erases every entry for the context, keeping the others in order. */
    method UnregisterContext(ctx: InputContext)
      modifies this
      ensures contexts == WithoutContext(old(contexts), ctx)
      ensures forall e :: e in contexts <==> e in old(contexts) && e.context != ctx
      ensures enabled == old(enabled)
    {
      var es := contexts;
      var kept: seq<ContextEntry> := [];
      for i := 0 to |es|
        invariant kept == Filter(es[..i], (e: ContextEntry) => e.context != ctx)
        invariant contexts == es && enabled == old(enabled)
      {
        FilterSnoc(es, i, (e: ContextEntry) => e.context != ctx);
        if es[i].context != ctx {
          kept := kept + [es[i]];
        }
      }
      assert es[..|es|] == es;
      forall e
        ensures e in kept <==> e in es && e.context != ctx
      {
        FilterMember(es, (e: ContextEntry) => e.context != ctx, e);
      }
      contexts := kept;
    }

    method ClearContexts()
      modifies this
      ensures contexts == [] && enabled == old(enabled)
    {
      contexts := [];
    }

    /** The signal each entry's context fires for the event, in entry order. */
    function Plan(ev: Event): (p: seq<Option<Signal<()>>>)
      reads this, set e | e in contexts :: e.context
      ensures |p| == |contexts| && forall j :: 0 <= j < |p| ==> p[j] == contexts[j].context.Target(ev)
    {
      PlanOf(contexts, ev)
    }

    /** `HandleEvent`: when disabled nothing happens; otherwise every entry, in order,
        passes the event to its context, so each signal fires once per entry that
        targets it (a context registered twice fires its target twice). */
    method HandleEvent(ev: Event)
      modifies TargetsOf(Plan(ev))
      ensures !enabled ==> forall j :: 0 <= j < |old(Plan(ev))| && old(Plan(ev))[j].Some? ==>
        unchanged(old(Plan(ev))[j].value)
      ensures enabled ==> forall j :: 0 <= j < |old(Plan(ev))| && old(Plan(ev))[j].Some? ==>
        var s := old(Plan(ev))[j].value;
        FiredTimes(s, old(s.listeners), old(s.log), Hits(old(Plan(ev)), s))
    {
      if !enabled {
        return;
      }
      var plan := Plan(ev);
      ghost var before := map t | t in TargetsOf(plan) :: (t.listeners, t.log);
      assert plan[..0] == [];
      for i := 0 to |contexts|
        invariant forall t :: t in before ==> FiredTimes(t, before[t].0, before[t].1, Hits(plan[..i], t))
      {
        assert contexts[i].context.Target(ev) == plan[i];
        Dispatch(ev, plan, before, i);
      }
      assert plan[..|contexts|] == plan;
    }

    /** One turn of the loop: entry i passes the event to its context. */
    method Dispatch(ev: Event, plan: seq<Option<Signal<()>>>,
                    ghost before: map<Signal<()>, (seq<Listener>, seq<Call<()>>)>, i: nat)
      requires i < |contexts| == |plan| && contexts[i].context.Target(ev) == plan[i]
      requires forall t :: t in before ==> FiredTimes(t, before[t].0, before[t].1, Hits(plan[..i], t))
      modifies if plan[i].Some? then {plan[i].value} else {}
      ensures forall t :: t in before ==> FiredTimes(t, before[t].0, before[t].1, Hits(plan[..i + 1], t))
    {
      var c := contexts[i].context;
      var fired := c.HandleEvent(ev);
      forall t | t in before
        ensures FiredTimes(t, before[t].0, before[t].1, Hits(plan[..i + 1], t))
      {
        var n := Hits(plan[..i], t);
        HitsSnoc(plan, i, t);
        assert old(FiredTimes(t, before[t].0, before[t].1, n));
        if fired == Some(t) {
          FiredOnceMore(before[t].0, before[t].1, n, old(t.listeners), old(t.log), t.listeners, t.log);
        } else {
          assert unchanged(t);
        }
      }
    }
  }
}
