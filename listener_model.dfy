/**
  The state a WebSocketWithSelfSignedCert client and its collaborators hold,
  as one value, and the effect of each of the facade's operations on it.

  - `listeners` is the facade's table: at most one subscription per kind.
  - `keyOrder` is the order in which the table's keys were inserted, which is
    the order Object.keys reports them in: overwriting a key keeps its place,
    deleting it drops it, adding it again puts it last.
  - `active`, `next` and `removed` are the event emitter: the subscriptions it
    still dispatches to (each with the kind it listens for), the next id it
    hands out, and every `remove()` call made on a subscription, in order.
  - `calls` is every connect, send and close the facade forwards to the
    native module, in order.
 */
module ListenerModel {
  import opened WebSocketEvents

  type SubId = nat

  datatype NativeCall = ConnectCall(url: string) | SendCall(message: string) | CloseCall

  datatype State = State(
    listeners: map<EventKind, SubId>,
    keyOrder: seq<EventKind>,
    active: map<SubId, EventKind>,
    next: nat,
    removed: seq<SubId>,
    calls: seq<NativeCall>)

  ghost predicate NoDup<T>(s: seq<T>) {
    forall i, j | 0 <= i < j < |s| :: s[i] != s[j]
  }

  /**
    The invariant every operation keeps: the key order lists exactly the
    table's keys, once each; every subscription in the table is live in the
    emitter and listens for its own slot's kind; every live id was handed out.
   */
  ghost predicate Inv(s: State) {
    && NoDup(s.keyOrder)
    && (forall k :: k in s.keyOrder <==> k in s.listeners)
    && (forall k | k in s.listeners :: s.listeners[k] in s.active && s.active[s.listeners[k]] == k)
    && (forall id | id in s.active :: id < s.next)
  }

  /** The subscriptions that a dispatch of kind `k` reaches. */
  ghost function Listening(s: State, k: EventKind): set<SubId> {
    set id | id in s.active && s.active[id] == k
  }

  /** Every live subscription is reachable from the table, namely through its own kind's slot. */
  ghost predicate NoLeak(s: State) {
    forall id | id in s.active :: s.active[id] in s.listeners && s.listeners[s.active[id]] == id
  }

  /** A new facade: an empty table and a fresh emitter over an existing native module. */
  function Initial(calls: seq<NativeCall>): State {
    State(map[], [], map[], 0, [], calls)
  }

  /** `ks` with `k` taken out: the key order after `delete`. */
  function Without(ks: seq<EventKind>, k: EventKind): (r: seq<EventKind>)
    ensures forall j :: j in r <==> j in ks && j != k
    ensures NoDup(ks) ==> NoDup(r)
    ensures k !in ks ==> r == ks
  {
    if ks == [] then []
    else if ks[0] == k then Without(ks[1..], k)
    else
      assert NoDup(ks) ==> ks[0] !in ks[1..] && NoDup(ks[1..]);
      [ks[0]] + Without(ks[1..], k)
  }

  /** `delete` drops one key and keeps every other key in its place. */
  lemma {:induction false} WithoutKeepsOrder(a: seq<EventKind>, k: EventKind, b: seq<EventKind>)
    requires k !in a && k !in b
    ensures Without(a + [k] + b, k) == a + b
    decreases |a|
  {
    if a == [] {
      assert a + [k] + b == [k] + b;
    } else {
      var x, t := a[0], a[1..];
      assert a + [k] + b == [x] + (t + [k] + b);
      assert a + b == [x] + (t + b);
      WithoutKeepsOrder(t, k, b);
    }
  }

  /** `onX`: the emitter adds a subscription for `k` and the table's slot `k` is overwritten with it. */
  function Register(s: State, k: EventKind): State {
    s.(listeners := s.listeners[k := s.next],
       keyOrder := if k in s.listeners then s.keyOrder else s.keyOrder + [k],
       active := s.active[s.next := k],
       next := s.next + 1)
  }

  /**
    `removeOnXListener` and one step of `removeAllListeners`: the slot's
    subscription, if any, is removed from the emitter (`?.remove()`), and the
    key is deleted whether or not it was there.
   */
  function RemoveSlot(s: State, k: EventKind): State {
    var t := if k in s.listeners
             then s.(active := s.active - {s.listeners[k]}, removed := s.removed + [s.listeners[k]])
             else s;
    t.(listeners := t.listeners - {k}, keyOrder := Without(t.keyOrder, k))
  }

  /** RemoveSlot applied to each of `keys` in turn. */
  function RemoveKeys(s: State, keys: seq<EventKind>): State
    decreases |keys|
  {
    if keys == [] then s
    else RemoveSlot(RemoveKeys(s, keys[..|keys| - 1]), keys[|keys| - 1])
  }

  /** RemoveKeys takes the keys from first to last. */
  lemma RemoveKeysStep(s: State, keys: seq<EventKind>, i: nat)
    requires i < |keys|
    ensures RemoveKeys(s, keys[..i + 1]) == RemoveSlot(RemoveKeys(s, keys[..i]), keys[i])
  {
    assert keys[..i + 1][..i] == keys[..i];
  }

  /** `removeAllListeners`: RemoveSlot over a snapshot of Object.keys. */
  function RemoveAll(s: State): State {
    RemoveKeys(s, s.keyOrder)
  }

  /** `close`: the native close call, then `removeAllListeners`. */
  function CloseClient(s: State): State {
    RemoveAll(s.(calls := s.calls + [CloseCall]))
  }

  /** `connect(url)`: forwarded to the native module. */
  function Connect(s: State, url: string): State {
    s.(calls := s.calls + [ConnectCall(url)])
  }

  /** `send(message)`: forwarded to the native module. */
  function Send(s: State, message: string): State {
    s.(calls := s.calls + [SendCall(message)])
  }

  /** The subscriptions held in `m` under `keys`, in the order of `keys`. */
  function Held(m: map<EventKind, SubId>, keys: seq<EventKind>): seq<SubId>
    decreases |keys|
  {
    if keys == [] then []
    else
      var last := keys[|keys| - 1];
      Held(m, keys[..|keys| - 1]) + (if last in m then [m[last]] else [])
  }

  /** The set of subscriptions held in `m` under `keys`. */
  function HeldIds(m: map<EventKind, SubId>, keys: seq<EventKind>): set<SubId>
    decreases |keys|
  {
    if keys == [] then {}
    else
      var last := keys[|keys| - 1];
      HeldIds(m, keys[..|keys| - 1]) + (if last in m then {m[last]} else {})
  }

  ghost predicate Injective(m: map<EventKind, SubId>) {
    forall a, b | a in m && b in m && a != b :: m[a] != m[b]
  }

  // ---------------------------------------------------------------------
  // Registration

  lemma InitialInv(calls: seq<NativeCall>)
    ensures Inv(Initial(calls)) && NoLeak(Initial(calls))
    ensures Initial(calls).listeners == map[] && Initial(calls).active == map[]
  {
  }

  /** Registering keeps the invariant. */
  lemma RegisterInv(s: State, k: EventKind)
    requires Inv(s)
    ensures Inv(Register(s, k))
  {
    var r := Register(s, k);
    forall j ensures j in r.keyOrder <==> j in r.listeners {
      if j == k {
        assert k in s.listeners ==> k in s.keyOrder;
      }
    }
    assert NoDup(r.keyOrder) by {
      if k !in s.listeners {
        assert k !in s.keyOrder;
      }
    }
  }

  /**
    Registering for `k` puts a freshly issued, live subscription for `k` in
    slot `k`; every other slot, every earlier subscription, the removal log
    and the native log are as they were.
   */
  lemma RegisterEffect(s: State, k: EventKind)
    requires Inv(s)
    ensures var r := Register(s, k);
      && Inv(r)
      && s.next !in s.active
      && k in r.listeners && r.listeners[k] == s.next
      && r.listeners[k] in r.active && r.active[r.listeners[k]] == k
      && (forall j | j != k :: j in r.listeners <==> j in s.listeners)
      && (forall j | j != k && j in s.listeners :: r.listeners[j] == s.listeners[j])
      && (forall id | id in s.active :: id in r.active && r.active[id] == s.active[id])
      && Listening(r, k) == Listening(s, k) + {s.next}
      && r.removed == s.removed && r.calls == s.calls
  {
    RegisterInv(s, k);
  }

  /**
    Registering again for a kind that already has a slot leaks: the previous
    subscription is not removed, stays live for `k`, and nothing in the table
    refers to it any more.
   */
  lemma OverwriteLeaks(s: State, k: EventKind)
    requires Inv(s) && k in s.listeners
    ensures var r := Register(s, k);
      && s.listeners[k] in r.active && r.active[s.listeners[k]] == k
      && s.listeners[k] !in r.listeners.Values
      && r.removed == s.removed
      && |Listening(r, k)| >= 2
  {
    var r := Register(s, k);
    var prev := s.listeners[k];
    RegisterEffect(s, k);
    forall j | j in r.listeners ensures r.listeners[j] != prev {
      if j != k {
        assert s.active[s.listeners[j]] == j;
      }
    }
    assert {prev, s.next} <= Listening(r, k);
    assert |{prev, s.next}| == 2;
  }

  /** A table with no leak keeps none exactly when the kind being registered has no slot yet. */
  lemma RegisterNoLeak(s: State, k: EventKind)
    requires Inv(s) && NoLeak(s)
    ensures NoLeak(Register(s, k)) <==> k !in s.listeners
  {
    var r := Register(s, k);
    if k in s.listeners {
      OverwriteLeaks(s, k);
      var prev := s.listeners[k];
      assert r.active[prev] in r.listeners;
      assert r.listeners[r.active[prev]] == s.next != prev;
    } else {
      forall id | id in r.active ensures r.active[id] in r.listeners && r.listeners[r.active[id]] == id {
        if id != s.next {
          assert s.active[id] != k;
        }
      }
    }
  }

  // ---------------------------------------------------------------------
  // Removal of one slot

  lemma RemoveSlotInv(s: State, k: EventKind)
    requires Inv(s)
    ensures Inv(RemoveSlot(s, k))
  {
    var r := RemoveSlot(s, k);
    if k in s.listeners {
      forall j | j in r.listeners ensures r.listeners[j] in r.active && r.active[r.listeners[j]] == j {
        assert s.active[s.listeners[j]] == j;
        assert s.listeners[j] != s.listeners[k];
      }
    }
  }

  /**
    Removing slot `k` deletes it and deactivates, and logs one removal of,
    exactly the subscription it held; all other slots and subscriptions are
    untouched. On an empty slot nothing changes at all.
   */
  lemma RemoveSlotEffect(s: State, k: EventKind)
    requires Inv(s)
    ensures var r := RemoveSlot(s, k);
      && Inv(r)
      && r.listeners == s.listeners - {k}
      && (k in s.listeners ==>
            && s.listeners[k] !in r.active
            && r.active == s.active - {s.listeners[k]}
            && r.removed == s.removed + [s.listeners[k]])
      && (k !in s.listeners ==> r == s)
      && r.next == s.next && r.calls == s.calls
  {
    RemoveSlotInv(s, k);
    if k !in s.listeners {
      assert k !in s.keyOrder;
      assert s.listeners - {k} == s.listeners;
    }
  }

  /** Removing a slot twice has the effect of removing it once. */
  lemma RemoveSlotIdempotent(s: State, k: EventKind)
    requires Inv(s)
    ensures RemoveSlot(RemoveSlot(s, k), k) == RemoveSlot(s, k)
  {
    RemoveSlotEffect(s, k);
    RemoveSlotEffect(RemoveSlot(s, k), k);
  }

  /** Removing the slot does not reach a subscription an earlier registration left behind. */
  lemma RemoveAfterOverwriteLeaks(s: State, k: EventKind)
    requires Inv(s) && k in s.listeners
    ensures var r := RemoveSlot(Register(s, k), k);
      && s.listeners[k] in r.active && r.active[s.listeners[k]] == k
      && k !in r.listeners
  {
    RegisterEffect(s, k);
    RemoveSlotEffect(Register(s, k), k);
  }

  // ---------------------------------------------------------------------
  // Removal of every slot

  lemma NoDupPrefix<T>(s: seq<T>, n: nat)
    requires NoDup(s) && n <= |s|
    ensures NoDup(s[..n])
  {
  }

  /** Removing any list of keys keeps the invariant, the id counter and the native log. */
  lemma {:induction false} RemoveKeysInv(s: State, keys: seq<EventKind>)
    requires Inv(s)
    ensures Inv(RemoveKeys(s, keys))
    ensures RemoveKeys(s, keys).next == s.next && RemoveKeys(s, keys).calls == s.calls
    decreases |keys|
  {
    if keys != [] {
      RemoveKeysInv(s, keys[..|keys| - 1]);
      RemoveSlotInv(RemoveKeys(s, keys[..|keys| - 1]), keys[|keys| - 1]);
    }
  }

  /** Removing a list of keys deletes exactly those keys from the table. */
  lemma {:induction false} RemoveKeysListeners(s: State, keys: seq<EventKind>)
    ensures forall k :: k in RemoveKeys(s, keys).listeners <==> k in s.listeners && k !in keys
    ensures forall k | k in RemoveKeys(s, keys).listeners :: RemoveKeys(s, keys).listeners[k] == s.listeners[k]
    decreases |keys|
  {
    if keys != [] {
      var ks, x := keys[..|keys| - 1], keys[|keys| - 1];
      RemoveKeysListeners(s, ks);
      var t := RemoveKeys(s, ks);
      assert RemoveKeys(s, keys) == RemoveSlot(t, x);
      RemoveSlotListeners(t, x);
      assert forall k :: k in keys <==> k in ks || k == x by {
        assert keys == ks + [x];
      }
    }
  }

  /** One slot removal deletes exactly that key from the table. */
  lemma RemoveSlotListeners(t: State, x: EventKind)
    ensures RemoveSlot(t, x).listeners == t.listeners - {x}
  {
  }

  /** What one slot removal does to the emitter, read off the slot before it. */
  lemma RemoveSlotEmitter(t: State, x: EventKind)
    ensures x in t.listeners ==>
      && RemoveSlot(t, x).removed == t.removed + [t.listeners[x]]
      && RemoveSlot(t, x).active == t.active - {t.listeners[x]}
    ensures x !in t.listeners ==> RemoveSlot(t, x).removed == t.removed && RemoveSlot(t, x).active == t.active
  {
  }

  /**
    Removing a duplicate-free list of keys calls `remove()` on the
    subscriptions held under those keys, in key order, and nothing else.
   */
  lemma {:induction false} RemoveKeysRemoved(s: State, keys: seq<EventKind>)
    requires NoDup(keys)
    ensures RemoveKeys(s, keys).removed == s.removed + Held(s.listeners, keys)
    decreases |keys|
  {
    if keys != [] {
      var ks, x := keys[..|keys| - 1], keys[|keys| - 1];
      NoDupPrefix(keys, |keys| - 1);
      RemoveKeysRemoved(s, ks);
      RemoveKeysListeners(s, ks);
      var t := RemoveKeys(s, ks);
      assert RemoveKeys(s, keys) == RemoveSlot(t, x);
      assert x !in ks;
      assert x in t.listeners <==> x in s.listeners;
      assert x in t.listeners ==> t.listeners[x] == s.listeners[x];
      RemoveSlotEmitter(t, x);
    }
  }

  /** Removing a duplicate-free list of keys takes exactly the subscriptions held under them out of the emitter. */
  lemma {:induction false} RemoveKeysActive(s: State, keys: seq<EventKind>)
    requires NoDup(keys)
    ensures RemoveKeys(s, keys).active == s.active - HeldIds(s.listeners, keys)
    decreases |keys|
  {
    if keys != [] {
      var ks, x := keys[..|keys| - 1], keys[|keys| - 1];
      NoDupPrefix(keys, |keys| - 1);
      RemoveKeysActive(s, ks);
      RemoveKeysListeners(s, ks);
      var t := RemoveKeys(s, ks);
      assert RemoveKeys(s, keys) == RemoveSlot(t, x);
      assert x !in ks;
      assert x in t.listeners <==> x in s.listeners;
      RemoveSlotEmitter(t, x);
      if x in s.listeners {
        assert t.listeners[x] == s.listeners[x];
      }
    }
  }

  /** The set of held subscriptions is the set of entries of their list. */
  lemma {:induction false} HeldIdsElems(m: map<EventKind, SubId>, keys: seq<EventKind>)
    ensures forall id :: id in HeldIds(m, keys) <==> id in Held(m, keys)
    decreases |keys|
  {
    if keys != [] {
      HeldIdsElems(m, keys[..|keys| - 1]);
    }
  }

  /**
    When `m` gives each key its own id, the ids held under a duplicate-free
    key list are duplicate-free, and they are exactly the ids of those keys.
   */
  lemma {:induction false} HeldExactlyOnce(m: map<EventKind, SubId>, keys: seq<EventKind>)
    requires Injective(m) && NoDup(keys)
    ensures NoDup(Held(m, keys))
    ensures forall id :: id in Held(m, keys) <==> exists k :: k in keys && k in m && m[k] == id
    decreases |keys|
  {
    if keys != [] {
      var ks, x := keys[..|keys| - 1], keys[|keys| - 1];
      assert keys == ks + [x];
      NoDupPrefix(keys, |keys| - 1);
      HeldExactlyOnce(m, ks);
      var h := Held(m, ks);
      if x in m {
        assert Held(m, keys) == h + [m[x]];
        forall i | 0 <= i < |h| ensures h[i] != m[x] {
          assert h[i] in h;
          var k :| k in ks && k in m && m[k] == h[i];
          assert k != x;
        }
      }
    }
  }

  /** When every key is in the map, one id is held for each key. */
  lemma {:induction false} HeldLength(m: map<EventKind, SubId>, keys: seq<EventKind>)
    requires forall k | k in keys :: k in m
    ensures |Held(m, keys)| == |keys|
    decreases |keys|
  {
    if keys != [] {
      HeldLength(m, keys[..|keys| - 1]);
    }
  }

  /** A duplicate-free sequence has as many distinct elements as entries. */
  lemma {:induction false} DistinctCount<T>(s: seq<T>)
    requires NoDup(s)
    ensures |set x | x in s| == |s|
    decreases |s|
  {
    if s != [] {
      var t, x := s[..|s| - 1], s[|s| - 1];
      assert s == t + [x];
      NoDupPrefix(s, |s| - 1);
      DistinctCount(t);
      assert (set y | y in s) == (set y | y in t) + {x};
      assert x !in t;
    }
  }

  /** The table gives each kind its own subscription. */
  lemma TableInjective(s: State)
    requires Inv(s)
    ensures Injective(s.listeners)
  {
    forall a, b | a in s.listeners && b in s.listeners && a != b ensures s.listeners[a] != s.listeners[b] {
      assert s.active[s.listeners[a]] == a;
    }
  }

  /**
    The subscriptions the table holds, read in key order, list every
    subscription in the table exactly once: one per registered kind.
   */
  lemma HeldOfTable(s: State)
    requires Inv(s)
    ensures var h := Held(s.listeners, s.keyOrder);
      && NoDup(h)
      && (forall id :: id in h <==> id in s.listeners.Values)
      && |h| == |s.listeners|
  {
    TableInjective(s);
    HeldExactlyOnce(s.listeners, s.keyOrder);
    HeldLength(s.listeners, s.keyOrder);
    DistinctCount(s.keyOrder);
    assert (set k | k in s.keyOrder) == s.listeners.Keys;
  }

  /** An empty table has an empty key order. */
  lemma EmptyTableOrder(s: State)
    requires Inv(s) && s.listeners == map[]
    ensures s.keyOrder == []
  {
    DistinctCount(s.keyOrder);
    assert (set k | k in s.keyOrder) == {};
  }

  /** After `removeAllListeners` the table and its key order are empty; the invariant still holds. */
  lemma RemoveAllEmpties(s: State)
    requires Inv(s)
    ensures var r := RemoveAll(s);
      && Inv(r)
      && r.listeners == map[] && r.keyOrder == []
      && r.next == s.next && r.calls == s.calls
  {
    var r := RemoveAll(s);
    RemoveKeysInv(s, s.keyOrder);
    RemoveKeysListeners(s, s.keyOrder);
    assert r.listeners.Keys == {};
    EmptyTableOrder(r);
  }

  /**
    `removeAllListeners` calls `remove()` on the subscriptions the table
    held, in key order, and exactly those leave the emitter.
   */
  lemma RemoveAllRemovals(s: State)
    requires Inv(s)
    ensures var r := RemoveAll(s);
      && r.removed == s.removed + Held(s.listeners, s.keyOrder)
      && r.active == s.active - s.listeners.Values
  {
    RemoveKeysRemoved(s, s.keyOrder);
    RemoveKeysActive(s, s.keyOrder);
    HeldIdsOfTable(s);
  }

  /** The set of subscriptions held under the table's keys is the set of the table's values. */
  lemma HeldIdsOfTable(s: State)
    requires Inv(s)
    ensures HeldIds(s.listeners, s.keyOrder) == s.listeners.Values
  {
    HeldOfTable(s);
    HeldIdsElems(s.listeners, s.keyOrder);
  }

  /** Both halves of the effect of `removeAllListeners`. */
  lemma RemoveAllEffect(s: State)
    requires Inv(s)
    ensures var r := RemoveAll(s);
      && Inv(r)
      && r.listeners == map[] && r.keyOrder == []
      && r.removed == s.removed + Held(s.listeners, s.keyOrder)
      && r.active == s.active - s.listeners.Values
      && r.next == s.next && r.calls == s.calls
  {
    RemoveAllEmpties(s);
    RemoveAllRemovals(s);
  }

  /** Removing every slot leaves the emitter with only the subscriptions the table had lost track of. */
  lemma RemoveAllLeavesLeaks(s: State, k: EventKind)
    requires Inv(s)
    ensures Listening(RemoveAll(s), k) == Listening(s, k) - s.listeners.Values
    ensures NoLeak(s) ==> RemoveAll(s).active == map[]
  {
    RemoveAllEffect(s);
    var r := RemoveAll(s);
    if NoLeak(s) {
      forall id | id in s.active ensures id in s.listeners.Values {
        assert s.listeners[s.active[id]] == id;
      }
      assert r.active.Keys == {};
    }
  }

  // ---------------------------------------------------------------------
  // close, connect, send

  /**
    `close` forwards exactly one native close call and leaves the table
    empty, after one removal per registered kind.
   */
  lemma CloseClientEffect(s: State)
    requires Inv(s)
    ensures var r := CloseClient(s);
      && Inv(r)
      && r.calls == s.calls + [CloseCall]
      && r.listeners == map[] && r.keyOrder == []
      && r.removed == s.removed + Held(s.listeners, s.keyOrder)
      && r.active == s.active - s.listeners.Values
      && r.next == s.next
  {
    RemoveAllEffect(s.(calls := s.calls + [CloseCall]));
  }

  /**
    With N kinds registered, `close` makes N removals, one on each
    subscription the table held.
   */
  lemma CloseRemovesEachOnce(s: State)
    requires Inv(s)
    ensures |CloseClient(s).removed| == |s.removed| + |s.listeners|
    ensures var h := CloseClient(s).removed[|s.removed|..];
      && NoDup(h)
      && (forall id :: id in h <==> id in s.listeners.Values)
  {
    CloseClientEffect(s);
    HeldOfTable(s);
    assert CloseClient(s).removed[|s.removed|..] == Held(s.listeners, s.keyOrder);
  }

  /** `close` on an empty table removes nothing; it only forwards the native call. */
  lemma CloseEmpty(s: State)
    requires Inv(s) && s.listeners == map[]
    ensures CloseClient(s) == s.(calls := s.calls + [CloseCall])
  {
    EmptyTableOrder(s);
  }

  /** After `close`, a dispatch reaches only subscriptions that an overwrite had leaked; with no leak, none. */
  lemma CloseLeavesLeaks(s: State, k: EventKind)
    requires Inv(s)
    ensures Listening(CloseClient(s), k) == Listening(s, k) - s.listeners.Values
    ensures NoLeak(s) ==> CloseClient(s).active == map[]
  {
    var t := s.(calls := s.calls + [CloseCall]);
    RemoveAllLeavesLeaks(t, k);
    assert Listening(t, k) == Listening(s, k);
  }

  /** Overwriting a slot and then closing leaves the overwritten subscription live for its kind. */
  lemma OverwriteSurvivesClose(s: State, k: EventKind)
    requires Inv(s) && k in s.listeners
    ensures var r := CloseClient(Register(s, k));
      && s.listeners[k] in r.active && r.active[s.listeners[k]] == k
      && r.listeners == map[]
  {
    var t := Register(s, k);
    OverwriteLeaks(s, k);
    RegisterEffect(s, k);
    CloseClientEffect(t);
  }

  /** Registering for each of `ks` in turn. */
  function RegisterAll(s: State, ks: seq<EventKind>): State
    decreases |ks|
  {
    if ks == [] then s else Register(RegisterAll(s, ks[..|ks| - 1]), ks[|ks| - 1])
  }

  /**
    Registering distinct kinds on an empty, leak-free table fills one slot
    per kind and leaks nothing.
   */
  lemma {:induction false} RegisterAllDistinct(s: State, ks: seq<EventKind>)
    requires Inv(s) && NoLeak(s) && s.listeners == map[] && NoDup(ks)
    ensures var r := RegisterAll(s, ks);
      && Inv(r) && NoLeak(r)
      && r.listeners.Keys == (set k | k in ks)
      && r.removed == s.removed && r.calls == s.calls
    decreases |ks|
  {
    if ks != [] {
      var init, x := ks[..|ks| - 1], ks[|ks| - 1];
      NoDupPrefix(ks, |ks| - 1);
      RegisterAllDistinct(s, init);
      var t := RegisterAll(s, init);
      assert RegisterAll(s, ks) == Register(t, x);
      assert x !in init by {
        assert ks == init + [x];
      }
      RegisterInv(t, x);
      RegisterNoLeak(t, x);
      assert (set k | k in ks) == (set k | k in init) + {x} by {
        assert ks == init + [x];
      }
    }
  }

  /**
    Registering N distinct kinds on a fresh table and then closing makes one
    native close call and N `remove()` calls, and leaves nothing live.
   */
  lemma CloseAfterRegistrations(s: State, ks: seq<EventKind>)
    requires Inv(s) && NoLeak(s) && s.listeners == map[] && NoDup(ks)
    ensures var r := CloseClient(RegisterAll(s, ks));
      && r.calls == s.calls + [CloseCall]
      && r.listeners == map[]
      && |r.removed| == |s.removed| + |ks|
      && r.active == map[]
  {
    var t := RegisterAll(s, ks);
    RegisterAllDistinct(s, ks);
    DistinctCount(ks);
    assert |t.listeners| == |t.listeners.Keys|;
    CloseClientEffect(t);
    CloseRemovesEachOnce(t);
    CloseLeavesLeaks(t, Open);
  }

  /** Registering open, message, close and error in turn, unfolded. */
  lemma RegisterAllFour(s: State)
    ensures RegisterAll(s, [Open, Message, Close, Error])
         == Register(Register(Register(Register(s, Open), Message), Close), Error)
  {
    assert [Open][..0] == [];
    assert RegisterAll(s, [Open]) == Register(s, Open);
    assert [Open, Message][..1] == [Open];
    assert RegisterAll(s, [Open, Message]) == Register(Register(s, Open), Message);
    assert [Open, Message, Close][..2] == [Open, Message];
    assert RegisterAll(s, [Open, Message, Close])
        == Register(Register(Register(s, Open), Message), Close);
    assert [Open, Message, Close, Error][..3] == [Open, Message, Close];
  }

  /**
    The close scenario of the tests: open, message, close and error
    registered on a fresh facade, then `close`: one native close call, four
    removals, nothing left live.
   */
  lemma CloseAfterFourRegistrations(calls: seq<NativeCall>)
    ensures var r := CloseClient(RegisterAll(Initial(calls), [Open, Message, Close, Error]));
      && r.calls == calls + [CloseCall]
      && r.listeners == map[]
      && |r.removed| == 4
      && r.active == map[]
  {
    InitialInv(calls);
    var ks := [Open, Message, Close, Error];
    assert NoDup(ks);
    CloseAfterRegistrations(Initial(calls), ks);
  }

  /**
    Overwriting a slot keeps its key in place; deleting it and registering
    it again moves it to the end of the key order.
   */
  lemma KeyOrderOfReRegister(s: State, a: seq<EventKind>, k: EventKind, b: seq<EventKind>)
    requires Inv(s) && s.keyOrder == a + [k] + b
    ensures Register(s, k).keyOrder == a + [k] + b
    ensures Register(RemoveSlot(s, k), k).keyOrder == a + b + [k]
  {
    assert k in s.keyOrder by {
      assert s.keyOrder[|a|] == k;
    }
    forall i | 0 <= i < |a| ensures a[i] != k {
      assert s.keyOrder[i] == a[i] && s.keyOrder[|a|] == k;
      assert s.keyOrder[i] != s.keyOrder[|a|];
    }
    forall i | 0 <= i < |b| ensures b[i] != k {
      assert s.keyOrder[|a| + 1 + i] == b[i] && s.keyOrder[|a|] == k;
      assert s.keyOrder[|a|] != s.keyOrder[|a| + 1 + i];
    }
    WithoutKeepsOrder(a, k, b);
  }

  /**
    The key order Object.keys reports after open, message and close are
    registered, message is removed, and message is registered again.
   */
  lemma ReRegisteredKeyGoesLast(calls: seq<NativeCall>)
    ensures var s := Register(Register(Register(Initial(calls), Open), Message), Close);
      Register(RemoveSlot(s, Message), Message).keyOrder == [Open, Close, Message]
  {
    var s1 := Register(Initial(calls), Open);
    assert s1.keyOrder == [Open] && Message !in s1.listeners && Close !in s1.listeners;
    var s2 := Register(s1, Message);
    assert s2.keyOrder == [Open, Message] && Close !in s2.listeners;
    var s3 := Register(s2, Close);
    assert s3.keyOrder == [Open] + [Message] + [Close];
    var t := RemoveSlot(s3, Message);
    WithoutKeepsOrder([Open], Message, [Close]);
    assert t.keyOrder == [Open, Close] && Message !in t.listeners;
  }

  /** Registering and then removing one kind on a fresh facade calls `remove()` once, on that subscription. */
  lemma RegisterThenRemove(calls: seq<NativeCall>, k: EventKind)
    ensures var r := RemoveSlot(Register(Initial(calls), k), k);
      && r.removed == [0] && r.listeners == map[] && r.active == map[]
  {
    InitialInv(calls);
    RegisterEffect(Initial(calls), k);
    RemoveSlotEffect(Register(Initial(calls), k), k);
  }

  /** `connect` appends one native connect call carrying `url`, and touches nothing else. */
  lemma ConnectEffect(s: State, url: string)
    ensures var r := Connect(s, url);
      && |r.calls| == |s.calls| + 1 && r.calls[..|s.calls|] == s.calls
      && r.calls[|s.calls|] == ConnectCall(url)
      && r.listeners == s.listeners && r.keyOrder == s.keyOrder
      && r.active == s.active && r.next == s.next && r.removed == s.removed
      && (Inv(s) ==> Inv(r))
  {
  }

  /** `send` appends one native send call carrying `message`, and touches nothing else. */
  lemma SendEffect(s: State, message: string)
    ensures var r := Send(s, message);
      && |r.calls| == |s.calls| + 1 && r.calls[..|s.calls|] == s.calls
      && r.calls[|s.calls|] == SendCall(message)
      && r.listeners == s.listeners && r.keyOrder == s.keyOrder
      && r.active == s.active && r.next == s.next && r.removed == s.removed
      && (Inv(s) ==> Inv(r))
  {
  }
}
