/**
  The WebSocketWithSelfSignedCert facade: a listener table with one slot per
  event kind, kept over an event emitter, plus connect, send and close, which
  go straight to the native module. Every method is proved to move the
  client's model state exactly as the matching ListenerModel function says; the
  properties of those functions are the lemmas of ListenerModel.
 */
module SelfSignedSocket {
  import opened WebSocketEvents
  import opened ListenerModel
  import opened NativeBridge

  class WebSocketWithSelfSignedCert {
    const eventEmitter: Emitter
    const nativeModule: NativeModule
    /** The `listeners` object: at most one subscription per kind. */
    var listeners: map<EventKind, SubId>
    /** The order of the `listeners` object's keys, as Object.keys reports them. */
    var keyOrder: seq<EventKind>

    /** The client, its emitter and its native module, seen as one value. */
    ghost function Model(): State
      reads this, eventEmitter, nativeModule
    {
      State(listeners, keyOrder, eventEmitter.active, eventEmitter.next,
            eventEmitter.removed, nativeModule.calls)
    }

    ghost predicate Valid()
      reads this, eventEmitter, nativeModule
    {
      Inv(Model())
    }

    /** A new client over `native`, with an empty table and its own emitter. */
    constructor (native: NativeModule)
      ensures Valid() && fresh(eventEmitter) && nativeModule == native
      ensures Model() == Initial(native.calls)
    {
      eventEmitter := new Emitter();
      nativeModule := native;
      listeners := map[];
      keyOrder := [];
    }

    method Connect(url: string)
      requires Valid()
      modifies nativeModule
      ensures Valid() && Model() == ListenerModel.Connect(old(Model()), url)
    {
      nativeModule.Connect(url);
    }

    method Send(message: string)
      requires Valid()
      modifies nativeModule
      ensures Valid() && Model() == ListenerModel.Send(old(Model()), message)
    {
      nativeModule.Send(message);
    }

    method Close()
      requires Valid()
      modifies this, eventEmitter, nativeModule
      ensures Valid() && Model() == CloseClient(old(Model()))
    {
      nativeModule.Close();
      RemoveAllListeners();
    }

    /** Overwrites slot `k` with a new subscription for `k`; the one it held, if any, is left alone. */
    method Subscribe(k: EventKind)
      requires Valid()
      modifies this, eventEmitter
      ensures Valid() && Model() == Register(old(Model()), k)
    {
      RegisterEffect(Model(), k);
      var id := eventEmitter.AddListener(k);
      if k !in listeners {
        keyOrder := keyOrder + [k];
      }
      listeners := listeners[k := id];
    }

    method OnOpen()
      requires Valid()
      modifies this, eventEmitter
      ensures Valid() && Model() == Register(old(Model()), Open)
    {
      Subscribe(Open);
    }

    method OnMessage()
      requires Valid()
      modifies this, eventEmitter
      ensures Valid() && Model() == Register(old(Model()), Message)
    {
      Subscribe(Message);
    }

    method OnBinaryMessage()
      requires Valid()
      modifies this, eventEmitter
      ensures Valid() && Model() == Register(old(Model()), BinaryMessage)
    {
      Subscribe(BinaryMessage);
    }

    method OnClose()
      requires Valid()
      modifies this, eventEmitter
      ensures Valid() && Model() == Register(old(Model()), EventKind.Close)
    {
      Subscribe(EventKind.Close);
    }

    method OnError()
      requires Valid()
      modifies this, eventEmitter
      ensures Valid() && Model() == Register(old(Model()), Error)
    {
      Subscribe(Error);
    }

    /** `listeners[k]?.remove()` followed by `delete listeners[k]`. */
    method RemoveListener(k: EventKind)
      requires Valid()
      modifies this, eventEmitter
      ensures Valid() && Model() == RemoveSlot(old(Model()), k)
    {
      RemoveSlotInv(Model(), k);
      if k in listeners {
        eventEmitter.Remove(listeners[k]);
      }
      listeners := listeners - {k};
      keyOrder := Without(keyOrder, k);
    }

    method RemoveOnOpenListener()
      requires Valid()
      modifies this, eventEmitter
      ensures Valid() && Model() == RemoveSlot(old(Model()), Open)
    {
      RemoveListener(Open);
    }

    method RemoveOnMessageListener()
      requires Valid()
      modifies this, eventEmitter
      ensures Valid() && Model() == RemoveSlot(old(Model()), Message)
    {
      RemoveListener(Message);
    }

    method RemoveOnBinaryMessageListener()
      requires Valid()
      modifies this, eventEmitter
      ensures Valid() && Model() == RemoveSlot(old(Model()), BinaryMessage)
    {
      RemoveListener(BinaryMessage);
    }

    method RemoveOnCloseListener()
      requires Valid()
      modifies this, eventEmitter
      ensures Valid() && Model() == RemoveSlot(old(Model()), EventKind.Close)
    {
      RemoveListener(EventKind.Close);
    }

    method RemoveOnErrorListener()
      requires Valid()
      modifies this, eventEmitter
      ensures Valid() && Model() == RemoveSlot(old(Model()), Error)
    {
      RemoveListener(Error);
    }

    /** Walks a snapshot of the table's keys, removing and deleting each slot. */
    method RemoveAllListeners()
      requires Valid()
      modifies this, eventEmitter
      ensures Valid() && Model() == RemoveAll(old(Model()))
    {
      var keys := keyOrder;
      var i := 0;
      while i < |keys|
        invariant 0 <= i <= |keys|
        invariant Valid()
        invariant Model() == RemoveKeys(old(Model()), keys[..i])
      {
        RemoveKeysStep(old(Model()), keys, i);
        RemoveListener(keys[i]);
        i := i + 1;
      }
      assert keys[..i] == keys;
    }
  }

  /**
    The close scenario of the facade's tests, replayed on the class: four
    registrations, then `close`, make one native close call and four
    `remove()` calls, and leave nothing subscribed.
   */
  method CloseAfterFourListeners(native: NativeModule)
    modifies native
  {
    var socket := new WebSocketWithSelfSignedCert(native);
    ghost var calls := native.calls;
    socket.OnOpen();
    socket.OnMessage();
    socket.OnClose();
    socket.OnError();
    RegisterAllFour(Initial(calls));
    socket.Close();
    CloseAfterFourRegistrations(calls);
    assert native.calls == calls + [CloseCall];
    assert |socket.eventEmitter.removed| == 4;
    assert socket.listeners == map[] && socket.eventEmitter.active == map[];
  }
}
