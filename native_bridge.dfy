/**
  The two collaborators the facade talks to, reduced to what the facade can
  observe of them: the React Native event emitter it subscribes through, and
  the native WebSocket module it forwards connect, send and close to.
 */
module NativeBridge {
  import opened WebSocketEvents
  import opened ListenerModel

  /**
    The NativeEventEmitter: `AddListener` hands out a fresh subscription for a
    kind and starts dispatching that kind to it; `Remove` is a subscription's
    `remove()`, which stops dispatching to it.
   */
  class Emitter {
    var next: nat
    ghost var active: map<SubId, EventKind>
    ghost var removed: seq<SubId>

    constructor ()
      ensures next == 0 && active == map[] && removed == []
    {
      next := 0;
      active := map[];
      removed := [];
    }

    method AddListener(k: EventKind) returns (id: SubId)
      modifies this
      ensures id == old(next) && next == old(next) + 1
      ensures active == old(active)[id := k]
      ensures removed == old(removed)
    {
      id := next;
      next := next + 1;
      active := active[id := k];
    }

    method Remove(id: SubId)
      modifies this
      ensures active == old(active) - {id}
      ensures removed == old(removed) + [id]
      ensures next == old(next)
    {
      active := active - {id};
      removed := removed + [id];
    }
  }

  /** The native module: every connect, send and close the facade forwards to it is recorded, in order. */
  class NativeModule {
    ghost var calls: seq<NativeCall>

    constructor ()
      ensures calls == []
    {
      calls := [];
    }

    method Connect(url: string)
      modifies this
      ensures calls == old(calls) + [ConnectCall(url)]
    {
      calls := calls + [ConnectCall(url)];
    }

    method Send(message: string)
      modifies this
      ensures calls == old(calls) + [SendCall(message)]
    {
      calls := calls + [SendCall(message)];
    }

    method Close()
      modifies this
      ensures calls == old(calls) + [CloseCall]
    {
      calls := calls + [CloseCall];
    }
  }
}
