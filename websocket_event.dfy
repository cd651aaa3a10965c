/**
  The event kinds a WebSocketWithSelfSignedCert client can subscribe to
  (the WebSocketEvent enum) and the string each kind stands for. The string
  is the key of the facade's listener table and the event name handed to
  the native event emitter.
 */
module WebSocketEvents {

  datatype Option<T> = None | Some(value: T)

  /** One constructor per enum member: OPEN, MESSAGE, BINARY_MESSAGE, CLOSE, ERROR. */
  datatype EventKind = Open | Message | BinaryMessage | Close | Error

  /** Every kind, in the order the enum declares them. */
  const AllKinds: seq<EventKind> := [Open, Message, BinaryMessage, Close, Error]

  /** The enum member's string value: every one of them is "on" followed by the event. */
  function Name(e: EventKind): (s: string)
    ensures |s| > 2 && s[..2] == "on"
  {
    match e
    case Open => "onOpen"
    case Message => "onMessage"
    case BinaryMessage => "onBinaryMessage"
    case Close => "onClose"
    case Error => "onError"
  }

  /** The inverse of Name: a name decodes to the kind it names, any other string to None. */
  function FromName(s: string): (r: Option<EventKind>)
    ensures r.Some? ==> Name(r.value) == s
  {
    if s == "onOpen" then Some(Open)
    else if s == "onMessage" then Some(Message)
    else if s == "onBinaryMessage" then Some(BinaryMessage)
    else if s == "onClose" then Some(Close)
    else if s == "onError" then Some(Error)
    else None
  }

  /** Decoding a kind's name gives the kind back. */
  lemma FromNameRoundTrip(e: EventKind)
    ensures FromName(Name(e)) == Some(e)
  {
  }

  /** A string decodes to nothing exactly when it is no kind's name. */
  lemma FromNameNone(s: string)
    ensures FromName(s).None? <==> forall e: EventKind :: Name(e) != s
  {
    if FromName(s).None? {
      forall e: EventKind ensures Name(e) != s {
        FromNameRoundTrip(e);
      }
    }
  }

  /** Distinct kinds have distinct names, so the names are valid one-slot-per-kind table keys. */
  lemma NameInjective(a: EventKind, b: EventKind)
    ensures Name(a) == Name(b) <==> a == b
  {
    FromNameRoundTrip(a);
    FromNameRoundTrip(b);
  }

  /** There are exactly five kinds, each listed once in AllKinds. */
  lemma ExactlyFiveKinds()
    ensures |AllKinds| == 5
    ensures forall e: EventKind :: e in AllKinds
    ensures forall i, j | 0 <= i < j < |AllKinds| :: AllKinds[i] != AllKinds[j]
  {
    forall e: EventKind ensures e in AllKinds {
      match e
      case Open => assert AllKinds[0] == e;
      case Message => assert AllKinds[1] == e;
      case BinaryMessage => assert AllKinds[2] == e;
      case Close => assert AllKinds[3] == e;
      case Error => assert AllKinds[4] == e;
    }
  }

  /**
    The event names the native modules emit: the iOS module's
    supportedEvents list, which is also the set of names the Android
    module passes to sendEvent.
   */
  const NativeEventNames: seq<string> := ["onOpen", "onMessage", "onClose", "onError"]

  /** Every kind but BINARY_MESSAGE is produced natively; nothing native emits "onBinaryMessage". */
  lemma NativeProducers(e: EventKind)
    ensures Name(e) in NativeEventNames <==> e != BinaryMessage
  {
    if e == BinaryMessage {
      forall i | 0 <= i < |NativeEventNames| ensures NativeEventNames[i] != Name(e) {
        assert |NativeEventNames[i]| != |Name(e)|;
      }
    }
  }
}
