/**
 One session (src/session.rs:277-900): what each handler does to the session's flags,
 what it sends to the other end, and what it shows to the application.
 */
module Sessions {
  import opened Wrappers
  import opened Bytes
  import opened Core
  import Keys

  // The fields the handlers change; `direct` tells the kind of `endpoint`.
  datatype Flags = Flags(recvData: bool, stable: bool, heartbeat: nat, direct: bool)

  // What reaches the application.
  datatype Shown =
    | ShownData(data: seq<byte>)
    | ShownConnect(data: seq<byte>)
    | ShownResult(isOk: bool, data: seq<byte>)
    | ShownResultConnect(data: seq<byte>)
    | ShownDelivery(kind: DeliveryType, tid: U64, positive: bool, data: seq<byte>)
    | ShownLeave

  // What the node asks of its session. `upgraded` is the answer of `Global::upgrade`.
  datatype Order =
    | SendData(tid: U64, data: seq<byte>)
    | SendConnect(tid: U64, data: seq<byte>)
    | SendResult(tid: U64, isOk: bool, force: bool, data: seq<byte>)
    | SendQueuedConnect(tid: U64, data: seq<byte>)  // waiting requests, sent when the session starts
    | SendQueuedResult(tid: U64, data: seq<byte>)
    | Upgrade
    | Bounced(sealed: seq<byte>)                    // relayed data that was to go to the peer itself
    | Stop
    | DirectIncoming
    | OtherRelay                                    // relaying for others, late results, relay closes

  datatype Effect = Effect(flags: Flags, sent: seq<CoreData>, shown: seq<Shown>, alive: bool)

  // The `delivery_split!` macro.
  function Split(data: seq<byte>, length: nat): (part: seq<byte>)
    ensures part <= data && |part| == if |data| < length then |data| else length
  {
    if length == 0 then [] else if |data| < length then data else data[..length]
  }

  lemma SplitIsPrefix(data: seq<byte>, length: nat)
    ensures Split(data, length) == data[..if |data| < length then |data| else length]
  {
  }

  // `close(false)`: the session always ends.
  function Closing(f: Flags, sent: seq<CoreData>): Effect
  {
    Effect(f, sent, if f.stable then [ShownLeave] else [], false)
  }

  function Acknowledge(kind: DeliveryType, tid: U64, data: seq<byte>, length: nat): seq<CoreData>
  {
    if tid != 0 then [Delivery(kind, tid, Split(data, length))] else []
  }

  // `handle_core_data`, once the bytes are decrypted and decoded.
  function OnCore(f: Flags, m: CoreData, length: nat): Effect
  {
    match m
    case Ping => Effect(f, [Pong], [], true)
    case Pong => Effect(f.(heartbeat := 0), [], [], true)
    case Data(tid, d) =>
      if f.recvData then Effect(f, Acknowledge(OfData, tid, d, length), [ShownData(d)], true)
      else Effect(f, [], [], true)
    case Delivery(k, tid, d) =>
      Effect(f, [], if tid != 0 && (k.OfData? ==> f.recvData) then [ShownDelivery(k, tid, true, d)] else [], true)
    case StableConnect(tid, d) => Effect(f, Acknowledge(OfConnect, tid, d, length), [ShownConnect(d)], true)
    case StableResult(tid, ok, d) => Effect(f, Acknowledge(OfResult, tid, d, length), [ShownResult(ok, d)], true)
    case ResultConnect(tid, d) => Effect(f, Acknowledge(OfResult, tid, d, length), [ShownResultConnect(d)], true)
    case Unstable => Closing(f, [])
  }

  // `Session::upgrade`: the flags are set before the registries answer.
  function Upgraded(f: Flags): Flags
  {
    f.(stable := true, recvData := true)
  }

  // `failure_send`: the negative report of a message that came back.
  function Failed(m: CoreData, length: nat): seq<Shown>
  {
    match m
    case Data(tid, d) => if tid != 0 then [ShownDelivery(OfData, tid, false, Split(d, length))] else []
    case StableConnect(tid, d) => if tid != 0 then [ShownDelivery(OfConnect, tid, false, Split(d, length))] else []
    case StableResult(tid, _, d) => if tid != 0 then [ShownDelivery(OfResult, tid, false, Split(d, length))] else []
    case ResultConnect(tid, d) => if tid != 0 then [ShownDelivery(OfResult, tid, false, Split(d, length))] else []
    case _ => []
  }

  // The bytes of a session message under this session's key, if they are one.
  function Unseal(c: Keys.Crypto, k: Keys.Session, e: seq<byte>): Option<CoreData>
  {
    var b := c.open(k.cipher, k.nonce, e);
    if b.None? then None
    else
      var m := Decode(b.value);
      if m.Ok? then Some(m.value) else None
  }

  function Seal(c: Keys.Crypto, k: Keys.Session, m: CoreData): seq<byte>
  {
    c.seal(k.cipher, k.nonce, Encode(m))
  }

  // `handle_outside`.
  function OnOrder(c: Keys.Crypto, k: Keys.Session, f: Flags, o: Order, upgraded: bool, length: nat): Effect
  {
    match o
    case SendData(tid, d) => Effect(f, [Data(tid, d)], [], true)
    case SendConnect(tid, d) =>
      if f.stable then Effect(f, [StableConnect(tid, d)], [], true)
      else Effect(Upgraded(f), [StableConnect(tid, d)], [], upgraded)
    case SendResult(tid, ok, force, d) =>
      if f.stable then Effect(f, [StableResult(tid, ok, d)], [], !force)
      else if ok then Effect(Upgraded(f), [StableResult(tid, ok, d)], [], upgraded && !force)
      else Closing(f, [StableResult(tid, ok, d)])
    case SendQueuedConnect(tid, d) => Effect(f, [StableConnect(tid, d)], [], true)
    case SendQueuedResult(tid, d) => Effect(f, [ResultConnect(tid, d)], [], true)
    case Upgrade => if f.stable then Effect(f, [], [], true) else Effect(Upgraded(f), [], [], upgraded)
    case Bounced(e) =>
      var m := Unseal(c, k, e);
      Effect(f, [], if m.Some? then Failed(m.value, length) else [], true)
    case Stop => Closing(f, [])
    case DirectIncoming => Effect(f.(direct := true), [], [], true)
    case OtherRelay => Effect(f, [], [], true)
  }

  // `handle_heartbeat`.
  function OnBeat(f: Flags): Effect
  {
    if f.heartbeat > 3 then Effect(f, [], [], false)
    else Effect(f.(heartbeat := f.heartbeat + 1), [Ping], [], true)
  }

  class Session {
    var recvData: bool
    var stable: bool
    var heartbeat: nat
    var direct: bool
    const crypto: Keys.Crypto
    const key: Keys.Session
    const deliveryLength: nat

    ghost function View(): Flags
      reads this
    {
      Flags(recvData, stable, heartbeat, direct)
    }

    constructor (direct: bool, recvData: bool, crypto: Keys.Crypto, key: Keys.Session, deliveryLength: nat)
      ensures View() == Flags(recvData, false, 0, direct)
      ensures this.crypto == crypto && this.key == key && this.deliveryLength == deliveryLength
    {
      this.recvData, stable, heartbeat, this.direct := recvData, false, 0, direct;
      this.crypto, this.key, this.deliveryLength := crypto, key, deliveryLength;
    }

    method HandleCoreData(e: seq<byte>) returns (sent: seq<CoreData>, shown: seq<Shown>, alive: bool)
      modifies this
      ensures var m := Unseal(crypto, key, e);
              Effect(View(), sent, shown, alive) == if m.Some? then OnCore(old(View()), m.value, deliveryLength) else Effect(old(View()), [], [], true)
    {
      sent, shown, alive := [], [], true;
      var bytes := crypto.open(key.cipher, key.nonce, e);
      if bytes.Some? {
        var msg := Decode(bytes.value);
        if msg.Ok? {
          match msg.value
          case Ping =>
            sent := [Pong];
          case Pong =>
            heartbeat := 0;
          case Data(tid, data) =>
            if recvData {
              var deliveryData := Split(data, deliveryLength);
              shown := [ShownData(data)];
              if tid != 0 {
                sent := [Delivery(OfData, tid, deliveryData)];
              }
            }
          case Delivery(kind, tid, data) =>
            if tid != 0 {
              match kind
              case OfData =>
                if recvData {
                  shown := [ShownDelivery(kind, tid, true, data)];
                }
              case _ =>
                shown := [ShownDelivery(kind, tid, true, data)];
            }
          case StableConnect(tid, data) =>
            shown := [ShownConnect(data)];
            if tid != 0 {
              sent := [Delivery(OfConnect, tid, Split(data, deliveryLength))];
            }
          case StableResult(tid, isOk, data) =>
            shown := [ShownResult(isOk, data)];
            if tid != 0 {
              sent := [Delivery(OfResult, tid, Split(data, deliveryLength))];
            }
          case ResultConnect(tid, data) =>
            shown := [ShownResultConnect(data)];
            if tid != 0 {
              sent := [Delivery(OfResult, tid, Split(data, deliveryLength))];
            }
          case Unstable =>
            shown, alive := Close();
        }
      }
    }

    // `close(false)`.
    method Close() returns (shown: seq<Shown>, alive: bool)
      ensures !alive && shown == if stable then [ShownLeave] else []
    {
      shown := if stable then [ShownLeave] else [];
      alive := false;
    }

    method Promote()
      modifies this
      ensures View() == Upgraded(old(View()))
    {
      stable := true;
      recvData := true;
    }

    method HandleOutside(o: Order, upgraded: bool) returns (sent: seq<CoreData>, shown: seq<Shown>, alive: bool)
      modifies this
      ensures Effect(View(), sent, shown, alive) == OnOrder(crypto, key, old(View()), o, upgraded, deliveryLength)
    {
      sent, shown, alive := [], [], true;
      match o
      case SendData(tid, data) =>
        sent := [Data(tid, data)];
      case SendConnect(tid, data) =>
        sent := [StableConnect(tid, data)];
        if !stable {
          Promote();
          alive := upgraded;
        }
      case SendResult(tid, isOk, force, data) =>
        sent := [StableResult(tid, isOk, data)];
        if !stable && isOk {
          Promote();
          if !upgraded {
            return sent, shown, false;
          }
        }
        if !stable && !isOk {
          shown, alive := Close();
          return;
        }
        if force {
          alive := false;
        }
      case SendQueuedConnect(tid, data) =>
        sent := [StableConnect(tid, data)];
      case SendQueuedResult(tid, data) =>
        sent := [ResultConnect(tid, data)];
      case Upgrade =>
        if !stable {
          Promote();
          alive := upgraded;
        }
      case Bounced(sealed) =>
        var m := Unseal(crypto, key, sealed);
        if m.Some? {
          shown := Failed(m.value, deliveryLength);
        }
      case Stop =>
        shown, alive := Close();
      case DirectIncoming =>
        direct := true;
      case OtherRelay =>
    }

    method HandleHeartbeat() returns (sent: seq<CoreData>, alive: bool)
      modifies this
      ensures Effect(View(), sent, [], alive) == OnBeat(old(View()))
    {
      if heartbeat > 3 {
        return [], false;
      }
      heartbeat := heartbeat + 1;
      sent, alive := [Ping], true;
    }
  }

  // ---------------------------------------------------------------- what the handlers do

  // A message from the other end ends the session exactly when it says so, and then a
  // stable session is reported as left; it changes no flag but the counter, which an answer
  // resets; and it is answered exactly when it asks for an answer.
  lemma CoreExact(f: Flags, m: CoreData, length: nat)
    ensures var x := OnCore(f, m, length);
            && (!x.alive <==> m == Unstable)
            && (ShownLeave in x.shown <==> m == Unstable && f.stable)
            && x.flags == f.(heartbeat := if m == Pong then 0 else f.heartbeat)
            && (Pong in x.sent <==> m == Ping) && Ping !in x.sent
  {
  }

  // The orders that make a session stable.
  predicate Upgrades(o: Order)
  {
    o.SendConnect? || o.Upgrade? || (o.SendResult? && o.isOk)
  }

  // An order makes a session stable and receiving exactly when it is one of these, and ends
  // it exactly when told to stop, when a refusal or a forced result was sent, or when the
  // registries did not take the upgrade. Only the end of a stable session is a leave.
  lemma OrderExact(c: Keys.Crypto, k: Keys.Session, f: Flags, o: Order, upgraded: bool, length: nat)
    ensures var x := OnOrder(c, k, f, o, upgraded, length);
            && x.flags == Flags(f.recvData || (!f.stable && Upgrades(o)), f.stable || Upgrades(o), f.heartbeat, f.direct || o == DirectIncoming)
            && (!x.alive <==>
                  || o == Stop
                  || (o.SendResult? && (o.force || (!f.stable && !o.isOk)))
                  || (!f.stable && Upgrades(o) && !upgraded))
            && (ShownLeave in x.shown <==> o == Stop && f.stable)
            && Ping !in x.sent && Pong !in x.sent
  {
    if o.Bounced? {
      var m := Unseal(c, k, o.sealed);
      assert m.Some? ==> ShownLeave !in Failed(m.value, length);
    }
  }

  // A beat that does not end the session is a message that the other end answers, whatever
  // its state, and the answer brings the counter back to 0 and changes nothing else.
  lemma BeatIsAnswered(f: Flags, g: Flags, length: nat, length': nat)
    requires OnBeat(f).alive
    ensures var x := OnBeat(f);
            && |x.sent| == 1 && x.shown == []
            && var y := OnCore(g, x.sent[0], length');
               && y.alive && y.flags == g && y.shown == [] && |y.sent| == 1
               && var z := OnCore(x.flags, y.sent[0], length);
                  z == Effect(f.(heartbeat := 0), [], [], true)
  {
  }

  // ---------------------------------------------------------------- sealed messages

  // Between two ends that agree on key and nonce, sealing is invisible: what one end
  // sends is what the other end handles.
  lemma SealIsInvisible(c: Keys.Crypto, a: Keys.Session, b: Keys.Session, m: CoreData)
    requires c.Laws() && Keys.Agree(c, a, b)
    ensures Unseal(c, b, Seal(c, a, m)) == Some(m) && Unseal(c, a, Seal(c, b, m)) == Some(m)
  {
    RoundTrip(m);
  }

  // Only what opens under the session's own key and nonce is handled, and what is sent opens
  // under them to the bytes of the message.
  lemma OnlySealed(c: Keys.Crypto, k: Keys.Session, e: seq<byte>, m: CoreData)
    requires c.Laws()
    ensures Unseal(c, k, e) == Some(m) <==> exists b :: c.open(k.cipher, k.nonce, e) == Some(b) && Decode(b) == Ok(m)
    ensures c.open(k.cipher, k.nonce, Seal(c, k, m)) == Some(Encode(m))
  {
    if Unseal(c, k, e) == Some(m) {
      var b := c.open(k.cipher, k.nonce, e).value;
      assert c.open(k.cipher, k.nonce, e) == Some(b) && Decode(b) == Ok(m);
    }
  }

  // ---------------------------------------------------------------- the life of a session

  datatype Input = Core(msg: CoreData) | Ask(order: Order, upgraded: bool) | Beat | Noise

  function Step(c: Keys.Crypto, k: Keys.Session, f: Flags, i: Input, length: nat): Effect
  {
    match i
    case Core(m) => OnCore(f, m, length)
    case Ask(o, upgraded) => OnOrder(c, k, f, o, upgraded, length)
    case Beat => OnBeat(f)
    case Noise => Effect(f, [], [], true)
  }

  // The flags after a run of inputs that the session survives, or none.
  function Run(c: Keys.Crypto, k: Keys.Session, f: Flags, ins: seq<Input>, length: nat): Option<Flags>
  {
    if ins == [] then Some(f)
    else
      var before := Run(c, k, f, ins[..|ins| - 1], length);
      if before.None? then None
      else
        var e := Step(c, k, before.value, ins[|ins| - 1], length);
        if e.alive then Some(e.flags) else None
  }

  // The beats of the timer since the last answer.
  ghost function BeatsSincePong(ins: seq<Input>): nat
  {
    if ins == [] then 0
    else
      var before, i := BeatsSincePong(ins[..|ins| - 1]), ins[|ins| - 1];
      if i.Beat? then before + 1 else if i == Core(Pong) then 0 else before
  }

  // The counter is the number of unanswered beats, and never passes four: the fifth
  // beat without an answer ends the session.
  lemma {:induction false} HeartbeatCounts(c: Keys.Crypto, k: Keys.Session, f: Flags, ins: seq<Input>, length: nat)
    requires f.heartbeat == 0
    ensures Run(c, k, f, ins, length).Some? ==> Run(c, k, f, ins, length).value.heartbeat == BeatsSincePong(ins) <= 4
    ensures BeatsSincePong(ins) >= 5 ==> Run(c, k, f, ins, length).None?
  {
    if ins == [] {
    } else {
      HeartbeatCounts(c, k, f, ins[..|ins| - 1], length);
    }
  }

  // A beat ends a session exactly when four are unanswered already.
  lemma FifthBeatEnds(c: Keys.Crypto, k: Keys.Session, f: Flags, ins: seq<Input>, length: nat)
    requires f.heartbeat == 0 && Run(c, k, f, ins, length).Some?
    ensures Run(c, k, f, ins + [Beat], length).None? <==> BeatsSincePong(ins) == 4
  {
    HeartbeatCounts(c, k, f, ins, length);
    assert (ins + [Beat])[..|ins|] == ins;
  }

  // A stable session receives data, and stays stable for the rest of its life.
  lemma {:induction false} StableForGood(c: Keys.Crypto, k: Keys.Session, f: Flags, ins: seq<Input>, n: nat, length: nat)
    requires f.stable ==> f.recvData
    requires n <= |ins| && Run(c, k, f, ins, length).Some?
    ensures Run(c, k, f, ins[..n], length).Some?
    ensures var now, then' := Run(c, k, f, ins, length).value, Run(c, k, f, ins[..n], length).value;
            && (now.stable ==> now.recvData)
            && (then'.stable ==> now.stable && now.recvData)
  {
    if n < |ins| {
      StableForGood(c, k, f, ins[..|ins| - 1], n, length);
      assert ins[..|ins| - 1][..n] == ins[..n];
    } else {
      assert ins[..n] == ins;
      if ins != [] {
        StableForGood(c, k, f, ins[..|ins| - 1], |ins| - 1, length);
      }
    }
  }
}
