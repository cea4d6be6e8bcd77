/**
 Acknowledged delivery between two sessions (src/session.rs:463-552, 613-651) over
 channels that may lose messages and deliver them in any order, but neither forge nor
 duplicate them.
 */
module Delivery {
  import opened Bytes
  import opened Core
  import opened Sessions

  // A message that can be acknowledged: its kind, its id, and its data.
  datatype Item = Item(kind: DeliveryType, tid: U64, data: seq<byte>)

  // One end: its session while it lives, and its histories: what its application asked to
  // send, the messages that were handed to it, everything it was shown, and the data and the
  // acknowledgements of data that came while the session took no data.
  datatype End = End(flags: Flags, alive: bool, length: nat, asked: seq<Item>, handed: seq<Item>, shown: seq<Shown>,
                     ignored: seq<Item>, unshown: seq<Item>)
  {
    // The positive deliveries among what the application was shown.
    function Acked(): seq<Item>
    {
      Positives(shown)
    }
  }

  // Two ends, what is on its way, and what was lost on the way.
  datatype Net = Net(a: End, b: End, ab: seq<CoreData>, ba: seq<CoreData>, lostAb: seq<CoreData>, lostBa: seq<CoreData>)

  // The acknowledgeable message in a session message, if it is one.
  function ItemOf(m: CoreData): seq<Item>
  {
    match m
    case Data(tid, d) => [Item(OfData, tid, d)]
    case StableConnect(tid, d) => [Item(OfConnect, tid, d)]
    case StableResult(tid, _, d) => [Item(OfResult, tid, d)]
    case ResultConnect(tid, d) => [Item(OfResult, tid, d)]
    case _ => []
  }

  // The acknowledgement in a session message, if it is one that counts.
  function AckOf(m: CoreData): seq<Item>
  {
    if m.Delivery? && m.tid != 0 then [Item(m.kind, m.tid, m.data)] else []
  }

  // `f` of each element, one after the other.
  function FlatMap<A, B>(f: A -> seq<B>, q: seq<A>): seq<B>
  {
    if q == [] then [] else FlatMap(f, q[..|q| - 1]) + f(q[|q| - 1])
  }

  function Items(ms: seq<CoreData>): seq<Item>
  {
    FlatMap(ItemOf, ms)
  }

  function Acks(ms: seq<CoreData>): seq<Item>
  {
    FlatMap(AckOf, ms)
  }

  // The positive delivery an application is shown, if it is one.
  function PositiveOf(s: Shown): seq<Item>
  {
    if s.ShownDelivery? && s.positive then [Item(s.kind, s.tid, s.data)] else []
  }

  function Positives(shown: seq<Shown>): seq<Item>
  {
    FlatMap(PositiveOf, shown)
  }

  // The data an application is handed, if what it is shown is a message from the other end.
  function DataOf(s: Shown): seq<(DeliveryType, seq<byte>)>
  {
    match s
    case ShownData(d) => [(OfData, d)]
    case ShownConnect(d) => [(OfConnect, d)]
    case ShownResult(_, d) => [(OfResult, d)]
    case ShownResultConnect(d) => [(OfResult, d)]
    case _ => []
  }

  function Payloads(shown: seq<Shown>): seq<(DeliveryType, seq<byte>)>
  {
    FlatMap(DataOf, shown)
  }

  // The event by which an application is handed the message `m`.
  predicate Hands(m: CoreData, s: Shown)
  {
    match m
    case Data(_, d) => s == ShownData(d)
    case StableConnect(_, d) => s == ShownConnect(d)
    case StableResult(_, ok, d) => s == ShownResult(ok, d)
    case ResultConnect(_, d) => s == ShownResultConnect(d)
    case _ => false
  }

  function GotBy(m: CoreData, s: Shown): seq<Item>
  {
    if Hands(m, s) then ItemOf(m) else []
  }

  // What the application got of the message `m`, read off the events it was shown.
  function Got(m: CoreData, shown: seq<Shown>): seq<Item>
  {
    FlatMap(s => GotBy(m, s), shown)
  }

  // ---------------------------------------------------------------- steps

  // The message an order asks to send, if it asks for one.
  function AskedBy(o: Order): seq<Item>
  {
    match o
    case SendData(tid, d) => [Item(OfData, tid, d)]
    case SendConnect(tid, d) => [Item(OfConnect, tid, d)]
    case SendResult(tid, _, _, d) => [Item(OfResult, tid, d)]
    case SendQueuedConnect(tid, d) => [Item(OfConnect, tid, d)]
    case SendQueuedResult(tid, d) => [Item(OfResult, tid, d)]
    case _ => []
  }

  // What a session that takes no data passes over: data, and acknowledgements of data.
  function PassedOver(f: Flags, m: CoreData): bool
  {
    !f.recvData && (m.Data? || (m.Delivery? && m.kind == OfData))
  }

  // The end after an effect, with its histories: `asked` is what the node asked for, `got`
  // what the effect handed over.
  function AfterEffect(e: End, x: Effect, asked: seq<Item>, got: seq<Item>): End
  {
    End(x.flags, x.alive, e.length, e.asked + asked, e.handed + got, e.shown + x.shown, e.ignored, e.unshown)
  }

  // The same after a message came in.
  function AfterMessage(e: End, x: Effect, m: CoreData): End
  {
    var e' := AfterEffect(e, x, [], Got(m, x.shown));
    if PassedOver(e.flags, m) then e'.(ignored := e.ignored + ItemOf(m), unshown := e.unshown + AckOf(m)) else e'
  }

  datatype Step =
    | Obey(order: Order, upgraded: bool)  // A's node asks its session
    | Receive(i: nat)                     // A's session handles a message from the channel
    | Tick                                // A's timer
    | Lose(i: nat)                        // the channel from A drops a message

  function RemoveAt(ms: seq<CoreData>, i: nat): seq<CoreData>
    requires i < |ms|
  {
    ms[..i] + ms[i + 1..]
  }

  function Flip(n: Net): Net
  {
    Net(n.b, n.a, n.ba, n.ab, n.lostBa, n.lostAb)
  }

  // A step of end A. The steps of B are those of A in the flipped net.
  ghost predicate NextA(c: Keys.Crypto, k: Keys.Session, n: Net, s: Step, n': Net)
  {
    match s
    case Obey(o, upgraded) =>
      n.a.alive && var x := OnOrder(c, k, n.a.flags, o, upgraded, n.a.length);
      n' == n.(a := AfterEffect(n.a, x, AskedBy(o), []), ab := n.ab + x.sent)
    case Receive(i) =>
      n.a.alive && i < |n.ba| && n' == AfterReceive(n, i)
    case Tick =>
      n.a.alive && var x := OnBeat(n.a.flags);
      n' == n.(a := AfterEffect(n.a, x, [], []), ab := n.ab + x.sent)
    case Lose(i) =>
      i < |n.ab| && n' == n.(ab := RemoveAt(n.ab, i), lostAb := n.lostAb + [n.ab[i]])
  }

  ghost predicate Next(c: Keys.Crypto, k: Keys.Session, n: Net, byA: bool, s: Step, n': Net)
  {
    if byA then NextA(c, k, n, s, n') else NextA(c, k, Flip(n), s, Flip(n'))
  }

  // ---------------------------------------------------------------- the invariant

  // The acknowledgements that handing over `items` entitles the other end to.
  ghost function Promises(items: seq<Item>, length: nat): seq<Item>
  {
    FlatMap(i => PromiseOf(i, length), items)
  }

  function PromiseOf(i: Item, length: nat): seq<Item>
  {
    if i.tid != 0 then [i.(data := Split(i.data, length))] else []
  }

  // From A to B nothing appears and nothing disappears: what A asked to send was handed to
  // B, came when B took no data, is on its way or was lost; and what B owes for what it was
  // handed was shown at A, came when A took no data, is on its way or was lost.
  ghost predicate Sound(n: Net)
  {
    && Split4(multiset(n.b.handed), multiset(n.b.ignored), multiset(Items(n.ab)), multiset(Items(n.lostAb)), multiset(n.a.asked))
    && Split4(multiset(n.a.Acked()), multiset(n.a.unshown), multiset(Acks(n.ba)), multiset(Acks(n.lostBa)),
              multiset(Promises(n.b.handed, n.b.length)))
  }

  ghost predicate Split4<T(!new)>(a: multiset<T>, b: multiset<T>, c: multiset<T>, d: multiset<T>, whole: multiset<T>)
  {
    a + b + (c + d) == whole
  }

  function PayloadOf(i: Item): seq<(DeliveryType, seq<byte>)>
  {
    [(i.kind, i.data)]
  }

  // The messages counted as handed over are, one by one and in order, those whose data the
  // application was shown.
  ghost predicate Witnessed(e: End)
  {
    Payloads(e.shown) == FlatMap(PayloadOf, e.handed)
  }

  ghost predicate SoundBothWays(n: Net)
  {
    Sound(n) && Sound(Flip(n)) && Witnessed(n.a) && Witnessed(n.b)
  }

  // ---------------------------------------------------------------- lists

  lemma {:induction false} FlatConcat<A, B>(f: A -> seq<B>, x: seq<A>, y: seq<A>)
    ensures FlatMap(f, x + y) == FlatMap(f, x) + FlatMap(f, y)
  {
    if y == [] {
      assert x + y == x;
    } else {
      var n := |y| - 1;
      assert (x + y)[..|x + y| - 1] == x + y[..n];
      FlatConcat(f, x, y[..n]);
    }
  }

  lemma FlatOne<A, B>(f: A -> seq<B>, x: A)
    ensures FlatMap(f, [x]) == f(x)
  {
    assert [x][..0] == [];
    assert FlatMap(f, []) == [];
  }

  lemma OneInTheMiddle<T>(x: seq<T>, y: seq<T>, z: seq<T>)
    ensures multiset(x + (y + z)) == multiset(x + z) + multiset(y)
  {
  }

  lemma CutAt<T>(q: seq<T>, i: nat)
    requires i < |q|
    ensures q == q[..i] + ([q[i]] + q[i + 1..])
  {
  }

  lemma FlatMiddle<A, B>(f: A -> seq<B>, x: seq<A>, m: A, y: seq<A>)
    ensures multiset(FlatMap(f, x + ([m] + y))) == multiset(FlatMap(f, x + y)) + multiset(f(m))
  {
    FlatConcat(f, x, [m] + y);
    FlatConcat(f, [m], y);
    FlatConcat(f, x, y);
    FlatOne(f, m);
    OneInTheMiddle(FlatMap(f, x), f(m), FlatMap(f, y));
  }

  lemma FlatWithout<B>(f: CoreData -> seq<B>, ms: seq<CoreData>, i: nat)
    requires i < |ms|
    ensures multiset(FlatMap(f, ms)) == multiset(FlatMap(f, RemoveAt(ms, i))) + multiset(f(ms[i]))
  {
    CutAt(ms, i);
    FlatMiddle(f, ms[..i], ms[i], ms[i + 1..]);
  }

  // ---------------------------------------------------------------- what the handlers promise

  lemma PromisesOne(i: Item, length: nat)
    ensures Promises([i], length) == PromiseOf(i, length)
  {
    FlatOne(i => PromiseOf(i, length), i);
  }

  lemma AcknowledgesOne(i: Item, length: nat)
    ensures var sent := Acknowledge(i.kind, i.tid, i.data, length); Acks(sent) == Promises([i], length) && Items(sent) == []
  {
    PromisesOne(i, length);
    if i.tid != 0 {
      var m := CoreData.Delivery(i.kind, i.tid, Split(i.data, length));
      FlatOne(AckOf, m);
      FlatOne(ItemOf, m);
    }
  }

  // Handling a message acknowledges exactly what the application is shown of it ...
  lemma CoreAcksHonestly(f: Flags, m: CoreData, length: nat)
    ensures var x := OnCore(f, m, length); Acks(x.sent) == Promises(Got(m, x.shown), length) && Items(x.sent) == []
  {
    CoreHands(f, m, length);
    if ItemOf(m) == [] {
      FlatOne(AckOf, Pong);
      FlatOne(ItemOf, Pong);
    } else {
      AcknowledgesOne(ItemOf(m)[0], length);
    }
  }

  // ... which is the message as it was sent, once or not at all ...
  lemma CoreHands(f: Flags, m: CoreData, length: nat)
    ensures Got(m, OnCore(f, m, length).shown) == if m.Data? && !f.recvData then [] else ItemOf(m)
  {
    var shown := OnCore(f, m, length).shown;
    if shown == [] {
      assert Got(m, shown) == [];
    } else {
      assert shown == [shown[0]];
      FlatOne(s => GotBy(m, s), shown[0]);
    }
  }

  // ... and the only data it is shown ...
  lemma CoreHandsNoMore(f: Flags, m: CoreData, length: nat)
    ensures var shown := OnCore(f, m, length).shown; Payloads(shown) == FlatMap(PayloadOf, Got(m, shown))
  {
    var shown := OnCore(f, m, length).shown;
    CoreHands(f, m, length);
    if shown == [] {
      assert Got(m, shown) == [] && Payloads(shown) == [];
    } else {
      assert shown == [shown[0]];
      FlatOne(DataOf, shown[0]);
      if Hands(m, shown[0]) {
        EachIsOne(m, shown[0]);
      } else {
        assert ItemOf(m) == [] && DataOf(shown[0]) == [];
      }
    }
  }

  lemma EachIsOne(m: CoreData, s: Shown)
    requires Hands(m, s)
    ensures FlatMap(PayloadOf, ItemOf(m)) == DataOf(s)
  {
    FlatOne(PayloadOf, ItemOf(m)[0]);
  }

  // ... and a positive delivery for exactly every acknowledgement that came in, except for
  // one of data on a session that takes no data.
  lemma CoreShowsHonestly(f: Flags, m: CoreData, length: nat)
    ensures Positives(OnCore(f, m, length).shown) == if m.Delivery? && m.kind == OfData && !f.recvData then [] else AckOf(m)
  {
    var shown := OnCore(f, m, length).shown;
    if shown == [] {
      assert Positives(shown) == [];
    } else {
      var s := shown[0];
      assert shown == [s];
      FlatOne(PositiveOf, s);
    }
  }

  // What the node asks for is what is sent, and an order sends no acknowledgement ...
  lemma OrderIsHonest(c: Keys.Crypto, k: Keys.Session, f: Flags, o: Order, upgraded: bool, length: nat)
    ensures var x := OnOrder(c, k, f, o, upgraded, length); Items(x.sent) == AskedBy(o) && Acks(x.sent) == []
  {
    var sent := OnOrder(c, k, f, o, upgraded, length).sent;
    if sent == [] {
      assert AskedBy(o) == [];
    } else {
      assert sent == [sent[0]];
      FlatOne(AckOf, sent[0]);
      FlatOne(ItemOf, sent[0]);
    }
  }

  // ... nor does it show a positive delivery or the other end's data.
  lemma OrderShowsNothing(c: Keys.Crypto, k: Keys.Session, f: Flags, o: Order, upgraded: bool, length: nat)
    ensures var x := OnOrder(c, k, f, o, upgraded, length); Positives(x.shown) == [] && Payloads(x.shown) == []
  {
    var shown := OnOrder(c, k, f, o, upgraded, length).shown;
    if shown == [] {
      assert Positives(shown) == [] && Payloads(shown) == [];
    } else {
      assert shown == [shown[0]];
      FlatOne(PositiveOf, shown[0]);
      FlatOne(DataOf, shown[0]);
    }
  }

  lemma BeatIsHonest(f: Flags)
    ensures var x := OnBeat(f); Acks(x.sent) == [] && Items(x.sent) == [] && Positives(x.shown) == [] && Payloads(x.shown) == []
  {
    FlatOne(ItemOf, Ping);
    FlatOne(AckOf, Ping);
  }

  // ---------------------------------------------------------------- every step

  lemma Grows4<T(!new)>(a: multiset<T>, b: multiset<T>, c: multiset<T>, d: multiset<T>, whole: multiset<T>, more: multiset<T>)
    requires Split4(a, b, c, d, whole)
    ensures Split4(a, b, c + more, d, whole + more)
  {
  }

  lemma Moves4<T(!new)>(a: multiset<T>, b: multiset<T>, c: multiset<T>, d: multiset<T>, whole: multiset<T>,
                        a': multiset<T>, b': multiset<T>, c': multiset<T>)
    requires Split4(a, b, c, d, whole) && c == c' + (a' + b')
    ensures Split4(a + a', b + b', c', d, whole)
  {
  }

  lemma Loses4<T(!new)>(a: multiset<T>, b: multiset<T>, c: multiset<T>, d: multiset<T>, whole: multiset<T>, c': multiset<T>, x: multiset<T>)
    requires Split4(a, b, c, d, whole) && c == c' + x
    ensures Split4(a, b, c', d + x, whole)
  {
  }

  // From A to B, when A has sent `x.sent`, as asked, and was shown `acks`.
  lemma SenderSide(n: Net, n': Net, sent: seq<CoreData>, acks: seq<Item>, skipped: seq<Item>)
    requires Sound(n) && n'.b == n.b && n'.lostAb == n.lostAb && n'.lostBa == n.lostBa && n'.ab == n.ab + sent
    requires n'.a.asked == n.a.asked + Items(sent)
    requires multiset(Acks(n.ba)) == multiset(Acks(n'.ba)) + (multiset(acks) + multiset(skipped))
    requires n'.a.Acked() == n.a.Acked() + acks && n'.a.unshown == n.a.unshown + skipped
    ensures Sound(n')
  {
    FlatConcat(ItemOf, n.ab, sent);
    Grows4(multiset(n.b.handed), multiset(n.b.ignored), multiset(Items(n.ab)), multiset(Items(n.lostAb)), multiset(n.a.asked),
           multiset(Items(sent)));
    Moves4(multiset(n.a.Acked()), multiset(n.a.unshown), multiset(Acks(n.ba)), multiset(Acks(n.lostBa)),
           multiset(Promises(n.b.handed, n.b.length)), multiset(acks), multiset(skipped), multiset(Acks(n'.ba)));
  }

  // From B to A, when A was handed `got` and has acknowledged it in `sent`.
  lemma ReceiverSide(n: Net, n': Net, sent: seq<CoreData>, got: seq<Item>, skipped: seq<Item>)
    requires Sound(Flip(n)) && n'.b == n.b && n'.lostAb == n.lostAb && n'.lostBa == n.lostBa && n'.ab == n.ab + sent
    requires n'.a.length == n.a.length && n'.a.handed == n.a.handed + got && n'.a.ignored == n.a.ignored + skipped
    requires multiset(Items(n.ba)) == multiset(Items(n'.ba)) + (multiset(got) + multiset(skipped))
    requires Acks(sent) == Promises(got, n.a.length)
    ensures Sound(Flip(n'))
  {
    FlatConcat(AckOf, n.ab, sent);
    FlatConcat(i => PromiseOf(i, n.a.length), n.a.handed, got);
    Moves4(multiset(n.a.handed), multiset(n.a.ignored), multiset(Items(n.ba)), multiset(Items(n.lostBa)), multiset(n.b.asked),
           multiset(got), multiset(skipped), multiset(Items(n'.ba)));
    Grows4(multiset(n.b.Acked()), multiset(n.b.unshown), multiset(Acks(n.ab)), multiset(Acks(n.lostAb)),
           multiset(Promises(n.a.handed, n.a.length)), multiset(Acks(sent)));
  }

  lemma EffectKeepsWitness(e: End, x: Effect, asked: seq<Item>, got: seq<Item>)
    requires Witnessed(e) && Payloads(x.shown) == FlatMap(PayloadOf, got)
    ensures Witnessed(AfterEffect(e, x, asked, got))
  {
    FlatConcat(DataOf, e.shown, x.shown);
    FlatConcat(PayloadOf, e.handed, got);
  }

  // An effect of A that neither hands anything over nor acknowledges anything.
  lemma QuietEffect(n: Net, x: Effect, asked: seq<Item>)
    requires SoundBothWays(n) && Items(x.sent) == asked && Acks(x.sent) == [] && Positives(x.shown) == [] && Payloads(x.shown) == []
    ensures SoundBothWays(n.(a := AfterEffect(n.a, x, asked, []), ab := n.ab + x.sent))
  {
    QuietSender(n, x, asked);
    QuietReceiver(n, x, asked);
    EffectKeepsWitness(n.a, x, asked, []);
  }

  lemma QuietSender(n: Net, x: Effect, asked: seq<Item>)
    requires Sound(n) && Items(x.sent) == asked && Positives(x.shown) == []
    ensures Sound(n.(a := AfterEffect(n.a, x, asked, []), ab := n.ab + x.sent))
  {
    FlatConcat(PositiveOf, n.a.shown, x.shown);
    SenderSide(n, n.(a := AfterEffect(n.a, x, asked, []), ab := n.ab + x.sent), x.sent, [], []);
  }

  lemma QuietReceiver(n: Net, x: Effect, asked: seq<Item>)
    requires Sound(Flip(n)) && Acks(x.sent) == []
    ensures Sound(Flip(n.(a := AfterEffect(n.a, x, asked, []), ab := n.ab + x.sent)))
  {
    ReceiverSide(n, n.(a := AfterEffect(n.a, x, asked, []), ab := n.ab + x.sent), x.sent, [], []);
  }

  lemma LossKeepsSound(n: Net, i: nat)
    requires SoundBothWays(n) && i < |n.ab|
    ensures SoundBothWays(n.(ab := RemoveAt(n.ab, i), lostAb := n.lostAb + [n.ab[i]]))
  {
    var m := n.ab[i];
    FlatWithout(ItemOf, n.ab, i);
    FlatWithout(AckOf, n.ab, i);
    FlatConcat(ItemOf, n.lostAb, [m]);
    FlatConcat(AckOf, n.lostAb, [m]);
    FlatOne(ItemOf, m);
    FlatOne(AckOf, m);
    Loses4(multiset(n.b.handed), multiset(n.b.ignored), multiset(Items(n.ab)), multiset(Items(n.lostAb)), multiset(n.a.asked),
           multiset(Items(RemoveAt(n.ab, i))), multiset(ItemOf(m)));
    Loses4(multiset(n.b.Acked()), multiset(n.b.unshown), multiset(Acks(n.ab)), multiset(Acks(n.lostAb)),
           multiset(Promises(n.a.handed, n.a.length)), multiset(Acks(RemoveAt(n.ab, i))), multiset(AckOf(m)));
  }

  lemma StepKeepsSound(c: Keys.Crypto, k: Keys.Session, n: Net, s: Step, n': Net)
    requires SoundBothWays(n) && NextA(c, k, n, s, n')
    ensures SoundBothWays(n')
  {
    match s
    case Obey(o, upgraded) =>
      OrderIsHonest(c, k, n.a.flags, o, upgraded, n.a.length);
      OrderShowsNothing(c, k, n.a.flags, o, upgraded, n.a.length);
      QuietEffect(n, OnOrder(c, k, n.a.flags, o, upgraded, n.a.length), AskedBy(o));
    case Receive(i) =>
      ReceiveKeepsSound(n, i);
    case Tick =>
      BeatIsHonest(n.a.flags);
      QuietEffect(n, OnBeat(n.a.flags), []);
    case Lose(i) =>
      LossKeepsSound(n, i);
  }

  // The net after A's session has handled the message at `i`.
  function AfterReceive(n: Net, i: nat): Net
    requires i < |n.ba|
  {
    var x := OnCore(n.a.flags, n.ba[i], n.a.length);
    n.(a := AfterMessage(n.a, x, n.ba[i]), ab := n.ab + x.sent, ba := RemoveAt(n.ba, i))
  }

  // What passing over a message does to the acknowledgements on their way to A.
  ghost function SkippedAck(f: Flags, m: CoreData): seq<Item>
  {
    if PassedOver(f, m) then AckOf(m) else []
  }

  lemma AckHistories(n: Net, i: nat)
    requires i < |n.ba|
    ensures var n', x := AfterReceive(n, i), OnCore(n.a.flags, n.ba[i], n.a.length);
            && n'.a.asked == n.a.asked + Items(x.sent)
            && n'.a.Acked() == n.a.Acked() + Positives(x.shown)
            && n'.a.unshown == n.a.unshown + SkippedAck(n.a.flags, n.ba[i])
  {
    var x := OnCore(n.a.flags, n.ba[i], n.a.length);
    CoreAcksHonestly(n.a.flags, n.ba[i], n.a.length);
    ShownAfter(n.a, x, n.ba[i]);
  }

  lemma ShownAfter(e: End, x: Effect, m: CoreData)
    ensures AfterMessage(e, x, m).Acked() == e.Acked() + Positives(x.shown)
    ensures AfterMessage(e, x, m).asked == e.asked
    ensures AfterMessage(e, x, m).unshown == e.unshown + SkippedAck(e.flags, m)
  {
    FlatConcat(PositiveOf, e.shown, x.shown);
  }

  lemma AckTaken(f: Flags, ba: seq<CoreData>, i: nat, length: nat)
    requires i < |ba|
    ensures multiset(Acks(ba)) ==
            multiset(Acks(RemoveAt(ba, i))) + (multiset(Positives(OnCore(f, ba[i], length).shown)) + multiset(SkippedAck(f, ba[i])))
  {
    FlatWithout(AckOf, ba, i);
    CoreShowsHonestly(f, ba[i], length);
  }

  lemma ReceiveKeepsSender(n: Net, i: nat)
    requires Sound(n) && i < |n.ba|
    ensures Sound(AfterReceive(n, i))
  {
    var x := OnCore(n.a.flags, n.ba[i], n.a.length);
    AckHistories(n, i);
    AckTaken(n.a.flags, n.ba, i, n.a.length);
    SenderSide(n, AfterReceive(n, i), x.sent, Positives(x.shown), SkippedAck(n.a.flags, n.ba[i]));
  }

  ghost function SkippedItem(f: Flags, m: CoreData): seq<Item>
  {
    if PassedOver(f, m) then ItemOf(m) else []
  }

  lemma ItemHistories(n: Net, i: nat)
    requires i < |n.ba|
    ensures var n', x := AfterReceive(n, i), OnCore(n.a.flags, n.ba[i], n.a.length);
            && n'.a.length == n.a.length
            && n'.a.handed == n.a.handed + Got(n.ba[i], x.shown)
            && n'.a.ignored == n.a.ignored + SkippedItem(n.a.flags, n.ba[i])
  {
  }

  lemma ItemTaken(f: Flags, ba: seq<CoreData>, i: nat, length: nat)
    requires i < |ba|
    ensures multiset(Items(ba)) ==
            multiset(Items(RemoveAt(ba, i))) + (multiset(Got(ba[i], OnCore(f, ba[i], length).shown)) + multiset(SkippedItem(f, ba[i])))
  {
    FlatWithout(ItemOf, ba, i);
    CoreHands(f, ba[i], length);
  }

  lemma ReceiveKeepsReceiver(n: Net, i: nat)
    requires Sound(Flip(n)) && i < |n.ba|
    ensures Sound(Flip(AfterReceive(n, i)))
  {
    var m, x := n.ba[i], OnCore(n.a.flags, n.ba[i], n.a.length);
    CoreAcksHonestly(n.a.flags, m, n.a.length);
    ItemHistories(n, i);
    ItemTaken(n.a.flags, n.ba, i, n.a.length);
    ReceiverSide(n, AfterReceive(n, i), x.sent, Got(m, x.shown), SkippedItem(n.a.flags, m));
  }

  lemma ReceiveKeepsSound(n: Net, i: nat)
    requires SoundBothWays(n) && i < |n.ba|
    ensures SoundBothWays(AfterReceive(n, i))
  {
    var m, x := n.ba[i], OnCore(n.a.flags, n.ba[i], n.a.length);
    ReceiveKeepsSender(n, i);
    ReceiveKeepsReceiver(n, i);
    CoreHandsNoMore(n.a.flags, m, n.a.length);
    EffectKeepsWitness(n.a, x, [], Got(m, x.shown));
  }

  lemma NextKeepsSound(c: Keys.Crypto, k: Keys.Session, n: Net, byA: bool, s: Step, n': Net)
    ensures SoundBothWays(n) && Next(c, k, n, byA, s, n') ==> SoundBothWays(n')
  {
    if SoundBothWays(n) && Next(c, k, n, byA, s, n') {
      if byA {
        StepKeepsSound(c, k, n, s, n');
      } else {
        assert Flip(Flip(n)) == n && Flip(Flip(n')) == n';
        StepKeepsSound(c, k, Flip(n), s, Flip(n'));
      }
    }
  }

  // ---------------------------------------------------------------- every run

  ghost predicate NoHistory(e: End)
  {
    e.asked == [] && e.handed == [] && e.shown == [] && e.ignored == [] && e.unshown == []
  }

  // Two new sessions and two empty channels.
  ghost predicate Fresh(n: Net)
  {
    && n.ab == [] && n.ba == [] && n.lostAb == [] && n.lostBa == []
    && NoHistory(n.a) && NoHistory(n.b)
  }

  lemma FreshIsSound(n: Net)
    requires Fresh(n)
    ensures SoundBothWays(n)
  {
  }

  ghost predicate IsRun(c: Keys.Crypto, k: Keys.Session, moves: seq<(bool, Step)>, ns: seq<Net>)
  {
    && |ns| == |moves| + 1 && Fresh(ns[0])
    && forall i :: 0 <= i < |moves| ==> Next(c, k, ns[i], moves[i].0, moves[i].1, ns[i + 1])
  }

  lemma MoveOfRun(c: Keys.Crypto, k: Keys.Session, moves: seq<(bool, Step)>, ns: seq<Net>, i: nat)
    requires IsRun(c, k, moves, ns) && 0 < i < |ns|
    ensures SoundBothWays(ns[i - 1]) ==> SoundBothWays(ns[i])
  {
    NextKeepsSound(c, k, ns[i - 1], moves[i - 1].0, moves[i - 1].1, ns[i - 1 + 1]);
  }

  lemma StartOfRun(c: Keys.Crypto, k: Keys.Session, moves: seq<(bool, Step)>, ns: seq<Net>)
    requires IsRun(c, k, moves, ns)
    ensures SoundBothWays(ns[0])
  {
    FreshIsSound(ns[0]);
  }

  // Every net of every run keeps the account.
  lemma EveryRunIsSound(c: Keys.Crypto, k: Keys.Session, moves: seq<(bool, Step)>, ns: seq<Net>, n: nat)
    requires IsRun(c, k, moves, ns) && n < |ns|
    ensures SoundBothWays(ns[n])
  {
    var i := 0;
    StartOfRun(c, k, moves, ns);
    while i < n
      invariant i <= n && SoundBothWays(ns[i])
    {
      i := i + 1;
      MoveOfRun(c, k, moves, ns, i);
    }
  }

  // ---------------------------------------------------------------- counting

  ghost function Count(items: seq<Item>, kind: DeliveryType, tid: U64): nat
  {
    if items == [] then 0
    else Count(items[..|items| - 1], kind, tid) + if items[|items| - 1].kind == kind && items[|items| - 1].tid == tid then 1 else 0
  }

  lemma {:induction false} CountConcat(x: seq<Item>, y: seq<Item>, kind: DeliveryType, tid: U64)
    ensures Count(x + y, kind, tid) == Count(x, kind, tid) + Count(y, kind, tid)
  {
    if y == [] {
      assert x + y == x;
    } else {
      assert (x + y)[..|x + y| - 1] == x + y[..|y| - 1];
      CountConcat(x, y[..|y| - 1], kind, tid);
    }
  }

  lemma CancelOne<T>(a: multiset<T>, b: multiset<T>, x: T)
    requires a + multiset{x} <= b + multiset{x}
    ensures a <= b
  {
    forall y ensures a[y] <= b[y] {
      assert (a + multiset{x})[y] <= (b + multiset{x})[y];
    }
  }

  lemma TakeOne(y: seq<Item>, i: Item, kind: DeliveryType, tid: U64) returns (rest: seq<Item>)
    requires i in y
    ensures multiset(y) == multiset(rest) + multiset{i}
    ensures Count(y, kind, tid) == Count(rest, kind, tid) + Count([i], kind, tid)
  {
    var j :| 0 <= j < |y| && y[j] == i;
    rest := y[..j] + y[j + 1..];
    assert y == y[..j] + ([i] + y[j + 1..]);
    CountConcat(y[..j], [i] + y[j + 1..], kind, tid);
    CountConcat([i], y[j + 1..], kind, tid);
    CountConcat(y[..j], y[j + 1..], kind, tid);
  }

  // A part of a collection has no more of anything than the whole.
  lemma {:induction false} PartCountsLess(x: seq<Item>, y: seq<Item>, kind: DeliveryType, tid: U64)
    requires multiset(x) <= multiset(y)
    ensures Count(x, kind, tid) <= Count(y, kind, tid)
    decreases |x|
  {
    if x == [] {
    } else {
      var x', i := x[..|x| - 1], x[|x| - 1];
      assert x == x' + [i];
      assert multiset(x) == multiset(x') + multiset{i};
      assert i in multiset(x) && i in multiset(y);
      var y' := TakeOne(y, i, kind, tid);
      CancelOne(multiset(x'), multiset(y'), i);
      PartCountsLess(x', y', kind, tid);
      CountConcat(x', [i], kind, tid);
    }
  }

  lemma PromisesSnoc(items: seq<Item>, i: Item, length: nat)
    ensures Promises(items + [i], length) == Promises(items, length) + PromiseOf(i, length)
  {
    FlatConcat(i => PromiseOf(i, length), items, [i]);
    PromisesOne(i, length);
  }

  lemma PromiseCounts(i: Item, length: nat, kind: DeliveryType, tid: U64)
    ensures Count(PromiseOf(i, length), kind, tid) == if tid != 0 then Count([i], kind, tid) else 0
  {
    if i.tid != 0 {
      assert PromiseOf(i, length)[..0] == [i][..0] == [];
    }
  }

  lemma {:induction false} PromisesCount(items: seq<Item>, length: nat, kind: DeliveryType, tid: U64)
    ensures Count(Promises(items, length), kind, tid) == if tid != 0 then Count(items, kind, tid) else 0
  {
    if items == [] {
    } else {
      var rest, i := items[..|items| - 1], items[|items| - 1];
      assert items == rest + [i];
      PromisesCount(rest, length, kind, tid);
      PromisesSnoc(rest, i, length);
      PromiseCounts(i, length, kind, tid);
      CountConcat(Promises(rest, length), PromiseOf(i, length), kind, tid);
      CountConcat(rest, [i], kind, tid);
    }
  }

  // Every acknowledgement was promised for some message, whose data it begins.
  lemma {:induction false} PromiseHasOrigin(items: seq<Item>, length: nat, p: Item) returns (i: Item)
    requires p in Promises(items, length)
    ensures i in items && i.kind == p.kind && i.tid == p.tid != 0 && p.data == Split(i.data, length) && p.data <= i.data
  {
    if items == [] {
      assert false;
    } else {
      var rest := items[..|items| - 1];
      i := items[|items| - 1];
      assert items == rest + [i];
      PromisesSnoc(rest, i, length);
      if p in Promises(rest, length) {
        i := PromiseHasOrigin(rest, length, p);
      }
    }
  }

  // No phantom acknowledgement. At every point of every run, A's application has been
  // shown no more positive deliveries of a kind and id than B's application was handed
  // messages of that kind and id, B was handed no more of them than A asked to send, and
  // every payload shown begins the data of a message that A asked to send. What B was
  // handed is, one by one, the data that B's application was shown.
  lemma NoPhantomAck(c: Keys.Crypto, k: Keys.Session, moves: seq<(bool, Step)>, ns: seq<Net>, n: nat, kind: DeliveryType, tid: U64)
    requires IsRun(c, k, moves, ns) && n < |ns|
    ensures Payloads(ns[n].b.shown) == FlatMap(PayloadOf, ns[n].b.handed)
    ensures Count(ns[n].a.Acked(), kind, tid) <= Count(ns[n].b.handed, kind, tid) <= Count(ns[n].a.asked, kind, tid)
    ensures forall p :: p in ns[n].a.Acked() ==>
              exists i :: i in ns[n].a.asked && i.kind == p.kind && i.tid == p.tid && p.data == Split(i.data, ns[n].b.length) && p.data <= i.data
  {
    EveryRunIsSound(c, k, moves, ns, n);
    var a, b := ns[n].a, ns[n].b;
    assert multiset(a.Acked()) <= multiset(Promises(b.handed, b.length));
    assert multiset(b.handed) <= multiset(a.asked);
    PartCountsLess(a.Acked(), Promises(b.handed, b.length), kind, tid);
    PromisesCount(b.handed, b.length, kind, tid);
    PartCountsLess(b.handed, a.asked, kind, tid);
    forall p | p in a.Acked()
      ensures exists i :: i in a.asked && i.kind == p.kind && i.tid == p.tid && p.data == Split(i.data, b.length) && p.data <= i.data
    {
      assert p in multiset(a.Acked());
      assert p in multiset(Promises(b.handed, b.length));
      var i := PromiseHasOrigin(b.handed, b.length, p);
      assert i in multiset(b.handed);
      assert i in multiset(a.asked);
    }
  }

  // ---------------------------------------------------------------- nothing is missing

  lemma SameCount(x: seq<Item>, y: seq<Item>, kind: DeliveryType, tid: U64)
    requires multiset(x) == multiset(y)
    ensures Count(x, kind, tid) == Count(y, kind, tid)
  {
    PartCountsLess(x, y, kind, tid);
    PartCountsLess(y, x, kind, tid);
  }

  lemma MultisetOf4<T>(a: seq<T>, b: seq<T>, c: seq<T>, d: seq<T>)
    ensures multiset((a + b) + (c + d)) == multiset(a) + multiset(b) + (multiset(c) + multiset(d))
  {
  }

  lemma CountsAdd(a: seq<Item>, b: seq<Item>, c: seq<Item>, d: seq<Item>, whole: seq<Item>, kind: DeliveryType, tid: U64)
    requires Split4(multiset(a), multiset(b), multiset(c), multiset(d), multiset(whole))
    ensures Count((a + b) + (c + d), kind, tid) == Count(whole, kind, tid)
  {
    MultisetOf4(a, b, c, d);
    SameCount((a + b) + (c + d), whole, kind, tid);
  }

  // Where the messages of a net from A to B are: handed over, passed over, on their way, lost.
  ghost function Whereabouts(n: Net): seq<Item>
  {
    (n.b.handed + n.b.ignored) + (Items(n.ab) + Items(n.lostAb))
  }

  // And the acknowledgements of B: shown, passed over, on their way back, lost.
  ghost function AckWhereabouts(n: Net): seq<Item>
  {
    (n.a.Acked() + n.a.unshown) + (Acks(n.ba) + Acks(n.lostBa))
  }

  // At every point of every run, of every kind and id, exactly as many messages as A asked to
  // send are in these places, and exactly as many acknowledgements as B was handed messages.
  lemma EveryMessageAccounted(c: Keys.Crypto, k: Keys.Session, moves: seq<(bool, Step)>, ns: seq<Net>, n: nat, kind: DeliveryType, tid: U64)
    requires IsRun(c, k, moves, ns) && n < |ns|
    ensures Count(Whereabouts(ns[n]), kind, tid) == Count(ns[n].a.asked, kind, tid)
    ensures Count(AckWhereabouts(ns[n]), kind, tid) == if tid != 0 then Count(ns[n].b.handed, kind, tid) else 0
  {
    EveryRunIsSound(c, k, moves, ns, n);
    var a, b := ns[n].a, ns[n].b;
    CountsAdd(b.handed, b.ignored, Items(ns[n].ab), Items(ns[n].lostAb), a.asked, kind, tid);
    CountsAdd(a.Acked(), a.unshown, Acks(ns[n].ba), Acks(ns[n].lostBa), Promises(b.handed, b.length), kind, tid);
    PromisesCount(b.handed, b.length, kind, tid);
  }

  // Once everything has arrived and nothing was lost or passed over, A has been shown exactly
  // as many positive deliveries of a kind and id as it asked to send.
  lemma NothingMissing(c: Keys.Crypto, k: Keys.Session, moves: seq<(bool, Step)>, ns: seq<Net>, n: nat, kind: DeliveryType, tid: U64)
    requires IsRun(c, k, moves, ns) && n < |ns| && tid != 0
    requires ns[n].ab == [] && ns[n].ba == [] && ns[n].lostAb == [] && ns[n].lostBa == []
    requires ns[n].b.ignored == [] && ns[n].a.unshown == []
    ensures Count(ns[n].a.Acked(), kind, tid) == Count(ns[n].b.handed, kind, tid) == Count(ns[n].a.asked, kind, tid)
  {
    EveryMessageAccounted(c, k, moves, ns, n, kind, tid);
    NothingAround(ns[n]);
  }

  lemma NothingAround(n: Net)
    requires n.ab == [] && n.ba == [] && n.lostAb == [] && n.lostBa == [] && n.b.ignored == [] && n.a.unshown == []
    ensures Whereabouts(n) == n.b.handed && AckWhereabouts(n) == n.a.Acked()
  {
  }

  // An acknowledgement that is handled is shown then and there, with its data, unless it is
  // of data and the session takes none.
  lemma AckArrives(c: Keys.Crypto, k: Keys.Session, n: Net, i: nat, n': Net)
    requires NextA(c, k, n, Receive(i), n')
    ensures n'.a.Acked() == n.a.Acked() + if n.ba[i].Delivery? && n.ba[i].kind == OfData && !n.a.flags.recvData then [] else AckOf(n.ba[i])
  {
    AckHistories(n, i);
    CoreShowsHonestly(n.a.flags, n.ba[i], n.a.length);
  }

  // One exchange without loss, between sessions that take data: the message an order asks
  // for is handed to the other application, acknowledged, and the acknowledgement is shown
  // with as much of the data as the other end sends back.
  lemma Exchange(c: Keys.Crypto, k: Keys.Session, f: Flags, g: Flags, o: Order, upgraded: bool, length: nat, length': nat)
    requires AskedBy(o) != [] && AskedBy(o)[0].tid != 0 && f.recvData && g.recvData
    ensures var i, x := AskedBy(o)[0], OnOrder(c, k, f, o, upgraded, length);
            && |x.sent| == 1
            && var y := OnCore(g, x.sent[0], length');
               && |y.shown| == 1 && DataOf(y.shown[0]) == [(i.kind, i.data)] && |y.sent| == 1
               && OnCore(x.flags, y.sent[0], length).shown ==
                  [ShownDelivery(i.kind, i.tid, true, i.data[..if |i.data| < length' then |i.data| else length'])]
  {
    SplitIsPrefix(AskedBy(o)[0].data, length');
  }

  // A message that comes back undelivered is reported as such, exactly when it could have
  // been acknowledged.
  lemma BounceReports(c: Keys.Crypto, k: Keys.Session, f: Flags, m: CoreData, upgraded: bool, length: nat)
    requires c.Laws()
    ensures var x := OnOrder(c, k, f, Bounced(Seal(c, k, m)), upgraded, length);
            && x.flags == f && x.alive && x.sent == []
            && x.shown == if ItemOf(m) == [] || ItemOf(m)[0].tid == 0 then []
                          else
                            var i := ItemOf(m)[0];
                            [ShownDelivery(i.kind, i.tid, false, i.data[..if |i.data| < length then |i.data| else length])]
  {
    RoundTrip(m);
    if ItemOf(m) != [] {
      SplitIsPrefix(ItemOf(m)[0].data, length);
    }
  }
}
