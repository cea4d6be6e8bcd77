/** `CoreData`, the encrypted messages of a session, and their bytes (src/session.rs:934-1061). */
module Core {
  import opened Wrappers
  import opened Bytes

  datatype DeliveryType = OfData | OfConnect | OfResult

  datatype CoreData =
    | Ping
    | Pong
    | Data(tid: U64, data: seq<byte>)
    | Delivery(kind: DeliveryType, tid: U64, data: seq<byte>)
    | StableConnect(tid: U64, data: seq<byte>)
    | StableResult(tid: U64, isOk: bool, data: seq<byte>)
    | ResultConnect(tid: U64, data: seq<byte>)
    | Unstable

  function KindToByte(k: DeliveryType): byte
  {
    match k
    case OfData => 0
    case OfConnect => 1
    case OfResult => 2
  }

  function Encode(m: CoreData): seq<byte>
  {
    match m
    case Ping => [1]
    case Pong => [2]
    case Data(tid, d) => [3] + ToLe(tid, 8) + d
    case Delivery(k, tid, d) => [4] + [KindToByte(k)] + ToLe(tid, 8) + d
    case StableConnect(tid, d) => [5] + ToLe(tid, 8) + d
    case StableResult(tid, ok, d) => [6] + ToLe(tid, 8) + [if ok then 1 else 0] + d
    case ResultConnect(tid, d) => [7] + ToLe(tid, 8) + d
    case Unstable => [8]
  }

  function Tid(b: seq<byte>): U64
    requires |b| == 8
  {
    LeBounded(b);
    Widths();
    FromLe(b)
  }

  function Decode(bytes: seq<byte>): Result<CoreData>
  {
    if |bytes| < 1 then Err
    else
      var t, b := bytes[0], bytes[1..];
      if t == 1 then Ok(Ping)
      else if t == 2 then Ok(Pong)
      else if t == 3 then if |b| < 8 then Err else Ok(Data(Tid(b[..8]), b[8..]))
      else if t == 4 then
        if |b| < 9 then Err
        else if b[0] == 0 then Ok(Delivery(OfData, Tid(b[1..9]), b[9..]))
        else if b[0] == 1 then Ok(Delivery(OfConnect, Tid(b[1..9]), b[9..]))
        else if b[0] == 2 then Ok(Delivery(OfResult, Tid(b[1..9]), b[9..]))
        else Err
      else if t == 5 then if |b| < 8 then Err else Ok(StableConnect(Tid(b[..8]), b[8..]))
      else if t == 6 then if |b| < 9 then Err else Ok(StableResult(Tid(b[..8]), b[8] == 1, b[9..]))
      else if t == 7 then if |b| < 8 then Err else Ok(ResultConnect(Tid(b[..8]), b[8..]))
      else if t == 8 then Ok(Unstable)
      else Err
  }

  lemma TidFirst(tid: U64, d: seq<byte>)
    ensures var b := ToLe(tid, 8) + d; Tid(b[..8]) == tid && b[8..] == d
  {
    assert (ToLe(tid, 8) + d)[..8] == ToLe(tid, 8);
    Widths();
    LeRoundTrip(tid, 8);
  }

  lemma DeliveryRoundTrip(k: DeliveryType, tid: U64, d: seq<byte>)
    ensures Decode(Encode(Delivery(k, tid, d))) == Ok(Delivery(k, tid, d))
  {
    var b := Encode(Delivery(k, tid, d))[1..];
    TidFirst(tid, d);
    assert b[1..9] == (ToLe(tid, 8) + d)[..8] && b[9..] == (ToLe(tid, 8) + d)[8..];
  }

  lemma ResultRoundTrip(tid: U64, ok: bool, d: seq<byte>)
    ensures Decode(Encode(StableResult(tid, ok, d))) == Ok(StableResult(tid, ok, d))
  {
    var b := Encode(StableResult(tid, ok, d))[1..];
    TidFirst(tid, [if ok then 1 else 0] + d);
    assert b == ToLe(tid, 8) + ([if ok then 1 else 0] + d);
    assert b[9..] == b[8..][1..] && b[8] == b[8..][0];
  }

  lemma Untagged(tag: byte, x: seq<byte>, d: seq<byte>)
    ensures ([tag] + x + d)[1..] == x + d
  {
  }

  lemma DataRoundTrip(tid: U64, d: seq<byte>)
    ensures Decode(Encode(Data(tid, d))) == Ok(Data(tid, d))
  {
    TidFirst(tid, d);
    Untagged(3, ToLe(tid, 8), d);
  }

  lemma ConnectRoundTrip(tid: U64, d: seq<byte>)
    ensures Decode(Encode(StableConnect(tid, d))) == Ok(StableConnect(tid, d))
  {
    TidFirst(tid, d);
    Untagged(5, ToLe(tid, 8), d);
  }

  lemma ResultConnectRoundTrip(tid: U64, d: seq<byte>)
    ensures Decode(Encode(ResultConnect(tid, d))) == Ok(ResultConnect(tid, d))
  {
    TidFirst(tid, d);
    Untagged(7, ToLe(tid, 8), d);
  }

  // Every session message decodes from its own bytes to itself.
  lemma RoundTrip(m: CoreData)
    ensures Decode(Encode(m)) == Ok(m)
  {
    match m
    case Data(tid, d) => DataRoundTrip(tid, d);
    case Delivery(k, tid, d) => DeliveryRoundTrip(k, tid, d);
    case StableConnect(tid, d) => ConnectRoundTrip(tid, d);
    case StableResult(tid, ok, d) => ResultRoundTrip(tid, ok, d);
    case ResultConnect(tid, d) => ResultConnectRoundTrip(tid, d);
    case _ =>
  }

  // The bytes of every session message: its tag, the id least significant byte first, and
  // then the data.
  lemma Layout(m: CoreData)
    ensures Encode(m) ==
            match m
            case Ping => [1]
            case Pong => [2]
            case Data(tid, d) => [3] + (ToLe(tid, 8) + d)
            case Delivery(k, tid, d) => [4] + ([match k case OfData => 0 case OfConnect => 1 case OfResult => 2] + (ToLe(tid, 8) + d))
            case StableConnect(tid, d) => [5] + (ToLe(tid, 8) + d)
            case StableResult(tid, ok, d) => [6] + (ToLe(tid, 8) + ([if ok then 1 else 0] + d))
            case ResultConnect(tid, d) => [7] + (ToLe(tid, 8) + d)
            case Unstable => [8]
  {
  }

  lemma TidBytes(b: seq<byte>)
    requires |b| == 8
    ensures ToLe(Tid(b), 8) == b
  {
    LeInverse(b);
  }

  // Whatever bytes decode, decode to a message of the kind their first byte names; and the
  // bytes are the message's own, up to what is ignored: anything behind a message without
  // data, and the value of a flag byte that is not 1.
  lemma DecodedFaithfully(b: seq<byte>)
    requires Decode(b).Ok?
    ensures var m := Decode(b).value;
            && b != [] && b[0] == Encode(m)[0]
            && (m.Data? || m.Delivery? || m.StableConnect? || m.ResultConnect? ==> b == Encode(m))
            && (m.StableResult? ==> b[..9] == Encode(m)[..9] && b[10..] == m.data && (m.isOk <==> b[9] == 1))
  {
    var m := Decode(b).value;
    if m.Delivery? {
      DecodedDelivery(b);
    } else if m.StableResult? {
      DecodedResult(b);
    } else if m.Data? || m.StableConnect? || m.ResultConnect? {
      DataBytes(b, 0);
      Untagged(b[0], ToLe(m.tid, 8), m.data);
    }
  }

  lemma DecodedDelivery(b: seq<byte>)
    requires Decode(b).Ok? && Decode(b).value.Delivery?
    ensures b == Encode(Decode(b).value)
  {
    var m := Decode(b).value;
    DataBytes(b, 1);
    Layout(m);
  }

  lemma DecodedResult(b: seq<byte>)
    requires Decode(b).Ok? && Decode(b).value.StableResult?
    ensures var m := Decode(b).value;
            b[0] == Encode(m)[0] && b[..9] == Encode(m)[..9] && b[10..] == m.data && (m.isOk <==> b[9] == 1)
  {
    var m := Decode(b).value;
    DataBytes(b, 0);
    Layout(m);
    assert Encode(m)[..9] == [6] + ToLe(m.tid, 8);
  }

  // The id and the data behind `skip` bytes after the tag.
  lemma DataBytes(b: seq<byte>, skip: nat)
    requires 9 + skip <= |b|
    ensures ToLe(Tid(b[1..][skip..skip + 8]), 8) + b[1..][skip + 8..] == b[1 + skip..]
    ensures b == [b[0]] + b[1..] && (1 <= skip ==> b[1..] == [b[1]] + b[2..])
    ensures b[1..9] == b[1..][..8]
  {
    TidBytes(b[1..][skip..skip + 8]);
    assert b[1..][skip..skip + 8] + b[1..][skip + 8..] == b[1 + skip..];
  }
}
