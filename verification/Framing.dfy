/** Frames between a worker and its inference server, and the request-id prefix of binary messages
    (client/node/src/ws_worker.rs, inference/node_forward.py). JSON is an opaque byte string. */
module Framing {
  import opened Wrappers

  type Byte = b: nat | b < 0x100
  type Bytes = seq<Byte>

  const U32 := 0x1_0000_0000

  datatype Message = Message(json: Bytes, data: Bytes)

  /** The k low bytes, little-endian. */
  function Le(n: nat, k: nat): (bs: Bytes)
    ensures |bs| == k
  {
    if k == 0 then [] else [n % 0x100] + Le(n / 0x100, k - 1)
  }

  /** A cast to u32, written out. */
  function LeBytes(n: nat): (bs: Bytes)
    ensures |bs| == 4
  {
    Le(n, 4)
  }

  function FromLe(bs: Bytes): nat {
    if bs == [] then 0 else bs[0] as nat + 0x100 * FromLe(bs[1..])
  }

  lemma {:induction false} LeStep(n: nat, k: nat)
    requires k > 0
    ensures FromLe(Le(n, k)) == n % 0x100 + 0x100 * FromLe(Le(n / 0x100, k - 1))
  {
    assert Le(n, k)[1..] == Le(n / 0x100, k - 1);
  }

  lemma {:induction false} LeRoundTrip(n: nat)
    ensures FromLe(LeBytes(n)) == n % U32
  {
    var n1, n2, n3 := n / 0x100, n / 0x100 / 0x100, n / 0x100 / 0x100 / 0x100;
    LeStep(n, 4);
    LeStep(n1, 3);
    LeStep(n2, 2);
    LeStep(n3, 1);
    FourDigits(n);
  }

  lemma FourDigits(n: nat)
    ensures var n1, n2, n3 := n / 0x100, n / 0x100 / 0x100, n / 0x100 / 0x100 / 0x100;
      n % 0x100 + 0x100 * (n1 % 0x100 + 0x100 * (n2 % 0x100 + 0x100 * (n3 % 0x100))) == n % U32
  {
    var n1, n2, n3 := n / 0x100, n / 0x100 / 0x100, n / 0x100 / 0x100 / 0x100;
    assert n3 / 0x100 == n / U32;
  }

  function Encode(m: Message): Bytes {
    LeBytes(|m.json| + |m.data|) + LeBytes(|m.json|) + m.json + m.data
  }

  /** One message off the front of a stream, if all of it is there. */
  function Decode(stream: Bytes): (r: Option<(Message, Bytes)>)
    ensures r.Some? ==> |r.value.1| + 8 <= |stream|
  {
    if |stream| < 8 then None
    else
      Body(FromLe(stream[..4]), FromLe(stream[4..8]), stream[8..])
  }

  /** The part after the two lengths. */
  function Body(total: nat, jsonLen: nat, rest: Bytes): (r: Option<(Message, Bytes)>)
    ensures r.Some? ==> |r.value.1| <= |rest|
  {
    var dataLen := if total < jsonLen then 0 else total - jsonLen;
    if |rest| < jsonLen + dataLen then None
    else Some((Message(rest[..jsonLen], rest[jsonLen..jsonLen + dataLen]), rest[jsonLen + dataLen..]))
  }

  function DecodeAll(stream: Bytes): seq<Message>
    decreases |stream|
  {
    var next := Decode(stream);
    if next.None? then [] else [next.value.0] + DecodeAll(next.value.1)
  }

  function EncodeAll(messages: seq<Message>): Bytes {
    if messages == [] then [] else Encode(messages[0]) + EncodeAll(messages[1..])
  }

  /** Four bytes as a number, the lowest byte first. */
  function Weighed(bs: Bytes): nat
    requires |bs| == 4
  {
    bs[0] as nat + 0x100 * bs[1] as nat + 0x1_0000 * bs[2] as nat + 0x100_0000 * bs[3] as nat
  }

  lemma HeaderIs(n: nat)
    ensures Weighed(LeBytes(n)) == n % U32
  {
    var a := n / 0x100;
    var b := a / 0x100;
    var c := b / 0x100;
    assert Le(c, 1) == [c % 0x100] && Le(b, 2) == [b % 0x100] + Le(c, 1);
    assert Le(a, 3) == [a % 0x100] + Le(b, 2) && Le(n, 4) == [n % 0x100] + Le(a, 3);
    FourDigits(n);
  }

  lemma Parts(a: Bytes, b: Bytes, c: Bytes, d: Bytes)
    requires |a| == |b| == 4
    ensures (a + b + c + d)[..4] == a && (a + b + c + d)[4..8] == b && (a + b + c + d)[8..] == c + d
  {
  }

  /** Frame building: lengths, header, data. Whatever follows on the stream, the receiver reads just this
      message off it, unless it is too long for the length field. */
  method BuildFrame(m: Message) returns (frame: Bytes)
    ensures frame == Encode(m)
    ensures |frame| == 8 + |m.json| + |m.data| && frame[8..] == m.json + m.data
    ensures Weighed(frame[..4]) == (|m.json| + |m.data|) % U32 && Weighed(frame[4..8]) == |m.json| % U32
    ensures forall rest :: Decode(frame + rest) == Some((m, rest)) <==> Fits(m)
    ensures Fits(m) ==> forall n :: 0 <= n < |frame| ==> Decode(frame[..n]) == None
  {
    forall rest ensures Decode(Encode(m) + rest) == Some((m, rest)) <==> Fits(m) {
      RoundTripIff(m, rest);
    }
    if Fits(m) {
      forall n | 0 <= n < |Encode(m)| ensures Decode(Encode(m)[..n]) == None {
        CutMessage(m, n);
      }
    }
    var total := |m.json| + |m.data|;
    HeaderIs(total);
    HeaderIs(|m.json|);
    Parts(LeBytes(total), LeBytes(|m.json|), m.json, m.data);
    frame := [];
    frame := frame + LeBytes(total);
    frame := frame + LeBytes(|m.json|);
    frame := frame + m.json;
    frame := frame + m.data;
  }

  /** The server's loop over one connection, until the stream ends or stops inside a message. */
  method ServeStream(stream: Bytes) returns (messages: seq<Message>)
    ensures messages == DecodeAll(stream)
  {
    messages := [];
    var rest := stream;
    while true
      invariant messages + DecodeAll(rest) == DecodeAll(stream)
      decreases |rest|
    {
      if |rest| < 8 {
        break;
      }
      var total, jsonLen := FromLe(rest[..4]), FromLe(rest[4..8]);
      var dataLen := if total < jsonLen then 0 else total - jsonLen;
      var body := rest[8..];
      if |body| < jsonLen + dataLen {
        break;
      }
      var message := Message(body[..jsonLen], body[jsonLen..jsonLen + dataLen]);
      OneMore(messages, rest, message, body[jsonLen + dataLen..]);
      messages, rest := messages + [message], body[jsonLen + dataLen..];
    }
  }

  lemma OneMore(messages: seq<Message>, stream: Bytes, m: Message, rest: Bytes)
    requires Decode(stream) == Some((m, rest))
    ensures messages + DecodeAll(stream) == messages + [m] + DecodeAll(rest)
  {
    assert messages + ([m] + DecodeAll(rest)) == messages + [m] + DecodeAll(rest);
  }

  predicate Fits(m: Message) { |m.json| + |m.data| < U32 }

  lemma HeaderOf(m: Message, rest: Bytes)
    ensures var stream := Encode(m) + rest;
      && |stream| >= 8 && stream[8..] == m.json + m.data + rest
      && FromLe(stream[..4]) == (|m.json| + |m.data|) % U32 && FromLe(stream[4..8]) == |m.json| % U32
  {
    HeaderParts(LeBytes(|m.json| + |m.data|), LeBytes(|m.json|), m.json, m.data, rest);
    LeRoundTrip(|m.json| + |m.data|);
    LeRoundTrip(|m.json|);
  }

  lemma HeaderParts(a: Bytes, b: Bytes, json: Bytes, data: Bytes, rest: Bytes)
    requires |a| == 4 && |b| == 4
    ensures var stream := a + b + json + data + rest;
      |stream| >= 8 && stream[..4] == a && stream[4..8] == b && stream[8..] == json + data + rest
  {
  }

  lemma FitsIff(n: nat)
    ensures n % U32 == n <==> n < U32
  {
  }

  /** A message is read back, and the rest of the stream left, exactly when its length fits in 32 bits. */
  lemma RoundTripIff(m: Message, rest: Bytes)
    ensures Decode(Encode(m) + rest) == Some((m, rest)) <==> Fits(m)
  {
    HeaderOf(m, rest);
    var n, j := |m.json| + |m.data|, |m.json|;
    FitsIff(n);
    FitsIff(j);
    assert j % U32 <= j;
    BodyIff(m, rest, n % U32, j % U32);
  }

  lemma BodyIff(m: Message, rest: Bytes, total: nat, jsonLen: nat)
    requires jsonLen <= |m.json| && (m.data == [] ==> total == jsonLen)
    ensures Body(total, jsonLen, m.json + m.data + rest) == Some((m, rest))
      <==> total == |m.json| + |m.data| && jsonLen == |m.json|
  {
    var body, j, n := m.json + m.data + rest, |m.json|, |m.json| + |m.data|;
    assert body[..j] == m.json && body[j..n] == m.data && body[n..] == rest;
  }

  /** Whatever comes in: a message is taken off if and only if the stream holds the eight bytes of its lengths
      and the longer of them; a length of JSON above the total makes the data empty. */
  lemma DecodeIff(stream: Bytes)
    ensures |stream| < 8 ==> Decode(stream) == None
    ensures |stream| >= 8 ==>
      var total, json, rest := Weighed(stream[..4]), Weighed(stream[4..8]), stream[8..];
      var end := if json > total then json else total;
      Decode(stream) ==
        if |rest| < end then None else Some((Message(rest[..json], rest[json..end]), rest[end..]))
  {
    if |stream| >= 8 {
      WeighedIs(stream[..4]);
      WeighedIs(stream[4..8]);
    }
  }

  lemma WeighedIs(bs: Bytes)
    requires |bs| == 4
    ensures FromLe(bs) == Weighed(bs)
  {
    var b1, b2, b3 := bs[1..], bs[2..], bs[3..];
    assert b1[1..] == b2 && b2[1..] == b3 && b3[1..] == [];
    assert FromLe(b3) == bs[3] as nat;
    assert FromLe(b2) == bs[2] as nat + 0x100 * FromLe(b3);
    assert FromLe(b1) == bs[1] as nat + 0x100 * FromLe(b2);
  }

  /** Any list of messages survives the stream. */
  lemma {:induction false} StreamRoundTrip(messages: seq<Message>)
    requires forall i :: 0 <= i < |messages| ==> Fits(messages[i])
    ensures DecodeAll(EncodeAll(messages)) == messages
  {
    if messages != [] {
      ReadFirst(messages[0], EncodeAll(messages[1..]));
      StreamRoundTrip(messages[1..]);
    }
  }

  /** A message that is not all there is not read. */
  lemma CutMessage(m: Message, n: nat)
    requires Fits(m) && n < |Encode(m)|
    ensures Decode(Encode(m)[..n]) == None
  {
    var whole := Encode(m);
    HeaderOf(m, []);
    assert whole + [] == whole;
    FitsIff(|m.json| + |m.data|);
    FitsIff(|m.json|);
    if n >= 8 {
      SameHeader(whole, n);
    }
  }

  lemma SameHeader(whole: Bytes, n: nat)
    requires 8 <= n <= |whole|
    ensures whole[..n][..4] == whole[..4] && whole[..n][4..8] == whole[4..8]
  {
    SliceOfSlice(whole, 0, 4, n);
    SliceOfSlice(whole, 4, 8, n);
  }

  lemma SliceOfSlice(s: Bytes, a: nat, b: nat, n: nat)
    requires a <= b <= n <= |s|
    ensures s[..n][a..b] == s[a..b]
  {
  }

  lemma ReadFirst(m: Message, rest: Bytes)
    requires Fits(m)
    ensures DecodeAll(Encode(m) + rest) == [m] + DecodeAll(rest)
  {
    RoundTripIff(m, rest);
  }

  lemma CutSum(a: Bytes, b: Bytes, n: nat)
    requires n <= |a| + |b|
    ensures (a + b)[..n] == if n < |a| then a[..n] else a + b[..n - |a|]
  {
  }

  lemma PrefixMore(messages: seq<Message>, some: seq<Message>)
    requires messages != [] && some <= messages[1..]
    ensures [messages[0]] + some <= messages
  {
    assert messages == [messages[0]] + messages[1..];
  }

  /** A connection that breaks at any byte has delivered the first few messages whole and nothing else. */
  lemma {:induction false} CutStreamIsPrefix(messages: seq<Message>, n: nat)
    requires forall i :: 0 <= i < |messages| ==> Fits(messages[i])
    requires n <= |EncodeAll(messages)|
    ensures DecodeAll(EncodeAll(messages)[..n]) <= messages
  {
    if messages != [] {
      var first, rest := Encode(messages[0]), EncodeAll(messages[1..]);
      CutSum(first, rest, n);
      if n < |first| {
        CutMessage(messages[0], n);
      } else {
        ReadFirst(messages[0], rest[..n - |first|]);
        CutStreamIsPrefix(messages[1..], n - |first|);
        PrefixMore(messages, DecodeAll(rest[..n - |first|]));
      }
    }
  }

  // ---- the request-id prefix ----

  const PREFIX := 36

  function Zeros(n: nat): (z: Bytes)
    ensures |z| == n
  {
    seq(n, _ => 0)
  }

  function Prefixed(id: Bytes, data: Bytes): Bytes {
    var n := if |id| < PREFIX then |id| else PREFIX;
    id[..n] + Zeros(PREFIX - n) + data
  }

  function Trimmed(bs: Bytes): Bytes {
    if bs == [] || bs[|bs| - 1] != 0 then bs else Trimmed(bs[..|bs| - 1])
  }

  /** Messages shorter than the prefix are ignored. */
  function Unprefixed(payload: Bytes): Option<(Bytes, Bytes)> {
    if |payload| < PREFIX then None else Some((Trimmed(payload[..PREFIX]), payload[PREFIX..]))
  }

  lemma {:induction false} TrimZeros(id: Bytes, n: nat)
    ensures Trimmed(id + Zeros(n)) == Trimmed(id)
  {
    if n == 0 {
      assert id + Zeros(0) == id;
    } else {
      TrimZeros(id, n - 1);
      assert (id + Zeros(n))[..|id| + n - 1] == id + Zeros(n - 1);
    }
  }

  lemma {:induction false} TrimmedIsPrefix(bs: Bytes)
    ensures Trimmed(bs) <= bs && (Trimmed(bs) == bs <==> bs == [] || bs[|bs| - 1] != 0)
  {
    if bs != [] && bs[|bs| - 1] == 0 {
      TrimmedIsPrefix(bs[..|bs| - 1]);
    }
  }

  /** Id and data come back exactly when the id fits in the prefix and does not end in a zero byte. */
  lemma PrefixRoundTripIff(id: Bytes, data: Bytes)
    ensures Unprefixed(Prefixed(id, data)) == Some((id, data)) <==> |id| <= PREFIX && (id == [] || id[|id| - 1] != 0)
  {
    var n := if |id| < PREFIX then |id| else PREFIX;
    var payload := Prefixed(id, data);
    assert payload[..PREFIX] == id[..n] + Zeros(PREFIX - n) && payload[PREFIX..] == data;
    TrimZeros(id[..n], PREFIX - n);
    TrimmedIsPrefix(id[..n]);
    if n == |id| {
      assert id[..n] == id;
    }
  }
}
