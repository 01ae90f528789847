/** The wire format of the server list ping (internal/minecraft/ping.go): VarInts, framed packets, the
    handshake, and the check of the response. VarInt is the type of that name in the Minecraft Java Edition
    protocol; for non-negative values it is unsigned LEB128, section 7.6 of DWARF 5. */
module Codec {

  type byte = b: int | 0 <= b < 256

  datatype Error = Eof | VarIntTooBig | BadLength | BadPacketId | BadJsonLength

  datatype Result<T> = Ok(value: T) | Err(error: Error)

  // ---------- VarInt: values ----------

  const INT32_RANGE: nat := 0x1_0000_0000
  const INT32_LIMIT: nat := 0x8000_0000

  /** The int32 with the low 32 bits of `x`. */
  function Wrap32(x: int): int {
    var m := x % INT32_RANGE;
    if m >= INT32_LIMIT then m - INT32_RANGE else m
  }

  function VarInt(v: nat): seq<byte> {
    if v < 128 then [v] else [v % 128 + 128] + VarInt(v / 128)
  }

  /** The value of a group of seven-bit digits, least significant first, whatever their top bits. */
  function Digits(s: seq<byte>): nat {
    if s == [] then 0 else s[0] % 128 + 128 * Digits(s[1..])
  }

  function Pow128(k: nat): nat { if k == 0 then 1 else 128 * Pow128(k - 1) }

  /** How many bytes with the top bit set come first. */
  function Continued(s: seq<byte>): (k: nat)
    ensures k <= |s|
    ensures forall i :: 0 <= i < k ==> s[i] >= 128
    ensures k < |s| ==> s[k] < 128
  {
    if s == [] || s[0] < 128 then 0 else 1 + Continued(s[1..])
  }

  datatype Decoded<T> = Decoded(result: Result<T>, consumed: nat)

  /** What reading a VarInt gives and how many bytes it takes: five continued bytes are too many, the end of
      the input before the last byte is an error, and otherwise the digits make an int32. */
  function DecodeVarInt(s: seq<byte>): (d: Decoded<int>)
    ensures d.consumed <= |s| && d.consumed <= 5
    ensures d.result.Ok? ==> d.consumed >= 1
  {
    var k := Continued(s);
    if k >= 5 then Decoded(Err(VarIntTooBig), 5)
    else if k == |s| then Decoded(Err(Eof), |s|)
    else Decoded(Ok(Wrap32(Digits(s[..k + 1]))), k + 1)
  }

  lemma {:induction false} VarIntShape(v: nat, rest: seq<byte>)
    ensures Continued(VarInt(v) + rest) == |VarInt(v)| - 1
    ensures Digits(VarInt(v)) == v
  {
    var s := VarInt(v) + rest;
    if v >= 128 {
      VarIntShape(v / 128, rest);
      assert s[1..] == VarInt(v / 128) + rest;
    }
  }

  lemma {:induction false} VarIntLength(v: nat, k: nat)
    requires k >= 1 && v < Pow128(k)
    ensures 1 <= |VarInt(v)| <= k
  {
    if v >= 128 {
      VarIntLength(v / 128, k - 1);
    }
  }

  /** Every non-negative int32 takes one to five bytes, and reading them gives it back and leaves the rest of
      the stream alone. */
  lemma VarIntRoundTrip(v: nat, rest: seq<byte>)
    requires v < INT32_LIMIT
    ensures 1 <= |VarInt(v)| <= 5
    ensures DecodeVarInt(VarInt(v) + rest) == Decoded(Ok(v), |VarInt(v)|)
  {
    FiveDigitsSuffice();
    VarIntLength(v, 5);
    VarIntShape(v, rest);
    var s := VarInt(v) + rest;
    assert s[..|VarInt(v)|] == VarInt(v);
    WrapsToItself(v);
  }

  lemma FiveDigitsSuffice()
    ensures Pow128(5) >= INT32_LIMIT
  {
    assert Pow128(1) == 128 && Pow128(2) == 16384 && Pow128(3) == 2097152;
  }

  lemma WrapsToItself(v: int)
    ensures 0 <= v < INT32_LIMIT ==> Wrap32(v) == v
  {
  }

  /** One step of the shift in the writer, on a value of any sign: an arithmetic shift rounds down. */
  function Shifted(v: int, k: nat): int {
    if k == 0 then v else Shifted(v, k - 1) / 128
  }

  lemma {:induction false} ShiftedSign(v: int, k: nat)
    ensures v < 0 ==> Shifted(v, k) < 0
    ensures 0 <= v < Pow128(k) ==> Shifted(v, k) == 0
    ensures v >= 0 ==> Shifted(v, k) >= 0
  {
    if k > 0 {
      ShiftedSign(v, k - 1);
      if 0 <= v < Pow128(k) { ShiftedBelow(v, k - 1); }
    }
  }

  lemma {:induction false} ShiftedBelow(v: nat, k: nat)
    requires v < Pow128(k + 1)
    ensures 0 <= Shifted(v, k) < 128
  {
    if k > 0 { ShiftedCommutes(v, k); ShiftedBelow(v / 128, k - 1); }
  }

  lemma {:induction false} ShiftedCommutes(v: int, k: nat)
    requires k > 0
    ensures Shifted(v, k) == Shifted(v / 128, k - 1)
  {
    if k > 1 { ShiftedCommutes(v, k - 1); }
  }

  /** The writer stops, that is some shift reaches zero, exactly for values that are not negative. */
  lemma WriterStopsIff(v: int)
    requires -0x8000_0000 <= v < INT32_LIMIT
    ensures (exists k: nat :: Shifted(v, k) == 0) <==> v >= 0
  {
    if v >= 0 {
      FiveDigitsSuffice();
      ShiftedSign(v, 5);
    } else {
      forall k: nat ensures Shifted(v, k) < 0 { ShiftedSign(v, k); }
    }
  }

  lemma QuotientOfQuotient(v: nat, p: nat)
    requires p >= 1
    ensures (v / 128) / p == v / (128 * p)
  {
    var a, q, r := v / 128, (v / 128) / p, (v / 128) % p;
    var n := 128 * p;
    assert a == q * p + r && v == 128 * a + v % 128;
    assert v == q * n + (128 * r + v % 128) by { assert 128 * (q * p) == q * n; }
    assert 0 <= 128 * r + v % 128 < n by { assert r <= p - 1; }
    SameQuotient(v, n, q, 128 * r + v % 128);
  }

  lemma SameQuotient(v: int, n: int, q: int, r: int)
    requires n >= 1 && v == q * n + r && 0 <= r < n
    ensures v / n == q
  {
    var d := v / n - q;
    assert d * n == (v / n) * n - q * n;
    MultiplesFarApart(d, n);
  }

  lemma MultiplesFarApart(d: int, n: int)
    requires n >= 1
    ensures d == 0 || d * n >= n || d * n <= -n
  {
    if d >= 1 { assert (d - 1) * n >= 0; } else if d <= -1 { assert (-d - 1) * n >= 0; }
  }

  lemma {:induction false} Pow128Positive(k: nat)
    ensures Pow128(k) >= 1
  {
    if k > 0 { Pow128Positive(k - 1); }
  }

  /** Byte `i` holds bits 7i to 7i + 6 of the value, least significant group first, and its top bit says whether another
      byte follows. */
  lemma {:induction false} VarIntByte(v: nat, i: nat)
    requires i < |VarInt(v)|
    ensures Pow128(i) >= 1
    ensures VarInt(v)[i] == (v / Pow128(i)) % 128 + if i + 1 < |VarInt(v)| then 128 else 0
  {
    Pow128Positive(i);
    if i > 0 {
      VarIntByte(v / 128, i - 1);
      Pow128Positive(i - 1);
      QuotientOfQuotient(v, Pow128(i - 1));
    }
  }

  /** What the reader makes of any input: after fewer than five continued bytes and a last one, the int32 that agrees
      with the value of the digits modulo 2^32; five continued bytes are too many; otherwise the input is too short. */
  lemma ReaderOutcome(s: seq<byte>, k: nat)
    requires k <= |s| && k <= 5 && (forall i :: 0 <= i < k ==> s[i] >= 128) && (k < |s| && k < 5 ==> s[k] < 128)
    ensures var d := DecodeVarInt(s);
            if k == 5 then d == Decoded(Err(VarIntTooBig), 5)
            else if k == |s| then d == Decoded(Err(Eof), k)
            else d.result.Ok? && d.consumed == k + 1
                 && -0x8000_0000 <= d.result.value < 0x8000_0000
                 && (d.result.value - Digits(s[..k + 1])) % 0x1_0000_0000 == 0
  {
    if k == 5 {
      ContinuedAtLeast(s, 5);
    } else {
      ContinuedIs(s, k);
      if k < |s| { WrapCongruent(Digits(s[..k + 1])); }
    }
  }

  lemma WrapCongruent(x: int)
    ensures -0x8000_0000 <= Wrap32(x) < 0x8000_0000 && (Wrap32(x) - x) % 0x1_0000_0000 == 0
  {
    var q := x / INT32_RANGE;
    assert x == q * INT32_RANGE + x % INT32_RANGE;
    assert Wrap32(x) - x == -q * INT32_RANGE || Wrap32(x) - x == (-q - 1) * INT32_RANGE;
  }

  // ---------- VarInt: the loops ----------

  class Sink {
    var data: seq<byte>

    constructor ()
      ensures data == []
    {
      data := [];
    }

    method Write(bytes: seq<byte>)
      modifies this
      ensures data == old(data) + bytes
    {
      data := data + bytes;
    }
  }

  class Source {
    /** What has not been read yet; the peer sends nothing more. */
    var rest: seq<byte>

    constructor (bytes: seq<byte>)
      ensures rest == bytes
    {
      rest := bytes;
    }

    method ReadByte() returns (b: Result<byte>)
      modifies this
      ensures if old(rest) == [] then b == Err(Eof) && rest == [] else b == Ok(old(rest)[0]) && rest == old(rest)[1..]
    {
      if rest == [] {
        return Err(Eof);
      }
      b, rest := Ok(rest[0]), rest[1..];
    }

    /** Reads exactly `n` bytes, or everything and fails. */
    method ReadFull(n: nat) returns (data: Result<seq<byte>>)
      modifies this
      ensures if n <= |old(rest)| then data == Ok(old(rest)[..n]) && rest == old(rest)[n..]
              else data == Err(Eof) && rest == []
    {
      if n <= |rest| {
        data, rest := Ok(rest[..n]), rest[n..];
      } else {
        data, rest := Err(Eof), [];
      }
    }
  }

  method WriteVarInt(w: Sink, value: nat)
    modifies w
    ensures w.data == old(w.data) + VarInt(value)
  {
    var v := value;
    while true
      invariant w.data + VarInt(v) == old(w.data) + VarInt(value)
      decreases v
    {
      var b := v % 128;
      ghost var before := v;
      v := v / 128;
      if v != 0 {
        b := b + 128;
      }
      assert VarInt(before) == [b] + if v != 0 then VarInt(v) else [];
      w.Write([b]);
      if v == 0 {
        break;
      }
    }
  }

  lemma {:induction false} DigitsSnoc(s: seq<byte>, b: byte)
    ensures Digits(s + [b]) == Digits(s) + (b % 128) * Pow128(|s|)
    ensures Digits(s) < Pow128(|s|)
  {
    if s == [] {
      assert [b][1..] == [];
    } else {
      DigitsSnoc(s[1..], b);
      assert (s + [b])[1..] == s[1..] + [b];
      assert 128 * ((b % 128) * Pow128(|s| - 1)) == (b % 128) * Pow128(|s|);
    }
  }

  lemma {:induction false} ContinuedIs(s: seq<byte>, k: nat)
    requires k <= |s| && (forall i :: 0 <= i < k ==> s[i] >= 128) && (k < |s| ==> s[k] < 128)
    ensures Continued(s) == k
  {
    if k > 0 { ContinuedIs(s[1..], k - 1); }
  }

  lemma {:induction false} ContinuedAtLeast(s: seq<byte>, k: nat)
    requires k <= |s| && forall i :: 0 <= i < k ==> s[i] >= 128
    ensures Continued(s) >= k
  {
    if k > 0 { ContinuedAtLeast(s[1..], k - 1); }
  }

  /** The digits of the reader never overlap, so its bitwise or is an addition; only the fifth one can carry
      beyond 32 bits. */
  method ReadVarInt(r: Source) returns (value: Result<int>)
    modifies r
    ensures var d := DecodeVarInt(old(r.rest));
            value == d.result && r.rest == old(r.rest)[d.consumed..]
  {
    var result, shift := 0, 0;
    ghost var s, k := r.rest, 0;
    while true
      invariant k <= 4 && k <= |s| && shift == 7 * k && r.rest == s[k..]
      invariant forall i :: 0 <= i < k ==> s[i] >= 128
      invariant result == Digits(s[..k]) < Pow128(k) <= Pow128(4)
      decreases 5 - k
    {
      assert Pow128(4) == 0x1000_0000;
      var b := r.ReadByte();
      if b.Err? {
        ContinuedIs(s, k);
        return Err(b.error);
      }
      assert s[..k + 1] == s[..k] + [s[k]];
      DigitsSnoc(s[..k], s[k]);
      result := Wrap32(result + (b.value % 128) * Power2(shift));
      Power2Is(k);
      if b.value < 128 {
        ContinuedIs(s, k);
        break;
      }
      shift := shift + 7;
      if shift >= 32 {
        ContinuedAtLeast(s, 5);
        return Err(VarIntTooBig);
      }
      k := k + 1;
      SmallDigits(s[..k]);
    }
    return Ok(result);
  }

  function Power2(n: nat): nat { if n == 0 then 1 else 2 * Power2(n - 1) }

  lemma {:induction false} Power2Is(k: nat)
    ensures Power2(7 * k) == Pow128(k)
  {
    if k > 0 {
      Power2Is(k - 1);
      var n := 7 * k;
      assert Power2(n) == 2 * Power2(n - 1) && Power2(n - 1) == 2 * Power2(n - 2) && Power2(n - 2) == 2 * Power2(n - 3);
      assert Power2(n - 3) == 2 * Power2(n - 4) && Power2(n - 4) == 2 * Power2(n - 5);
      assert Power2(n - 5) == 2 * Power2(n - 6) && Power2(n - 6) == 2 * Power2(n - 7);
    }
  }

  /** Up to four digits fit into 28 bits. */
  lemma SmallDigits(s: seq<byte>)
    requires |s| <= 4
    ensures Digits(s) < Pow128(|s|) <= Pow128(4) < INT32_LIMIT
    ensures Wrap32(Digits(s)) == Digits(s)
  {
    DigitsSnoc(s, 0);
    assert Pow128(4) == 0x1000_0000;
  }

  // ---------- Packets ----------

  const MAX_PACKET: nat := 1024 * 1024

  function Frame(data: seq<byte>): seq<byte> { VarInt(|data|) + data }

  /** What reading one packet gives, and the input that is left. A missing or oversized length, or fewer bytes
      than announced, is an error. */
  function DecodeFrame(s: seq<byte>): (Result<seq<byte>>, seq<byte>) {
    var d := DecodeVarInt(s);
    var rest := s[d.consumed..];
    match d.result
    case Err(e) => (Err(e), rest)
    case Ok(length) =>
      if length <= 0 || length > MAX_PACKET then (Err(BadLength), rest)
      else if length > |rest| then (Err(Eof), [])
      else (Ok(rest[..length]), rest[length..])
  }

  method WritePacket(conn: Sink, data: seq<byte>)
    requires |data| < INT32_LIMIT
    modifies conn
    ensures conn.data == old(conn.data) + Frame(data)
  {
    var lenBuf := new Sink();
    WriteVarInt(lenBuf, |data|);
    conn.Write(lenBuf.data);
    conn.Write(data);
  }

  method ReadPacket(conn: Source) returns (packet: Result<seq<byte>>)
    modifies conn
    ensures (packet, conn.rest) == DecodeFrame(old(conn.rest))
  {
    var length := ReadVarInt(conn);
    if length.Err? {
      return Err(length.error);
    }
    if length.value <= 0 || length.value > 1024 * 1024 {
      return Err(BadLength);
    }
    packet := conn.ReadFull(length.value);
  }

  /** A packet comes back exactly when it is neither empty nor longer than 2^20 bytes. */
  lemma FrameRoundTripIff(data: seq<byte>, rest: seq<byte>)
    requires |data| < INT32_LIMIT
    ensures DecodeFrame(Frame(data) + rest) == (Ok(data), rest) <==> 1 <= |data| <= MAX_PACKET
  {
    VarIntRoundTrip(|data|, data + rest);
    assert Frame(data) + rest == VarInt(|data|) + (data + rest);
    assert (Frame(data) + rest)[|VarInt(|data|)|..] == data + rest;
    assert (data + rest)[..|data|] == data && (data + rest)[|data|..] == rest;
  }

  /** An empty or oversized packet is refused by its length, */
  lemma BadLengthRefused(data: seq<byte>, rest: seq<byte>)
    requires |data| < INT32_LIMIT && (data == [] || |data| > 1024 * 1024)
    ensures DecodeFrame(Frame(data) + rest).0 == Err(BadLength)
  {
    LengthRead(data, rest);
  }

  lemma LengthRead(data: seq<byte>, rest: seq<byte>)
    requires |data| < INT32_LIMIT
    ensures DecodeVarInt(Frame(data) + rest) == Decoded(Ok(|data|), |VarInt(|data|)|)
  {
    VarIntRoundTrip(|data|, data + rest);
    AppendAssociative(VarInt(|data|), data, rest);
  }

  /** ... and a packet that is cut off anywhere is the end of the input. */
  lemma CutOffIsEof(data: seq<byte>, n: nat)
    requires 1 <= |data| <= 1024 * 1024 && n < |Frame(data)|
    ensures DecodeFrame(Frame(data)[..n]).0 == Err(Eof)
  {
    var v, s := VarInt(|data|), Frame(data)[..n];
    VarIntShape(|data|, []);
    assert v + [] == v;
    VarIntRoundTrip(|data|, []);
    if n < |v| {
      assert s == v[..n];
      ContinuedIs(s, n);
    } else {
      assert s == v + data[..n - |v|];
      VarIntRoundTrip(|data|, data[..n - |v|]);
      assert s[|v|..] == data[..n - |v|];
    }
  }

  function Frames(packets: seq<seq<byte>>): seq<byte> {
    if packets == [] then [] else Frame(packets[0]) + Frames(packets[1..])
  }

  /** Reading `n` packets in a row; the first error when one of them fails. */
  function DecodeFrames(s: seq<byte>, n: nat): Result<(seq<seq<byte>>, seq<byte>)> {
    if n == 0 then Ok(([], s))
    else
      match DecodeFrame(s)
      case (Err(e), _) => Err(e)
      case (Ok(packet), rest) =>
        match DecodeFrames(rest, n - 1)
        case Err(e) => Err(e)
        case Ok((packets, last)) => Ok(([packet] + packets, last))
  }

  /** Any sequence of packets of 1 to 2^20 bytes is recovered exactly, with what follows left unread. */
  lemma {:induction false} PacketsRoundTrip(packets: seq<seq<byte>>, rest: seq<byte>)
    requires forall p :: p in packets ==> 1 <= |p| <= MAX_PACKET
    ensures DecodeFrames(Frames(packets) + rest, |packets|) == Ok((packets, rest))
  {
    if packets == [] {
      assert Frames(packets) + rest == rest;
    } else {
      PacketsRoundTrip(packets[1..], rest);
      OneMorePacket(packets[0], Frames(packets[1..]) + rest, packets[1..], rest);
      AppendAssociative(Frame(packets[0]), Frames(packets[1..]), rest);
      assert [packets[0]] + packets[1..] == packets;
    }
  }

  lemma AppendAssociative(a: seq<byte>, b: seq<byte>, c: seq<byte>)
    ensures (a + b) + c == a + (b + c)
  {
  }

  lemma OneMorePacket(packet: seq<byte>, more: seq<byte>, packets: seq<seq<byte>>, rest: seq<byte>)
    requires 1 <= |packet| <= MAX_PACKET && DecodeFrames(more, |packets|) == Ok((packets, rest))
    ensures DecodeFrames(Frame(packet) + more, |packets| + 1) == Ok(([packet] + packets, rest))
  {
    FrameRoundTripIff(packet, more);
  }

  // ---------- The handshake ----------

  const PROTOCOL_VERSION: nat := 767
  const NEXT_STATE_STATUS: nat := 1

  function String(s: seq<byte>): seq<byte> { VarInt(|s|) + s }

  function Port(port: nat): seq<byte>
    requires port < 0x1_0000
  {
    [port / 256, port % 256]
  }

  function Handshake(host: seq<byte>, port: nat): seq<byte>
    requires port < 0x1_0000
  {
    VarInt(0) + (VarInt(PROTOCOL_VERSION) + (String(host) + (Port(port) + VarInt(NEXT_STATE_STATUS))))
  }

  datatype HandshakeFields = HandshakeFields(id: int, version: int, host: seq<byte>, port: int, next: int)

  function PortAt(s: seq<byte>, i: nat): int
    requires i + 2 <= |s|
  {
    var high: int, low: int := s[i], s[i + 1];
    high * 256 + low
  }

  /** How a server reads a handshake, by the layout of the protocol: the packet id and the version first. */
  function DecodeHandshake(s: seq<byte>): Result<HandshakeFields> {
    var id := DecodeVarInt(s);
    if id.result.Err? then Err(id.result.error) else
    var s1 := s[id.consumed..];
    var version := DecodeVarInt(s1);
    if version.result.Err? then Err(version.result.error) else
    DecodeTarget(s1[version.consumed..], id.result.value, version.result.value)
  }

  /** ... then the host with its length, the port in two bytes, and the next state. */
  function DecodeTarget(s: seq<byte>, id: int, version: int): Result<HandshakeFields> {
    var length := DecodeVarInt(s);
    if length.result.Err? then Err(length.result.error) else
    var n, rest := length.result.value, s[length.consumed..];
    if n < 0 || n + 2 > |rest| then Err(Eof) else
    var next := DecodeVarInt(rest[n + 2..]);
    if next.result.Err? then Err(next.result.error)
    else Ok(HandshakeFields(id, version, rest[..n], PortAt(rest, n), next.result.value))
  }

  lemma TargetRoundTrip(host: seq<byte>, port: nat, id: int, version: int)
    requires port < 0x1_0000 && |host| < INT32_LIMIT
    ensures DecodeTarget(String(host) + (Port(port) + VarInt(1)), id, version)
         == Ok(HandshakeFields(id, version, host, port, 1))
  {
    var rest := host + (Port(port) + VarInt(1));
    assert String(host) + (Port(port) + VarInt(1)) == VarInt(|host|) + rest;
    VarIntRoundTrip(|host|, rest);
    assert (VarInt(|host|) + rest)[|VarInt(|host|)|..] == rest;
    VarIntRoundTrip(1, []);
    assert rest[|host| + 2..] == VarInt(1) + [] && rest[..|host|] == host;
    assert rest[|host|] == port / 256 && rest[|host| + 1] == port % 256;
  }

  lemma HeaderRoundTrip(target: seq<byte>)
    ensures DecodeHandshake(VarInt(0) + (VarInt(767) + target)) == DecodeTarget(target, 0, 767)
  {
    VarIntRoundTrip(0, VarInt(767) + target);
    VarIntRoundTrip(767, target);
    assert (VarInt(0) + (VarInt(767) + target))[|VarInt(0)|..] == VarInt(767) + target;
    assert (VarInt(767) + target)[|VarInt(767)|..] == target;
  }

  /** The handshake decodes to packet 0, version 767, the host, the port and next state 1. */
  lemma HandshakeRoundTrip(host: seq<byte>, port: nat)
    requires port < 0x1_0000 && |host| < INT32_LIMIT
    ensures DecodeHandshake(Handshake(host, port)) == Ok(HandshakeFields(0, 767, host, port, 1))
  {
    HeaderRoundTrip(String(host) + (Port(port) + VarInt(1)));
    TargetRoundTrip(host, port, 0, 767);
  }

  /** So it determines the host and the port. */
  lemma HandshakeInjective(host: seq<byte>, port: nat, host': seq<byte>, port': nat)
    requires port < 0x1_0000 && port' < 0x1_0000 && |host| < INT32_LIMIT && |host'| < INT32_LIMIT
    requires Handshake(host, port) == Handshake(host', port')
    ensures host == host' && port == port'
  {
    HandshakeRoundTrip(host, port);
    HandshakeRoundTrip(host', port');
  }

  /** The bytes of the handshake: packet 0, version 767, the length of the host and the host, the port with its high
      byte first, and next state 1. */
  lemma HandshakeBytes(host: seq<byte>, port: nat)
    requires port < 0x1_0000
    ensures Handshake(host, port) == [0x00] + [0xFF, 0x05] + VarInt(|host|) + host + [port / 256, port % 256] + [0x01]
    ensures |host| < 128 ==> VarInt(|host|) == [|host|]
  {
    SmallVarInts();
    SixInARow(VarInt(0), VarInt(PROTOCOL_VERSION), VarInt(|host|), host, Port(port), VarInt(NEXT_STATE_STATUS));
  }

  lemma SmallVarInts()
    ensures VarInt(0) == [0x00] && VarInt(1) == [0x01] && VarInt(767) == [0xFF, 0x05]
  {
    assert VarInt(5) == [5];
  }

  lemma SixInARow(a: seq<byte>, b: seq<byte>, c: seq<byte>, d: seq<byte>, e: seq<byte>, f: seq<byte>)
    ensures a + (b + ((c + d) + (e + f))) == a + b + c + d + e + f
  {
  }

  method WriteString(w: Sink, s: seq<byte>)
    requires |s| < INT32_LIMIT
    modifies w
    ensures w.data == old(w.data) + String(s)
  {
    WriteVarInt(w, |s|);
    w.Write(s);
  }

  // ---------- The ping ----------

  /** A response is accepted when its packet can be read, its id is 0 and a positive length follows. */
  function CheckResponse(s: seq<byte>): Result<()> {
    match DecodeFrame(s).0
    case Err(e) => Err(e)
    case Ok(packet) =>
      var id := DecodeVarInt(packet);
      if id.result != Ok(0) then Err(BadPacketId) else
      var length := DecodeVarInt(packet[id.consumed..]).result;
      if length.Err? || length.value <= 0 then Err(BadJsonLength) else Ok(())
  }

  /** MCPingConn on a connection whose peer answers with `input`. */
  method Ping(output: Sink, input: Source, host: seq<byte>, port: nat) returns (answer: Result<()>)
    requires port < 0x1_0000 && |host| < INT32_LIMIT - 16
    modifies output, input
    ensures output.data == old(output.data) + Frames([Handshake(host, port), [0]])
    ensures answer == CheckResponse(old(input.rest))
  {
    var handshake := new Sink();
    WriteVarInt(handshake, 0);
    WriteVarInt(handshake, 767);
    WriteString(handshake, host);
    handshake.Write([port / 256, port % 256]);
    WriteVarInt(handshake, 1);
    HandshakeLength(host, port);
    assert handshake.data == Handshake(host, port);
    WritePacket(output, handshake.data);
    var statusReq := new Sink();
    WriteVarInt(statusReq, 0);
    WritePacket(output, statusReq.data);
    TwoFrames(Handshake(host, port), [0]);

    var packet := ReadPacket(input);
    if packet.Err? {
      return Err(packet.error);
    }
    var reader := new Source(packet.value);
    var id := ReadVarInt(reader);
    if id.Err? || id.value != 0 {
      return Err(BadPacketId);
    }
    var jsonLen := ReadVarInt(reader);
    if jsonLen.Err? || jsonLen.value <= 0 {
      return Err(BadJsonLength);
    }
    return Ok(());
  }

  lemma HandshakeLength(host: seq<byte>, port: nat)
    requires port < 0x1_0000 && |host| < INT32_LIMIT
    ensures 1 <= |Handshake(host, port)| <= |host| + 11
  {
    VarIntLength(0, 1);
    VarIntLength(1, 1);
    assert Pow128(2) == 16384 && Pow128(1) == 128;
    VarIntLength(767, 2);
    VarIntRoundTrip(|host|, []);
  }

  lemma TwoFrames(a: seq<byte>, b: seq<byte>)
    ensures Frames([a, b]) == Frame(a) + Frame(b)
  {
    assert [a, b][1..] == [b] && [b][1..] == [];
    assert Frames([b]) == Frame(b) + [];
  }

  /** What the server receives from a ping: exactly the handshake for this host and port, and the empty
      status request; nothing is left over. */
  lemma ServerReceivesPing(host: seq<byte>, port: nat)
    requires port < 0x1_0000 && |host| + 11 <= MAX_PACKET
    ensures DecodeFrames(Frames([Handshake(host, port), [0]]), 2) == Ok(([Handshake(host, port), [0]], []))
    ensures DecodeHandshake(Handshake(host, port)) == Ok(HandshakeFields(0, 767, host, port, 1))
  {
    HandshakeLength(host, port);
    HandshakeRoundTrip(host, port);
    var packets := [Handshake(host, port), [0]];
    PacketsRoundTrip(packets, []);
    assert Frames(packets) + [] == Frames(packets);
  }

  /** Of the packets that start with two non-negative VarInts exactly those with id 0 and a positive length are accepted;
      another id is an error of its own, and so is a length of 0. */
  lemma ResponseOutcome(id: nat, length: nat, tail: seq<byte>, rest: seq<byte>)
    requires id < INT32_LIMIT && length < INT32_LIMIT && |tail| + 10 <= MAX_PACKET
    ensures CheckResponse(Frame(VarInt(id) + (VarInt(length) + tail)) + rest)
         == if id != 0 then Err(BadPacketId) else if length == 0 then Err(BadJsonLength) else Ok(())
  {
    var packet := VarInt(id) + (VarInt(length) + tail);
    VarIntRoundTrip(id, VarInt(length) + tail);
    VarIntRoundTrip(length, tail);
    FrameRoundTripIff(packet, rest);
    assert packet[|VarInt(id)|..] == VarInt(length) + tail;
  }

  /** A response whose packet cannot be read, cut off or with a bad length, is not accepted. */
  lemma UnreadableResponse(data: seq<byte>, n: nat)
    ensures 1 <= |data| <= 1024 * 1024 && n < |Frame(data)| ==> CheckResponse(Frame(data)[..n]) == Err(Eof)
    ensures |data| < INT32_LIMIT && (data == [] || |data| > 1024 * 1024) ==> CheckResponse(Frame(data)) == Err(BadLength)
  {
    if 1 <= |data| <= 1024 * 1024 && n < |Frame(data)| { CutOffIsEof(data, n); }
    if |data| < INT32_LIMIT && (data == [] || |data| > 1024 * 1024) {
      BadLengthRefused(data, []);
      assert Frame(data) + [] == Frame(data);
    }
  }

  /** A status response that carries a JSON string is accepted exactly when the string is not empty. */
  lemma StatusResponseAcceptedIff(json: seq<byte>, rest: seq<byte>)
    requires |json| + 6 <= MAX_PACKET
    ensures CheckResponse(Frame(VarInt(0) + String(json)) + rest) == Ok(()) <==> json != []
  {
    var packet := VarInt(0) + String(json);
    VarIntRoundTrip(0, String(json));
    VarIntRoundTrip(|json|, json);
    assert |VarInt(0)| == 1;
    FrameRoundTripIff(packet, rest);
    assert packet[1..] == String(json);
  }
}
