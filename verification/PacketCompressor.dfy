/**
 `DefaultCompressor` (iconnectd/src/common/compressor.rs): packets whose payload is replaced by its compressed
 form and a one-byte tail, and back. The zstd library is a parameter.
 */
module PacketCompressor {
  import opened Wrappers

  type Byte = n: nat | n < 256

  /** One attempt to decompress into a buffer of a given size. */
  datatype Attempt = Done(bytes: seq<Byte>) | TooSmall | Corrupt

  datatype Codec = Codec(compress: seq<Byte> -> Option<seq<Byte>>, decompress: (seq<Byte>, nat) -> Attempt)

  datatype Algo = NoCompression | Zstd

  const ZSTD_TAIL: Byte := 1
  const MIN_LAST_BUFFER := 65536

  /** The parts of a packet that compression touches: the header's length field and flag, and the payload. */
  datatype Packet = Packet(headerLen: nat, compressed: bool, payload: seq<Byte>)

  /** What decompressing the compressed form of `data` does with a buffer of any size. */
  ghost predicate Inverts(codec: Codec, data: seq<Byte>) {
    codec.compress(data).Some? ==>
      forall size: nat ::
        codec.decompress(codec.compress(data).value, size) == if |data| <= size then Done(data) else TooSmall
  }

  // ---------------------------------------------------------------- raw decompression

  function Pow2(n: nat): nat {
    if n == 0 then 1 else 2 * Pow2(n - 1)
  }

  /** The buffer of attempt `i` of 1 to 5: doubling, and at least 64 KiB at the end. */
  function BufferSize(len: nat, i: nat): nat {
    var size := len * Pow2(i);
    if i == 5 && size < MIN_LAST_BUFFER then MIN_LAST_BUFFER else size
  }

  /** The first attempt from `i` on that is not turned down for a small buffer. */
  function Attempts(codec: Codec, data: seq<Byte>, i: nat): Option<seq<Byte>>
    decreases 6 - i
  {
    if i > 5 then None
    else
      match codec.decompress(data, BufferSize(|data|, i))
      case Done(bytes) => Some(bytes)
      case Corrupt => None
      case TooSmall => Attempts(codec, data, i + 1)
  }

  method DecompressRaw(codec: Codec, data: seq<Byte>) returns (r: Option<seq<Byte>>)
    ensures r == Attempts(codec, data, 1)
  {
    var i := 1;
    while i <= 5
      invariant 1 <= i <= 6
      invariant Attempts(codec, data, i) == Attempts(codec, data, 1)
    {
      match codec.decompress(data, BufferSize(|data|, i)) {
        case Done(bytes) => return Some(bytes);
        case Corrupt => return None;
        case TooSmall =>
      }
      i := i + 1;
    }
    return None;
  }

  /** The largest buffer that is tried. */
  function Limit(compressedLen: nat): nat {
    if 32 * compressedLen < MIN_LAST_BUFFER then MIN_LAST_BUFFER else 32 * compressedLen
  }

  lemma BufferSizes(len: nat)
    ensures BufferSize(len, 1) == 2 * len && BufferSize(len, 2) == 4 * len && BufferSize(len, 3) == 8 * len
    ensures BufferSize(len, 4) == 16 * len && BufferSize(len, 5) == Limit(len)
  {
    assert Pow2(1) == 2 && Pow2(2) == 4 && Pow2(3) == 8;
    assert Pow2(4) == 2 * Pow2(3) && Pow2(5) == 2 * Pow2(4);
  }

  lemma {:induction false} AttemptsOn(codec: Codec, data: seq<Byte>, i: nat)
    requires Inverts(codec, data) && codec.compress(data).Some?
    requires 1 <= i <= 5
    ensures Attempts(codec, codec.compress(data).value, i)
         == if |data| <= Limit(|codec.compress(data).value|) then Some(data) else None
    decreases 5 - i
  {
    BufferSizes(|codec.compress(data).value|);
    if i < 5 {
      AttemptsOn(codec, data, i + 1);
    }
  }

  /** The growing buffer finds the original data exactly when the data fits the largest one. */
  lemma DecompressRawIff(codec: Codec, data: seq<Byte>)
    requires Inverts(codec, data) && codec.compress(data).Some?
    ensures Attempts(codec, codec.compress(data).value, 1)
         == if |data| <= Limit(|codec.compress(data).value|) then Some(data) else None
  {
    AttemptsOn(codec, data, 1);
  }

  // ---------------------------------------------------------------- packets

  /** Compress a packet: the packet afterwards, and whether the call succeeded. */
  function Compress(codec: Codec, algo: Algo, p: Packet): (Packet, bool) {
    if algo.NoCompression? || p.compressed then (p, true)
    else
      match codec.compress(p.payload)
      case None => (p, false)
      case Some(buf) =>
        if |buf| + 1 > p.headerLen then (p, true)
        else (p.(compressed := true, payload := buf + [ZSTD_TAIL]), true)
  }

  /** Decompress a packet: the packet afterwards, and whether the call succeeded. */
  function Decompress(codec: Codec, p: Packet): (Packet, bool) {
    if !p.compressed then (p, true)
    else if p.payload == [] || p.payload[|p.payload| - 1] != ZSTD_TAIL then (p, false)
    else
      match Attempts(codec, p.payload[..|p.payload| - 1], 1)
      case None => (p, false)
      case Some(buf) =>
        if |buf| != p.headerLen then (p, false) else (p.(compressed := false, payload := buf), true)
  }

  class ZcPacket {
    var packet: Packet

    constructor (packet: Packet)
      ensures this.packet == packet
    {
      this.packet := packet;
    }

    method CompressInPlace(codec: Codec, algo: Algo) returns (ok: bool)
      modifies this
      ensures (packet, ok) == Compress(codec, algo, old(packet))
    {
      if algo.NoCompression? || packet.compressed { return true; }
      var buf := codec.compress(packet.payload);
      if buf.None? { return false; }
      if |buf.value| + 1 > packet.headerLen { return true; }
      packet := packet.(compressed := true);
      packet := packet.(payload := buf.value);
      packet := packet.(payload := packet.payload + [ZSTD_TAIL]);
      return true;
    }

    method DecompressInPlace(codec: Codec) returns (ok: bool)
      modifies this
      ensures (packet, ok) == Decompress(codec, old(packet))
    {
      if !packet.compressed { return true; }
      if |packet.payload| < 1 { return false; }
      var textLen := |packet.payload| - 1;
      if packet.payload[textLen] != ZSTD_TAIL { return false; }
      var buf := DecompressRaw(codec, packet.payload[..textLen]);
      if buf.None? || |buf.value| != packet.headerLen { return false; }
      packet := packet.(compressed := false);
      packet := packet.(payload := buf.value);
      return true;
    }
  }

  // ---------------------------------------------------------------- properties

  /** The header's length field holds the payload's length, as `fill_peer_manager_hdr` sets it. */
  predicate Filled(p: Packet) {
    !p.compressed && p.headerLen == |p.payload|
  }

  /** A packet is compressed exactly when that is asked for, not done yet, possible, and leaves room for the tail. */
  lemma CompressesIff(codec: Codec, algo: Algo, p: Packet, q: Packet)
    ensures Compress(codec, algo, p).0 == q && q != p
       <==> && algo == Zstd && !p.compressed && q.compressed && q.headerLen == p.headerLen && q.payload != []
            && q.payload[|q.payload| - 1] == 1 && codec.compress(p.payload) == Some(q.payload[..|q.payload| - 1])
            && |q.payload| <= p.headerLen
    ensures !Compress(codec, algo, p).1 <==> algo == Zstd && !p.compressed && codec.compress(p.payload).None?
  {
    if q.payload != [] {
      assert q.payload == q.payload[..|q.payload| - 1] + [q.payload[|q.payload| - 1]];
    }
  }

  /** The first of the five buffers that is not too small decides. */
  ghost predicate Decides(codec: Codec, data: seq<Byte>, i: nat) {
    && 1 <= i <= 5
    && !codec.decompress(data, BufferSize(|data|, i)).TooSmall?
    && forall j :: 1 <= j < i ==> codec.decompress(data, BufferSize(|data|, j)).TooSmall?
  }

  lemma {:induction false} AttemptsIff(codec: Codec, data: seq<Byte>, i: nat, bytes: seq<Byte>)
    requires 1 <= i <= 6 && forall j :: 1 <= j < i ==> codec.decompress(data, BufferSize(|data|, j)).TooSmall?
    ensures Attempts(codec, data, i) == Some(bytes)
       <==> exists k :: Decides(codec, data, k) && codec.decompress(data, BufferSize(|data|, k)) == Done(bytes)
    decreases 6 - i
  {
    if i <= 5 {
      if codec.decompress(data, BufferSize(|data|, i)).TooSmall? {
        AttemptsIff(codec, data, i + 1, bytes);
      } else {
        assert Decides(codec, data, i);
      }
    }
  }

  /** A packet is decompressed exactly when its tail is right and the deciding buffer holds as much as its header says. */
  lemma DecompressesIff(codec: Codec, p: Packet, q: Packet)
    requires p.compressed
    ensures Decompress(codec, p) == (q, true)
       <==> && !q.compressed && q.headerLen == p.headerLen && |q.payload| == p.headerLen
            && p.payload != [] && p.payload[|p.payload| - 1] == 1
            && var body := p.payload[..|p.payload| - 1];
               exists k :: Decides(codec, body, k) && codec.decompress(body, BufferSize(|body|, k)) == Done(q.payload)
  {
    if p.payload != [] {
      AttemptsIff(codec, p.payload[..|p.payload| - 1], 1, q.payload);
    }
  }

  /** A compressed packet is never longer than the length in its header, and the header is untouched. */
  lemma CompressShrinks(codec: Codec, algo: Algo, p: Packet)
    ensures var q := Compress(codec, algo, p).0;
            && q.headerLen == p.headerLen
            && (q != p ==> q.compressed && !p.compressed && |q.payload| <= p.headerLen)
            && (Filled(p) ==> |q.payload| <= |p.payload|)
  {
  }

  /** Compressing twice is compressing once. */
  lemma CompressTwice(codec: Codec, algo: Algo, p: Packet)
    ensures Compress(codec, algo, Compress(codec, algo, p).0) == Compress(codec, algo, p)
  {
  }

  /** A call that fails leaves the packet as it was, and a packet that came back whole has its header's length. */
  lemma FailuresChangeNothing(codec: Codec, algo: Algo, p: Packet)
    ensures !Compress(codec, algo, p).1 ==> Compress(codec, algo, p).0 == p
    ensures !Decompress(codec, p).1 ==> Decompress(codec, p).0 == p
    ensures p.compressed && Decompress(codec, p).1 ==>
              !Decompress(codec, p).0.compressed && |Decompress(codec, p).0.payload| == p.headerLen
  {
  }

  /** When the receiver gets back what was sent. */
  predicate Recoverable(codec: Codec, algo: Algo, p: Packet) {
    algo.NoCompression? || codec.compress(p.payload).None? ||
    var len := |codec.compress(p.payload).value|;
    len + 1 > p.headerLen || (p.headerLen == |p.payload| && |p.payload| <= Limit(len))
  }

  /**
   Decompressing what compression made of an uncompressed packet gives that packet back exactly when the packet
   was left alone, or its header is right and its payload fits the largest buffer that is tried. In every other
   case decompression reports an error.
   */
  lemma RoundTripIff(codec: Codec, algo: Algo, p: Packet)
    requires !p.compressed && Inverts(codec, p.payload)
    ensures var q := Compress(codec, algo, p).0;
            && (Decompress(codec, q) == (p, true) <==> Recoverable(codec, algo, p))
            && (!Recoverable(codec, algo, p) ==> Decompress(codec, q) == (q, false))
  {
    var q := Compress(codec, algo, p).0;
    if q != p {
      var buf := codec.compress(p.payload).value;
      assert q.payload[..|q.payload| - 1] == buf;
      DecompressRawIff(codec, p.payload);
    }
  }

  /** Payloads of at most 64 KiB always come back. */
  lemma SmallPacketsRoundTrip(codec: Codec, algo: Algo, p: Packet)
    requires Filled(p) && |p.payload| <= MIN_LAST_BUFFER && Inverts(codec, p.payload)
    ensures Decompress(codec, Compress(codec, algo, p).0) == (p, true)
  {
    RoundTripIff(codec, algo, p);
  }

  /**
   A payload over 64 KiB that any codec brings under a thirty-second part of its length, such as 65537 bytes in 2048,
   is sent compressed and cannot be decompressed by the receiver.
   */
  lemma LongRunIsLost(codec: Codec, p: Packet)
    requires Filled(p) && |p.payload| > MIN_LAST_BUFFER && Inverts(codec, p.payload)
    requires codec.compress(p.payload).Some? && 32 * |codec.compress(p.payload).value| < |p.payload|
    ensures var q := Compress(codec, Zstd, p).0;
            q.compressed && Decompress(codec, q) == (q, false)
  {
    RoundTripIff(codec, Zstd, p);
  }
}
