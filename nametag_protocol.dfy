/** The nametag wire encoding: payload data is cut into chunks of at most
    128 bytes; each chunk gets a header (total length, chunk index, chunk
    length) and an XOR checksum, is prefixed with its type byte and a
    big-endian length, is escaped so that 0x01..0x03 never occur inside,
    is wrapped in 0x01 ... 0x03, and is then cut into transport packets of
    at most 20 bytes. */
module NametagProtocol {
  import opened Common

  const ChunkSize: nat := 128
  const PacketSize: nat := 20
  const Start: byte := 0x01
  const Escape: byte := 0x02
  const End: byte := 0x03

  // ---------------------------------------------------------------------
  // Escaping

  /** Python `bytes.replace` for a one-byte pattern: every occurrence of
      `x` becomes `rep`. */
  function ReplaceByte(s: Bytes, x: byte, rep: Bytes): (r: Bytes)
  {
    if s == [] then []
    else (if s[0] == x then rep else [s[0]]) + ReplaceByte(s[1..], x, rep)
  }

  /** `escape123` exactly as written: three successive replacements, the
      escape byte 0x02 first. */
  function Escape123(s: Bytes): Bytes
  {
    ReplaceByte(ReplaceByte(ReplaceByte(s, 0x02, [0x02, 0x06]), 0x01, [0x02, 0x05]), 0x03, [0x02, 0x07])
  }

  /** The escape code of one byte, taken one byte at a time. */
  function EscapeOne(b: byte): Bytes
  {
    if b == 0x01 then [0x02, 0x05]
    else if b == 0x02 then [0x02, 0x06]
    else if b == 0x03 then [0x02, 0x07]
    else [b]
  }

  function EscapeEach(s: Bytes): Bytes
  {
    if s == [] then [] else EscapeOne(s[0]) + EscapeEach(s[1..])
  }

  /** The inverse of escaping; `None` for a stray delimiter or an escape
      byte not followed by 0x05, 0x06 or 0x07. */
  function Unescape(s: Bytes): Option<Bytes>
  {
    if s == [] then Some([])
    else if s[0] == 0x01 || s[0] == 0x03 then None
    else if s[0] != 0x02 then
      match Unescape(s[1..])
      case Some(rest) => Some([s[0]] + rest)
      case None => None
    else if |s| < 2 || !(s[1] == 0x05 || s[1] == 0x06 || s[1] == 0x07) then None
    else
      match Unescape(s[2..])
      case Some(rest) => Some([s[1] - 0x04] + rest)
      case None => None
  }

  /** No delimiter byte, and every escape byte starts a valid pair. */
  ghost predicate WellEscaped(s: Bytes)
  {
    (forall i :: 0 <= i < |s| ==> s[i] != 0x01 && s[i] != 0x03)
    && (forall i :: 0 <= i < |s| && s[i] == 0x02 ==>
          i + 1 < |s| && (s[i + 1] == 0x05 || s[i + 1] == 0x06 || s[i + 1] == 0x07))
  }

  lemma {:induction false} ReplaceAppend(a: Bytes, b: Bytes, x: byte, rep: Bytes)
    ensures ReplaceByte(a + b, x, rep) == ReplaceByte(a, x, rep) + ReplaceByte(b, x, rep)
    decreases |a|
  {
    if a == [] {
      assert a + b == b;
    } else {
      assert (a + b)[1..] == a[1..] + b;
      ReplaceAppend(a[1..], b, x, rep);
    }
  }

  /** Replacing a byte that the replacement of an earlier pass never
      produces: how the three passes of `escape123` compose. */
  lemma {:induction false} EscapeStages(s: Bytes)
    ensures Escape123(s) == EscapeEach(s)
  {
    if s != [] {
      var h := [s[0]];
      assert s == h + s[1..];
      ReplaceAppend(h, s[1..], 0x02, [0x02, 0x06]);
      var a := ReplaceByte(h, 0x02, [0x02, 0x06]);
      var a' := ReplaceByte(s[1..], 0x02, [0x02, 0x06]);
      ReplaceAppend(a, a', 0x01, [0x02, 0x05]);
      var b := ReplaceByte(a, 0x01, [0x02, 0x05]);
      var b' := ReplaceByte(a', 0x01, [0x02, 0x05]);
      ReplaceAppend(b, b', 0x03, [0x02, 0x07]);
      var c := ReplaceByte(b, 0x03, [0x02, 0x07]);
      assert c == EscapeOne(s[0]) by {
        if s[0] == 0x02 {
          assert a == [0x02, 0x06];
          assert a[1..][1..] == [];
          assert b == [0x02, 0x06];
          assert b[1..][1..] == [];
        } else if s[0] == 0x01 {
          assert b == [0x02, 0x05];
          assert b[1..][1..] == [];
        } else if s[0] == 0x03 {
          assert c == [0x02, 0x07] by { assert c[1..][1..] == []; }
        }
      }
      EscapeStages(s[1..]);
    }
  }

  /** Had 0x02 been replaced last, an escaped 0x01 would be escaped again. */
  lemma EscapeOrderMatters()
    ensures ReplaceByte(ReplaceByte([0x01], 0x01, [0x02, 0x05]), 0x02, [0x02, 0x06]) == [0x02, 0x06, 0x05]
    ensures Escape123([0x01]) == [0x02, 0x05]
  {
    EscapeStages([0x01]);
    var a := ReplaceByte([0x01], 0x01, [0x02, 0x05]);
    assert a == [0x02, 0x05];
    assert ReplaceByte(a, 0x02, [0x02, 0x06]) == [0x02, 0x06] + ReplaceByte([0x05], 0x02, [0x02, 0x06]);
  }

  lemma {:induction false} EscapeAppend(a: Bytes, b: Bytes)
    ensures EscapeEach(a + b) == EscapeEach(a) + EscapeEach(b)
    decreases |a|
  {
    if a == [] {
      assert a + b == b;
    } else {
      assert (a + b)[1..] == a[1..] + b;
      EscapeAppend(a[1..], b);
    }
  }

  /** Escaped output holds no delimiter and only valid escape pairs. */
  lemma {:induction false} EscapeWellFormed(s: Bytes)
    ensures WellEscaped(Escape123(s))
  {
    EscapeStages(s);
    EscapeEachWellFormed(s);
  }

  lemma {:induction false} EscapeEachWellFormed(s: Bytes)
    ensures WellEscaped(EscapeEach(s))
    ensures |EscapeEach(s)| >= |s|
  {
    if s != [] {
      EscapeEachWellFormed(s[1..]);
      var h := EscapeOne(s[0]);
      var t := EscapeEach(s[1..]);
      var e := h + t;
      assert EscapeEach(s) == e;
      forall i | 0 <= i < |e| && e[i] == 0x02
        ensures i + 1 < |e| && (e[i + 1] == 0x05 || e[i + 1] == 0x06 || e[i + 1] == 0x07)
      {
        if i >= |h| {
          assert t[i - |h|] == 0x02;
        }
      }
      forall i | 0 <= i < |e| ensures e[i] != 0x01 && e[i] != 0x03 {
        if i >= |h| {
          assert e[i] == t[i - |h|];
        }
      }
    }
  }

  /** Unescaping restores exactly what was escaped. */
  lemma {:induction false} EscapeRoundTrip(s: Bytes)
    ensures Unescape(Escape123(s)) == Some(s)
  {
    EscapeStages(s);
    EscapeEachRoundTrip(s);
  }

  lemma {:induction false} EscapeEachRoundTrip(s: Bytes)
    ensures Unescape(EscapeEach(s)) == Some(s)
  {
    if s != [] {
      EscapeEachRoundTrip(s[1..]);
      var e := EscapeEach(s);
      var h := EscapeOne(s[0]);
      var t := EscapeEach(s[1..]);
      assert e == h + t;
      if s[0] == 0x01 || s[0] == 0x02 || s[0] == 0x03 {
        assert e[0] == 0x02 && e[1] == s[0] + 0x04;
        assert e[2..] == t;
        assert Unescape(e) == Some([e[1] - 0x04] + s[1..]);
        assert [s[0]] + s[1..] == s;
      } else {
        assert e[0] == s[0];
        assert e[1..] == t;
        assert Unescape(e) == Some([s[0]] + s[1..]);
        assert [s[0]] + s[1..] == s;
      }
    }
  }

  // ---------------------------------------------------------------------
  // Chunks and messages

  function NumChunks(n: nat): nat
  {
    (n + ChunkSize - 1) / ChunkSize
  }

  /** `data[start : start + 128]` for the chunk at `index`. */
  function Chunk(data: Bytes, index: nat): (c: Bytes)
    requires index < NumChunks(|data|)
  {
    var start := index * 128;
    data[start..if start + ChunkSize <= |data| then start + ChunkSize else |data|]
  }

  /** The chunk body before its checksum: a zero byte, the total length,
      the chunk index, the chunk length and the chunk bytes. */
  function ChunkHeader(total: nat, index: nat, chunk: Bytes): (b: Bytes)
    requires total < 0x1_0000 && index < 0x1_0000 && |chunk| < 256
  {
    [0x00] + U16BE(total) + U16BE(index) + [ByteOf(|chunk|)] + chunk
  }

  /** The unescaped frame: length prefix, type byte, header, chunk, checksum. */
  function Frame(msgType: byte, total: nat, index: nat, chunk: Bytes): (f: Bytes)
    requires total < 0x1_0000 && index < 0x1_0000 && |chunk| <= ChunkSize
  {
    var body := ChunkHeader(total, index, chunk);
    var typed := [msgType] + body + [XorFold(body)];
    U16BE(|typed|) + typed
  }

  function Message(msgType: byte, total: nat, index: nat, chunk: Bytes): (m: Bytes)
    requires total < 0x1_0000 && index < 0x1_0000 && |chunk| <= ChunkSize
  {
    [Start] + Escape123(Frame(msgType, total, index, chunk)) + [End]
  }

  /** `message[s : s + 20] for s in range(0, len(message), 20)`. */
  function Split20(m: Bytes): (ps: seq<Bytes>)
    decreases |m|
  {
    if m == [] then []
    else if |m| <= PacketSize then [m]
    else [m[..PacketSize]] + Split20(m[PacketSize..])
  }

  function MessageAt(msgType: byte, data: Bytes, index: nat): Bytes
    requires |data| < 0x1_0000 && index < NumChunks(|data|)
  {
    Message(msgType, |data|, index, Chunk(data, index))
  }

  /** The packets of the first `k` chunks, in chunk order. */
  function PacketsOfChunks(msgType: byte, data: Bytes, k: nat): seq<Bytes>
    requires |data| < 0x1_0000 && k <= NumChunks(|data|)
  {
    Concat(PacketLists(msgType, data, k))
  }

  /** The packet list of each of the first `k` chunks. */
  function PacketLists(msgType: byte, data: Bytes, k: nat): (r: seq<seq<Bytes>>)
    requires |data| < 0x1_0000 && k <= NumChunks(|data|)
    ensures |r| == k
  {
    seq(k, i requires 0 <= i < k => Split20(MessageAt(msgType, data, i)))
  }

  datatype PackError =
    | LengthTooLarge   // `struct.pack` rejects len(data) > 65535 for "H"
    | BadType          // `struct.pack` rejects a type outside 0..255 for "B"
    | GlyphTooLong     // `bytes(...)` rejects a glyph length over 255
    | TooManyGlyphs    // `struct.pack` rejects a glyph count over 255 for "B"
    | GlyphsTooLarge   // `struct.pack` rejects a glyph total over 65535 for "H"

  /** What `packets_from_data` returns or raises. The struct errors can only
      arise inside the chunk loop, so empty data never fails. */
  function PacketsSpec(msgType: int, data: Bytes): Result<seq<Bytes>, PackError>
  {
    if |data| == 0 then Ok([])
    else if |data| >= 0x1_0000 then Err(LengthTooLarge)
    else if !(0 <= msgType < 256) then Err(BadType)
    else Ok(PacketsOfChunks(ByteOf(msgType), data, NumChunks(|data|)))
  }

  /** `packets_from_data(message_type, data)`: the loop over chunk offsets
      appends the packets of one chunk's message at a time. */
  method PacketsFromData(msgType: int, data: Bytes) returns (r: Result<seq<Bytes>, PackError>)
    ensures r == PacketsSpec(msgType, data)
  {
    var packets: seq<Bytes> := [];
    var index: nat := 0;
    var start: nat := 0;
    while start < |data|
      invariant start == index * 128 && start < |data| + 128
      invariant index > 0 ==> |data| < 0x1_0000 && 0 <= msgType < 256
      invariant index > 0 ==> packets == PacketsOfChunks(ByteOf(msgType), data, index)
      invariant index == 0 ==> packets == []
      decreases |data| - start
    {
      if |data| >= 0x1_0000 {
        return Err(LengthTooLarge);
      }
      if !(0 <= msgType < 256) {
        return Err(BadType);
      }
      ChunkCount(|data|, index);
      var chunk := data[start..if start + ChunkSize <= |data| then start + ChunkSize else |data|];
      var message := Message(ByteOf(msgType), |data|, index, chunk);
      NextChunk(ByteOf(msgType), data, index, chunk, message);
      packets := packets + Split20(message);
      index := index + 1;
      start := start + ChunkSize;
    }
    if |data| == 0 {
      return Ok([]);
    }
    ChunksDone(|data|, index);
    return Ok(packets);
  }

  lemma NextChunk(msgType: byte, data: Bytes, index: nat, chunk: Bytes, message: Bytes)
    requires |data| < 0x1_0000 && index < NumChunks(|data|)
    requires chunk == data[index * 128..if index * 128 + ChunkSize <= |data| then index * 128 + ChunkSize else |data|]
    requires message == Message(msgType, |data|, index, chunk)
    ensures PacketsOfChunks(msgType, data, index + 1) == PacketsOfChunks(msgType, data, index) + Split20(message)
  {
    assert PacketLists(msgType, data, index + 1) == PacketLists(msgType, data, index) + [Split20(message)];
    ConcatOne(PacketLists(msgType, data, index), Split20(message));
  }

  lemma ChunksDone(n: nat, k: nat)
    requires n <= k * 128 < n + 128
    ensures k == NumChunks(n)
  {
  }

  /** The loop runs once per chunk: offset `k * 128` is inside the data
      exactly when `k` is a chunk index. */
  lemma ChunkCount(n: nat, k: nat)
    ensures k < NumChunks(n) <==> k * 128 < n
  {
  }

  // ---------------------------------------------------------------------
  // Properties of the encoding

  /** The chunks are consecutive slices of at most 128 bytes whose
      concatenation is the data. */
  lemma {:induction false} ChunksCover(data: Bytes, k: nat)
    requires k <= NumChunks(|data|)
    ensures k * 128 <= |data| || k == NumChunks(|data|)
    ensures ConcatChunks(data, k) == data[..if k * 128 <= |data| then k * 128 else |data|]
  {
    if k > 0 {
      ChunksCover(data, k - 1);
    }
  }

  function ConcatChunks(data: Bytes, k: nat): Bytes
    requires k <= NumChunks(|data|)
  {
    if k == 0 then [] else ConcatChunks(data, k - 1) + Chunk(data, k - 1)
  }

  lemma AllChunks(data: Bytes)
    ensures ConcatChunks(data, NumChunks(|data|)) == data
    ensures forall i :: 0 <= i < NumChunks(|data|) ==> 0 < |Chunk(data, i)| <= ChunkSize
  {
    ChunksCover(data, NumChunks(|data|));
  }

  /** The frame layout: u16-BE length = 8 + chunk length, the type, a zero
      byte, u16-BE total, u16-BE index, u8 chunk length, the chunk and a
      checksum that makes the XOR of every byte after the type zero. */
  lemma HeaderLayout(total: nat, index: nat, chunk: Bytes)
    requires total < 0x1_0000 && index < 0x1_0000 && |chunk| <= ChunkSize
    ensures var b := ChunkHeader(total, index, chunk);
      && |b| == 6 + |chunk| && b[0] == 0
      && b[1..3] == U16BE(total) && b[3..5] == U16BE(index)
      && b[5] as nat == |chunk| && b[6..] == chunk
  {
    ByteOfValue(|chunk|);
    var u, v := U16BE(total), U16BE(index);
    var b := ChunkHeader(total, index, chunk);
    assert b == [0x00] + u + v + [ByteOf(|chunk|)] + chunk;
    assert b[1..3] == u;
    assert b[3..5] == v;
    assert b[6..] == chunk;
  }

  lemma FrameLayout(msgType: byte, total: nat, index: nat, chunk: Bytes)
    requires total < 0x1_0000 && index < 0x1_0000 && |chunk| <= ChunkSize
    ensures var f := Frame(msgType, total, index, chunk);
      && |f| == 10 + |chunk|
      && (f[0] as nat) * 256 + (f[1] as nat) == 8 + |chunk|
      && f[2] == msgType && f[3] == 0
      && (f[4] as nat) * 256 + (f[5] as nat) == total
      && (f[6] as nat) * 256 + (f[7] as nat) == index
      && f[8] as nat == |chunk|
      && f[9..|f| - 1] == chunk
      && XorFold(f[3..]) == 0
  {
    HeaderLayout(total, index, chunk);
    HeaderBytes(ChunkHeader(total, index, chunk), U16BE(total), U16BE(index));
    U16BEValue(8 + |chunk|);
    U16BEValue(total);
    U16BEValue(index);
    FrameParts(msgType, total, index, chunk);
    FrameFields(U16BE(8 + |chunk|), msgType, ChunkHeader(total, index, chunk),
                XorFold(ChunkHeader(total, index, chunk)), Frame(msgType, total, index, chunk));
    XorFoldWithCheck(ChunkHeader(total, index, chunk));
  }

  /** A frame is its length prefix, its type, its header and chunk, and
      its checksum. */
  lemma FrameParts(msgType: byte, total: nat, index: nat, chunk: Bytes)
    requires total < 0x1_0000 && index < 0x1_0000 && |chunk| <= ChunkSize
    ensures |ChunkHeader(total, index, chunk)| == 6 + |chunk|
    ensures Frame(msgType, total, index, chunk)
            == U16BE(8 + |chunk|) + [msgType] + ChunkHeader(total, index, chunk)
               + [XorFold(ChunkHeader(total, index, chunk))]
  {
    HeaderLayout(total, index, chunk);
    assert |[msgType] + ChunkHeader(total, index, chunk) + [XorFold(ChunkHeader(total, index, chunk))]| == 8 + |chunk|;
  }

  /** The two 16-bit fields of a chunk header, byte by byte. */
  lemma HeaderBytes(b: Bytes, u: Bytes, v: Bytes)
    requires |b| >= 6 && |u| == 2 && |v| == 2 && b[1..3] == u && b[3..5] == v
    ensures b[1] == u[0] && b[2] == u[1] && b[3] == v[0] && b[4] == v[1]
  {
    assert b[1..3][0] == b[1] && b[1..3][1] == b[2];
    assert b[3..5][0] == b[3] && b[3..5][1] == b[4];
  }

  /** Where the parts of a frame land: length prefix, type, header and
      chunk, checksum. */
  lemma FrameFields(w: Bytes, t: byte, body: Bytes, x: byte, f: Bytes)
    requires |w| == 2 && |body| >= 6 && f == w + [t] + body + [x]
    ensures |f| == |body| + 4 && f[0] == w[0] && f[1] == w[1] && f[2] == t
    ensures f[3] == body[0] && f[4] == body[1] && f[5] == body[2]
    ensures f[6] == body[3] && f[7] == body[4] && f[8] == body[5]
    ensures f[9..|f| - 1] == body[6..] && f[3..] == body + [x]
  {
    assert f[9..|f| - 1] == body[6..];
    assert f[3..] == body + [x];
  }

  /** Every message starts with 0x01, ends with 0x03 and holds no other
      delimiter byte. */
  lemma MessageDelimited(msgType: byte, total: nat, index: nat, chunk: Bytes)
    requires total < 0x1_0000 && index < 0x1_0000 && |chunk| <= ChunkSize
    ensures var m := Message(msgType, total, index, chunk);
      && |m| >= 2 && m[0] == Start && m[|m| - 1] == End
      && WellEscaped(m[1..|m| - 1])
  {
    var f := Frame(msgType, total, index, chunk);
    EscapeWellFormed(f);
    var m := Message(msgType, total, index, chunk);
    assert m[1..|m| - 1] == Escape123(f);
  }

  /** What a receiver does with one message: strip the delimiters,
      unescape, check the length prefix and the checksum, and read the
      header fields. */
  function ParseMessage(m: Bytes): Option<(byte, nat, nat, Bytes)>
  {
    if |m| < 2 || m[0] != Start || m[|m| - 1] != End then None
    else match Unescape(m[1..|m| - 1])
      case None => None
      case Some(f) => ParseFrame(f)
  }

  /** Reads an unescaped frame, checking its length prefix, its reserved
      byte, its chunk length and its checksum. */
  function ParseFrame(f: Bytes): Option<(byte, nat, nat, Bytes)>
  {
    if |f| < 10 || (f[0] as nat) * 256 + (f[1] as nat) != |f| - 2
       || f[3] != 0 || f[8] as nat != |f| - 10 || XorFold(f[3..]) != 0 then None
    else Some((f[2], (f[4] as nat) * 256 + (f[5] as nat),
               (f[6] as nat) * 256 + (f[7] as nat), f[9..|f| - 1]))
  }

  lemma FrameRoundTrip(msgType: byte, total: nat, index: nat, chunk: Bytes)
    requires total < 0x1_0000 && index < 0x1_0000 && |chunk| <= ChunkSize
    ensures ParseFrame(Frame(msgType, total, index, chunk)) == Some((msgType, total, index, chunk))
  {
    FrameLayout(msgType, total, index, chunk);
  }

  /** Every encoded message parses back to its type, total, index and chunk. */
  lemma MessageRoundTrip(msgType: byte, total: nat, index: nat, chunk: Bytes)
    requires total < 0x1_0000 && index < 0x1_0000 && |chunk| <= ChunkSize
    ensures ParseMessage(Message(msgType, total, index, chunk)) == Some((msgType, total, index, chunk))
  {
    var f := Frame(msgType, total, index, chunk);
    var m := Message(msgType, total, index, chunk);
    assert m == [Start] + Escape123(f) + [End];
    assert m[1..|m| - 1] == Escape123(f);
    EscapeRoundTrip(f);
    FrameRoundTrip(msgType, total, index, chunk);
  }

  /** Packetisation: 1..20 bytes each, all but the last exactly 20, and
      together the whole message. */
  lemma {:induction false} Split20Facts(m: Bytes)
    ensures Concat(Split20(m)) == m
    ensures forall i :: 0 <= i < |Split20(m)| ==> 0 < |Split20(m)[i]| <= PacketSize
    ensures forall i :: 0 <= i < |Split20(m)| - 1 ==> |Split20(m)[i]| == PacketSize
    ensures m != [] ==> |Split20(m)| == (|m| + PacketSize - 1) / PacketSize
    decreases |m|
  {
    if |m| > PacketSize {
      Split20Facts(m[PacketSize..]);
      ConcatAppend([m[..PacketSize]], Split20(m[PacketSize..]));
      assert Concat([m[..PacketSize]]) == m[..PacketSize] by {
        assert [m[..PacketSize]][..0] == [];
      }
    } else if m != [] {
      assert Concat([m]) == Concat([m][..0]) + m;
    }
  }

  /** The packet list is the packets of chunk 0's message, then chunk 1's,
      and so on: concatenated they are the messages in chunk order. */
  lemma {:induction false} PacketsInChunkOrder(msgType: byte, data: Bytes, k: nat)
    requires |data| < 0x1_0000 && k <= NumChunks(|data|)
    ensures Concat(PacketsOfChunks(msgType, data, k)) == ConcatMessages(msgType, data, k)
  {
    if k > 0 {
      PacketsInChunkOrder(msgType, data, k - 1);
      var m := MessageAt(msgType, data, k - 1);
      Split20Facts(m);
      var a := PacketsOfChunks(msgType, data, k - 1);
      var b := Split20(m);
      NextChunk(msgType, data, k - 1, Chunk(data, k - 1), m);
      ConcatAppend(a, b);
    }
  }

  /** Every packet holds between 1 and 20 bytes. */
  lemma {:induction false} PacketSizes(msgType: byte, data: Bytes, k: nat)
    requires |data| < 0x1_0000 && k <= NumChunks(|data|)
    ensures forall i :: 0 <= i < |PacketsOfChunks(msgType, data, k)| ==>
              0 < |PacketsOfChunks(msgType, data, k)[i]| <= PacketSize
  {
    if k > 0 {
      PacketSizes(msgType, data, k - 1);
      var m := MessageAt(msgType, data, k - 1);
      Split20Facts(m);
      var a := PacketsOfChunks(msgType, data, k - 1);
      var b := Split20(m);
      NextChunk(msgType, data, k - 1, Chunk(data, k - 1), m);
      forall i | 0 <= i < |a + b| ensures 0 < |(a + b)[i]| <= PacketSize {
        if i >= |a| { assert (a + b)[i] == b[i - |a|]; }
      }
    }
  }

  function ConcatMessages(msgType: byte, data: Bytes, k: nat): Bytes
    requires |data| < 0x1_0000 && k <= NumChunks(|data|)
  {
    if k == 0 then [] else ConcatMessages(msgType, data, k - 1) + MessageAt(msgType, data, k - 1)
  }

  /** Empty data yields no packets, for any type. */
  lemma EmptyDataNoPackets(msgType: int)
    ensures PacketsSpec(msgType, []) == Ok([])
  {
  }

  // ---------------------------------------------------------------------
  // Glyph sets

  function Lengths(glyphs: seq<Bytes>): (r: seq<nat>)
    ensures |r| == |glyphs| && forall i :: 0 <= i < |glyphs| ==> r[i] == |glyphs[i]|
  {
    if glyphs == [] then [] else [|glyphs[0]|] + Lengths(glyphs[1..])
  }

  function Sum(s: seq<nat>): nat
  {
    if s == [] then 0 else s[0] + Sum(s[1..])
  }

  function Zeros(n: nat): (r: Bytes)
    ensures |r| == n && forall i :: 0 <= i < n ==> r[i] == 0
  {
    seq(n, _ => 0)
  }

  /** `struct.pack("80s", table)`: truncated or zero-padded to 80 bytes. */
  function Pad80(table: Bytes): (r: Bytes)
    ensures |r| == 80
  {
    if |table| >= 80 then table[..80] else table + Zeros(80 - |table|)
  }

  function AsBytes(ns: seq<nat>): (r: Bytes)
    requires forall i :: 0 <= i < |ns| ==> ns[i] < 256
    ensures |r| == |ns| && forall i :: 0 <= i < |ns| ==> r[i] as nat == ns[i]
  {
    if ns == [] then [] else (ByteOfValue(ns[0]); [ByteOf(ns[0])]) + AsBytes(ns[1..])
  }

  /** The glyph-set header `struct.pack(">24xB80sH", ...)`: 24 reserved
      zero bytes, the glyph count, the 80-byte table of glyph lengths and
      the u16-BE sum of the lengths. */
  function GlyphHeader(count: nat, lens: seq<nat>, total: nat): (h: Bytes)
    requires count < 256 && total < 0x1_0000
    requires forall i :: 0 <= i < |lens| ==> lens[i] < 256
    ensures |h| == 107
  {
    Zeros(24) + [ByteOf(count)] + Pad80(AsBytes(lens)) + U16BE(total)
  }

  /** The glyph-set payload: the header, then the glyphs concatenated. */
  function GlyphPayload(glyphs: seq<Bytes>): Result<Bytes, PackError>
  {
    var lens := Lengths(glyphs);
    if exists i :: 0 <= i < |lens| && lens[i] >= 256 then Err(GlyphTooLong)
    else if |glyphs| >= 256 then Err(TooManyGlyphs)
    else if Sum(lens) >= 0x1_0000 then Err(GlyphsTooLarge)
    else Ok(GlyphHeader(|glyphs|, lens, Sum(lens)) + Concat(glyphs))
  }

  /** `packets_from_glyphs(glyphs)`: the payload sent as message type 2. */
  function PacketsFromGlyphs(glyphs: seq<Bytes>): (r: Result<seq<Bytes>, PackError>)
    ensures GlyphPayload(glyphs).Err? ==> r == Err(GlyphPayload(glyphs).error)
    ensures GlyphPayload(glyphs).Ok? ==> r == PacketsSpec(2, GlyphPayload(glyphs).value)
  {
    match GlyphPayload(glyphs)
    case Err(e) => Err(e)
    case Ok(payload) => PacketsSpec(2, payload)
  }

  /** The three error cases, in the order Python evaluates them. */
  lemma GlyphErrors(glyphs: seq<Bytes>)
    ensures (exists i :: 0 <= i < |glyphs| && |glyphs[i]| >= 256) ==> GlyphPayload(glyphs) == Err(GlyphTooLong)
    ensures (forall i :: 0 <= i < |glyphs| ==> |glyphs[i]| < 256) ==>
      (GlyphPayload(glyphs).Ok? <==> |glyphs| < 256 && |Concat(glyphs)| < 0x1_0000)
  {
    ConcatLength(glyphs);
    var lens := Lengths(glyphs);
    if exists i :: 0 <= i < |glyphs| && |glyphs[i]| >= 256 {
      var i :| 0 <= i < |glyphs| && |glyphs[i]| >= 256;
      assert lens[i] >= 256;
    }
  }

  /** With at most 80 glyphs of fewer than 256 bytes each the table holds
      every glyph's length in order, then zeros. */
  lemma GlyphHeaderLayout(glyphs: seq<Bytes>)
    requires |glyphs| <= 80
    requires forall i :: 0 <= i < |glyphs| ==> |glyphs[i]| < 256
    requires Sum(Lengths(glyphs)) < 0x1_0000
    ensures GlyphPayload(glyphs).Ok?
    ensures var p := GlyphPayload(glyphs).value;
      && |p| == 107 + Sum(Lengths(glyphs))
      && (forall i :: 0 <= i < 24 ==> p[i] == 0)
      && p[24] as nat == |glyphs|
      && (forall i :: 0 <= i < |glyphs| ==> p[25 + i] as nat == |glyphs[i]|)
      && (forall i :: 25 + |glyphs| <= i < 105 ==> p[i] == 0)
      && (p[105] as nat) * 256 + (p[106] as nat) == Sum(Lengths(glyphs))
      && p[107..] == Concat(glyphs)
  {
    var lens := Lengths(glyphs);
    GlyphPayloadOk(glyphs);
    HeaderFields(|glyphs|, lens, Sum(lens));
    ConcatLength(glyphs);
    PayloadLayout(GlyphHeader(|glyphs|, lens, Sum(lens)), Concat(glyphs), |glyphs|, lens, Sum(lens));
  }

  lemma GlyphPayloadOk(glyphs: seq<Bytes>)
    requires |glyphs| <= 80
    requires forall i :: 0 <= i < |glyphs| ==> |glyphs[i]| < 256
    requires Sum(Lengths(glyphs)) < 0x1_0000
    ensures GlyphPayload(glyphs)
      == Ok(GlyphHeader(|glyphs|, Lengths(glyphs), Sum(Lengths(glyphs))) + Concat(glyphs))
  {
    var lens := Lengths(glyphs);
    assert forall i :: 0 <= i < |lens| ==> lens[i] < 256;
  }

  /** The header fields seen through the payload that starts with it. */
  lemma PayloadLayout(h: Bytes, c: Bytes, count: nat, lens: seq<nat>, total: nat)
    requires |h| == 107 && |lens| <= 80 && count == |lens|
    requires (forall i :: 0 <= i < 24 ==> h[i] == 0)
      && h[24] as nat == count
      && (forall i :: 0 <= i < |lens| ==> h[25 + i] as nat == lens[i])
      && (forall i :: 25 + |lens| <= i < 105 ==> h[i] == 0)
      && (h[105] as nat) * 256 + (h[106] as nat) == total
    ensures var p := h + c;
      && |p| == 107 + |c|
      && (forall i :: 0 <= i < 24 ==> p[i] == 0)
      && p[24] as nat == count
      && (forall i :: 0 <= i < count ==> p[25 + i] as nat == lens[i])
      && (forall i :: 25 + count <= i < 105 ==> p[i] == 0)
      && (p[105] as nat) * 256 + (p[106] as nat) == total
      && p[107..] == c
  {
    var p := h + c;
    assert forall i :: 0 <= i < 107 ==> p[i] == h[i];
    assert p[107..] == c;
  }

  lemma HeaderFields(count: nat, lens: seq<nat>, total: nat)
    requires count < 256 && total < 0x1_0000 && |lens| <= 80
    requires forall i :: 0 <= i < |lens| ==> lens[i] < 256
    ensures var h := GlyphHeader(count, lens, total);
      && (forall i :: 0 <= i < 24 ==> h[i] == 0)
      && h[24] as nat == count
      && (forall i :: 0 <= i < |lens| ==> h[25 + i] as nat == lens[i])
      && (forall i :: 25 + |lens| <= i < 105 ==> h[i] == 0)
      && (h[105] as nat) * 256 + (h[106] as nat) == total
  {
    ByteOfValue(count);
    U16BEValue(total);
    var bs := AsBytes(lens);
    PadTable(bs);
    var z, t, w := Zeros(24), Pad80(bs), U16BE(total);
    var h := GlyphHeader(count, lens, total);
    assert h == z + [ByteOf(count)] + t + w;
    forall i | 0 <= i < 80 ensures h[25 + i] == t[i] { }
    assert h[105] == w[0] && h[106] == w[1];
  }

  lemma PadTable(bs: Bytes)
    requires |bs| <= 80
    ensures forall i :: 0 <= i < |bs| ==> Pad80(bs)[i] == bs[i]
    ensures forall i :: |bs| <= i < 80 ==> Pad80(bs)[i] == 0
  {
  }

  lemma {:induction false} ConcatLength(glyphs: seq<Bytes>)
    ensures |Concat(glyphs)| == Sum(Lengths(glyphs))
  {
    if glyphs != [] {
      ConcatLength(glyphs[1..]);
      assert glyphs == [glyphs[0]] + glyphs[1..];
      ConcatAppend([glyphs[0]], glyphs[1..]);
      assert Concat([glyphs[0]]) == glyphs[0] by { assert [glyphs[0]][..0] == []; }
    }
  }
}
