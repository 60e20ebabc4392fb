/** The log stream of a Docker container: frames of an 8-byte header (stream type, three zero bytes, the
    payload's size as a big-endian 32-bit number) and the payload. */
module DockerFrames {
  newtype byte = b: int | 0 <= b < 256

  const HEADER := 8
  const MAX_SIZE := 0x1_0000_0000

  datatype Frame = Frame(stream: byte, payload: seq<byte>)

  /** A frame whose size the header can state. */
  predicate Sendable(f: Frame) { |f.payload| < MAX_SIZE }

  function SizeAt(data: seq<byte>, i: nat): (size: nat)
    requires i + HEADER <= |data|
    ensures size < MAX_SIZE
  {
    data[i + 4] as int * 0x100_0000 + data[i + 5] as int * 0x1_0000 + data[i + 6] as int * 0x100 + data[i + 7] as int
  }

  /** The lowest k bytes of n, the highest first. */
  function BigEndian(n: nat, k: nat): (bytes: seq<byte>)
    ensures |bytes| == k
  {
    if k == 0 then [] else BigEndian(n / 0x100, k - 1) + [(n % 0x100) as byte]
  }

  function Header(f: Frame): (h: seq<byte>)
    requires Sendable(f)
    ensures |h| == HEADER
  {
    [f.stream, 0, 0, 0] + BigEndian(|f.payload|, 4)
  }

  /** The size is written with the highest byte first. */
  lemma SizeIsBigEndian(a: byte, b: byte, c: byte, d: byte, data: seq<byte>)
    requires |data| >= HEADER && data[4..8] == [a, b, c, d]
    ensures SizeAt(data, 0) == ((a as int * 256 + b as int) * 256 + c as int) * 256 + d as int
  {
    assert data[4..8][0] == data[4] && data[4..8][1] == data[5] && data[4..8][2] == data[6] && data[4..8][3] == data[7];
  }

  /** The header of a frame of 258 bytes. */
  lemma HeaderOf258(f: Frame)
    requires |f.payload| == 258
    ensures Header(f) == [f.stream, 0, 0, 0, 0, 0, 1, 2]
  {
    assert BigEndian(0, 1) == [0] && BigEndian(0, 2) == [0, 0];
    assert BigEndian(1, 3) == [0, 0, 1] && BigEndian(258, 4) == [0, 0, 1, 2];
  }

  lemma SizeOfHeader(f: Frame)
    requires Sendable(f)
    ensures SizeAt(Header(f), 0) == |f.payload|
  {
    var n := |f.payload|;
    var n1 := n / 0x100;
    var n2 := n1 / 0x100;
    var n3 := n2 / 0x100;
    assert BigEndian(n3, 1) == [n3 as byte];
    assert BigEndian(n2, 2) == [n3 as byte, (n2 % 0x100) as byte];
    assert BigEndian(n1, 3) == [n3 as byte, (n2 % 0x100) as byte, (n1 % 0x100) as byte];
    assert BigEndian(n, 4) == [n3 as byte, (n2 % 0x100) as byte, (n1 % 0x100) as byte, (n % 0x100) as byte];
  }

  /** What the container wrote to the wire. */
  function Encode(frames: seq<Frame>): seq<byte>
    requires forall f :: f in frames ==> Sendable(f)
  {
    if frames == [] then [] else Header(frames[0]) + frames[0].payload + Encode(frames[1..])
  }

  function Payloads(frames: seq<Frame>): seq<byte> {
    if frames == [] then [] else frames[0].payload + Payloads(frames[1..])
  }

  /** What the reader makes of any bytes at all. */
  function Decode(data: seq<byte>): (text: seq<byte>)
    decreases |data|
  {
    if |data| < HEADER then data
    else
      var size := SizeAt(data, 0);
      if HEADER + size <= |data| then data[HEADER..HEADER + size] + Decode(data[HEADER + size..])
      else data[HEADER..]
  }

  /** Decoding a frame from position i on. */
  lemma DecodeFrameAt(data: seq<byte>, i: nat, piece: seq<byte>, next: nat)
    requires i + HEADER <= next <= |data| && next == i + HEADER + SizeAt(data, i) && piece == data[i + HEADER..next]
    ensures Decode(data[i..]) == piece + Decode(data[next..])
  {
    var size := SizeAt(data, i);
    SizeOfTail(data, i);
    SliceOfTail(data, i, HEADER, HEADER + size);
    TailOfTail(data, i, HEADER + size);
    DecodeWhole(data[i..], size, piece, data[next..]);
  }

  /** Decoding an unfinished frame from position i on. */
  lemma DecodeCutAt(data: seq<byte>, i: nat, piece: seq<byte>)
    requires i + HEADER <= |data| < i + HEADER + SizeAt(data, i) && piece == data[i + HEADER..]
    ensures Decode(data[i..]) == piece + Decode(data[|data|..])
  {
    SizeOfTail(data, i);
    TailOfTail(data, i, HEADER);
    DecodeUnfinished(data[i..]);
    NothingLeft(data, piece);
  }

  /** Decoding less than a header from position i on. */
  lemma DecodeLooseAt(data: seq<byte>, i: nat, piece: seq<byte>)
    requires i <= |data| < i + HEADER && piece == data[i..]
    ensures Decode(data[i..]) == piece + Decode(data[|data|..])
  {
    NothingLeft(data, piece);
  }

  lemma NothingLeft(data: seq<byte>, text: seq<byte>)
    ensures text + Decode(data[|data|..]) == text
  {
    assert data[|data|..] == [];
  }

  lemma SizeOfTail(data: seq<byte>, i: nat)
    requires i + HEADER <= |data|
    ensures SizeAt(data[i..], 0) == SizeAt(data, i)
  {
  }

  lemma DecodeWhole(data: seq<byte>, size: nat, payload: seq<byte>, rest: seq<byte>)
    requires |data| >= HEADER && SizeAt(data, 0) == size && HEADER + size <= |data|
    requires data[HEADER..HEADER + size] == payload && data[HEADER + size..] == rest
    ensures Decode(data) == payload + Decode(rest)
  {
  }

  lemma DecodeUnfinished(data: seq<byte>)
    requires |data| >= HEADER && HEADER + SizeAt(data, 0) > |data|
    ensures Decode(data) == data[HEADER..]
  {
  }

  lemma TailOfTail(data: seq<byte>, i: nat, from: nat)
    requires i + from <= |data|
    ensures data[i..][from..] == data[i + from..]
  {
  }

  lemma SliceOfTail(data: seq<byte>, i: nat, from: nat, to: nat)
    requires from <= to && i + to <= |data|
    ensures data[i..][from..to] == data[i + from..i + to]
  {
  }

  /** What the loop writes at position i, and where it reads on (the end, for a break). */
  predicate FrameAt(data: seq<byte>, i: nat, piece: seq<byte>, next: nat)
    requires i < |data|
  {
    if i + HEADER > |data| then piece == data[i..] && next == |data|
    else
      var start, size := i + HEADER, SizeAt(data, i);
      if start + size <= |data| then piece == data[start..start + size] && next == start + size
      else piece == data[start..] && next == |data|
  }

  lemma DecodeAt(data: seq<byte>, i: nat, piece: seq<byte>, next: nat)
    requires i < |data| && FrameAt(data, i, piece, next)
    ensures i < next <= |data| && Decode(data[i..]) == piece + Decode(data[next..])
  {
    if i + HEADER > |data| {
      DecodeLooseAt(data, i, piece);
    } else if i + HEADER + SizeAt(data, i) <= |data| {
      DecodeFrameAt(data, i, piece, next);
    } else {
      DecodeCutAt(data, i, piece);
    }
  }

  /** The loop's body. */
  method ReadFrame(logData: seq<byte>, i: nat) returns (piece: seq<byte>, next: nat)
    requires i < |logData|
    ensures FrameAt(logData, i, piece, next)
  {
    if i + HEADER > |logData| {
      return logData[i..], |logData|;
    }
    var size := SizeAt(logData, i);
    var start := i + HEADER;
    if start + size <= |logData| {
      return logData[start..start + size], start + size;
    }
    return logData[start..], |logData|;
  }

  method CleanDockerLogOutput(logData: seq<byte>) returns (output: seq<byte>)
    ensures output == Decode(logData)
  {
    output := [];
    var i := 0;
    while i < |logData|
      invariant 0 <= i <= |logData|
      invariant output + Decode(logData[i..]) == Decode(logData)
    {
      var piece, next := ReadFrame(logData, i);
      DecodeAt(logData, i, piece, next);
      Regroup(output, piece, Decode(logData[next..]));
      output, i := output + piece, next;
    }
    assert logData[i..] == [];
  }

  /** One frame at the front is read off whole, whatever follows. */
  lemma DecodeFrame(f: Frame, rest: seq<byte>)
    requires Sendable(f)
    ensures Decode(Header(f) + f.payload + rest) == f.payload + Decode(rest)
  {
    var data := Header(f) + f.payload + rest;
    assert forall k :: 0 <= k < HEADER ==> data[k] == Header(f)[k];
    SizeOfHeader(f);
    assert SizeAt(data, 0) == |f.payload|;
    assert data[HEADER..HEADER + |f.payload|] == f.payload;
    assert data[HEADER + |f.payload|..] == rest;
  }

  lemma Regroup(a: seq<byte>, b: seq<byte>, c: seq<byte>)
    ensures (a + b) + c == a + (b + c)
  {
  }

  /** Frames, and then whatever the stream ends with. */
  lemma {:induction false} DecodeFrames(frames: seq<Frame>, rest: seq<byte>)
    requires forall f :: f in frames ==> Sendable(f)
    ensures Decode(Encode(frames) + rest) == Payloads(frames) + Decode(rest)
  {
    if frames == [] {
      assert Encode(frames) + rest == rest;
    } else {
      var f, others := frames[0], frames[1..];
      DecodeFrames(others, rest);
      DecodeFrame(f, Encode(others) + rest);
      Regroup(Header(f) + f.payload, Encode(others), rest);
    }
  }

  /** A complete stream gives back the payloads and nothing else. */
  lemma DecodeEncode(frames: seq<Frame>)
    requires forall f :: f in frames ==> Sendable(f)
    ensures Decode(Encode(frames)) == Payloads(frames)
  {
    DecodeFrames(frames, []);
    assert Encode(frames) + [] == Encode(frames);
  }

  /** What of a frame has arrived when only its first n bytes have. */
  function Arrived(f: Frame, n: nat): seq<byte>
    requires Sendable(f) && n < HEADER + |f.payload|
  {
    if n < HEADER then Header(f)[..n] else f.payload[..n - HEADER]
  }

  lemma DecodeCutFrame(f: Frame, n: nat)
    requires Sendable(f) && n < HEADER + |f.payload|
    ensures Decode((Header(f) + f.payload)[..n]) == Arrived(f, n)
  {
    var data := (Header(f) + f.payload)[..n];
    if n < HEADER {
      assert data == Header(f)[..n];
    } else {
      assert forall k :: 0 <= k < HEADER ==> data[k] == Header(f)[k];
      SizeOfHeader(f);
      assert SizeAt(data, 0) == |f.payload|;
      assert data[HEADER..] == f.payload[..n - HEADER];
    }
  }

  /** The number of payload bytes among the first `cut` bytes of a stream. */
  function Before(frames: seq<Frame>, cut: nat): (n: nat)
    ensures n <= |Payloads(frames)|
  {
    if frames == [] then 0
    else
      var whole := HEADER + |frames[0].payload|;
      if cut >= whole then |frames[0].payload| + Before(frames[1..], cut - whole)
      else if cut >= HEADER then cut - HEADER else 0
  }

  /** The bytes of an unfinished header at the end of the first `cut` bytes of a stream. */
  function Loose(frames: seq<Frame>, cut: nat): (bytes: seq<byte>)
    requires forall f :: f in frames ==> Sendable(f)
    ensures |bytes| < HEADER
  {
    if frames == [] then []
    else
      var whole := HEADER + |frames[0].payload|;
      if cut >= whole then Loose(frames[1..], cut - whole)
      else if cut < HEADER then Header(frames[0])[..cut] else []
  }

  lemma CutAfter(first: seq<byte>, others: seq<byte>, n: nat)
    requires |first| <= n <= |first| + |others|
    ensures (first + others)[..n] == first + others[..n - |first|]
  {
  }

  lemma CutWithin(first: seq<byte>, others: seq<byte>, n: nat)
    requires n <= |first|
    ensures (first + others)[..n] == first[..n]
  {
  }

  lemma Joined(f: Frame, rest: seq<byte>, text: seq<byte>, loose: seq<byte>)
    requires Sendable(f) && Decode(rest) == text + loose
    ensures Decode(Header(f) + f.payload + rest) == f.payload + text + loose
  {
    DecodeFrame(f, rest);
    Regroup(f.payload, text, loose);
  }

  /** A cut behind the first frame. */
  lemma CutPast(f: Frame, rest: seq<byte>, payloads: seq<byte>, cut: nat, before: nat, loose: seq<byte>)
    requires Sendable(f) && HEADER + |f.payload| <= cut <= HEADER + |f.payload| + |rest|
    requires |f.payload| <= before <= |f.payload| + |payloads|
    requires Decode(rest[..cut - (HEADER + |f.payload|)]) == payloads[..before - |f.payload|] + loose
    ensures Decode((Header(f) + f.payload + rest)[..cut]) == (f.payload + payloads)[..before] + loose
  {
    var left, more := cut - (HEADER + |f.payload|), before - |f.payload|;
    CutAfter(Header(f) + f.payload, rest, cut);
    CutAfter(f.payload, payloads, before);
    Joined(f, rest[..left], payloads[..more], loose);
  }

  /** A cut inside the first frame. */
  lemma CutInside(f: Frame, rest: seq<byte>, payloads: seq<byte>, cut: nat, before: nat, loose: seq<byte>)
    requires Sendable(f) && cut < HEADER + |f.payload|
    requires before == if cut >= HEADER then cut - HEADER else 0
    requires loose == if cut < HEADER then Header(f)[..cut] else []
    ensures Decode((Header(f) + f.payload + rest)[..cut]) == (f.payload + payloads)[..before] + loose
  {
    CutWithin(Header(f) + f.payload, rest, cut);
    DecodeCutFrame(f, cut);
    if cut >= HEADER {
      CutWithin(f.payload, payloads, cut - HEADER);
    }
  }

  /** Wherever the stream is cut off, the reader gives exactly the payload bytes that came before the cut; a cut
      inside a header adds the header's first bytes, and nothing else does. */
  lemma {:induction false} DecodeCut(frames: seq<Frame>, cut: nat)
    requires forall f :: f in frames ==> Sendable(f)
    requires cut <= |Encode(frames)|
    ensures Decode(Encode(frames)[..cut]) == Payloads(frames)[..Before(frames, cut)] + Loose(frames, cut)
  {
    if frames == [] {
    } else {
      var f, others := frames[0], frames[1..];
      var whole := HEADER + |f.payload|;
      if cut >= whole {
        DecodeCut(others, cut - whole);
        CutPast(f, Encode(others), Payloads(others), cut, Before(frames, cut), Loose(frames, cut));
      } else {
        CutInside(f, Encode(others), Payloads(others), cut, Before(frames, cut), Loose(frames, cut));
      }
    }
  }
}
