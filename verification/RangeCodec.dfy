/** The byte layout of a range proof. The base64 text around the bytes is not part of this model. */
module RangeCodec {
  import opened Basics
  import opened RangeProof

  type Digest = s: seq<byte> | |s| == 32 witness seq(32, _ => 0)

  /** "AHLRP1" */
  const MAGIC: seq<byte> := [0x41, 0x48, 0x4C, 0x52, 0x50, 0x31]

  const HEADER_LEN: nat := 34

  datatype CodecError = Truncated | WrongMagic | LengthDisagrees

  // ---------------------------------------------------------------------------
  // Integers
  // ---------------------------------------------------------------------------

  function Bound(width: nat): nat {
    if width == 0 then 1 else 256 * Bound(width - 1)
  }

  /** The `width` low-order octets of `n`, most significant first. */
  function BigEndian(n: nat, width: nat): (octets: seq<byte>)
    ensures |octets| == width
    decreases width
  {
    if width == 0 then [] else BigEndian(n / 256, width - 1) + [n % 256]
  }

  function FromBigEndian(octets: seq<byte>): nat
  {
    if octets == [] then 0
    else 256 * FromBigEndian(octets[..|octets| - 1]) + octets[|octets| - 1]
  }

  lemma {:induction false} IntegerRoundTrip(n: nat, width: nat)
    requires n < Bound(width)
    ensures FromBigEndian(BigEndian(n, width)) == n
    decreases width
  {
    if width > 0 {
      IntegerRoundTrip(n / 256, width - 1);
      assert BigEndian(n, width)[..width - 1] == BigEndian(n / 256, width - 1);
    }
  }

  lemma {:induction false} OctetsRoundTrip(octets: seq<byte>)
    ensures FromBigEndian(octets) < Bound(|octets|)
    ensures BigEndian(FromBigEndian(octets), |octets|) == octets
  {
    if octets != [] {
      var last := |octets| - 1;
      OctetsRoundTrip(octets[..last]);
      assert octets == octets[..last] + [octets[last]];
    }
  }

  lemma WordBounds()
    ensures Bound(4) == TWO_32 && Bound(8) == TWO_64
  {
    assert Bound(2) == 0x1_0000;
    assert Bound(4) == 0x1_0000_0000;
    assert Bound(6) == 0x1_0000_0000_0000;
  }

  // ---------------------------------------------------------------------------
  // Hashes
  // ---------------------------------------------------------------------------

  function Concatenated(nodes: seq<Digest>): (octets: seq<byte>)
    ensures |octets| == 32 * |nodes|
  {
    if nodes == [] then [] else Concatenated(nodes[..|nodes| - 1]) + nodes[|nodes| - 1]
  }

  lemma ConcatenatedStep(nodes: seq<Digest>, i: nat)
    requires i < |nodes|
    ensures Concatenated(nodes[..i + 1]) == Concatenated(nodes[..i]) + nodes[i]
  {
    assert nodes[..i + 1][..i] == nodes[..i];
  }

  function Chunks(octets: seq<byte>, count: nat): (nodes: seq<Digest>)
    requires |octets| == 32 * count
    ensures |nodes| == count
    decreases count
  {
    if count == 0 then [] else
    var last := 32 * (count - 1);
    Chunks(octets[..last], count - 1) + [octets[last..]]
  }

  lemma {:induction false} ChunksOfConcatenated(nodes: seq<Digest>)
    ensures Chunks(Concatenated(nodes), |nodes|) == nodes
  {
    if nodes != [] {
      var last := |nodes| - 1;
      ChunksOfConcatenated(nodes[..last]);
      assert Concatenated(nodes)[..32 * last] == Concatenated(nodes[..last]);
      assert Concatenated(nodes)[32 * last..] == nodes[last];
      assert nodes == nodes[..last] + [nodes[last]];
    }
  }

  lemma {:induction false} ConcatenatedChunks(octets: seq<byte>, count: nat)
    requires |octets| == 32 * count
    ensures Concatenated(Chunks(octets, count)) == octets
    decreases count
  {
    if count > 0 {
      var last := 32 * (count - 1);
      ConcatenatedChunks(octets[..last], count - 1);
      var nodes := Chunks(octets, count);
      assert nodes[..|nodes| - 1] == Chunks(octets[..last], count - 1);
      assert octets == octets[..last] + octets[last..];
    }
  }

  // ---------------------------------------------------------------------------
  // Proofs
  // ---------------------------------------------------------------------------

  /** The count field: a list too long for 32 bits is written as the largest 32-bit value. */
  function CountField(nodes: nat): u32 {
    if nodes < TWO_32 then nodes else TWO_32 - 1
  }

  function Header(p: RangeProof<Digest>): (octets: seq<byte>)
    ensures |octets| == HEADER_LEN
  {
    MAGIC + BigEndian(p.treeSize, 8) + BigEndian(p.fromIndex, 8) + BigEndian(p.toIndex, 8)
    + BigEndian(CountField(|p.nodes|), 4)
  }

  function Encoding(p: RangeProof<Digest>): seq<byte> {
    Header(p) + Concatenated(p.nodes)
  }

  method WriteHeader(p: RangeProof<Digest>) returns (octets: seq<byte>)
    ensures octets == Header(p)
  {
    octets := MAGIC;
    octets := octets + BigEndian(p.treeSize, 8);
    octets := octets + BigEndian(p.fromIndex, 8);
    octets := octets + BigEndian(p.toIndex, 8);
    octets := octets + BigEndian(CountField(|p.nodes|), 4);
  }

  method AppendNodes(start: seq<byte>, nodes: seq<Digest>) returns (octets: seq<byte>)
    ensures octets == start + Concatenated(nodes)
  {
    octets := start;
    for i := 0 to |nodes|
      invariant octets == start + Concatenated(nodes[..i])
    {
      ConcatenatedStep(nodes, i);
      octets := octets + nodes[i];
    }
    assert nodes[..|nodes|] == nodes;
  }

  method Encode(p: RangeProof<Digest>) returns (octets: seq<byte>)
    ensures octets == Encoding(p)
  {
    octets := WriteHeader(p);
    octets := AppendNodes(octets, p.nodes);
  }

  function ReadU64(octets: seq<byte>, at: nat): (n: u64)
    requires at + 8 <= |octets|
  {
    OctetsRoundTrip(octets[at..at + 8]);
    WordBounds();
    FromBigEndian(octets[at..at + 8])
  }

  function Decode(octets: seq<byte>): Result<RangeProof<Digest>, CodecError> {
    if |octets| < HEADER_LEN then Err(Truncated)
    else if octets[..6] != MAGIC then Err(WrongMagic)
    else
      var count := FromBigEndian(octets[30..34]);
      var body := octets[HEADER_LEN..];
      if 32 * count != |body| then Err(LengthDisagrees)
      else Ok(RangeProof(ReadU64(octets, 6), ReadU64(octets, 14), ReadU64(octets, 22), Chunks(body, count)))
  }

  /** The parts of a concatenation, read back by position. */
  lemma PartsOf(s: seq<byte>, a: seq<byte>, b: seq<byte>, c: seq<byte>, d: seq<byte>, e: seq<byte>, f: seq<byte>)
    requires s == a + b + c + d + e + f && |a| == 6 && |b| == |c| == |d| == 8 && |e| == 4
    ensures s[..6] == a && s[6..14] == b && s[14..22] == c && s[22..30] == d && s[30..34] == e && s[34..] == f
  {
  }

  lemma HeaderFields(p: RangeProof<Digest>, rest: seq<byte>)
    ensures var octets := Header(p) + rest;
      && octets[..6] == MAGIC
      && octets[6..14] == BigEndian(p.treeSize, 8) && octets[14..22] == BigEndian(p.fromIndex, 8)
      && octets[22..30] == BigEndian(p.toIndex, 8) && octets[30..34] == BigEndian(CountField(|p.nodes|), 4)
      && octets[34..] == rest
  {
    PartsOf(Header(p) + rest, MAGIC, BigEndian(p.treeSize, 8), BigEndian(p.fromIndex, 8), BigEndian(p.toIndex, 8),
            BigEndian(CountField(|p.nodes|), 4), rest);
  }

  /** Decoding inverts encoding for every proof whose count fits its field. */
  lemma DecodeOfEncoding(p: RangeProof<Digest>)
    requires |p.nodes| < TWO_32
    ensures Decode(Encoding(p)) == Ok(p)
  {
    var octets := Encoding(p);
    HeaderFields(p, Concatenated(p.nodes));
    WordBounds();
    IntegerRoundTrip(p.treeSize, 8);
    IntegerRoundTrip(p.fromIndex, 8);
    IntegerRoundTrip(p.toIndex, 8);
    IntegerRoundTrip(|p.nodes|, 4);
    ChunksOfConcatenated(p.nodes);
  }

  lemma HeaderOfDecode(octets: seq<byte>)
    requires Decode(octets).Ok?
    ensures |Decode(octets).value.nodes| < TWO_32 && Header(Decode(octets).value) == octets[..HEADER_LEN]
  {
    OctetsRoundTrip(octets[30..34]);
    OctetsRoundTrip(octets[6..14]);
    OctetsRoundTrip(octets[14..22]);
    OctetsRoundTrip(octets[22..30]);
    WordBounds();
  }

  /** Whatever decoding accepts is what encoding its result writes: no two texts for one proof. */
  lemma EncodingOfDecode(octets: seq<byte>)
    requires Decode(octets).Ok?
    ensures |Decode(octets).value.nodes| < TWO_32 && Encoding(Decode(octets).value) == octets
  {
    HeaderOfDecode(octets);
    ConcatenatedChunks(octets[HEADER_LEN..], |Decode(octets).value.nodes|);
    assert octets == octets[..HEADER_LEN] + octets[HEADER_LEN..];
  }

  /** The accepted texts and the proofs with a 32-bit count correspond one to one. */
  lemma DecodeIffEncoding(octets: seq<byte>, p: RangeProof<Digest>)
    ensures Decode(octets) == Ok(p) <==> |p.nodes| < TWO_32 && octets == Encoding(p)
  {
    if Decode(octets) == Ok(p) {
      EncodingOfDecode(octets);
    }
    if |p.nodes| < TWO_32 && octets == Encoding(p) {
      DecodeOfEncoding(p);
    }
  }
}
