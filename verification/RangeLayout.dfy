/** Where every octet of an encoded range proof is, said of the octets and the proof's fields alone. */
module RangeLayout {
  import opened Basics
  import opened RangeProof
  import opened RangeCodec

  /** Four octets as a number. */
  function Four(a: int, b: int, c: int, d: int): int {
    ((a * 256 + b) * 256 + c) * 256 + d
  }

  /** The four octets at `at` are `n`, most significant first. */
  predicate Word32At(octets: seq<byte>, at: nat, n: int)
    requires at + 4 <= |octets|
  {
    n == Four(octets[at], octets[at + 1], octets[at + 2], octets[at + 3])
  }

  /** The eight octets at `at` are `n`, most significant first. */
  predicate Word64At(octets: seq<byte>, at: nat, n: int)
    requires at + 8 <= |octets|
  {
    n == Four(octets[at], octets[at + 1], octets[at + 2], octets[at + 3]) * TWO_32
       + Four(octets[at + 4], octets[at + 5], octets[at + 6], octets[at + 7])
  }

  predicate FieldsAt(octets: seq<byte>, p: RangeProof<Digest>)
    requires |octets| >= 34
  {
    && octets[..6] == [0x41, 0x48, 0x4C, 0x52, 0x50, 0x31]
    && Word64At(octets, 6, p.treeSize)
    && Word64At(octets, 14, p.fromIndex)
    && Word64At(octets, 22, p.toIndex)
    && Word32At(octets, 30, if |p.nodes| < TWO_32 then |p.nodes| else 0xFFFF_FFFF)
  }

  /** The magic `AHLRP1`, 64-bit integers at 6, 14 and 22, the hash count at 30, and hash `k` at 34 + 32k. */
  predicate LaidOut(octets: seq<byte>, p: RangeProof<Digest>) {
    && |octets| == 34 + 32 * |p.nodes|
    && FieldsAt(octets, p)
    && forall k :: 0 <= k < |p.nodes| ==> HashAt(octets, 34 + 32 * k, p.nodes[k])
  }

  predicate HashAt(octets: seq<byte>, at: nat, hash: Digest) {
    at + 32 <= |octets| && octets[at..at + 32] == hash
  }

  lemma ValueStep(s: seq<byte>, k: nat)
    requires k < |s|
    ensures FromBigEndian(s[..k + 1]) == 256 * FromBigEndian(s[..k]) + s[k]
  {
    assert s[..k + 1][..k] == s[..k];
  }

  lemma Value32(s: seq<byte>)
    requires |s| >= 4
    ensures FromBigEndian(s[..4]) == Four(s[0], s[1], s[2], s[3])
  {
    ValueStep(s, 0);
    ValueStep(s, 1);
    ValueStep(s, 2);
    ValueStep(s, 3);
    assert s[..0] == [];
  }

  lemma Value64(s: seq<byte>)
    requires |s| == 8
    ensures Word64At(s, 0, FromBigEndian(s))
  {
    Value32(s);
    ValueStep(s, 4);
    ValueStep(s, 5);
    ValueStep(s, 6);
    ValueStep(s, 7);
    assert s[..8] == s;
  }

  /** Octets are the encoding of an integer exactly when they have its value. */
  lemma EncodedIff(field: seq<byte>, n: nat, width: nat)
    requires |field| == width && n < Bound(width)
    ensures field == BigEndian(n, width) <==> FromBigEndian(field) == n
  {
    OctetsRoundTrip(field);
    IntegerRoundTrip(n, width);
  }

  lemma Field64Iff(octets: seq<byte>, at: nat, n: u64)
    requires at + 8 <= |octets|
    ensures octets[at..at + 8] == BigEndian(n, 8) <==> Word64At(octets, at, n)
  {
    WordBounds();
    EncodedIff(octets[at..at + 8], n, 8);
    Value64(octets[at..at + 8]);
  }

  lemma Field32Iff(octets: seq<byte>, at: nat, n: u32)
    requires at + 4 <= |octets|
    ensures octets[at..at + 4] == BigEndian(n, 4) <==> Word32At(octets, at, n)
  {
    WordBounds();
    EncodedIff(octets[at..at + 4], n, 4);
    Value32(octets[at..at + 4]);
    assert octets[at..at + 4][..4] == octets[at..at + 4];
  }

  lemma HashShifted(body: seq<byte>, octets: seq<byte>, from: nat, hash: Digest, at: nat)
    requires from <= |octets| && body == octets[from..]
    ensures HashAt(body, at, hash) <==> HashAt(octets, from + at, hash)
  {
    if from + at + 32 <= |octets| {
      assert body[at..at + 32] == octets[from + at..from + at + 32];
    }
  }

  predicate HashesAt(body: seq<byte>, nodes: seq<Digest>) {
    forall k :: 0 <= k < |nodes| ==> HashAt(body, 32 * k, nodes[k])
  }

  lemma HashesOfFront(nodes: seq<Digest>, body: seq<byte>)
    requires |body| == 32 * |nodes| && nodes != []
    ensures var last := |nodes| - 1;
      HashesAt(body, nodes) <==>
        HashesAt(body[..32 * last], nodes[..last]) && body[32 * last..] == nodes[last]
  {
    var last := |nodes| - 1;
    var front := body[..32 * last];
    forall k | 0 <= k < last ensures HashAt(front, 32 * k, nodes[..last][k]) <==> HashAt(body, 32 * k, nodes[k]) {
      assert front[32 * k..32 * k + 32] == body[32 * k..32 * k + 32];
    }
    assert body[32 * last..32 * last + 32] == body[32 * last..];
    assert HashAt(body, 32 * last, nodes[last]) <==> body[32 * last..] == nodes[last];
  }

  lemma {:induction false} HashesAre(nodes: seq<Digest>, body: seq<byte>)
    requires |body| == 32 * |nodes|
    ensures body == Concatenated(nodes) <==> HashesAt(body, nodes)
  {
    if nodes != [] {
      var last := |nodes| - 1;
      var (front, end) := (body[..32 * last], body[32 * last..]);
      HashesAre(nodes[..last], front);
      HashesOfFront(nodes, body);
      SplitIff(body, front, end, Concatenated(nodes[..last]), nodes[last]);
    }
  }

  lemma SplitIff(s: seq<byte>, front: seq<byte>, end: seq<byte>, a: seq<byte>, b: seq<byte>)
    requires s == front + end && |front| == |a|
    ensures s == a + b <==> front == a && end == b
  {
    assert (front + end)[..|front|] == front && (front + end)[|front|..] == end;
    assert (a + b)[..|a|] == a && (a + b)[|a|..] == b;
  }

  lemma HeaderIff(octets: seq<byte>, p: RangeProof<Digest>)
    requires |octets| >= HEADER_LEN
    ensures octets[..HEADER_LEN] == Header(p) <==>
              octets[..6] == MAGIC
              && octets[6..14] == BigEndian(p.treeSize, 8) && octets[14..22] == BigEndian(p.fromIndex, 8)
              && octets[22..30] == BigEndian(p.toIndex, 8) && octets[30..34] == BigEndian(CountField(|p.nodes|), 4)
  {
    var rest := octets[HEADER_LEN..];
    HeaderFields(p, rest);
    assert octets == octets[..HEADER_LEN] + rest;
    assert octets[..HEADER_LEN] == octets[..6] + octets[6..14] + octets[14..22] + octets[22..30] + octets[30..34];
  }

  lemma HeaderLaidOut(octets: seq<byte>, p: RangeProof<Digest>)
    requires |octets| >= HEADER_LEN
    ensures octets[..HEADER_LEN] == Header(p) <==> FieldsAt(octets, p)
  {
    HeaderIff(octets, p);
    Field64Iff(octets, 6, p.treeSize);
    Field64Iff(octets, 14, p.fromIndex);
    Field64Iff(octets, 22, p.toIndex);
    Field32Iff(octets, 30, CountField(|p.nodes|));
  }

  lemma BodyLaidOut(octets: seq<byte>, nodes: seq<Digest>)
    requires |octets| == HEADER_LEN + 32 * |nodes|
    ensures octets[HEADER_LEN..] == Concatenated(nodes) <==>
              forall k :: 0 <= k < |nodes| ==> HashAt(octets, 34 + 32 * k, nodes[k])
  {
    var body := octets[HEADER_LEN..];
    HashesAre(nodes, body);
    forall k | 0 <= k < |nodes| ensures HashAt(body, 32 * k, nodes[k]) <==> HashAt(octets, 34 + 32 * k, nodes[k]) {
      HashShifted(body, octets, HEADER_LEN, nodes[k], 32 * k);
    }
  }

  /** Every proof encodes to the octets its fields lay out, the count at its largest where it does not fit. */
  lemma LaidOutIff(octets: seq<byte>, p: RangeProof<Digest>)
    ensures octets == Encoding(p) <==> LaidOut(octets, p)
  {
    if |octets| == 34 + 32 * |p.nodes| {
      HeaderLaidOut(octets, p);
      BodyLaidOut(octets, p.nodes);
      SplitIff(octets, octets[..HEADER_LEN], octets[HEADER_LEN..], Header(p), Concatenated(p.nodes));
    }
  }

  /** Octets decode to a proof exactly when its fields lay them out so, each octet in its place. */
  lemma DecodeIffLaidOut(octets: seq<byte>, p: RangeProof<Digest>)
    ensures Decode(octets) == Ok(p) <==> |p.nodes| < TWO_32 && LaidOut(octets, p)
  {
    DecodeIffEncoding(octets, p);
    LaidOutIff(octets, p);
  }

  /** What each refusal means: too short for a header, another magic, or another count of hashes than declared. */
  lemma RefusedAs(octets: seq<byte>)
    ensures Decode(octets) == Err(Truncated) <==> |octets| < 34
    ensures Decode(octets) == Err(WrongMagic) <==>
              |octets| >= 34 && octets[..6] != [0x41, 0x48, 0x4C, 0x52, 0x50, 0x31]
    ensures Decode(octets) == Err(LengthDisagrees) <==>
              && |octets| >= 34 && octets[..6] == [0x41, 0x48, 0x4C, 0x52, 0x50, 0x31]
              && |octets| != 34 + 32 * Four(octets[30], octets[31], octets[32], octets[33])
  {
    if |octets| >= 34 {
      var count := octets[30..34];
      Value32(count);
      assert count[..4] == count;
    }
  }
}
