/**
 What the bytes of a proof say, byte for byte: the literal tags, the order in which arguments are
 put before and after a message, and the limits.
 */
module ProofBytes {
  import opened Prelude
  import opened VarUint
  import opened OtsTree
  import opened OtsGrammar
  import opened AnchorVerifier

  // ----- the order of arguments

  /** The byte that an operation starts with. */
  function Tag(op: Operation): Byte {
    PrintOperation(op)[0]
  }

  /** The arguments of the 0xf0 operations, in order. */
  function Behind(ops: seq<Operation>): Bytes {
    if ops == [] then [] else (if Tag(ops[0]) == 0xf0 then ops[0].argument else []) + Behind(ops[1..])
  }

  /** The arguments of the 0xf1 operations, the last one first. */
  function Before(ops: seq<Operation>): Bytes {
    if ops == [] then [] else Before(ops[1..]) + (if Tag(ops[0]) == 0xf1 then ops[0].argument else [])
  }

  predicate HashFree(ops: seq<Operation>) {
    forall i | 0 <= i < |ops| :: Tag(ops[i]) != 0x08
  }

  lemma StepSurrounds(h: HashFunction, op: Operation, message: Bytes)
    requires Tag(op) != 0x08
    ensures (Tag(op) == 0xf0 && Apply(h, op, message) == message + op.argument) ||
            (Tag(op) == 0xf1 && Apply(h, op, message) == op.argument + message)
  {
  }

  lemma Regroup(a: Bytes, b: Bytes, c: Bytes, d: Bytes)
    ensures a + (b + c) + d == (a + b) + c + d && a + (b + c) + d == a + b + (c + d)
  {
  }

  /** Without a hash, a path puts the 0xf0 arguments behind the message and the 0xf1 arguments before it. */
  lemma {:induction false} FoldSurrounds(h: HashFunction, ops: seq<Operation>, message: Bytes)
    requires HashFree(ops)
    ensures Fold(h, ops, message) == Before(ops) + message + Behind(ops)
  {
    if ops == [] {
      assert [] + message + [] == message;
    } else {
      var op, rest := ops[0], ops[1..];
      StepSurrounds(h, op, message);
      FoldSurrounds(h, rest, Apply(h, op, message));
      if Tag(op) == 0xf0 {
        Regroup(Before(rest), message, op.argument, Behind(rest));
        assert Before(ops) == Before(rest);
      } else {
        Regroup(Before(rest), op.argument, message, Behind(rest));
        assert Behind(ops) == Behind(rest);
      }
    }
  }

  lemma {:induction false} FoldSplits(h: HashFunction, a: seq<Operation>, b: seq<Operation>, message: Bytes)
    ensures Fold(h, a + b, message) == Fold(h, b, Fold(h, a, message))
  {
    if a == [] {
      assert a + b == b;
    } else {
      assert (a + b)[1..] == a[1..] + b;
      FoldSplits(h, a[1..], b, Apply(h, a[0], message));
    }
  }

  /** A 0x08 hashes what the operations before it have made, and the rest goes on from the digest. */
  lemma FoldHashes(h: HashFunction, ops: seq<Operation>, hash: Operation, rest: seq<Operation>, message: Bytes)
    requires HashFree(ops) && Tag(hash) == 0x08
    ensures Fold(h, ops + [hash] + rest, message) == Fold(h, rest, h(Before(ops) + message + Behind(ops)))
  {
    var m := Fold(h, ops, message);
    assert ops + [hash] + rest == ops + ([hash] + rest);
    FoldSplits(h, ops, [hash] + rest, message);
    HashFirst(h, hash, rest, m);
    FoldSurrounds(h, ops, message);
  }

  lemma HashFirst(h: HashFunction, hash: Operation, rest: seq<Operation>, message: Bytes)
    requires Tag(hash) == 0x08
    ensures Fold(h, [hash] + rest, message) == Fold(h, rest, h(message))
  {
    assert ([hash] + rest)[1..] == rest && hash == Sha256;
  }

  // ----- whole proofs, written out

  /** The header, version 1, the tag of SHA-256, and the digest. */
  function LiteralEnvelope(digest: Digest): Bytes {
    [ 0x00, 0x4f, 0x70, 0x65, 0x6e, 0x54, 0x69, 0x6d, 0x65, 0x73, 0x74, 0x61, 0x6d, 0x70, 0x73, 0x00,
      0x00, 0x50, 0x72, 0x6f, 0x6f, 0x66, 0x00, 0xbf, 0x89, 0xe2, 0xe8, 0x84, 0xe8, 0x92, 0x94, 0x01, 0x08] + digest
  }

  /** A leaf that attests a block height. */
  function LeafBytes(height: nat): Bytes {
    var payload := MinimalSpelling(height);
    [0x00, 0x05, 0x88, 0x96, 0x0d, 0x73, 0xd7, 0x19, 0x01] + (MinimalSpelling(|payload|) + payload)
  }

  function OperationBytes(tag: Byte, argument: Bytes): Bytes {
    [tag] + (MinimalSpelling(|argument|) + argument)
  }

  lemma EnvelopeIs(digest: Digest)
    ensures Envelope(digest) == LiteralEnvelope(digest) && |LiteralEnvelope(digest)| == 65
  {
  }

  function Leaf(height: nat): Tree {
    var payload := MinimalSpelling(height);
    Attestation(BITCOIN_TAG, MinimalSpelling(|payload|), payload)
  }

  lemma LeafIs(height: nat, depth: nat)
    requires height < U64_LIMIT && depth <= 256
    ensures Legal(Leaf(height), 32, depth) && Print(Leaf(height)) == LeafBytes(height)
    ensures SpelledValue(MinimalSpelling(height)) == height && |LeafBytes(height)| <= 40
  {
    var payload := MinimalSpelling(height);
    MinimalSpellingRoundTrip(height, []);
    MinimalSpellingSpells(height);
    MinimalSpellingRoundTrip(|payload|, []);
    MinimalSpellingSpells(|payload|);
  }

  lemma ArgumentSpelling(argument: Bytes)
    requires |argument| <= 4096
    ensures SpellsLength(MinimalSpelling(|argument|), argument) && |MinimalSpelling(|argument|)| <= 2
  {
    Pow2Values();
    Pow2Adds(7, 7);
    MinimalSpellingLength(|argument|, 2);
    MinimalSpellingRoundTrip(|argument|, []);
    MinimalSpellingSpells(|argument|);
  }

  /** One argument, a hash, and a leaf. */
  function Commitment(tag: Byte, argument: Bytes, height: nat): Tree {
    var l := MinimalSpelling(|argument|);
    Step(if tag == 0xf0 then Append(l, argument) else Prepend(l, argument), Step(Sha256, Leaf(height)))
  }

  lemma CommitmentBytes(tag: Byte, argument: Bytes, height: nat)
    requires (tag == 0xf0 || tag == 0xf1) && 0 < |argument| <= 4064 && height < U64_LIMIT
    ensures var t := Commitment(tag, argument, height);
            && Legal(t, 32, 0) && |Print(t)| <= 5000
            && Print(t) == OperationBytes(tag, argument) + ([0x08] + LeafBytes(height))
  {
    LeafIs(height, 2);
    ArgumentSpelling(argument);
    assert Legal(Step(Sha256, Leaf(height)), 32 + |argument|, 1);
    assert Print(Step(Sha256, Leaf(height))) == [0x08] + LeafBytes(height);
  }

  lemma CommitmentMeans(h: HashFunction, tag: Byte, argument: Bytes, height: nat, digest: Digest)
    requires (tag == 0xf0 || tag == 0xf1) && height < U64_LIMIT
    ensures Meaning(h, Commitment(tag, argument, height), digest)
            == [BitcoinAttestation(height, h(if tag == 0xf0 then digest + argument else argument + digest))]
  {
    LeafIs(height, 2);
    var message := if tag == 0xf0 then digest + argument else argument + digest;
    assert Meaning(h, Step(Sha256, Leaf(height)), message) == Meaning(h, Leaf(height), h(message));
  }

  /**
   A proof with one 0xf0 (or 0xf1) argument, a 0x08 and a Bitcoin leaf is accepted, and commits
   its block to the hash of the digest followed (or preceded) by the argument, and to nothing else.
   */
  lemma OneArgumentProof(h: HashFunction, tag: Byte, argument: Bytes, height: nat, digest: Digest, proof: Bytes)
      returns (t: Tree)
    requires (tag == 0xf0 || tag == 0xf1) && 0 < |argument| <= 4064 && height < U64_LIMIT
    requires proof == LiteralEnvelope(digest) + (OperationBytes(tag, argument) + ([0x08] + LeafBytes(height)))
    ensures IsDetached(proof, digest, t)
    ensures forall u :: IsDetached(proof, digest, u) ==>
              Meaning(h, u, digest)
              == [BitcoinAttestation(height, h(if tag == 0xf0 then digest + argument else argument + digest))]
  {
    t := Commitment(tag, argument, height);
    CommitmentBytes(tag, argument, height);
    CommitmentMeans(h, tag, argument, height, digest);
    EnvelopeIs(digest);
    assert proof == Envelope(digest) + Print(t);
    assert IsDetached(proof, digest, t);
    forall u | IsDetached(proof, digest, u)
      ensures u == t
    {
      DetachedIsUnique(proof, digest, t, u);
    }
  }

  /** What the inspection returns for such a proof. */
  method InspectOneArgument(h: HashFunction, tag: Byte, argument: Bytes, height: nat, digest: Digest, proof: Bytes)
    returns (r: Result<seq<BitcoinAttestation>, AnchorError>)
    requires (tag == 0xf0 || tag == 0xf1) && 0 < |argument| <= 4064 && height < U64_LIMIT
    requires proof == LiteralEnvelope(digest) + (OperationBytes(tag, argument) + ([0x08] + LeafBytes(height)))
    ensures r == Ok([BitcoinAttestation(height, h(if tag == 0xf0 then digest + argument else argument + digest))])
  {
    var t := OneArgumentProof(h, tag, argument, height, digest, proof);
    r := InspectProof(h, proof, digest);
  }

  // ----- the limits, from both sides

  function Hashes(n: nat, leaf: Tree): Tree {
    if n == 0 then leaf else Step(Sha256, Hashes(n - 1, leaf))
  }

  /** A leaf may stand at most 256 levels deep. */
  lemma {:induction false} DepthLimit(n: nat, height: nat, depth: nat)
    requires height < U64_LIMIT
    ensures Legal(Hashes(n, Leaf(height)), 32, depth) <==> depth + n <= 256
    decreases n
  {
    if n > 0 {
      DepthLimit(n - 1, height, depth + 1);
    } else if depth <= 256 {
      LeafIs(height, depth);
    }
  }

  /** A message may grow to 4096 bytes, by arguments that are not empty. */
  lemma ArgumentLimit(tag: Byte, argument: Bytes, height: nat)
    requires (tag == 0xf0 || tag == 0xf1) && height < U64_LIMIT
    ensures Legal(Commitment(tag, argument, height), 32, 0) <==> 0 < |argument| <= 4064
  {
    LeafIs(height, 2);
    if |argument| <= 4064 {
      ArgumentSpelling(argument);
    }
    assert Legal(Step(Sha256, Leaf(height)), 32 + |argument|, 1);
  }

  /** An attestation of another kind may hold up to 8192 bytes, and says nothing about Bitcoin. */
  lemma PayloadLimit(h: HashFunction, tag: Bytes, payload: Bytes, digest: Digest)
    requires |tag| == 8 && tag != [0x05, 0x88, 0x96, 0x0d, 0x73, 0xd7, 0x19, 0x01] && |payload| < U64_LIMIT
    ensures var t := Attestation(tag, MinimalSpelling(|payload|), payload);
            (Legal(t, 32, 0) <==> |payload| <= 8192) && Meaning(h, t, digest) == []
  {
    MinimalSpellingRoundTrip(|payload|, []);
    MinimalSpellingSpells(|payload|);
  }

  /** A proof may have 16 MiB. */
  lemma ProofLimit(t: Tree, digest: Digest)
    requires Legal(t, 32, 0)
    ensures IsDetached(LiteralEnvelope(digest) + Print(t), digest, t) <==> 65 + |Print(t)| <= 16777216
  {
    EnvelopeIs(digest);
    assert PrintDetached(digest, t) == Envelope(digest) + Print(t);
  }
}
