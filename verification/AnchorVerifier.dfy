/**
 The detached-proof envelope, and the choice of one attestation that a Bitcoin node confirms.
 */
module AnchorVerifier {
  import opened Prelude
  import opened OtsTree
  import opened OtsGrammar
  import opened OtsParser

  const MAGIC: Bytes := [
    0x00, 0x4f, 0x70, 0x65, 0x6e, 0x54, 0x69, 0x6d, 0x65, 0x73, 0x74, 0x61, 0x6d, 0x70, 0x73, 0x00,
    0x00, 0x50, 0x72, 0x6f, 0x6f, 0x66, 0x00, 0xbf, 0x89, 0xe2, 0xe8, 0x84, 0xe8, 0x92, 0x94]
  const MAX_PROOF_BYTES := 16 * 1024 * 1024

  /** The envelope: header, version 1, the SHA-256 operation tag, the digest, and one proof tree. */
  function PrintDetached(digest: Digest, t: Tree): Bytes {
    MAGIC + [1] + [0x08] + digest + Print(t)
  }

  /** `proof` is the detached form of tree `t` for `digest`, within every limit. */
  ghost predicate IsDetached(proof: Bytes, digest: Digest, t: Tree) {
    |proof| <= MAX_PROOF_BYTES && Legal(t, 32, 0) && proof == PrintDetached(digest, t)
  }

  /** The part of the envelope before the tree. */
  function Envelope(digest: Digest): Bytes {
    MAGIC + [1] + [0x08] + digest
  }

  lemma DetachedSplits(proof: Bytes, digest: Digest, t: Tree)
    requires IsDetached(proof, digest, t)
    ensures |Envelope(digest)| == 65 && Envelope(digest) <= proof && proof[65..] == Print(t)
    ensures Parses(proof[65..], 32, 0, t, |proof| - 65)
  {
    assert proof == Envelope(digest) + Print(t);
    ParsePrinted(proof[65..], 32, 0, t, |proof| - 65);
  }

  lemma DetachedJoins(proof: Bytes, digest: Digest, t: Tree)
    requires |proof| <= MAX_PROOF_BYTES && |Envelope(digest)| == 65 && Envelope(digest) <= proof
    requires Parses(proof[65..], 32, 0, t, |proof| - 65)
    ensures IsDetached(proof, digest, t)
  {
    ParsedIsPrinted(proof[65..], 32, 0, t, |proof| - 65);
    assert proof[65..] == Print(t);
    assert proof == Envelope(digest) + proof[65..];
  }

  /** Every byte string is the detached form of at most one tree. */
  lemma DetachedIsUnique(proof: Bytes, digest: Digest, t: Tree, u: Tree)
    requires IsDetached(proof, digest, t) && IsDetached(proof, digest, u)
    ensures t == u
  {
    DetachedSplits(proof, digest, t);
    DetachedSplits(proof, digest, u);
  }

  /** The fixed fields of the envelope; on success the parser stands at the tree. */
  method ReadEnvelope(parser: Parser, expectedDigest: Digest) returns (r: Result<(), AnchorError>)
    requires parser.position == 0
    modifies parser
    ensures parser.Valid()
    ensures r.Ok? <==> Envelope(expectedDigest) <= parser.input
    ensures r.Ok? ==> parser.position == 65
  {
    ghost var input := parser.input;
    assert input[0..] == input;
    r := parser.Expect(MAGIC, BadHeader);
    if r.Err? {
      return;
    }
    var version := parser.NextByte();
    if version.Err? {
      return Err(version.error);
    }
    if version.value != 1 {
      return Err(UnsupportedVersion);
    }
    var hashOp := parser.NextByte();
    if hashOp.Err? {
      return Err(hashOp.error);
    }
    if hashOp.value != 0x08 {
      return Err(UnsupportedFileHash);
    }
    var digest := parser.Take(32);
    if digest.Err? {
      return Err(digest.error);
    }
    if digest.value != expectedDigest {
      return Err(DigestMismatch);
    }
    assert input[..65] == input[..31] + [input[31]] + [input[32]] + input[33..65];
  }

  /**
   Succeeds on exactly the detached proofs of the expected digest that carry a Bitcoin
   attestation, and returns the meaning of the one tree that the bytes spell.
   */
  method InspectProof(sha256: HashFunction, proof: Bytes, expectedDigest: Digest)
    returns (r: Result<Attestations, AnchorError>)
    ensures r.Ok? ==> r.value != []
    ensures r.Ok? ==> exists t :: IsDetached(proof, expectedDigest, t) && r.value == Meaning(sha256, t, expectedDigest)
    ensures r.Err? ==> forall t :: IsDetached(proof, expectedDigest, t) ==> Meaning(sha256, t, expectedDigest) == []
  {
    if |proof| > MAX_PROOF_BYTES {
      return Err(ProofTooLong);
    }
    forall t | IsDetached(proof, expectedDigest, t)
      ensures Envelope(expectedDigest) <= proof && Parses(proof[65..], 32, 0, t, |proof| - 65)
    {
      DetachedSplits(proof, expectedDigest, t);
    }
    var parser := new Parser(sha256, proof);
    var envelope := ReadEnvelope(parser, expectedDigest);
    if envelope.Err? {
      return Err(envelope.error);
    }
    var found := new AttestationList();
    var parsed, more, k := parser.Timestamp(expectedDigest, 0, found);
    if parsed.Err? {
      return Err(parsed.error);
    }
    ghost var t :| Parses(proof[65..], 32, 0, t, k) && more == Meaning(sha256, t, expectedDigest);
    if !parser.IsFinished() {
      return Err(TrailingBytes);
    }
    DetachedJoins(proof, expectedDigest, t);
    if found.items == [] {
      return Err(NoBitcoinAttestation);
    }
    r := Ok(found.items);
  }

  // ----- choosing a confirmed attestation

  const REQUIRED_CONFIRMATIONS := 6

  /** A block header as the node reports it: the hash recomputed from it, and its Merkle root. */
  datatype Header = Header(hash: Bytes, merkleRoot: Bytes)

  /** The two lookups of a Bitcoin node; None is a failed or malformed answer. */
  datatype Node = Node(tipHeight: nat, blockHash: nat -> Option<Bytes>, header: Bytes -> Option<Header>)

  datatype Rejection = AboveTip | HeaderHashMismatch | CommitmentMismatch | TooFewConfirmations | NodeUnreachable

  datatype AnchorReport = AnchorReport(height: nat, blockHash: Bytes, confirmations: nat)

  function Confirmations(node: Node, height: nat): nat {
    if height > node.tipHeight then 0 else node.tipHeight - height + 1
  }

  /** The node's active chain contains the commitment as the Merkle root of its block, deep enough. */
  predicate Confirms(node: Node, a: BitcoinAttestation) {
    && Confirmations(node, a.height) >= REQUIRED_CONFIRMATIONS
    && node.blockHash(a.height).Some?
    && node.header(node.blockHash(a.height).value) == Some(Header(node.blockHash(a.height).value, a.commitment))
  }

  /** A lookup that the check of this attestation needs does not answer. */
  predicate Unanswered(node: Node, a: BitcoinAttestation) {
    a.height <= node.tipHeight &&
    (node.blockHash(a.height).None? || node.header(node.blockHash(a.height).value).None?)
  }

  /** What is reported about a confirmed attestation. */
  function ReportOf(node: Node, a: BitcoinAttestation): (r: AnchorReport)
    requires Confirms(node, a)
    ensures r.height == a.height && r.confirmations == node.tipHeight - a.height + 1 && r.confirmations >= 6
  {
    AnchorReport(a.height, node.blockHash(a.height).value, Confirmations(node, a.height))
  }

  /** Why an attestation whose lookups are answered is not confirmed. */
  function Reason(node: Node, a: BitcoinAttestation): Rejection
    requires !Confirms(node, a) && !Unanswered(node, a)
  {
    if a.height > node.tipHeight then AboveTip
    else
      var header := node.header(node.blockHash(a.height).value).value;
      if header.hash != node.blockHash(a.height).value then HeaderHashMismatch
      else if header.merkleRoot != a.commitment then CommitmentMismatch
      else TooFewConfirmations
  }

  /** Everything before position `i` was answered and not confirmed. */
  predicate NoneBefore(node: Node, attestations: Attestations, i: nat) {
    forall j | 0 <= j < i && j < |attestations| ::
      !Confirms(node, attestations[j]) && !Unanswered(node, attestations[j])
  }

  /**
   The first attestation that decides: a confirmed one succeeds, an unanswered lookup fails
   at once; if none decides, the reason is that against the last one.
   */
  method ChooseAttestation(node: Node, attestations: Attestations) returns (r: Result<AnchorReport, Rejection>)
    requires attestations != []
    ensures r.Ok? <==>
            exists i | 0 <= i < |attestations| :: Confirms(node, attestations[i]) && NoneBefore(node, attestations, i)
    ensures r.Ok? ==>
              exists i | 0 <= i < |attestations| ::
                var a := attestations[i];
                && Confirms(node, a) && NoneBefore(node, attestations, i)
                && r.value == ReportOf(node, a)
    ensures r == Err(NodeUnreachable) <==>
            exists i | 0 <= i < |attestations| :: Unanswered(node, attestations[i]) && NoneBefore(node, attestations, i)
    ensures r.Err? && r.error != NodeUnreachable ==>
              && NoneBefore(node, attestations, |attestations|)
              && r.error == Reason(node, attestations[|attestations| - 1])
  {
    var lastFailure: Option<Rejection> := None;
    for i := 0 to |attestations|
      invariant NoneBefore(node, attestations, i)
      invariant lastFailure == if i == 0 then None else Some(Reason(node, attestations[i - 1]))
    {
      var a := attestations[i];
      if a.height > node.tipHeight {
        lastFailure := Some(AboveTip);
        continue;
      }
      var activeHash := node.blockHash(a.height);
      if activeHash.None? {
        return Err(NodeUnreachable);
      }
      var header := node.header(activeHash.value);
      if header.None? {
        return Err(NodeUnreachable);
      }
      if header.value.hash != activeHash.value {
        lastFailure := Some(HeaderHashMismatch);
        continue;
      }
      if header.value.merkleRoot != a.commitment {
        lastFailure := Some(CommitmentMismatch);
        continue;
      }
      var confirmations := node.tipHeight - a.height + 1;
      if confirmations < REQUIRED_CONFIRMATIONS {
        lastFailure := Some(TooFewConfirmations);
        continue;
      }
      assert Confirms(node, a);
      return Ok(AnchorReport(a.height, activeHash.value, confirmations));
    }
    r := Err(lastFailure.value);
  }
}
