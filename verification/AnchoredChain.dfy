/**
 The verification of an anchor as a whole: from the last line of a chain, through a proof, to a
 block; and what one proof says about every chain that it anchors.
 */
module AnchoredChain {
  import opened Prelude
  import opened StrictJson
  import opened ChainVerifier
  import opened ChainTheorems
  import opened TipHistory
  import opened VarUint
  import opened OtsTree
  import opened OtsGrammar
  import opened AnchorVerifier
  import Hex

  datatype AnchorFailure = TipInvalid | ProofMalformed(error: AnchorError) | NotConfirmed(rejection: Rejection)

  datatype VerifiedAnchor = VerifiedAnchor(sequence: nat, report: AnchorReport)

  /** The digest that the proof must be of: the hash that the last line states. */
  function TipDigest(pf: Platform, chain: Bytes): Option<Digest> {
    match ReadTip(pf, chain)
    case None => None
    case Some(tip) => if Hex.IsLowerHex(tip.recordHash, 64) then Some(Hex.Decode(tip.recordHash, 32)) else None
  }

  /** Attestation `i` of the proof is confirmed, and nothing before it is unanswered. */
  ghost predicate ConfirmedAt(pf: Platform, proof: Bytes, digest: Digest, node: Node, t: Tree, i: nat) {
    && IsDetached(proof, digest, t)
    && var attestations := Meaning(pf.sha256, t, digest);
       i < |attestations| && Confirms(node, attestations[i]) && NoneBefore(node, attestations, i)
  }

  /** Some attestation of the proof is confirmed, and before it none is confirmed or unanswered. */
  ghost predicate IsConfirmed(pf: Platform, proof: Bytes, digest: Digest, node: Node) {
    exists t, i: nat :: ConfirmedAt(pf, proof, digest, node, t, i)
  }

  ghost predicate Reports(pf: Platform, proof: Bytes, digest: Digest, node: Node, report: AnchorReport) {
    exists t, i: nat ::
      ConfirmedAt(pf, proof, digest, node, t, i) && report == ReportOf(node, Meaning(pf.sha256, t, digest)[i])
  }

  ghost predicate IsAnchored(pf: Platform, chain: Bytes, proof: Bytes, node: Option<Node>) {
    TipDigest(pf, chain).Some? && node.Some? && IsConfirmed(pf, proof, TipDigest(pf, chain).value, node.value)
  }

  /** Inspects the proof and asks the node, which is None if it does not report its height. */
  method ConfirmProof(pf: Platform, proof: Bytes, digest: Digest, node: Option<Node>)
    returns (r: Result<AnchorReport, AnchorFailure>)
    ensures r.Ok? <==> node.Some? && IsConfirmed(pf, proof, digest, node.value)
    ensures r.Ok? ==> Reports(pf, proof, digest, node.value, r.value)
    ensures r.Err? ==> !r.error.TipInvalid?
  {
    var inspected := InspectProof(pf.sha256, proof, digest);
    if inspected.Err? {
      return Err(ProofMalformed(inspected.error));
    }
    if node.None? {
      return Err(NotConfirmed(NodeUnreachable));
    }
    ghost var t :| IsDetached(proof, digest, t) && inspected.value == Meaning(pf.sha256, t, digest);
    ConfirmedMeaning(pf, proof, digest, node.value, t);
    var chosen := ChooseAttestation(node.value, inspected.value);
    if chosen.Err? {
      return Err(NotConfirmed(chosen.error));
    }
    ghost var i: nat :| i < |inspected.value| && Confirms(node.value, inspected.value[i])
      && NoneBefore(node.value, inspected.value, i) && chosen.value == ReportOf(node.value, inspected.value[i]);
    assert ConfirmedAt(pf, proof, digest, node.value, t, i);
    r := Ok(chosen.value);
  }

  /** Reads the tip, inspects the proof of its hash, and asks the node. */
  method VerifyAnchor(pf: Platform, chain: Bytes, proof: Bytes, node: Option<Node>)
    returns (r: Result<VerifiedAnchor, AnchorFailure>)
    ensures r.Ok? <==> IsAnchored(pf, chain, proof, node)
    ensures r.Ok? ==> r.value.sequence == ReadTip(pf, chain).value.number
    ensures r.Ok? ==> Reports(pf, proof, TipDigest(pf, chain).value, node.value, r.value.report)
    ensures r == Err(TipInvalid) <==> TipDigest(pf, chain).None?
  {
    var tip := ReadTip(pf, chain);
    if tip.None? {
      return Err(TipInvalid);
    }
    var tipBytes := Hex.DecodeHexArray(tip.value.recordHash, 32);
    if tipBytes.None? {
      return Err(TipInvalid);
    }
    var confirmed := ConfirmProof(pf, proof, tipBytes.value, node);
    if confirmed.Err? {
      return Err(confirmed.error);
    }
    r := Ok(VerifiedAnchor(tip.value.number, confirmed.value));
  }

  /** The bytes of a proof have one meaning, so that its attestations decide. */
  lemma ConfirmedMeaning(pf: Platform, proof: Bytes, digest: Digest, node: Node, t: Tree)
    requires IsDetached(proof, digest, t)
    ensures var attestations := Meaning(pf.sha256, t, digest);
            IsConfirmed(pf, proof, digest, node) <==>
            exists i | 0 <= i < |attestations| :: Confirms(node, attestations[i]) && NoneBefore(node, attestations, i)
  {
    var attestations := Meaning(pf.sha256, t, digest);
    if IsConfirmed(pf, proof, digest, node) {
      var u, i: nat :| ConfirmedAt(pf, proof, digest, node, u, i);
      DetachedIsUnique(proof, digest, t, u);
    }
    if i: nat :| i < |attestations| && Confirms(node, attestations[i]) && NoneBefore(node, attestations, i) {
      assert ConfirmedAt(pf, proof, digest, node, t, i);
    }
  }

  // ----- what a verified anchor means

  /** The operations on one root-to-leaf path lead from the digest to the Merkle root of a deep enough active block. */
  predicate LeadsToBlock(pf: Platform, digest: Digest, node: Node, path: Path) {
    path.tag == BITCOIN_TAG &&
    var height := SpelledValue(path.payload);
    && height + 5 <= node.tipHeight && node.blockHash(height).Some?
    && node.header(node.blockHash(height).value)
       == Some(Header(node.blockHash(height).value, Fold(pf.sha256, path.ops, digest)))
  }

  lemma {:induction false} AttestedBy(h: HashFunction, paths: seq<Path>, message: Bytes, i: nat) returns (k: nat)
    requires i < |Attested(h, paths, message)|
    ensures k < |paths| && paths[k].tag == BITCOIN_TAG
    ensures Attested(h, paths, message)[i] ==
            BitcoinAttestation(SpelledValue(paths[k].payload), Fold(h, paths[k].ops, message))
  {
    var own := if paths[0].tag == BITCOIN_TAG then 1 else 0;
    if i < own {
      k := 0;
    } else {
      k := AttestedBy(h, paths[1..], message, i - own);
      k := k + 1;
    }
  }

  /**
   A verified anchor exhibits a path of the proof whose operations, the last of them SHA-256 if
   there is any, turn the hash of the chain's last line into the Merkle root of an active block.
   */
  lemma AnchoredMeans(pf: Platform, chain: Bytes, proof: Bytes, node: Node) returns (t: Tree, k: nat)
    requires IsAnchored(pf, chain, proof, Some(node))
    ensures IsDetached(proof, TipDigest(pf, chain).value, t) && k < |Paths(t)|
    ensures LeadsToBlock(pf, TipDigest(pf, chain).value, node, Paths(t)[k])
    ensures var ops := Paths(t)[k].ops; ops != [] ==> ops[|ops| - 1].Sha256?
  {
    var digest := TipDigest(pf, chain).value;
    var i: nat;
    t, i :| ConfirmedAt(pf, proof, digest, node, t, i);
    MeaningIsFoldOfPaths(pf.sha256, t, digest);
    k := AttestedBy(pf.sha256, Paths(t), digest, i);
    BitcoinPathEndsInSha256(t, 32, 0, k);
  }

  lemma EnvelopeDigest(proof: Bytes, x: Digest, y: Digest)
    requires Envelope(x) <= proof && Envelope(y) <= proof && |Envelope(x)| == |Envelope(y)| == 65
    ensures x == y
  {
    assert Envelope(x) == proof[..65] == Envelope(y);
    assert Envelope(x)[33..] == x && Envelope(y)[33..] == y;
  }

  lemma OneDigest(pf: Platform, x: Bytes, y: Bytes, proof: Bytes, node: Option<Node>, other: Option<Node>)
    requires IsAnchored(pf, x, proof, node) && IsAnchored(pf, y, proof, other)
    ensures TipDigest(pf, x) == TipDigest(pf, y)
  {
    var t, i: nat :| ConfirmedAt(pf, proof, TipDigest(pf, x).value, node.value, t, i);
    var u, j: nat :| ConfirmedAt(pf, proof, TipDigest(pf, y).value, other.value, u, j);
    DetachedSplits(proof, TipDigest(pf, x).value, t);
    DetachedSplits(proof, TipDigest(pf, y).value, u);
    EnvelopeDigest(proof, TipDigest(pf, x).value, TipDigest(pf, y).value);
  }

  /** On an accepted chain the anchored digest is that of the full pass. */
  lemma AnchoredTip(pf: Platform, chain: Bytes, proof: Bytes, node: Option<Node>)
    requires Normalizing(pf.strictRead) && VerifyStream(pf, chain).Ok? && IsAnchored(pf, chain, proof, node)
    ensures var tip := VerifyStream(pf, chain).value.tip;
            && tip.Some? && Hex.IsLowerHex(tip.value.recordHash, 64)
            && TipDigest(pf, chain) == Some(Hex.Decode(tip.value.recordHash, 32))
            && ReadTip(pf, chain) == tip
  {
    TipFromLastLine(pf, chain);
  }

  /**
   One proof anchors one history: two accepted chains that it anchors, at whatever nodes, have the
   same records up to signatures, or they exhibit a hash collision.
   */
  lemma OneProofOneHistory(pf: Platform, x: Bytes, y: Bytes, proof: Bytes, node: Option<Node>, other: Option<Node>)
    requires Normalizing(pf.strictRead) && VerifyStream(pf, x).Ok? && VerifyStream(pf, y).Ok?
    requires IsAnchored(pf, x, proof, node) && IsAnchored(pf, y, proof, other)
    ensures Collide(pf, AllLines(x), AllLines(y)) || SameHistory(pf, AllLines(x), AllLines(y))
  {
    AnchoredTip(pf, x, proof, node);
    AnchoredTip(pf, y, proof, other);
    OneDigest(pf, x, y, proof, node, other);
    var a, b := VerifyStream(pf, x).value.tip.value.recordHash, VerifyStream(pf, y).value.tip.value.recordHash;
    Hex.EncodeDecoded(a, 32);
    Hex.EncodeDecoded(b, 32);
    StreamTipDeterminesHistory(pf, x, y);
  }
}
