/**
 Detached OpenTimestamps proofs as trees: their printed form, what the verifier lets
 through, and what a proof says about a message.
 */
module OtsTree {
  import opened Prelude
  import opened VarUint

  const BITCOIN_TAG: Bytes := [0x05, 0x88, 0x96, 0x0d, 0x73, 0xd7, 0x19, 0x01]
  const MAX_ARGUMENT_BYTES := 4 * 1024 * 1024
  const MAX_ATTESTATION_BYTES := 8192
  const MAX_OP_BYTES := 4096
  const MAX_DEPTH := 256

  /** An operation keeps the spelling of its argument's length, so that printing is exact. */
  datatype Operation =
    | Append(lengthSpelling: Bytes, argument: Bytes)
    | Prepend(lengthSpelling: Bytes, argument: Bytes)
    | Sha256

  /**
   A fork with branches b1, ..., bn and a last branch b is Fork(b1, Fork(b2, ... Fork(bn, b))):
   a fork in the `rest` position is the next round of the same fork, at the same depth.
   */
  datatype Tree =
    | Attestation(tag: Bytes, lengthSpelling: Bytes, payload: Bytes)
    | Step(op: Operation, next: Tree)
    | Fork(first: Tree, rest: Tree)

  datatype BitcoinAttestation = BitcoinAttestation(height: nat, commitment: Bytes)

  // ----- the printed form

  function PrintOperation(op: Operation): Bytes {
    match op
    case Append(l, a) => [0xf0] + l + a
    case Prepend(l, a) => [0xf1] + l + a
    case Sha256 => [0x08]
  }

  function Print(t: Tree): (s: Bytes)
    ensures |s| > 0
    ensures (s[0] == 0xff) == t.Fork?
  {
    match t
    case Attestation(tag, l, payload) => [0x00] + tag + l + payload
    case Step(op, next) => PrintOperation(op) + Print(next)
    case Fork(first, rest) => [0xff] + Print(first) + Print(rest)
  }

  // ----- the proofs within the limits, for a message of `n` bytes at nesting `depth`

  predicate SpellsLength(spelling: Bytes, content: Bytes) {
    IsVarUint(spelling) && SpelledValue(spelling) == |content|
  }

  predicate LegalOperation(op: Operation, n: nat) {
    op.Sha256? ||
    (SpellsLength(op.lengthSpelling, op.argument) && 0 < |op.argument| && n + |op.argument| <= MAX_OP_BYTES)
  }

  function OutputLength(op: Operation, n: nat): nat {
    if op.Sha256? then 32 else n + |op.argument|
  }

  function RestDepth(rest: Tree, depth: nat): nat {
    if rest.Fork? then depth else depth + 1
  }

  predicate Legal(t: Tree, n: nat, depth: nat) {
    depth <= MAX_DEPTH &&
    match t
    case Attestation(tag, l, payload) =>
      && |tag| == 8
      && SpellsLength(l, payload)
      && |payload| <= MAX_ATTESTATION_BYTES
      && (tag == BITCOIN_TAG ==> n == 32 && IsVarUint(payload))
    case Step(op, next) =>
      LegalOperation(op, n) && Legal(next, OutputLength(op, n), depth + 1)
    case Fork(first, rest) =>
      Legal(first, n, depth + 1) && Legal(rest, n, RestDepth(rest, depth))
  }

  // ----- the meaning of a proof

  function Apply(h: HashFunction, op: Operation, message: Bytes): (output: Bytes)
    ensures |output| == OutputLength(op, |message|)
  {
    match op
    case Append(_, a) => message + a
    case Prepend(_, a) => a + message
    case Sha256 => h(message)
  }

  /** The Bitcoin attestations of a proof, left to right, each with the bytes it commits to. */
  function Meaning(h: HashFunction, t: Tree, message: Bytes): seq<BitcoinAttestation> {
    match t
    case Attestation(tag, _, payload) =>
      if tag == BITCOIN_TAG then [BitcoinAttestation(SpelledValue(payload), message)] else []
    case Step(op, next) => Meaning(h, next, Apply(h, op, message))
    case Fork(first, rest) => Meaning(h, first, message) + Meaning(h, rest, message)
  }

  // ----- commitments as folds over root-to-leaf paths

  datatype Path = Path(ops: seq<Operation>, tag: Bytes, payload: Bytes)

  function Under(op: Operation, paths: seq<Path>): (r: seq<Path>)
    ensures |r| == |paths|
    ensures forall i | 0 <= i < |r| :: r[i] == Path([op] + paths[i].ops, paths[i].tag, paths[i].payload)
  {
    seq(|paths|, i requires 0 <= i < |paths| => Path([op] + paths[i].ops, paths[i].tag, paths[i].payload))
  }

  /** The root-to-leaf paths of a proof, left to right; a fork adds no operation. */
  function Paths(t: Tree): seq<Path> {
    match t
    case Attestation(tag, _, payload) => [Path([], tag, payload)]
    case Step(op, next) => Under(op, Paths(next))
    case Fork(first, rest) => Paths(first) + Paths(rest)
  }

  function Fold(h: HashFunction, ops: seq<Operation>, message: Bytes): Bytes {
    if ops == [] then message else Fold(h, ops[1..], Apply(h, ops[0], message))
  }

  /** The attestations that the Bitcoin paths among `paths` make about `message`, in order. */
  function Attested(h: HashFunction, paths: seq<Path>, message: Bytes): seq<BitcoinAttestation> {
    if paths == [] then []
    else
      (if paths[0].tag == BITCOIN_TAG
       then [BitcoinAttestation(SpelledValue(paths[0].payload), Fold(h, paths[0].ops, message))]
       else [])
      + Attested(h, paths[1..], message)
  }

  lemma {:induction false} AttestedAppend(h: HashFunction, p: seq<Path>, q: seq<Path>, message: Bytes)
    ensures Attested(h, p + q, message) == Attested(h, p, message) + Attested(h, q, message)
  {
    if p == [] {
      assert p + q == q;
    } else {
      AttestedAppend(h, p[1..], q, message);
      var both := p + q;
      assert both[1..] == p[1..] + q && both[0] == p[0];
    }
  }

  lemma {:induction false} AttestedUnder(h: HashFunction, op: Operation, paths: seq<Path>, message: Bytes)
    ensures Attested(h, Under(op, paths), message) == Attested(h, paths, Apply(h, op, message))
  {
    if paths == [] {
    } else {
      var under := Under(op, paths);
      assert under[0].ops[1..] == paths[0].ops;
      assert under[1..] == Under(op, paths[1..]);
      AttestedUnder(h, op, paths[1..], message);
    }
  }

  /** Every attestation is the fold of the operations on its own path over the message. */
  lemma {:induction false} MeaningIsFoldOfPaths(h: HashFunction, t: Tree, message: Bytes)
    ensures Meaning(h, t, message) == Attested(h, Paths(t), message)
  {
    match t
    case Attestation(_, _, _) =>
    case Step(op, next) =>
      MeaningIsFoldOfPaths(h, next, Apply(h, op, message));
      AttestedUnder(h, op, Paths(next), message);
    case Fork(first, rest) =>
      MeaningIsFoldOfPaths(h, first, message);
      MeaningIsFoldOfPaths(h, rest, message);
      AttestedAppend(h, Paths(first), Paths(rest), message);
  }

  // ----- the size of every intermediate message

  ghost predicate SizesBounded(h: HashFunction, ops: seq<Operation>, message: Bytes) {
    forall k | 0 <= k <= |ops| :: 32 <= |Fold(h, ops[..k], message)| <= MAX_OP_BYTES
  }

  lemma SizesBoundedUnder(h: HashFunction, op: Operation, ops: seq<Operation>, message: Bytes)
    requires 32 <= |message| <= MAX_OP_BYTES
    requires SizesBounded(h, ops, Apply(h, op, message))
    ensures SizesBounded(h, [op] + ops, message)
  {
    var all := [op] + ops;
    forall k | 0 <= k <= |all|
      ensures 32 <= |Fold(h, all[..k], message)| <= MAX_OP_BYTES
    {
      if k > 0 {
        assert all[..k][1..] == ops[..k - 1] && all[..k][0] == op;
        assert Fold(h, all[..k], message) == Fold(h, ops[..k - 1], Apply(h, op, message));
        assert 32 <= |Fold(h, ops[..k - 1], Apply(h, op, message))| <= MAX_OP_BYTES;
      }
    }
  }

  /** Along every path of a legal proof, every intermediate message has 32 to 4096 bytes. */
  lemma {:induction false} MessagesStayBounded(h: HashFunction, t: Tree, message: Bytes, depth: nat, i: nat)
    requires 32 <= |message| <= MAX_OP_BYTES
    requires Legal(t, |message|, depth)
    requires i < |Paths(t)|
    ensures SizesBounded(h, Paths(t)[i].ops, message)
  {
    match t
    case Attestation(_, _, _) =>
    case Step(op, next) =>
      MessagesStayBounded(h, next, Apply(h, op, message), depth + 1, i);
      SizesBoundedUnder(h, op, Paths(next)[i].ops, message);
    case Fork(first, rest) =>
      if i < |Paths(first)| {
        MessagesStayBounded(h, first, message, depth + 1, i);
      } else {
        MessagesStayBounded(h, rest, message, RestDepth(rest, depth), i - |Paths(first)|);
      }
  }

  /**
   A Bitcoin commitment is the digest itself or the direct output of SHA-256: an append or a
   prepend before the leaf would leave more than 32 bytes.
   */
  lemma {:induction false} BitcoinPathEndsInSha256(t: Tree, n: nat, depth: nat, i: nat)
    requires n >= 32 && Legal(t, n, depth)
    requires i < |Paths(t)| && Paths(t)[i].tag == BITCOIN_TAG
    ensures var ops := Paths(t)[i].ops; ops == [] || ops[|ops| - 1].Sha256?
    ensures Paths(t)[i].ops == [] ==> n == 32
  {
    match t
    case Attestation(_, _, _) =>
    case Step(op, next) =>
      BitcoinPathEndsInSha256(next, OutputLength(op, n), depth + 1, i);
      var below := Paths(next)[i].ops;
      assert Paths(t)[i].ops == [op] + below;
    case Fork(first, rest) =>
      if i < |Paths(first)| {
        BitcoinPathEndsInSha256(first, n, depth + 1, i);
      } else {
        BitcoinPathEndsInSha256(rest, n, RestDepth(rest, depth), i - |Paths(first)|);
      }
  }

  // ----- the shortest printing of a proof

  function NormalizeOperation(op: Operation): Operation {
    match op
    case Append(_, a) => Append(MinimalSpelling(|a|), a)
    case Prepend(_, a) => Prepend(MinimalSpelling(|a|), a)
    case Sha256 => Sha256
  }

  function NormalizePayload(tag: Bytes, payload: Bytes): Bytes {
    if tag == BITCOIN_TAG then MinimalSpelling(SpelledValue(payload)) else payload
  }

  /** The same proof with every integer in its minimal spelling. */
  function Normalize(t: Tree): (r: Tree)
    ensures r.Fork? == t.Fork?
  {
    match t
    case Attestation(tag, _, payload) =>
      var p := NormalizePayload(tag, payload);
      Attestation(tag, MinimalSpelling(|p|), p)
    case Step(op, next) => Step(NormalizeOperation(op), Normalize(next))
    case Fork(first, rest) => Fork(Normalize(first), Normalize(rest))
  }

  lemma MinimalLength(spelling: Bytes, content: Bytes)
    requires SpellsLength(spelling, content)
    ensures SpellsLength(MinimalSpelling(|content|), content)
    ensures |MinimalSpelling(|content|)| <= |spelling|
  {
    MinimalSpellingRoundTrip(|content|, []);
    MinimalSpellingSpells(|content|);
    MinimalSpellingIsShortest(spelling);
  }

  lemma NormalizedLeaf(tag: Bytes, lengthSpelling: Bytes, payload: Bytes, n: nat, depth: nat)
    requires Legal(Attestation(tag, lengthSpelling, payload), n, depth)
    ensures var p := NormalizePayload(tag, payload);
            && Legal(Attestation(tag, MinimalSpelling(|p|), p), n, depth)
            && |MinimalSpelling(|p|)| <= |lengthSpelling| && |p| <= |payload|
            && (tag == BITCOIN_TAG ==> SpelledValue(p) == SpelledValue(payload))
  {
    var p := NormalizePayload(tag, payload);
    if tag == BITCOIN_TAG {
      MinimalSpellingIsShortest(payload);
      MinimalSpellingRoundTrip(SpelledValue(payload), []);
      MinimalSpellingSpells(SpelledValue(payload));
    }
    Pow2Values();
    assert |p| < 0x1_0000;
    MinimalSpellingRoundTrip(|p|, []);
    MinimalSpellingSpells(|p|);
    if tag == BITCOIN_TAG {
      // at most ten bytes: one length byte is enough
      assert |MinimalSpelling(|p|)| == 1;
    } else {
      MinimalLength(lengthSpelling, payload);
    }
  }

  /** Overlong integers are the only freedom in a proof's bytes: dropping them keeps its limits and its meaning. */
  lemma {:induction false} NormalizePreserves(h: HashFunction, t: Tree, message: Bytes, depth: nat)
    requires Legal(t, |message|, depth)
    ensures Legal(Normalize(t), |message|, depth)
    ensures Meaning(h, Normalize(t), message) == Meaning(h, t, message)
    ensures |Print(Normalize(t))| <= |Print(t)|
  {
    match t
    case Attestation(tag, l, payload) =>
      NormalizedLeaf(tag, l, payload, |message|, depth);
    case Step(op, next) =>
      NormalizePreserves(h, next, Apply(h, op, message), depth + 1);
      if !op.Sha256? {
        MinimalLength(op.lengthSpelling, op.argument);
      }
      assert Apply(h, NormalizeOperation(op), message) == Apply(h, op, message);
    case Fork(first, rest) =>
      NormalizePreserves(h, first, message, depth + 1);
      NormalizePreserves(h, rest, message, RestDepth(rest, depth));
  }
}
