/**
 The language of the proof parser, as a function from bytes to trees, and its inverse
 relation to printing: parsing a printed proof gives it back, and nothing else parses.
 */
module OtsGrammar {
  import opened Prelude
  import opened VarUint
  import opened OtsTree

  datatype AnchorError =
    | UnexpectedEnd
    | IntegerOverflow
    | ByteStringTooLong
    | TooDeep
    | AttestationTooLong
    | CommitmentLength
    | BitcoinPayload
    | UnsupportedOperation
    | ArgumentLength
    | ResultTooLong
    | ProofTooLong
    | BadHeader
    | UnsupportedVersion
    | UnsupportedFileHash
    | DigestMismatch
    | TrailingBytes
    | NoBitcoinAttestation

  /** A value read from the front of the input, and how many bytes it took. */
  datatype Read<+T> = Read(value: T, length: nat)

  function IntegerError(e: VarUintError): AnchorError {
    match e
    case Truncated => UnexpectedEnd
    case Overflow => IntegerOverflow
  }

  /** A length-prefixed byte string: its spelling of the length, then that many bytes. */
  datatype Counted = Counted(spelling: Bytes, content: Bytes)

  function ParseCounted(s: Bytes): (r: Result<Read<Counted>, AnchorError>)
    ensures r.Ok? ==> 0 < r.value.length <= |s|
  {
    match ReadVarUint(s)
    case Err(e) => Err(IntegerError(e))
    case Ok(v) =>
      if v.value > MAX_ARGUMENT_BYTES then Err(ByteStringTooLong)
      else if v.length + v.value > |s| then Err(UnexpectedEnd)
      else Ok(Read(Counted(s[..v.length], s[v.length..v.length + v.value]), v.length + v.value))
  }

  /** The attestation after its zero tag. */
  function ParseAttestation(s: Bytes, n: nat): (r: Result<Read<Tree>, AnchorError>)
    ensures r.Ok? ==> r.value.length <= |s|
  {
    if |s| < 8 then Err(UnexpectedEnd) else
    match ParseCounted(s[8..])
    case Err(e) => Err(e)
    case Ok(Read(c, k)) =>
      if |c.content| > MAX_ATTESTATION_BYTES then Err(AttestationTooLong)
      else if s[..8] != BITCOIN_TAG then
        Ok(Read(Attestation(s[..8], c.spelling, c.content), 8 + k))
      else if n != 32 then Err(CommitmentLength)
      else
        match ReadVarUint(c.content)
        case Err(e) => Err(IntegerError(e))
        case Ok(v) =>
          if v.length != |c.content| then Err(BitcoinPayload)
          else Ok(Read(Attestation(s[..8], c.spelling, c.content), 8 + k))
  }

  function CheckArgument(argument: Bytes, n: nat): Result<(), AnchorError> {
    if argument == [] || |argument| > MAX_OP_BYTES then Err(ArgumentLength)
    else if n + |argument| > MAX_OP_BYTES then Err(ResultTooLong)
    else Ok(())
  }

  /** The operation that starts with byte `tag`; `s` is what follows that byte. */
  function ParseOperation(tag: Byte, s: Bytes, n: nat): (r: Result<Read<Operation>, AnchorError>)
    ensures r.Ok? ==> r.value.length <= |s|
  {
    if tag == 0x08 then Ok(Read(Sha256, 0))
    else if tag == 0xf0 || tag == 0xf1 then
      match ParseCounted(s)
      case Err(e) => Err(e)
      case Ok(Read(c, k)) =>
        match CheckArgument(c.content, n)
        case Err(e) => Err(e)
        case Ok(_) =>
          Ok(Read(if tag == 0xf0 then Append(c.spelling, c.content) else Prepend(c.spelling, c.content), k))
    else Err(UnsupportedOperation)
  }

  /** The proof at the front of `s`, for a message of `n` bytes at nesting `depth`. */
  function Parse(s: Bytes, n: nat, depth: nat): (r: Result<Read<Tree>, AnchorError>)
    ensures r.Ok? ==> 0 < r.value.length <= |s|
    decreases |s|, 1
  {
    if depth > MAX_DEPTH then Err(TooDeep)
    else if s == [] then Err(UnexpectedEnd)
    else if s[0] == 0x00 then ParseLeaf(s, n)
    else if s[0] == 0xff then ParseFork(s, n, depth)
    else ParseStep(s, n, depth)
  }

  function ParseLeaf(s: Bytes, n: nat): (r: Result<Read<Tree>, AnchorError>)
    requires s != []
    ensures r.Ok? ==> 0 < r.value.length <= |s|
  {
    match ParseAttestation(s[1..], n)
    case Err(e) => Err(e)
    case Ok(Read(t, k)) => Ok(Read(t, 1 + k))
  }

  function ParseFork(s: Bytes, n: nat, depth: nat): (r: Result<Read<Tree>, AnchorError>)
    requires s != []
    ensures r.Ok? ==> 0 < r.value.length <= |s|
    decreases |s|, 0
  {
    match Parse(s[1..], n, depth + 1)
    case Err(e) => Err(e)
    case Ok(Read(first, k)) =>
      if 1 + k == |s| then Err(UnexpectedEnd) else
      match Parse(s[1 + k..], n, if s[1 + k] == 0xff then depth else depth + 1)
      case Err(e) => Err(e)
      case Ok(Read(rest, m)) => Ok(Read(Fork(first, rest), 1 + k + m))
  }

  function ParseStep(s: Bytes, n: nat, depth: nat): (r: Result<Read<Tree>, AnchorError>)
    requires s != []
    ensures r.Ok? ==> 0 < r.value.length <= |s|
    decreases |s|, 0
  {
    match ParseOperation(s[0], s[1..], n)
    case Err(e) => Err(e)
    case Ok(Read(op, k)) =>
      match Parse(s[1 + k..], OutputLength(op, n), depth + 1)
      case Err(e) => Err(e)
      case Ok(Read(next, m)) => Ok(Read(Step(op, next), 1 + k + m))
  }

  /** Parsing the front of `s` gives `t` and consumes `k` bytes. */
  ghost predicate Parses(s: Bytes, n: nat, depth: nat, t: Tree, k: nat) {
    Parse(s, n, depth) == Ok(Read(t, k))
  }

  /** Parsing the front of `s` fails with `e`. */
  ghost predicate Rejects(s: Bytes, n: nat, depth: nat, e: AnchorError) {
    Parse(s, n, depth) == Err(e)
  }

  /** `t` is a legal proof and its printing is the first `k` bytes of `s`. */
  ghost predicate Spells(s: Bytes, n: nat, depth: nat, t: Tree, k: nat) {
    Legal(t, n, depth) && Print(t) <= s && k == |Print(t)|
  }

  // ----- prefixes

  lemma SplitPrefix(a: Bytes, b: Bytes, s: Bytes)
    requires a + b <= s
    ensures a <= s && b <= s[|a|..]
  {
    assert a == (a + b)[..|a|];
    assert b == (a + b)[|a|..];
  }

  lemma JoinPrefix(a: Bytes, b: Bytes, s: Bytes)
    requires a <= s && b <= s[|a|..]
    ensures a + b <= s
  {
  }

  // ----- parsing what was printed

  lemma CountedRoundTrip(spelling: Bytes, content: Bytes, s: Bytes)
    requires SpellsLength(spelling, content) && |content| <= MAX_ARGUMENT_BYTES
    requires spelling + content <= s
    ensures ParseCounted(s) == Ok(Read(Counted(spelling, content), |spelling| + |content|))
  {
    SplitPrefix(spelling, content, s);
    assert s == spelling + s[|spelling|..];
    ReadVarUintAppend(spelling, s[|spelling|..]);
    assert s[..|spelling|] == spelling;
    assert s[|spelling|..|spelling| + |content|] == content;
  }

  lemma AttestationRoundTrip(tag: Bytes, l: Bytes, payload: Bytes, n: nat, depth: nat, s: Bytes)
    requires Legal(Attestation(tag, l, payload), n, depth)
    requires tag + (l + payload) <= s
    ensures ParseAttestation(s, n) == Ok(Read(Attestation(tag, l, payload), 8 + |l| + |payload|))
  {
    SplitPrefix(tag, l + payload, s);
    CountedRoundTrip(l, payload, s[8..]);
    assert s[..8] == tag;
    if tag == BITCOIN_TAG {
      ReadVarUintAppend(payload, []);
      assert payload + [] == payload;
    }
  }

  lemma OperationRoundTrip(op: Operation, n: nat, s: Bytes)
    requires LegalOperation(op, n)
    requires PrintOperation(op) <= s
    ensures ParseOperation(s[0], s[1..], n) == Ok(Read(op, |PrintOperation(op)| - 1))
  {
    if !op.Sha256? {
      var tail := op.lengthSpelling + op.argument;
      assert PrintOperation(op) == [PrintOperation(op)[0]] + tail;
      SplitPrefix([PrintOperation(op)[0]], tail, s);
      CountedRoundTrip(op.lengthSpelling, op.argument, s[1..]);
    }
  }

  lemma StepParses(s: Bytes, n: nat, depth: nat, t: Tree, a: nat, m: nat)
    requires t.Step? && depth <= MAX_DEPTH && s != [] && s[0] != 0x00 && s[0] != 0xff && a < |s|
    requires ParseOperation(s[0], s[1..], n) == Ok(Read(t.op, a))
    requires Parses(s[1 + a..], OutputLength(t.op, n), depth + 1, t.next, m)
    ensures Parses(s, n, depth, t, 1 + a + m)
  {
    assert Parse(s, n, depth) == ParseStep(s, n, depth);
  }

  lemma ForkParses(s: Bytes, n: nat, depth: nat, t: Tree, a: nat, m: nat)
    requires t.Fork? && depth <= MAX_DEPTH && s != [] && s[0] == 0xff && 1 + a < |s|
    requires Parses(s[1..], n, depth + 1, t.first, a)
    requires t.rest.Fork? == (s[1 + a] == 0xff)
    requires Parses(s[1 + a..], n, RestDepth(t.rest, depth), t.rest, m)
    ensures Parses(s, n, depth, t, 1 + a + m)
  {
    assert Parse(s, n, depth) == ParseFork(s, n, depth);
  }

  lemma SpelledForkSplits(s: Bytes, n: nat, depth: nat, t: Tree, k: nat) returns (a: nat, m: nat)
    requires t.Fork? && Spells(s, n, depth, t, k)
    ensures depth <= MAX_DEPTH && k == 1 + a + m && 1 + a < |s| && s[0] == 0xff
    ensures t.rest.Fork? == (s[1 + a] == 0xff)
    ensures Spells(s[1..], n, depth + 1, t.first, a)
    ensures Spells(s[1 + a..], n, RestDepth(t.rest, depth), t.rest, m)
  {
    a, m := |Print(t.first)|, |Print(t.rest)|;
    SplitPrefix([0xff] + Print(t.first), Print(t.rest), s);
    SplitPrefix([0xff], Print(t.first), s);
    assert s[1 + a] == Print(t.rest)[0];
  }

  lemma SpelledStepSplits(s: Bytes, n: nat, depth: nat, t: Tree, k: nat) returns (a: nat, m: nat)
    requires t.Step? && Spells(s, n, depth, t, k)
    ensures depth <= MAX_DEPTH && k == 1 + a + m && 1 + a < |s|
    ensures LegalOperation(t.op, n) && PrintOperation(t.op) <= s && |PrintOperation(t.op)| == 1 + a
    ensures Spells(s[1 + a..], OutputLength(t.op, n), depth + 1, t.next, m)
  {
    a, m := |PrintOperation(t.op)| - 1, |Print(t.next)|;
    SplitPrefix(PrintOperation(t.op), Print(t.next), s);
  }

  lemma PrintedStepParses(s: Bytes, n: nat, depth: nat, t: Tree, a: nat, m: nat)
    requires t.Step? && depth <= MAX_DEPTH && 1 + a < |s|
    requires LegalOperation(t.op, n) && PrintOperation(t.op) <= s && |PrintOperation(t.op)| == 1 + a
    requires Parses(s[1 + a..], OutputLength(t.op, n), depth + 1, t.next, m)
    ensures Parses(s, n, depth, t, 1 + a + m)
  {
    OperationRoundTrip(t.op, n, s);
    StepParses(s, n, depth, t, a, m);
  }

  lemma PrintedAttestation(s: Bytes, n: nat, depth: nat, t: Tree, k: nat)
    requires t.Attestation? && Spells(s, n, depth, t, k)
    ensures Parses(s, n, depth, t, k)
  {
    var tail := t.tag + (t.lengthSpelling + t.payload);
    assert Print(t) == [0x00] + tail;
    SplitPrefix([0x00], tail, s);
    AttestationRoundTrip(t.tag, t.lengthSpelling, t.payload, n, depth, s[1..]);
  }

  lemma {:induction false} PrintedStep(s: Bytes, n: nat, depth: nat, t: Tree, k: nat)
    requires t.Step? && Spells(s, n, depth, t, k)
    ensures Parses(s, n, depth, t, k)
    decreases t, 0
  {
    var a, m := SpelledStepSplits(s, n, depth, t, k);
    ParsePrinted(s[1 + a..], OutputLength(t.op, n), depth + 1, t.next, m);
    PrintedStepParses(s, n, depth, t, a, m);
  }

  lemma {:induction false} PrintedFork(s: Bytes, n: nat, depth: nat, t: Tree, k: nat)
    requires t.Fork? && Spells(s, n, depth, t, k)
    ensures Parses(s, n, depth, t, k)
    decreases t, 1
  {
    var a, m := SpelledForkSplits(s, n, depth, t, k);
    PrintedBranches(s[1..], s[1 + a..], n, depth, t, a, m);
    ForkParses(s, n, depth, t, a, m);
  }

  lemma {:induction false} PrintedBranches(first: Bytes, rest: Bytes, n: nat, depth: nat, t: Tree, a: nat, m: nat)
    requires t.Fork? && Spells(first, n, depth + 1, t.first, a) && Spells(rest, n, RestDepth(t.rest, depth), t.rest, m)
    ensures Parses(first, n, depth + 1, t.first, a) && Parses(rest, n, RestDepth(t.rest, depth), t.rest, m)
    decreases t, 0
  {
    ParsePrinted(first, n, depth + 1, t.first, a);
    ParsePrinted(rest, n, RestDepth(t.rest, depth), t.rest, m);
  }

  /** Printing a legal proof and parsing it gives the same proof, and consumes exactly its bytes. */
  lemma {:induction false} ParsePrinted(s: Bytes, n: nat, depth: nat, t: Tree, k: nat)
    requires Spells(s, n, depth, t, k)
    ensures Parses(s, n, depth, t, k)
    decreases t, 2
  {
    match t
    case Attestation(_, _, _) => PrintedAttestation(s, n, depth, t, k);
    case Step(_, _) => PrintedStep(s, n, depth, t, k);
    case Fork(_, _) => PrintedFork(s, n, depth, t, k);
  }

  // ----- printing what was parsed

  lemma CountedIsPrinted(s: Bytes)
    requires ParseCounted(s).Ok?
    ensures var Read(c, k) := ParseCounted(s).value;
            && SpellsLength(c.spelling, c.content) && |c.content| <= MAX_ARGUMENT_BYTES
            && k == |c.spelling| + |c.content| && c.spelling + c.content <= s
  {
    var v := ReadVarUint(s).value;
    ReadVarUintExact(s, v.length);
  }

  lemma AttestationIsPrinted(s: Bytes, n: nat, depth: nat)
    requires depth <= MAX_DEPTH && s != [] && s[0] == 0x00 && ParseAttestation(s[1..], n).Ok?
    ensures var Read(t, k) := ParseAttestation(s[1..], n).value;
            Spells(s, n, depth, t, 1 + k)
  {
    var Read(t, k) := ParseAttestation(s[1..], n).value;
    CountedIsPrinted(s[1..][8..]);
    if t.tag == BITCOIN_TAG {
      ReadVarUintExact(t.payload, |t.payload|);
      assert t.payload[..|t.payload|] == t.payload;
    }
    JoinPrefix(t.tag, t.lengthSpelling + t.payload, s[1..]);
    JoinPrefix([0x00], t.tag + (t.lengthSpelling + t.payload), s);
    assert Print(t) == [0x00] + (t.tag + (t.lengthSpelling + t.payload));
  }

  lemma OperationIsPrinted(s: Bytes, n: nat)
    requires s != [] && ParseOperation(s[0], s[1..], n).Ok?
    ensures var Read(op, k) := ParseOperation(s[0], s[1..], n).value;
            LegalOperation(op, n) && PrintOperation(op) <= s && |PrintOperation(op)| == 1 + k
  {
    var Read(op, k) := ParseOperation(s[0], s[1..], n).value;
    if s[0] != 0x08 {
      CountedIsPrinted(s[1..]);
      JoinPrefix([s[0]], op.lengthSpelling + op.argument, s);
      assert PrintOperation(op) == [s[0]] + (op.lengthSpelling + op.argument);
    }
  }

  /** How a successful parse of a fork splits. */
  lemma ForkSplits(s: Bytes, n: nat, depth: nat, t: Tree, k: nat) returns (a: nat, m: nat)
    requires s != [] && s[0] == 0xff && Parses(s, n, depth, t, k)
    ensures t.Fork? && depth <= MAX_DEPTH && 1 + a < |s| && k == 1 + a + m
    ensures Parses(s[1..], n, depth + 1, t.first, a)
    ensures Parses(s[1 + a..], n, if s[1 + a] == 0xff then depth else depth + 1, t.rest, m)
  {
    assert Parse(s, n, depth) == ParseFork(s, n, depth);
    a := Parse(s[1..], n, depth + 1).value.length;
    m := k - 1 - a;
  }

  lemma StepSplits(s: Bytes, n: nat, depth: nat, t: Tree, k: nat) returns (a: nat, m: nat)
    requires s != [] && s[0] != 0x00 && s[0] != 0xff && Parses(s, n, depth, t, k)
    ensures t.Step? && depth <= MAX_DEPTH && 1 + a <= |s| && k == 1 + a + m
    ensures ParseOperation(s[0], s[1..], n) == Ok(Read(t.op, a))
    ensures Parses(s[1 + a..], OutputLength(t.op, n), depth + 1, t.next, m)
  {
    assert Parse(s, n, depth) == ParseStep(s, n, depth);
    a := ParseOperation(s[0], s[1..], n).value.length;
    m := k - 1 - a;
  }

  lemma SpelledFork(s: Bytes, n: nat, depth: nat, t: Tree, a: nat, m: nat)
    requires t.Fork? && depth <= MAX_DEPTH && 1 + a < |s| && s[0] == 0xff
    requires Spells(s[1..], n, depth + 1, t.first, a)
    requires Spells(s[1 + a..], n, if s[1 + a] == 0xff then depth else depth + 1, t.rest, m)
    ensures Spells(s, n, depth, t, 1 + a + m)
  {
    assert s[1 + a] == Print(t.rest)[0];
    JoinPrefix([0xff], Print(t.first), s);
    JoinPrefix([0xff] + Print(t.first), Print(t.rest), s);
  }

  lemma SpelledStep(s: Bytes, n: nat, depth: nat, t: Tree, a: nat, m: nat)
    requires t.Step? && depth <= MAX_DEPTH && 1 + a <= |s|
    requires LegalOperation(t.op, n) && PrintOperation(t.op) <= s && |PrintOperation(t.op)| == 1 + a
    requires Spells(s[1 + a..], OutputLength(t.op, n), depth + 1, t.next, m)
    ensures Spells(s, n, depth, t, 1 + a + m)
  {
    JoinPrefix(PrintOperation(t.op), Print(t.next), s);
  }

  lemma {:induction false} ParsedForkIsPrinted(s: Bytes, n: nat, depth: nat, t: Tree, k: nat)
    requires s != [] && s[0] == 0xff && Parses(s, n, depth, t, k)
    ensures Spells(s, n, depth, t, k)
    decreases |s|, 0
  {
    var a, m := ForkSplits(s, n, depth, t, k);
    var d := if s[1 + a] == 0xff then depth else depth + 1;
    ParsedIsPrinted(s[1..], n, depth + 1, t.first, a);
    ParsedIsPrinted(s[1 + a..], n, d, t.rest, m);
    SpelledFork(s, n, depth, t, a, m);
  }

  lemma {:induction false} ParsedStepIsPrinted(s: Bytes, n: nat, depth: nat, t: Tree, k: nat)
    requires s != [] && s[0] != 0x00 && s[0] != 0xff && Parses(s, n, depth, t, k)
    ensures Spells(s, n, depth, t, k)
    decreases |s|, 0
  {
    var a, m := StepSplits(s, n, depth, t, k);
    OperationIsPrinted(s, n);
    ParsedIsPrinted(s[1 + a..], OutputLength(t.op, n), depth + 1, t.next, m);
    SpelledStep(s, n, depth, t, a, m);
  }

  /** Whatever parses is a legal proof, and the bytes consumed are its printed form. */
  lemma {:induction false} ParsedIsPrinted(s: Bytes, n: nat, depth: nat, t: Tree, k: nat)
    requires Parses(s, n, depth, t, k)
    ensures Spells(s, n, depth, t, k)
    decreases |s|, 1
  {
    if s[0] == 0x00 {
      AttestationIsPrinted(s, n, depth);
    } else if s[0] == 0xff {
      ParsedForkIsPrinted(s, n, depth, t, k);
    } else {
      ParsedStepIsPrinted(s, n, depth, t, k);
    }
  }

  /** The parser accepts exactly the inputs that start with the printing of a legal proof. */
  lemma ParseExact(s: Bytes, n: nat, depth: nat, t: Tree, k: nat)
    ensures Parses(s, n, depth, t, k) <==> Spells(s, n, depth, t, k)
  {
    if Spells(s, n, depth, t, k) {
      ParsePrinted(s, n, depth, t, k);
    }
    if Parses(s, n, depth, t, k) {
      ParsedIsPrinted(s, n, depth, t, k);
    }
  }

  /** No legal proof is a proper prefix of another, and no input has two readings. */
  lemma ProofsArePrefixFree(t: Tree, u: Tree, n: nat, depth: nat, s: Bytes)
    requires Legal(t, n, depth) && Legal(u, n, depth)
    requires Print(t) <= s && Print(u) <= s
    ensures t == u
  {
    ParsePrinted(s, n, depth, t, |Print(t)|);
    ParsePrinted(s, n, depth, u, |Print(u)|);
  }

  // ----- how a failure inside a proof becomes the failure of the whole

  lemma ForkRejectsFirst(s: Bytes, n: nat, depth: nat, e: AnchorError)
    requires depth <= MAX_DEPTH && s != [] && s[0] == 0xff
    requires Rejects(s[1..], n, depth + 1, e)
    ensures Rejects(s, n, depth, e)
  {
    assert Parse(s, n, depth) == ParseFork(s, n, depth);
  }

  lemma ForkRejectsEnd(s: Bytes, n: nat, depth: nat, first: Tree)
    requires depth <= MAX_DEPTH && s != [] && s[0] == 0xff
    requires Parses(s[1..], n, depth + 1, first, |s| - 1)
    ensures Rejects(s, n, depth, UnexpectedEnd)
  {
    assert Parse(s, n, depth) == ParseFork(s, n, depth);
  }

  lemma ForkRejectsRest(s: Bytes, n: nat, depth: nat, first: Tree, k: nat, e: AnchorError)
    requires depth <= MAX_DEPTH && s != [] && s[0] == 0xff && 1 + k < |s|
    requires Parses(s[1..], n, depth + 1, first, k)
    requires Rejects(s[1 + k..], n, if s[1 + k] == 0xff then depth else depth + 1, e)
    ensures Rejects(s, n, depth, e)
  {
    assert Parse(s, n, depth) == ParseFork(s, n, depth);
  }

  lemma StepRejects(s: Bytes, n: nat, depth: nat, op: Operation, k: nat, e: AnchorError)
    requires depth <= MAX_DEPTH && s != [] && s[0] != 0x00 && s[0] != 0xff && 1 + k <= |s|
    requires ParseOperation(s[0], s[1..], n) == Ok(Read(op, k))
    requires Rejects(s[1 + k..], OutputLength(op, n), depth + 1, e)
    ensures Rejects(s, n, depth, e)
  {
    assert Parse(s, n, depth) == ParseStep(s, n, depth);
  }

  lemma StepRejectsOperation(s: Bytes, n: nat, depth: nat, e: AnchorError)
    requires depth <= MAX_DEPTH && s != [] && s[0] != 0x00 && s[0] != 0xff
    requires ParseOperation(s[0], s[1..], n) == Err(e)
    ensures Rejects(s, n, depth, e)
  {
    assert Parse(s, n, depth) == ParseStep(s, n, depth);
  }
}
