/**
 The recursive-descent interpreter of detached proofs.  It executes operations while it
 reads, pushes Bitcoin attestations onto a shared list, and never builds a tree; each
 method is tied to the grammar in module OtsGrammar.
 */
module OtsParser {
  import opened Prelude
  import opened VarUint
  import opened OtsTree
  import opened OtsGrammar

  type Attestations = seq<BitcoinAttestation>

  // ----- what reading a proof yields, without the tree

  /**
   `r` is the outcome of reading the front of `s` about `message`: an error of the grammar,
   or success after `k` bytes with exactly the attestations `found`.
   */
  ghost predicate Outcome(h: HashFunction, s: Bytes, message: Bytes, depth: nat,
                          r: Result<(), AnchorError>, found: Attestations, k: nat)
  {
    if r.Err? then Rejects(s, |message|, depth, r.error)
    else exists t :: Parses(s, |message|, depth, t, k) && found == Meaning(h, t, message)
  }

  /** Any outcome of the fork's next `round`, which starts `j` bytes into it, extends to the whole fork. */
  ghost predicate InLoop(h: HashFunction, s: Bytes, round: Bytes, message: Bytes, depth: nat, j: nat,
                         pushed: Attestations)
  {
    forall r, more, m: nat {:trigger WholeOutcome(h, s, message, depth, j, pushed, r, more, m)} ::
      Outcome(h, round, message, depth, r, more, m) ==> WholeOutcome(h, s, message, depth, j, pushed, r, more, m)
  }

  /** The outcome of the whole fork, given that of its next round. */
  ghost predicate WholeOutcome(h: HashFunction, s: Bytes, message: Bytes, depth: nat, j: nat, pushed: Attestations,
                               r: Result<(), AnchorError>, more: Attestations, m: nat)
  {
    Outcome(h, s, message, depth, r, pushed + more, j + m)
  }

  lemma LoopEnters(h: HashFunction, s: Bytes, message: Bytes, depth: nat)
    ensures InLoop(h, s, s, message, depth, 0, [])
  {
    forall r, more, m: nat | Outcome(h, s, message, depth, r, more, m)
      ensures WholeOutcome(h, s, message, depth, 0, [], r, more, m)
    {
      assert [] + more == more;
    }
  }

  lemma LoopLeaves(h: HashFunction, s: Bytes, round: Bytes, message: Bytes, depth: nat, j: nat, pushed: Attestations,
                   r: Result<(), AnchorError>, more: Attestations, m: nat)
    requires InLoop(h, s, round, message, depth, j, pushed)
    requires Outcome(h, round, message, depth, r, more, m)
    ensures Outcome(h, s, message, depth, r, pushed + more, j + m)
  {
    assert WholeOutcome(h, s, message, depth, j, pushed, r, more, m);
  }

  /** A fork `s`: its first branch, then either its next round or its last branch. */
  lemma ForkOutcome(h: HashFunction, s: Bytes, tail: Bytes, message: Bytes, depth: nat, found: Attestations, k: nat,
                    r: Result<(), AnchorError>, more: Attestations, m: nat)
    requires depth <= MAX_DEPTH && 1 + k < |s| && s[0] == 0xff && tail == s[1 + k..]
    requires Outcome(h, s[1..], message, depth + 1, Ok(()), found, k)
    requires Outcome(h, tail, message, if tail[0] == 0xff then depth else depth + 1, r, more, m)
    ensures Outcome(h, s, message, depth, r, found + more, 1 + k + m)
  {
    var first :| Parses(s[1..], |message|, depth + 1, first, k) && found == Meaning(h, first, message);
    var d := if tail[0] == 0xff then depth else depth + 1;
    if r.Err? {
      ForkRejectsRest(s, |message|, depth, first, k, r.error);
    } else {
      var rest :| Parses(tail, |message|, d, rest, m) && more == Meaning(h, rest, message);
      ParsedIsPrinted(tail, |message|, d, rest, m);
      assert s[1 + k] == Print(rest)[0];
      ForkParses(s, |message|, depth, Fork(first, rest), k, m);
      assert Meaning(h, Fork(first, rest), message) == found + more;
    }
  }

  /** The last branch ends the loop. */
  lemma RoundEnds(h: HashFunction, s: Bytes, round: Bytes, tail: Bytes, message: Bytes, depth: nat, j: nat,
                  pushed: Attestations, found: Attestations, k: nat,
                  r: Result<(), AnchorError>, more: Attestations, m: nat)
    requires depth <= MAX_DEPTH && 1 + k < |round| && round[0] == 0xff && tail == round[1 + k..]
    requires InLoop(h, s, round, message, depth, j, pushed)
    requires Outcome(h, round[1..], message, depth + 1, Ok(()), found, k)
    requires tail[0] != 0xff && Outcome(h, tail, message, depth + 1, r, more, m)
    ensures Outcome(h, s, message, depth, r, pushed + found + more, j + 1 + k + m)
  {
    ForkOutcome(h, round, tail, message, depth, found, k, r, more, m);
    LoopLeaves(h, s, round, message, depth, j, pushed, r, found + more, 1 + k + m);
    assert pushed + (found + more) == pushed + found + more;
    assert j + (1 + k + m) == j + 1 + k + m;
  }

  /** Another fork tag starts the next round. */
  lemma RoundContinues(h: HashFunction, s: Bytes, round: Bytes, tail: Bytes, message: Bytes, depth: nat, j: nat,
                       pushed: Attestations, found: Attestations, k: nat)
    requires depth <= MAX_DEPTH && 1 + k < |round| && round[0] == 0xff && tail == round[1 + k..]
    requires InLoop(h, s, round, message, depth, j, pushed)
    requires Outcome(h, round[1..], message, depth + 1, Ok(()), found, k)
    requires tail[0] == 0xff
    ensures InLoop(h, s, tail, message, depth, j + 1 + k, pushed + found)
  {
    forall r, more, m: nat | Outcome(h, tail, message, depth, r, more, m)
      ensures WholeOutcome(h, s, message, depth, j + 1 + k, pushed + found, r, more, m)
    {
      ForkOutcome(h, round, tail, message, depth, found, k, r, more, m);
      LoopLeaves(h, s, round, message, depth, j, pushed, r, found + more, 1 + k + m);
      assert pushed + (found + more) == pushed + found + more;
      assert j + (1 + k + m) == j + 1 + k + m;
    }
  }

  lemma ForkBranchFails(h: HashFunction, s: Bytes, message: Bytes, depth: nat,
                        r: Result<(), AnchorError>, found: Attestations, k: nat)
    requires depth <= MAX_DEPTH && s != [] && s[0] == 0xff
    requires r.Err? && Outcome(h, s[1..], message, depth + 1, r, found, k)
    ensures Outcome(h, s, message, depth, r, found, 1 + k)
  {
    ForkRejectsFirst(s, |message|, depth, r.error);
  }

  lemma ForkUnfinished(h: HashFunction, s: Bytes, message: Bytes, depth: nat, found: Attestations, k: nat)
    requires depth <= MAX_DEPTH && |s| == 1 + k && s[0] == 0xff
    requires Outcome(h, s[1..], message, depth + 1, Ok(()), found, k)
    ensures Outcome(h, s, message, depth, Err(UnexpectedEnd), found, 1 + k)
  {
    var first :| Parses(s[1..], |message|, depth + 1, first, k);
    ForkRejectsEnd(s, |message|, depth, first);
  }

  lemma StepOutcome(h: HashFunction, s: Bytes, tail: Bytes, message: Bytes, output: Bytes, depth: nat,
                    op: Operation, k: nat, r: Result<(), AnchorError>, found: Attestations, m: nat)
    requires depth <= MAX_DEPTH && s != [] && s[0] != 0x00 && s[0] != 0xff && 1 + k <= |s|
    requires ParseOperation(s[0], s[1..], |message|) == Ok(Read(op, k))
    requires tail == s[1 + k..] && output == Apply(h, op, message)
    requires Outcome(h, tail, output, depth + 1, r, found, m)
    ensures Outcome(h, s, message, depth, r, found, 1 + k + m)
  {
    if r.Err? {
      StepRejects(s, |message|, depth, op, k, r.error);
    } else {
      var next :| Parses(tail, |output|, depth + 1, next, m) && found == Meaning(h, next, output);
      StepParses(s, |message|, depth, Step(op, next), k, m);
      assert found == Meaning(h, Step(op, next), message);
    }
  }

  lemma AttestationOutcome(h: HashFunction, s: Bytes, message: Bytes, depth: nat)
    requires depth <= MAX_DEPTH && s != [] && s[0] == 0x00
    ensures var a := ParseAttestation(s[1..], |message|);
            && (a.Err? ==> Rejects(s, |message|, depth, a.error))
            && (a.Ok? ==> Outcome(h, s, message, depth, Ok(()), Meaning(h, a.value.value, message), 1 + a.value.length))
  {
    var a := ParseAttestation(s[1..], |message|);
    if a.Ok? {
      assert Parses(s, |message|, depth, a.value.value, 1 + a.value.length);
    }
  }

  // ----- the imperative interpreter

  class AttestationList {
    var items: Attestations

    constructor ()
      ensures items == []
    {
      items := [];
    }
  }

  class Parser {
    const sha256: HashFunction
    const input: Bytes
    var position: nat

    ghost predicate Valid()
      reads this
    {
      position <= |input|
    }

    constructor (sha256: HashFunction, input: Bytes)
      ensures this.sha256 == sha256 && this.input == input && position == 0
    {
      this.sha256, this.input, position := sha256, input, 0;
    }

    predicate IsFinished()
      reads this
    {
      position == |input|
    }

    method NextByte() returns (r: Result<Byte, AnchorError>)
      requires Valid()
      modifies this
      ensures Valid()
      ensures old(position) == |input| ==> r == Err(UnexpectedEnd) && position == old(position)
      ensures old(position) < |input| ==> r == Ok(input[old(position)]) && position == old(position) + 1
    {
      if position >= |input| {
        return Err(UnexpectedEnd);
      }
      r := Ok(input[position]);
      position := position + 1;
    }

    method Take(length: nat) returns (r: Result<Bytes, AnchorError>)
      requires Valid()
      modifies this
      ensures Valid()
      ensures old(position) + length > |input| ==> r == Err(UnexpectedEnd) && position == old(position)
      ensures old(position) + length <= |input| ==>
                r == Ok(input[old(position)..old(position) + length]) && position == old(position) + length
    {
      var end := position + length;
      if end > |input| {
        return Err(UnexpectedEnd);
      }
      r := Ok(input[position..end]);
      position := end;
    }

    method Expect(expected: Bytes, mismatch: AnchorError) returns (r: Result<(), AnchorError>)
      requires Valid()
      modifies this
      ensures Valid()
      ensures r.Ok? <==> expected <= input[old(position)..]
      ensures r.Ok? ==> position == old(position) + |expected|
      ensures r.Err? ==> r.error == if old(position) + |expected| > |input| then UnexpectedEnd else mismatch
    {
      var taken := Take(|expected|);
      match taken {
        case Err(e) => r := Err(e);
        case Ok(bytes) =>
          if bytes != expected {
            return Err(mismatch);
          }
          r := Ok(());
      }
    }

    /** The shift-and-or loop computes the spelled value, and fails exactly when no spelling fits. */
    method ReadInteger() returns (r: Result<nat, AnchorError>)
      requires Valid()
      modifies this
      ensures Valid() && position >= old(position)
      ensures match ReadVarUint(old(input[position..]))
              case Err(e) => r == Err(IntegerError(e))
              case Ok(v) => r == Ok(v.value) && position == old(position) + v.length
    {
      ghost var start, s := position, input[position..];
      var value: nat, shift: nat := 0, 0;
      assert Pow2(0) == 1;
      while true
        invariant start <= position <= |input| && shift == 7 * (position - start) && shift < 64
        invariant value < Pow2(shift)
        invariant ReadVarUint(s) == Resume(value, position - start, ReadGroups(input[position..], position - start))
        decreases |input| - position
      {
        ghost var i, rest := position - start, input[position..];
        var next := NextByte();
        if next.Err? {
          return Err(next.error);
        }
        var byte := next.value;
        assert byte == rest[0] && rest[1..] == input[position..];
        var chunk := byte % 128;
        LoopRound(rest, value, i);
        if GroupOverflows(chunk, shift) {
          return Err(IntegerOverflow);
        }
        value := NextRegister(value, chunk, shift);
        if byte < 128 {
          return Ok(value);
        }
        if shift + 7 >= 64 {
          return Err(IntegerOverflow);
        }
        shift := shift + 7;
      }
    }

    method ReadBytes() returns (r: Result<Bytes, AnchorError>)
      requires Valid()
      modifies this
      ensures Valid() && position >= old(position)
      ensures match ParseCounted(old(input[position..]))
              case Err(e) => r == Err(e)
              case Ok(Read(c, k)) => r == Ok(c.content) && position == old(position) + k
    {
      ghost var s := input[position..];
      var length := ReadInteger();
      if length.Err? {
        return Err(length.error);
      }
      if length.value > MAX_ARGUMENT_BYTES {
        return Err(ByteStringTooLong);
      }
      assert input[position..] == s[position - old(position)..];
      r := Take(length.value);
      assert r.Ok? ==> r.value == ParseCounted(s).value.value.content;
    }

    method ReadAttestation(message: Bytes, found: AttestationList) returns (r: Result<(), AnchorError>)
      requires Valid()
      modifies this, found
      ensures Valid() && position >= old(position)
      ensures match ParseAttestation(old(input[position..]), |message|)
              case Err(e) => r == Err(e) && found.items == old(found.items)
              case Ok(Read(t, k)) =>
                && r == Ok(())
                && position == old(position) + k
                && found.items == old(found.items) + Meaning(sha256, t, message)
    {
      ghost var s := input[position..];
      var taken := Take(8);
      if taken.Err? {
        return Err(taken.error);
      }
      var tag := taken.value;
      assert tag == s[..8] && input[position..] == s[8..];
      var counted := ReadBytes();
      if counted.Err? {
        return Err(counted.error);
      }
      var payload := counted.value;
      if |payload| > MAX_ATTESTATION_BYTES {
        return Err(AttestationTooLong);
      }
      if tag == BITCOIN_TAG {
        if |message| != 32 {
          return Err(CommitmentLength);
        }
        var inner := new Parser(sha256, payload);
        assert payload[0..] == payload;
        var height := inner.ReadInteger();
        if height.Err? {
          return Err(height.error);
        }
        if !inner.IsFinished() {
          return Err(BitcoinPayload);
        }
        assert payload[..|payload|] == payload;
        ReadVarUintExact(payload, |payload|);
        found.items := found.items + [BitcoinAttestation(height.value, message)];
      }
      r := Ok(());
    }

    method RunOperation(tag: Byte, message: Bytes) returns (r: Result<Bytes, AnchorError>)
      requires Valid()
      modifies this
      ensures Valid() && position >= old(position)
      ensures match ParseOperation(tag, old(input[position..]), |message|)
              case Err(e) => r == Err(e)
              case Ok(Read(op, k)) => r == Ok(Apply(sha256, op, message)) && position == old(position) + k
    {
      if tag == 0x08 {
        return Ok(sha256(message));
      }
      if tag != 0xf0 && tag != 0xf1 {
        return Err(UnsupportedOperation);
      }
      var argument := ReadBytes();
      if argument.Err? {
        return Err(argument.error);
      }
      var checked := CheckArgument(argument.value, |message|);
      if checked.Err? {
        return Err(checked.error);
      }
      r := Ok(if tag == 0xf0 then message + argument.value else argument.value + message);
    }

    method Timestamp(message: Bytes, depth: nat, found: AttestationList)
      returns (r: Result<(), AnchorError>, ghost more: Attestations, ghost k: nat)
      requires Valid()
      modifies this, found
      ensures Valid() && position == old(position) + k
      ensures found.items == old(found.items) + more
      ensures Outcome(sha256, old(input[position..]), message, depth, r, more, k)
      decreases |input| - position, 0
    {
      more, k := [], 0;
      if depth > MAX_DEPTH {
        return Err(TooDeep), more, k;
      }
      ghost var s := input[position..];
      var tag := NextByte();
      if tag.Err? {
        return Err(tag.error), more, k;
      }
      assert input[position - 1..] == s;
      r, more, k := TimestampFromTag(tag.value, message, depth, found);
    }

    /** One round of the fork arm: a branch and the tag after it. */
    method ReadBranch(message: Bytes, depth: nat, found: AttestationList)
      returns (r: Result<Byte, AnchorError>, ghost more: Attestations, ghost k: nat)
      requires Valid() && position > 0 && input[position - 1] == 0xff && depth <= MAX_DEPTH
      modifies this, found
      ensures Valid() && position >= old(position) && found.items == old(found.items) + more
      ensures r.Err? ==> position == old(position) + k - 1
      ensures r.Err? ==> Outcome(sha256, old(input[position - 1..]), message, depth, Err(r.error), more, k)
      ensures r.Ok? ==> position == old(position) + k + 1 && r.value == input[position - 1]
      ensures r.Ok? ==> Outcome(sha256, old(input[position - 1..])[1..], message, depth + 1, Ok(()), more, k)
      ensures r.Ok? ==> input[position - 1..] == old(input[position - 1..])[1 + k..]
      decreases |input| - position, 1
    {
      ghost var s := input[position - 1..];
      assert s[1..] == input[position..];
      var branch;
      branch, more, k := Timestamp(message, depth + 1, found);
      if branch.Err? {
        ForkBranchFails(sha256, s, message, depth, branch, more, k);
        return Err(branch.error), more, 1 + k;
      }
      r := NextByte();
      if r.Err? {
        ForkUnfinished(sha256, s, message, depth, more, k);
        k := 1 + k;
      }
    }

    /** The fork arm: branches until one is not introduced by another fork tag. */
    method ReadBranches(message: Bytes, depth: nat, found: AttestationList)
      returns (r: Result<(), AnchorError>, ghost more: Attestations, ghost k: nat)
      requires Valid() && position > 0 && input[position - 1] == 0xff && depth <= MAX_DEPTH
      modifies this, found
      ensures Valid() && k > 0 && position == old(position) - 1 + k
      ensures found.items == old(found.items) + more
      ensures Outcome(sha256, old(input[position - 1..]), message, depth, r, more, k)
      decreases |input| - position, 2
    {
      ghost var s, round := input[position - 1..], input[position - 1..];
      more, k := [], 0;
      LoopEnters(sha256, s, message, depth);
      while true
        invariant position == old(position) + k <= |input|
        invariant round == input[position - 1..] && round[0] == 0xff
        invariant found.items == old(found.items) + more
        invariant InLoop(sha256, s, round, message, depth, k, more)
        decreases |input| - position
      {
        var next, branchMore, a := ReadBranch(message, depth, found);
        if next.Err? {
          LoopLeaves(sha256, s, round, message, depth, k, more, Err(next.error), branchMore, a);
          r, more, k := Err(next.error), more + branchMore, k + a;
          return;
        }
        ghost var tail := input[position - 1..];
        if next.value != 0xff {
          r, more, k := ReadLastBranch(next.value, message, depth, found, s, round, more, k, branchMore, a);
          return;
        }
        RoundContinues(sha256, s, round, tail, message, depth, k, more, branchMore, a);
        round, more, k := tail, more + branchMore, k + 1 + a;
      }
    }

    /** The last branch of the fork `s`, whose tag has been read. */
    method ReadLastBranch(tag: Byte, message: Bytes, depth: nat, found: AttestationList,
                          ghost s: Bytes, ghost round: Bytes, ghost before: Attestations, ghost j: nat,
                          ghost branchMore: Attestations, ghost a: nat)
      returns (r: Result<(), AnchorError>, ghost more: Attestations, ghost k: nat)
      requires Valid() && position > 0 && input[position - 1] == tag && depth <= MAX_DEPTH && tag != 0xff
      requires 1 + a < |round| && round[0] == 0xff && input[position - 1..] == round[1 + a..]
      requires InLoop(sha256, s, round, message, depth, j, before)
      requires Outcome(sha256, round[1..], message, depth + 1, Ok(()), branchMore, a)
      modifies this, found
      ensures Valid() && position >= old(position) && k == position - old(position) + j + a + 2
      ensures before + branchMore <= more && found.items == old(found.items) + more[|before + branchMore|..]
      ensures Outcome(sha256, s, message, depth, r, more, k)
      decreases |input| - position, 4
    {
      ghost var tail := input[position - 1..];
      ghost var lastMore, m;
      r, lastMore, m := TimestampFromTag(tag, message, depth + 1, found);
      RoundEnds(sha256, s, round, tail, message, depth, j, before, branchMore, a, r, lastMore, m);
      more, k := before + branchMore + lastMore, j + 1 + a + m;
    }

    /** The operation arm: runs the operation and continues with its output. */
    method ReadStep(tag: Byte, message: Bytes, depth: nat, found: AttestationList)
      returns (r: Result<(), AnchorError>, ghost more: Attestations, ghost k: nat)
      requires Valid() && position > 0 && input[position - 1] == tag && depth <= MAX_DEPTH
      requires tag != 0x00 && tag != 0xff
      modifies this, found
      ensures Valid() && k > 0 && position == old(position) - 1 + k
      ensures found.items == old(found.items) + more
      ensures Outcome(sha256, old(input[position - 1..]), message, depth, r, more, k)
      decreases |input| - position, 1
    {
      ghost var s := input[position - 1..];
      assert s[1..] == input[position..];
      var output := RunOperation(tag, message);
      if output.Err? {
        more, k := [], 1 + position - old(position);
        StepRejectsOperation(s, |message|, depth, output.error);
        return Err(output.error), more, k;
      }
      ghost var Read(op, a) := ParseOperation(tag, s[1..], |message|).value;
      ghost var tail := input[position..];
      assert tail == s[1 + a..];
      ghost var m;
      r, more, m := Timestamp(output.value, depth + 1, found);
      StepOutcome(sha256, s, tail, message, output.value, depth, op, a, r, more, m);
      k := 1 + a + m;
    }

    /** Continues after a tag that has already been read. */
    method TimestampFromTag(tag: Byte, message: Bytes, depth: nat, found: AttestationList)
      returns (r: Result<(), AnchorError>, ghost more: Attestations, ghost k: nat)
      requires Valid() && position > 0 && input[position - 1] == tag
      modifies this, found
      ensures Valid() && k > 0 && position == old(position) - 1 + k
      ensures found.items == old(found.items) + more
      ensures Outcome(sha256, old(input[position - 1..]), message, depth, r, more, k)
      decreases |input| - position, 3
    {
      if depth > MAX_DEPTH {
        return Err(TooDeep), [], 1;
      }
      if tag == 0x00 {
        r, more, k := ReadLeaf(message, depth, found);
      } else if tag == 0xff {
        r, more, k := ReadBranches(message, depth, found);
      } else {
        r, more, k := ReadStep(tag, message, depth, found);
      }
    }

    /** The attestation arm. */
    method ReadLeaf(message: Bytes, depth: nat, found: AttestationList)
      returns (r: Result<(), AnchorError>, ghost more: Attestations, ghost k: nat)
      requires Valid() && position > 0 && input[position - 1] == 0x00 && depth <= MAX_DEPTH
      modifies this, found
      ensures Valid() && k > 0 && position == old(position) - 1 + k
      ensures found.items == old(found.items) + more
      ensures Outcome(sha256, old(input[position - 1..]), message, depth, r, more, k)
    {
      ghost var s := input[position - 1..];
      assert s[1..] == input[position..];
      AttestationOutcome(sha256, s, message, depth);
      r := ReadAttestation(message, found);
      k := 1 + position - old(position);
      more := if r.Ok? then Meaning(sha256, ParseAttestation(s[1..], |message|).value.value, message) else [];
    }
  }
}
