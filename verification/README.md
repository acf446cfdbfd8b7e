# Verification of the Vestrix evidence chain

This Dafny project models the parts of Vestrix on which its evidence stands, and proves what they
promise:

* the **OpenTimestamps proof interpreter** of the independent verifier: a recursive-descent parser
  that executes a proof while it reads it;
* the **canonical form and the hash chain**, in two independent implementations: the writer with its
  own reader of the store, and the strict streaming verifier;
* the **locked append** of many writers, with failures and crashes between any two steps;
* the **anchor lifecycle worker**: rows in a database, proof files beside it, a crash possible anywhere;
* the **ingest collector**: framing, payload checks, and replay protection among handler threads.

Code that works step by step (parsers, writers, readers, the worker, the collector) is modelled by
classes and methods with loops, each proved equal to a specification function or against a
declarative predicate. What the specification functions compute is told once more without them: from the
bytes of a proof (ProofBytes), from a number's size (Notation), from the text of a line (SealedBytes,
CompactText), from the fields of an event (WriterSchema, Timestamps), from a payload
(CollectorAcceptance), and from the states before and after a job (AnchorProgress). The theorems are lemmas about those specifications. The concurrent protocols
are state machines whose runs are arbitrary sequences of steps of arbitrary participants.

## How to read it

| part | modules, in order |
|---|---|
| proof interpreter | VarUint, OtsTree, OtsGrammar, OtsParser, AnchorVerifier, ProofBytes |
| text and numbers | Utf8, Decimal, Notation, FloatFormatter, JsonText, Json, JsonRoundTrip, Hex, Lines, UtcText |
| canonical form | Canonical, CompactText, StrictJson, DuplicateKeys, FixedFloats, CanonicalWriter |
| chain | RecordSchema, WriterSchema, Timestamps, ChainVerifier, ChainTheorems, TipHistory, AnchoredChain, Store, VerdictsAgree |
| append | Logger, AppendLog, AppendProtocol, AppendSafety, WriterSteps, SealedBytes, BuiltStores, MovedConfidence |
| anchoring | RetrySchedule, AnchorLifecycle, AnchorProgress, AnchorSafety, AnchorWorker, AnchorRuns |
| collector | Framing, Collector, CollectorAcceptance, IngestLedger, CollectorProtocol |

`dafny verify dfyconfig.toml` checks everything.

## What is given from outside

* SHA-256 is an arbitrary function to 32 bytes. Since no such function is injective on all byte
  strings, "the tip determines the history" is stated as: the same history, or an explicit pair of
  lines, one from each chain, that collide.
* Ed25519 signing is an arbitrary function that may raise. The strict verifier and the writer's verifier
  have a verification each: two arbitrary predicates, since one program calls `verify_strict` and the
  other `verify`. That signatures of the signer verify, and that a signature which verifies strictly
  verifies, are hypotheses of exactly the theorems that need them.
* What a number token with a fraction or an exponent is read as (the shortest decimal of a double) is an
  arbitrary function for each program. Of the strict parser's reading it is assumed only that it returns
  decimals; the writer's reads back every double, its own and the strict parser's
  (`StrictJson.GoodReading`, `VerdictsAgree.GoodPlatform`). The search for the shortest digits is not
  modelled; its text is the input of the float layout.
* The nesting limit of the writer's interpreter is a parameter. That of the strict parser is the
  127 levels of its JSON library.
* What the inspection of a proof says in the worker is an arbitrary function of proof and digest;
  backends, file errors, database errors and crashes are arguments, so every theorem about the
  worker holds for all of them.
* Integers are unbounded where the programs' are; 64-bit registers, ranges and overflow tests are
  written out. Indices are assumed to be 64 bits wide. Characters are Unicode scalar values.

## Results worth knowing before changing the code

* **The strict verifier refuses some records that the writer appends.** `verifier-cli/Cargo.toml:19` takes
  `serde_json` without its `float_roundtrip` feature, so its parser may read the shortest text of a double
  as a neighbouring double: a `confidence` of 0.9452706955539223 becomes 0.9452706955539224, and the
  canonical form of the parsed record is no longer the line. `MovedConfidence.ConfidenceDivides` appends a
  decision with that confidence, on every platform that reads the text so: the writer returns the record and
  its verifier accepts the store, while the strict one refuses it. `BuiltStores.BuiltStoreVerifies` gives the
  exact condition, which a caller can check before appending: a store that the writers build is accepted if
  and only if the strict parser reads back every float of every event whose line was written.
* **The two verifiers do not accept the same chains in general**, and what divides them is known exactly.
  Of the chains that the writer's verifier accepts, the strict one accepts those whose records nest at
  most 127 deep, have only floats that its parser reads back, and verify strictly
  (`VerdictsAgree.StoredStreamDivides`). Of the chains that the strict one accepts, the writer's accepts
  those whose timestamps are datetimes (no leap second, no year 0) and whose nesting its parser enters
  (`VerdictsAgree.StrictStreamDivides`).
* **An appended record is read back exactly if** its number is below 2^63 and its nesting is within the
  reader's limit (`Logger.AppendIsRead`); otherwise every later append refuses, however the store has grown
  since (`AppendLog.UnreadableAppendIsFinal`).
* **One proof anchors one history**: two accepted chains that the same proof anchors, whatever the nodes say,
  have the same records up to signatures, or exhibit a hash collision (`AnchoredChain.OneProofOneHistory`).
* **A collector payload with a sequence number from 2^63 to 2^64-1 is validated and reserved, but never
  logged** (`CollectorProtocol.HandOverIsTaken`): it uses up the node's smaller numbers without leaving a record.
* **A torn line is final**: no later append changes the store (`AppendSafety.TornStaysTorn`).
* A variable integer has many spellings, so a proof's bytes determine its tree only with the spellings
  kept in the tree; the minimal spelling is one of them (`VarUint.MinimalSpellingIsShortest`).

## Model

| member | source | states |
|---|---|---|
| VarUint.ReadVarUintExact | verifier-cli/src/anchor.rs:274-292 | the read succeeds, consuming n bytes, exactly on the base-128 spellings of at most ten bytes whose value is below 2^64, and returns that value |
| VarUint.ReadVarUintErrors | verifier-cli/src/anchor.rs:274-292 | overflow is reported exactly when nine continuation bytes are followed by a byte above 1, truncation exactly when fewer than ten bytes all continue |
| VarUint.RegisterStep | verifier-cli/src/anchor.rs:278-286 | the division test overflows exactly for a tenth group above 1, and otherwise shift-and-or is exact addition: no bit is lost in the 64-bit register |
| VarUint.LoopRound | verifier-cli/src/anchor.rs:277-291 | each round of the loop stops with the outcome of the whole read or carries it to the next byte |
| VarUint.MinimalSpellingRoundTrip | verifier-cli/src/anchor.rs:274-292 | reading the minimal spelling of any 64-bit number gives the number back, whatever follows |
| VarUint.MinimalSpellingIsShortest | verifier-cli/src/anchor.rs:274-292 | every accepted spelling of a value, overlong ones included, is at least as long as its minimal spelling |
| OtsTree.MeaningIsFoldOfPaths | verifier-cli/src/anchor.rs:305-404 | the Bitcoin attestations of a proof, in order, are those of its root-to-leaf paths from left to right, each with the fold of the path's operations over the digest as commitment |
| OtsTree.MessagesStayBounded | verifier-cli/src/anchor.rs:381-421 | every message on every path has between 32 and 4096 bytes |
| OtsTree.BitcoinPathEndsInSha256 | verifier-cli/src/anchor.rs:355-372 | a 32-byte commitment is the digest itself or the direct output of a SHA-256 step |
| OtsTree.NormalizePreserves | verifier-cli/src/anchor.rs:274-303 | respelling every length minimally keeps a proof legal and keeps its meaning |
| OtsGrammar.ParsePrinted | verifier-cli/src/anchor.rs:305-404 | the parser reads the printing of any legal tree, up to depth 256, back as that tree, consuming exactly its bytes |
| OtsGrammar.ParsedIsPrinted | verifier-cli/src/anchor.rs:305-404 | whatever the parser accepts is the printing of a legal tree |
| OtsGrammar.ParseExact | verifier-cli/src/anchor.rs:305-404 | accepting a tree in k bytes and being its printing in k bytes are the same thing |
| OtsGrammar.ProofsArePrefixFree | verifier-cli/src/anchor.rs:305-342 | no legal proof is the beginning of another |
| OtsParser.Parser.ReadInteger | verifier-cli/src/anchor.rs:274-292 | the loop over value and shift returns the specified read and moves the position past it, or fails as specified |
| OtsParser.Parser.ReadBytes | verifier-cli/src/anchor.rs:294-303 | reads a counted string as the grammar does, including the errors and the position |
| OtsParser.Parser.ReadAttestation | verifier-cli/src/anchor.rs:344-379 | pushes exactly the attestation that the grammar's leaf means for the message |
| OtsParser.Parser.RunOperation | verifier-cli/src/anchor.rs:381-404 | applies the operation that the grammar reads, or fails with its error |
| OtsParser.Parser.Timestamp | verifier-cli/src/anchor.rs:305-316 | the interpreter ends with the outcome of the grammar, pushes exactly the meaning of the tree it read, and always terminates |
| OtsParser.Parser.ReadBranches | verifier-cli/src/anchor.rs:318-342 | the loop over 0xff branches has the outcome of the right-leaning fork that the bytes spell |
| OtsParser.Parser.TimestampFromTag | verifier-cli/src/anchor.rs:318-342 | dispatch on the tag has the outcome of the grammar |
| AnchorVerifier.DetachedIsUnique | verifier-cli/src/anchor.rs:154-193 | a detached proof is the printing of exactly one tree, spellings included |
| AnchorVerifier.ReadEnvelope | verifier-cli/src/anchor.rs:158-181 | the header, version, hash tag and digest are accepted exactly if the proof starts with the envelope of the expected digest |
| AnchorVerifier.InspectProof | verifier-cli/src/anchor.rs:154-193 | succeeds exactly on the detached proofs of the expected digest that have a Bitcoin attestation, and returns the meaning of their tree |
| AnchorVerifier.ChooseAttestation | verifier-cli/src/anchor.rs:72-149 | the selection loop reports the first confirmed attestation exactly if nothing before it is unanswered, fails as unreachable exactly if an unanswered lookup comes first, and otherwise gives the reason against the last attestation |
| ProofBytes.FoldSurrounds | verifier-cli/src/anchor.rs:384-398 | operations without a hash put the 0xf0 arguments behind the message in order, and the 0xf1 arguments before it, the last one first |
| ProofBytes.FoldHashes | verifier-cli/src/anchor.rs:381-404 | a 0x08 hashes what the operations before it made, and the rest of the path goes on from the digest |
| ProofBytes.InspectOneArgument | verifier-cli/src/anchor.rs:154-193 | a proof written out byte for byte, with one 0xf0 or 0xf1 argument, a 0x08 and a Bitcoin leaf, gives exactly one attestation, of its height and of the hash of the digest followed or preceded by the argument |
| ProofBytes.DepthLimit | verifier-cli/src/anchor.rs:305-316 | a leaf is legal under n hashes exactly up to 256 levels |
| ProofBytes.ArgumentLimit | verifier-cli/src/anchor.rs:406-421 | an argument behind or before a digest is legal exactly from 1 to 4064 bytes |
| ProofBytes.PayloadLimit | verifier-cli/src/anchor.rs:344-379 | an attestation of another kind is legal exactly up to 8192 bytes, and says nothing about Bitcoin |
| ProofBytes.ProofLimit | verifier-cli/src/anchor.rs:158-162 | a proof is detached exactly up to 16 MiB |
| Utf8.DecodeEncoded | forensics/_format.py:65-69 | decoding inverts encoding for every string of Unicode scalar values |
| Utf8.EncodeDecoded | verifier-cli/src/chain.rs:141-142 | every byte string that decodes is the encoding of what it decodes to |
| Utf8.ByteOrderIsCodePointOrder | verifier-cli/src/canonical.rs:151-165 | comparing keys by their UTF-8 bytes and by code points gives the same order |
| Utf8.EncodedForm | forensics/_format.py:65-69 | each character has the form of RFC 3629, section 3: the lead byte tells the length and every further byte holds six bits |
| Decimal.LayoutReadsBack | verifier-cli/src/canonical.rs:189-269 | the fixed or scientific token of a normalized decimal reads back as that decimal, so two decimals never share a token |
| Decimal.LayoutIsNotInteger | verifier-cli/src/canonical.rs:189-269 | the token of a float always has a fraction or an exponent, so it equals no integer token |
| Decimal.LayoutKeepsValue | verifier-cli/src/canonical.rs:189-269 | the token denotes, as a real number, exactly the decimal it lays out |
| Decimal.TokenDecimalKeepsValue | verifier-cli/src/canonical.rs:118-124 | the normalized decimal read from any number token denotes the same real number |
| Notation.PlainHasNoExponent | verifier-cli/src/canonical.rs:233-234 | the canonical token has no exponent exactly for zero and for sizes from 1/10000 up to 10^16 |
| Notation.CanonicalNotation | verifier-cli/src/canonical.rs:225-268 | each number has its own sign, the notation of its size, and no needless zero |
| Notation.PlainText | verifier-cli/src/canonical.rs:247-268 | the text of a plain number is its sign, digits, a point and digits, without needless zeros |
| Notation.ScientificText | verifier-cli/src/canonical.rs:233-245 | the text of any other number is its sign, one digit, a point only before more digits, and a signed exponent of two digits or more, negative exactly for sizes below one |
| FloatFormatter.ShortestTextValue | verifier-cli/src/canonical.rs:203-223 | the decimal taken from any shortest-digits text, with or without a point and with or without an exponent, denotes the real number that the text writes |
| FloatFormatter.RenderedValue | verifier-cli/src/canonical.rs:189-269 | so the token that is rendered for such a text denotes that number |
| FloatFormatter.CountLeadingZeros | verifier-cli/src/canonical.rs:212-216 | what is drained from the digits is exactly the leading zeros |
| FloatFormatter.PopTrailingZeros | verifier-cli/src/canonical.rs:225-231 | what is popped from the digits is exactly the trailing zeros |
| FloatFormatter.RenderFixed | verifier-cli/src/canonical.rs:247-268 | fixed notation with padding zeros on the left, a point inside, or zeros and `.0` on the right is the layout of the decimal |
| FloatFormatter.RenderScientific | verifier-cli/src/canonical.rs:233-245 | scientific notation with a two-digit exponent is the layout of the decimal |
| FloatFormatter.FormatFiniteFloat | verifier-cli/src/canonical.rs:189-269 | the rendered token is the canonical layout of the decimal in the shortest-digits text |
| JsonText.StringRoundTrip | verifier-cli/src/canonical.rs:132-168 | an escaped string reads back as itself, whatever follows |
| JsonText.TokenRoundTrip | verifier-cli/src/canonical.rs:118-124 | a number token reads back as itself up to the first character that cannot continue it |
| JsonText.TokenTextIsInjective | verifier-cli/src/canonical.rs:170-187 | two number tokens with the same text are the same |
| JsonText.ScannedIsWellFormed | verifier-cli/src/canonical.rs:118-124 | the scanner only accepts numbers of the grammar of RFC 8259, section 6 |
| JsonRoundTrip.TextRoundTrip | verifier-cli/src/canonical.rs:118-168 | parsing the compact text of any readable value gives the value back |
| Canonical.CanonAgrees | forensics/_format.py:55-61 | sorting by UTF-8 bytes and by code points gives the same value, at every nesting level |
| Canonical.SerializersAgree | verifier-cli/src/canonical.rs:126-168 | the two serializers print every value alike |
| Canonical.SortLookup | verifier-cli/src/canonical.rs:151-165 | sorting an object changes the place of a key, never its value |
| Canonical.SortSorts | verifier-cli/src/canonical.rs:151-165 | an object without repeated keys ends up in strictly increasing key order |
| Canonical.SortedIsUnique | verifier-cli/src/canonical.rs:151-165 | sorted objects with the same content are the same, so any correct sort gives this one |
| Canonical.CanonIsIdempotent | verifier-cli/src/canonical.rs:126-168 | the canonical form of a canonical form is itself |
| Canonical.SerializedHasNoLineFeed | forensics/logger.py:82 | canonical bytes contain no line feed, so a line holds exactly one record |
| CompactText.CanonicalTextIsCompact | forensics/_format.py:55-61 | the canonical text has no blank outside strings and no control character |
| CompactText.EscapeIsShortest | verifier-cli/src/canonical.rs:132-168 | no text that stands for a character in a string is shorter than its escape |
| CompactText.EscapeIsLowercase | verifier-cli/src/canonical.rs:132-168 | six-character escapes have lowercase hexadecimal digits |
| StrictJson.RoundingIsGoodReading | verifier-cli/src/canonical.rs:118-124 | a parser that rounds the decimal of a token to a double, and leaves doubles alone, reads back every double from its own text |
| StrictJson.ParsersInvertSerializers | verifier-cli/src/canonical.rs:118-168 | each parser, with its own reading of numbers, gives back the canonical form of every value that is legal for it, from either serializer's text |
| StrictJson.RenderIsInjective | verifier-cli/src/chain.rs:158-163 | legal values with the same text are the same value |
| StrictJson.StrictReadsNumber | verifier-cli/src/canonical.rs:47-67 | the strict parser maps the token of every 64-bit signed integer, and of every float that its reading gives back, to the number |
| StrictJson.StrictIntegers | verifier-cli/src/canonical.rs:47-57 | integer tokens become integers exactly in the signed 64-bit range, and are refused in the upper half of the unsigned one |
| DuplicateKeys.StrictParsedIsLegal | verifier-cli/src/canonical.rs:27-124 | whatever its reading of floats, the strict parser returns only values with distinct keys, integers within 64 bits, normalized decimals and nesting of at most 127 |
| DuplicateKeys.LenientParsedIsLegal | forensics/_store.py:47-60 | the writer's parser returns only values with distinct keys, doubles of its own reading and nesting within its limit |
| DuplicateKeys.StrictRefusesExactlyRepeatedKeys | verifier-cli/src/canonical.rs:99-113 | compared with a parser that keeps every member, the strict one refuses exactly the texts with a repeated key at some depth |
| DuplicateKeys.RepeatedKeysAreNotCanonical | forensics/_store.py:47-60 | where the last occurrence of a key wins, a text with a repeated key at any depth never equals its re-serialization |
| FixedFloats.StrictRereads | verifier-cli/src/canonical.rs:118-124 | what the strict parser returns for the text of a value is that value with every number reread |
| FixedFloats.StrictReadsBackFixedFloats | verifier-cli/src/canonical.rs:118-168 | the strict parser gives a value back from its text exactly if its reading gives back every float in it, at every depth |
| FixedFloats.MovedFloat | verifier-cli/src/canonical.rs:59-67 | the token of a float that the reading moves is not read as that float |
| FixedFloats.StrictCanonicalText | verifier-cli/src/chain.rs:158-163 | a text that equals the serialization of what the strict parser makes of it holds a canonical value, all of whose floats are read back |
| FixedFloats.LenientCanonicalText | forensics/_store.py:56-60 | the same for the writer's parser |
| CanonicalWriter.WriteValue | verifier-cli/src/canonical.rs:132-168 | pushing pieces to the output appends exactly the canonical text |
| CanonicalWriter.WriteMembers | verifier-cli/src/canonical.rs:151-165 | sorting the entries and writing them in turn appends the text of the canonical object |
| CanonicalWriter.VisitMap | verifier-cli/src/canonical.rs:99-113 | the insertion loop fails exactly on a repeated key and otherwise builds the map of the members |
| Hex.EncodeHex | verifier-cli/src/chain.rs:405-413 | the loop writes the lowercase hexadecimal text of the bytes |
| Hex.DecodeHexArray | verifier-cli/src/chain.rs:386-395 | decoding succeeds exactly on lowercase text of the length, and encoding inverts it |
| Hex.EncodeIsInjective | verifier-cli/src/chain.rs:405-413 | different byte strings have different texts |
| Hex.TextOfEach | verifier-cli/src/chain.rs:405-413 | byte i is written by characters 2i and 2i+1 |
| Hex.ByteText | verifier-cli/src/chain.rs:405-413 | a byte is written by the digits 0 to f of its high and its low half |
| RecordSchema.ValidatorsAgree | forensics/_format.py:83-182 | on records with 64-bit integers the writer's validator and the strict one accept the same records with the same version, but for the timestamps |
| RecordSchema.LeapSecondDivides | verifier-cli/src/chain.rs:335-378 | a leap second is a timestamp for the strict validator and none for the writer's |
| RecordSchema.LenientRecordIsBounded | forensics/_format.py:105-134 | a record that the writer's validator accepts has no integer beyond 64 bits at any depth |
| WriterSchema.Version1Exact | forensics/_format.py:83-171 | an event is of version 1 exactly with the nine fields of a decision, each as it should be |
| WriterSchema.Version2Exact | forensics/_format.py:83-182 | an event is of version 2 exactly as a decision or an ingestion of the second format |
| WriterSchema.StoredExact | forensics/_format.py:105-134 | a stored record is valid exactly with its four managed fields around a valid event |
| Timestamps.LenientTimestampExact | forensics/_format.py:141-150 | a timestamp of the writer is exactly the text of a calendar time from the year 1 on, with an optional fraction |
| Timestamps.StrictTimestampExact | verifier-cli/src/chain.rs:335-378 | a timestamp of the strict validator may also have the year 0 and the second 60 |
| ChainVerifier.NextLine | verifier-cli/src/chain.rs:126-136 | one read gives the next line without its line feed, the end, or an unterminated rest |
| ChainVerifier.VerifyReader | verifier-cli/src/chain.rs:115-224 | the streaming loop reports the verdict, the count, the tip and the first error of the whole stream |
| SealedBytes.AcceptedLineIsSealed | verifier-cli/src/chain.rs:164-212 | an accepted line is the text of a record with the number and the hash before it, whose hash is that of the compact text of its other members in key order, and whose signature verifies over that text |
| SealedBytes.SealedLineIsAccepted | verifier-cli/src/chain.rs:141-212 | conversely the canonical text of a valid record that links up and is so sealed is accepted |
| SealedBytes.StrictFault | verifier-cli/src/chain.rs:164-212 | for a valid canonical record, which error is reported is decided by its number, the hash before it, the hash of its text and its signature, in that order |
| SealedBytes.AcceptedStream | verifier-cli/src/chain.rs:115-224 | in an accepted stream record i has number i, names 64 zeros or the hash that record i-1 states, states the hash of its own text and is signed over it |
| ChainTheorems.ErrorIsFirstFailure | verifier-cli/src/chain.rs:115-224 | an error at record k means that the first k lines are an accepted chain and that line k is the first bad one, or the unterminated rest |
| ChainTheorems.PrefixIsAccepted | verifier-cli/src/chain.rs:115-224 | every LF-terminated prefix of an accepted stream is accepted |
| ChainTheorems.AcceptedLine | verifier-cli/src/chain.rs:141-212 | an accepted line is the canonical text of a legal record that links the states before and after it |
| ChainTheorems.LinkingLineIsAccepted | verifier-cli/src/chain.rs:141-212 | conversely the canonical text of a legal linking record is accepted |
| ChainTheorems.TipFromLastLine | verifier-cli/src/anchor.rs:195-230 | on every accepted chain the tip read from the last line alone is the tip of the full pass |
| TipHistory.UnsignedBytesDetermine | verifier-cli/src/chain.rs:192-201 | the hashed bytes determine the record but for its hash and signature |
| TipHistory.TipDeterminesHistory | verifier-cli/src/chain.rs:115-224 | two accepted chains with the same tip hash have the same length and the same records up to signatures, or two of their lines collide under the hash |
| TipHistory.StreamTipDeterminesHistory | verifier-cli/src/chain.rs:115-224 | the same for two accepted streams |
| AnchoredChain.ConfirmProof | verifier-cli/src/anchor.rs:70-149 | inspection and selection together succeed exactly if the proof of the digest has a confirmed attestation with nothing unanswered before it, and report that attestation |
| AnchoredChain.VerifyAnchor | verifier-cli/src/anchor.rs:59-149 | the whole verification succeeds exactly if the chain's last line states a hash whose proof is so confirmed, and reports the line's number with the attestation |
| AnchoredChain.AnchoredMeans | verifier-cli/src/anchor.rs:59-149 | success exhibits a root-to-leaf path of the proof, ending in SHA-256, whose operations turn the stated hash into the Merkle root of an active block with at least six confirmations |
| AnchoredChain.OneProofOneHistory | verifier-cli/src/anchor.rs:57-149 | two accepted chains anchored by one proof have the same records up to signatures, or two of their lines collide under the hash |
| Store.Records.Next | forensics/_store.py:29-81 | the generator yields the next record exactly if the next line links to the records before it, and otherwise says where and why not |
| Store.NextTip | forensics/_store.py:84-98 | the loop returns the next number and the last hash of the whole store, or the first error, including a record of another version than the required one |
| Store.VerifyChain | forensics/chain_check.py:33-62 | the loop returns the count and the tip hash of the whole store with every signature checked, or the first error |
| SealedBytes.StoredStream | forensics/chain_check.py:33-62 | the same for every store that the writer's verifier accepts |
| SealedBytes.SealedLineIsStored | forensics/_store.py:42-80 | the canonical text of a valid record that links up and is sealed is accepted by the writer's verifier |
| VerdictsAgree.LegalAtDepth | verifier-cli/src/canonical.rs:118-124 | a legal value is legal for exactly the nesting limits that cover its depth |
| VerdictsAgree.StrictLineDivides | forensics/_store.py:42-80 | a line that the strict verifier accepts is accepted by the writer's exactly if its timestamp is a datetime and its nesting is within the parser's limit, and then in the same state |
| VerdictsAgree.StoredLineDivides | verifier-cli/src/chain.rs:141-212 | a line that the writer's verifier accepts is accepted by the strict one exactly if its nesting is at most 127, its floats are read back and its signature verifies strictly, and then in the same state |
| VerdictsAgree.MovedFloatIsRefused | verifier-cli/src/chain.rs:158-163 | a line of the writer with a float that the strict parser reads as another double is refused |
| VerdictsAgree.StoredRunDivides | verifier-cli/src/chain.rs:115-224 | of the chains that the writer's verifier accepts, the strict one accepts exactly those all of whose records meet its demands, with the same state |
| VerdictsAgree.StrictRunDivides | forensics/chain_check.py:33-62 | of the chains that the strict verifier accepts, the writer's accepts exactly those all of whose records meet its demands, with the same state |
| VerdictsAgree.StoredStreamDivides | verifier-cli/src/chain.rs:115-224 | the same for streams, with counts and tips |
| VerdictsAgree.StrictStreamDivides | forensics/chain_check.py:33-62 | the converse for streams |
| Logger.StoredSchema | forensics/_format.py:105-134 | the record of a valid event passes the stored-record validation with the event's version exactly if its number is below 2^63 |
| Logger.StoredHashedBytes | forensics/_format.py:72-80 | the bytes hashed for the stored record are those that the writer hashed and signed before sealing |
| Logger.AppendIsRead | forensics/logger.py:64-85 | the appended line is read back as the next record, with the expected state and content, exactly if its number fits in 63 bits and its nesting is within the reader's limit |
| Logger.AppendIsSigned | forensics/logger.py:70-81 | if the signature verifies over the signed bytes, every reader that checks signatures accepts the stored record |
| SealedBytes.SignedText | forensics/logger.py:70-77 | the signer is given the compact text of the event with its number and the hash before it, in key order |
| SealedBytes.AppendedRecord | forensics/logger.py:78-82 | the appended record is the event with its number, the hash before it, and the hash and the signature of that text |
| AppendLog.UnreadableAppendIsFinal | forensics/logger.py:61-67 | after an append whose number or nesting the reader refuses, reading the store for another append fails, whatever has been added since |
| AppendLog.AppendKeepsGood | forensics/logger.py:54-92 | appending the line of a draft that continues the chain keeps the store linked, keeps its signatures verifiable, and leaves nothing but floats that could make the strict verifier refuse it |
| AppendLog.BothVerifiersAccept | forensics/chain_check.py:33-62 | a good store with a whole last line is accepted by the writer's verifier, and by the strict one exactly if its parser reads back every float, with the same count and tip |
| AppendLog.ChainFile.LogEvent | forensics/logger.py:47-92 | each failure, a raising signer included, leaves the store as it was, or with part of the line if the disk fails; success appends exactly the sealed line and its line feed, and returns the record |
| AppendProtocol.StepKeepsInvariant | forensics/logger.py:61-90 | every step of every writer keeps mutual exclusion, a linked store, and returned records in place |
| AppendSafety.RunKeepsInvariant | forensics/logger.py:61-90 | the same after any steps of any writers in any order, with failures and crashes anywhere |
| AppendSafety.StoreIsChain | forensics/_store.py:29-81 | record i of the store has number i, the store's one version, and the hash that record i-1 states |
| AppendSafety.ReturnedExactlyOnce | forensics/logger.py:54-92 | in every state of every run a returned record is in the store at its own number and nowhere else, and is read back as written |
| AppendSafety.ReturnedNumbersDiffer | forensics/logger.py:54-92 | no two returned records have the same number |
| AppendSafety.TornStaysTorn | forensics/logger.py:61-67 | once a line is torn, every later append refuses and the store never changes again |
| AppendSafety.UninterruptedAppend | forensics/logger.py:47-92 | the steps of one writer, uninterrupted, do what an append with the lock held does |
| WriterSteps.LinesAfter | forensics/logger.py:82-90 | a step of a writer adds to the lines of the store exactly the line that it completes, if any |
| WriterSteps.CompletedDraft | forensics/logger.py:61-90 | a completed line is that of the writer's own event, at the number of its draft |
| BuiltStores.LinesAreWritten | forensics/logger.py:61-90 | in every run the lines of the store are, in order, those of the drafts whose lines the writers completed |
| BuiltStores.WrittenWasRequested | forensics/logger.py:47-54 | every written event is one that some writer was given |
| BuiltStores.BuiltStoreVerifies | verifier-cli/src/chain.rs:115-224 | with a correct signer and nesting within both limits, every store that the writers build, unless torn, is accepted by the writer's verifier, and by the strict one exactly if its parser reads back every float of every written event, with the same count and tip |
| BuiltStores.MovedEventDivides | verifier-cli/src/chain.rs:158-163 | a valid event with a float that the strict parser moves, appended to an empty store, is returned to its caller; the writer's verifier accepts the store and the strict one refuses it |
| MovedConfidence.EventIsAccepted | forensics/_format.py:83-171 | a version-1 decision passes the writer's validator exactly if its timestamp, its hashes and its confidence are in range |
| MovedConfidence.ConfidenceDivides | verifier-cli/Cargo.toml:19 | wherever the strict parser reads the text 0.9452706955539223 as 0.9452706955539224, a run appends the decision with that confidence and returns its record; the writer's verifier accepts the store and the strict one refuses it |
| MovedConfidence.MovingSettingIsGood | verifier-cli/Cargo.toml:19 | a platform that reads it so, with a signer, meets all that the theorems on verdicts assume |
| UtcText.TextOrderIsFieldOrder | forensics/anchor_worker.py:285-290 | comparing the fixed-width texts compares the fields from the year to the microsecond |
| UtcText.TextOrderIsTimeOrder | forensics/anchor_worker.py:285-290 | comparing the texts is comparing the instants |
| AnchorLifecycle.QueryIsDue | forensics/anchor_worker.py:168-184 | the conditions of the due-jobs query, on the texts in the database, hold exactly for the rows that are due at the instant |
| Timestamps.StoredText | forensics/anchor_worker.py:285-290 | the stored text is a calendar time with six digits of fraction |
| RetrySchedule.DelayBounds | forensics/anchor_worker.py:293-302 | the delay lies between min(900 * 2^(n-1), 86400) seconds and 1.25 times that |
| RetrySchedule.DelayIsMonotone | forensics/anchor_worker.py:293-302 | the delay grows with the attempt count and with the jitter sample |
| RetrySchedule.DelayTable | forensics/anchor_worker.py:293-302 | the delays without jitter are 900, 1800, 3600, 7200, 14400, 28800 and 57600 seconds, and 86400 from the eighth attempt on |
| RetrySchedule.DelayExact | forensics/anchor_worker.py:293-302 | jitter adds exactly its share of a quarter below the cap, and never exceeds 108000 seconds |
| RetrySchedule.DelayMicrosBounds | forensics/anchor_worker.py:418-427 | after rounding to microseconds both bounds still hold exactly |
| RetrySchedule.DelayMicrosMonotone | forensics/anchor_worker.py:418-427 | rounded delays still grow with the attempt count and with the jitter sample |
| AnchorSafety.QueuedProceeds | forensics/anchor_worker.py:330-366 | whatever the surroundings do, processing a queued row keeps row and file sound and only moves forward |
| AnchorSafety.PendingProceeds | forensics/anchor_worker.py:369-393 | the same for a pending row: a file with a Bitcoin attestation is never replaced |
| AnchorSafety.FailureSteps | forensics/anchor_worker.py:230-264 | recording a failure keeps the level of the row, and sets the failure class and the retry source |
| AnchorSafety.JobSteps | forensics/anchor_worker.py:396-434 | one due job changes at most its own row, file and stamp requests, and keeps them sound, wherever it stops |
| AnchorSafety.RunKeepsSound | forensics/anchor_worker.py:437-462 | a run keeps every file bound to its tip, every row within what its file shows, and only advances |
| AnchorSafety.RetryIsScheduled | forensics/anchor_worker.py:418-427 | a row whose transient failure is recorded is due again exactly from its next attempt on, which lies within the bounds of the schedule |
| AnchorSafety.EveryOtherRowBecomesDue | forensics/anchor_worker.py:168-184 | every row that is neither upgraded nor failed for integrity is due from some time on, and the others never are |
| AnchorWorker.LifecycleStore.TrackTip | forensics/anchor_worker.py:122-147 | adds a queued row exactly if the tip is not tracked |
| AnchorWorker.LifecycleStore.DueJobs | forensics/anchor_worker.py:168-184 | returns exactly the due rows, each once, in the order of their sequence numbers |
| AnchorWorker.LifecycleStore.Transition | forensics/anchor_worker.py:186-210 | updates the row as specified, only from the expected state and only along an allowed transition |
| AnchorWorker.LifecycleStore.PendingChecked | forensics/anchor_worker.py:212-228 | updates a pending row as specified, and no other |
| AnchorWorker.LifecycleStore.RecordFailure | forensics/anchor_worker.py:230-264 | turns the row into a failed one as specified, counting the attempt and remembering the state |
| AnchorWorker.LifecycleStore.ResumeRetry | forensics/anchor_worker.py:266-282 | puts a failed row back into the state it failed in, as specified |
| AnchorWorker.ProofFiles.WriteProofAtomic | forensics/anchor.py:241-261 | publishes the whole proof or nothing, and refuses to replace unless told to |
| AnchorWorker.Worker.ProcessQueued | forensics/anchor_worker.py:330-366 | database, files and outcome are those of the specified step |
| AnchorWorker.Worker.ProcessPending | forensics/anchor_worker.py:369-393 | database, files and outcome are those of the specified step |
| AnchorWorker.Worker.ProcessJob | forensics/anchor_worker.py:396-434 | database, files and outcome are those of the specified job, exceptions included |
| AnchorWorker.Worker.RunOnce | forensics/anchor_worker.py:437-462 | a run is a specified run: the tip is tracked and the due jobs are processed in order until one of them ends it; a finished run returns the number of due rows |
| AnchorProgress.StampedJob | forensics/anchor_worker.py:336-355 | a stamp of the tip's own digest is published under the row's path, and the row becomes pending until its interval in minutes has passed, or upgraded |
| AnchorProgress.ForeignStamp | forensics/anchor_worker.py:412-417 | a stamp of anything else is not published, and the row fails for good |
| AnchorProgress.RecoveredJob | forensics/anchor_worker.py:336-366 | a file left by a crash is taken up without another stamp |
| AnchorProgress.AttestedJob | forensics/anchor_worker.py:378-382 | a pending row whose file attests is upgraded, whatever the backend would say |
| AnchorProgress.UpgradedJob | forensics/anchor_worker.py:383-393 | an upgraded proof of the tip replaces the pending one, and the row follows |
| AnchorProgress.ForeignUpgrade | forensics/anchor_worker.py:412-417 | an upgrade of anything else leaves the file alone, and the row fails for good |
| AnchorProgress.FailedRequest | forensics/anchor_worker.py:418-427 | a backend that fails leaves the files alone, and the row waits for the delay of its attempt |
| AnchorProgress.LostFile | forensics/anchor_worker.py:377-379 | a pending row without its file waits in the same way |
| AnchorProgress.TrackedTip | forensics/anchor_worker.py:122-147 | a new tip is queued with no attempt, its own file and the interval of the run; a tracked one is left as it is |
| AnchorRuns.SnapshotTip | forensics/anchor_worker.py:305-314 | the tip of a valid chain that is not empty, and otherwise nothing |
| AnchorRuns.TrackedKeysAreHashes | forensics/anchor_worker.py:305-314 | every tracked tip of every history is 64 lowercase hexadecimal digits |
| AnchorRuns.HistoryIsSound | forensics/anchor_worker.py:321-393 | after any runs, each cut short anywhere: a proof file passes inspection for the digest that the hash in its name writes, and is that of a tracked row; a row that is or was pending has its file; an upgraded row's file attests for that digest |
| AnchorRuns.PublishedProofsStay | forensics/anchor_worker.py:330-366 | once a proof is published it stays, bound to its tip, and no stamp is requested for that tip again, in whatever directory |
| AnchorRuns.UndueRowsRest | forensics/anchor_worker.py:168-184 | a row, with its file, is the same after any runs at none of whose times it is due |
| AnchorRuns.RetryWaits | forensics/anchor_worker.py:418-427 | a row with a transient failure, and its file, stay unchanged through every run before its next attempt |
| AnchorRuns.RetryKeepsToSchedule | forensics/anchor_worker.py:293-302 | in every history a row's n-th failure keeps all runs away from it for at least min(900 * 2^(n-1), 86400) seconds, and it is due when a quarter more has passed |
| AnchorRuns.AssuranceNeverFalls | forensics/anchor_worker.py:49-55 | levels never go down, independent verification is never reached, the failure class is set exactly in failed rows, and integrity failures are final and never selected |
| AnchorRuns.TrackedRowsStayTrue | forensics/anchor_worker.py:305-314 | on an append-only chain every tracked row's hash is that of the record at its sequence number, in every later state |
| AnchorRuns.OneRowPerSequence | forensics/anchor_worker.py:122-147 | there is at most one row for each sequence number, however often the worker runs |
| Framing.FrameOfLine | collector/vestrix_collector/server.py:341-356 | the text before the first line feed is the outcome if its length is between 1 and the limit; otherwise the error is that of the length, or of the way the connection ended |
| Framing.ReadJsonLine | collector/vestrix_collector/server.py:341-356 | however the bytes are split into chunks, and whether the peer shuts down, falls silent or is lost after them, the loop ends with the outcome of the bytes and their end |
| Collector.WriterTakesEvent | collector/vestrix_collector/models.py:66-77 | the writer of the chain takes a validated event exactly if its sequence number is below 2^63 |
| CollectorAcceptance.PayloadExact | collector/vestrix_collector/models.py:37-79 | the validator gives an event exactly for the objects with schema version 0.1 and the event's four values under their names, in any order, and nothing else |
| CollectorAcceptance.NodeIdExact | collector/vestrix_collector/models.py:29 | a node identifier is one to 128 letters, digits, points, underscores and hyphens, starting with a letter or a digit |
| CollectorAcceptance.PayloadTimestampExact | collector/vestrix_collector/models.py:30-32 | a payload's timestamp is exactly the text of a calendar time with at most nine digits of fraction |
| CollectorAcceptance.AdmittedExactly | collector/vestrix_collector/server.py:213-269 | a connection is admitted with an event exactly if its certificate has the event's node as its one name, the node is enrolled, and the line parses to a payload of the event |
| CollectorAcceptance.AdmitReasons | collector/vestrix_collector/server.py:213-269 | the reason for turning a connection away is that of the first check that fails |
| Collector.Admit | collector/vestrix_collector/server.py:213-269 | an admitted event is valid and carries the one common name of the certificate, which is enrolled |
| Collector.CollectorServer.ReserveSequence | collector/vestrix_collector/server.py:271-277 | a number is a replay exactly if the node has used or passed it, and is kept otherwise |
| Collector.CollectorServer.HandOff | collector/vestrix_collector/forensics.py:15-32 | the event is logged exactly if the writer takes it, and then the chain grows by its record |
| Collector.CollectorServer.HandleConnection | collector/vestrix_collector/server.py:207-310 | every rejection has its reason and changes nothing before the reservation; after it the event is accepted exactly if the writer appends it, and then the chain has grown by its record |
| CollectorAcceptance.ServePayload | collector/vestrix_collector/server.py:207-310 | a connection whose first line is the compact text of a payload, in any order, from its own enrolled node and with a fresh number, is accepted exactly if the writer appends |
| CollectorAcceptance.IngestionRecord | collector/vestrix_collector/forensics.py:21-30 | the record on the chain holds the event's values under the names of an ingestion |
| IngestLedger.IngestionLineCarries | collector/vestrix_collector/forensics.py:21-32 | the stored line of an ingestion event carries its own node and sequence number, and no others |
| IngestLedger.OwnStepFits | forensics/logger.py:61-90 | a step of a writer that a handler has called keeps every line of the store at the number of its own draft, with the event of its reservation if it is the collector's, and at most one line for each reservation |
| IngestLedger.OtherStepFits | forensics/logger.py:61-90 | the same for a step of any other writer, with whatever event |
| CollectorProtocol.StepKeepsInvariant | collector/vestrix_collector/server.py:207-310 | every step of every handler and every writer keeps reservations increasing, tickets unshared, and at most one line for each reservation |
| CollectorProtocol.ReservationsIncrease | collector/vestrix_collector/server.py:271-277 | in every run the numbers reserved for one node strictly increase |
| CollectorProtocol.WriterCalledOnce | collector/vestrix_collector/server.py:289-300 | in every run each pair of node and number reaches the writer at most once, even when the hand-over fails |
| CollectorProtocol.HandOverIsTaken | collector/vestrix_collector/forensics.py:15-32 | in every run the writer takes up a reserved event exactly if its number is below 2^63 |
| CollectorProtocol.LinesDiffer | collector/vestrix_collector/server.py:271-300 | in every run no two lines of the store that the collector's writers completed carry the same node and sequence number, failed hand-overs included |
| CollectorProtocol.AcknowledgedOnce | collector/vestrix_collector/server.py:302-310 | in every run an acknowledged event, its certificate's own and from a node enrolled when the connection was made, has a line in the store that carries its node and number, and no other line does, unless another program has written an ingestion event with them |

## Left out

- TipHistory.TipDeterminesHistory: is stated with the collision as an alternative instead of an injective hash, because no function to 32 bytes is injective; with a hash that never collides on the two chains it is the plain statement.
- Logger.AppendIsRead: does not model a writer that stops at its own nesting limit before writing; the model writes the record and says when it can be read.
- AnchorVerifier.ChooseAttestation: the kinds of node failure are not told apart, and node versions, networks and authentication are not modelled.
- Error texts: errors are distinguished by kind, not by wording.
- Collector.Admit: a payload nested beyond the parser's limit, or with an integer of more than 4300 digits, is rejected as invalid JSON; the program rejects it through its handler for unexpected errors, with another reason.
- The JSON library of the writer: its detection of UTF-16 and UTF-32 input, its `NaN` and `Infinity`, its limit on the digits of an integer, and lone surrogate escapes are not modelled; they are refused later by the writer's checks in every case, with another error than the model's.
- The datetime library: the model has the fields and ranges that it checks, for ASCII digits.
- Ed25519, SHA-256, TLS, certificates, revocation lists and key files: abstract functions or left out.
- Calendars, merging and serialization of timestamps, and the search through directly attested timestamps: the backend's answer is arbitrary.
- SQLite and the file system: a row update is one transaction and publication of a file is one step; both may fail or be followed by a crash. Outside changes to proof files are not modelled.
- Several anchor workers at once: their updates are guarded by the state, but attempt counts and file publication are not, so nothing is claimed about them.
- Overflow corners: attempt counts past about 1000, dates past the year 9999 and a node tip at the largest 64-bit height.
- Lock timeouts of readers, logging, configuration, command lines, the certificate scripts, the SIEM mappings and the machine-learning pipeline.
