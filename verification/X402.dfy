/** The x402 payment gate: who signed, and whether the signer may pay (python/src/telaro_ars/x402.py). */
module X402 {
  import opened Events
  import opened Bytes

  /** An instruction names its program and accounts by their positions among the keys. */
  datatype Instruction = Instruction(program: nat, accounts: seq<nat>, data: seq<byte>)

  /** A deserialised transaction, legacy or versioned. */
  datatype Transaction = Transaction(
    keys: seq<string>, required: nat, signatures: seq<seq<byte>>, instructions: seq<Instruction>)

  /** The 64 zero bytes that stand for a missing signature. */
  predicate Blank(signature: seq<byte>) {
    |signature| == 64 && forall i :: 0 <= i < 64 ==> signature[i] == 0
  }

  /** The required signer at position i did sign. */
  predicate SignedAt(tx: Transaction, i: int) {
    0 <= i < tx.required && i < |tx.signatures| && !Blank(tx.signatures[i])
  }

  // ---------------------------------------------------------------- the two signer loops

  /** The keys of the signers among the first k positions, in order. */
  function SignersBelow(tx: Transaction, k: nat): seq<string>
    requires k <= |tx.keys|
  {
    if k == 0 then []
    else if SignedAt(tx, k - 1) then SignersBelow(tx, k - 1) + [tx.keys[k - 1]]
    else SignersBelow(tx, k - 1)
  }

  function Signers(tx: Transaction): seq<string> {
    SignersBelow(tx, |tx.keys|)
  }

  lemma {:induction false} NoSignersPast(tx: Transaction, low: nat, high: nat)
    requires low <= high <= |tx.keys|
    requires forall i :: low <= i < high ==> !SignedAt(tx, i)
    ensures SignersBelow(tx, high) == SignersBelow(tx, low)
  {
    if low < high {
      NoSignersPast(tx, low, high - 1);
    }
  }

  /** The legacy loop walks the required keys and looks each signature up. */
  method LegacyLoop(tx: Transaction) returns (signed: seq<string>)
    ensures signed == Signers(tx)
  {
    signed := [];
    var count := if tx.required < |tx.keys| then tx.required else |tx.keys|;
    for i := 0 to count
      invariant signed == SignersBelow(tx, i)
    {
      if i < |tx.signatures| && !Blank(tx.signatures[i]) {
        signed := signed + [tx.keys[i]];
      }
    }
    NoSignersPast(tx, count, |tx.keys|);
  }

  /** A signature that counts but has no key: the versioned loop runs off its key list. */
  ghost predicate KeyMissing(tx: Transaction) {
    exists i :: i >= |tx.keys| && SignedAt(tx, i)
  }

  /** The versioned loop walks the signatures and indexes the keys; an `IndexError` makes the parse fail. */
  method VersionedLoop(tx: Transaction) returns (signed: Option<seq<string>>)
    ensures signed.None? <==> KeyMissing(tx)
    ensures signed.Some? ==> signed.value == Signers(tx)
    ensures tx.required <= |tx.keys| ==> signed.Some?
  {
    var keys := [];
    var i := 0;
    while i < |tx.signatures| && i < tx.required
      invariant 0 <= i <= |tx.signatures| && i <= tx.required
      invariant keys == SignersBelow(tx, if i < |tx.keys| then i else |tx.keys|)
      invariant forall j :: |tx.keys| <= j < i ==> !SignedAt(tx, j)
    {
      if !Blank(tx.signatures[i]) {
        if i >= |tx.keys| {
          assert SignedAt(tx, i);
          return None;
        }
        keys := keys + [tx.keys[i]];
      }
      i := i + 1;
    }
    if i < |tx.keys| {
      NoSignersPast(tx, i, |tx.keys|);
    }
    return Some(keys);
  }

  function Signature(): (signature: seq<byte>)
    ensures |signature| == 64 && signature[0] == 1 && !Blank(signature)
  {
    assert seq(64, i => 1)[0] != 0;
    seq(64, i => 1)
  }

  /** One required signature and no key: the legacy loop finds no signer, the versioned one fails. */
  lemma LoopsDiverge()
    ensures var tx := Transaction([], 1, [Signature()], []);
            Signers(tx) == [] && KeyMissing(tx)
  {
    var tx := Transaction([], 1, [Signature()], []);
    assert 0 >= |tx.keys| && SignedAt(tx, 0);
  }

  /** The first signer: its position, if any required signer signed. */
  predicate IsFirstSigner(tx: Transaction, i: int) {
    SignedAt(tx, i) && forall j :: 0 <= j < i ==> !SignedAt(tx, j)
  }

  lemma {:induction false} FirstOfSigners(tx: Transaction, k: nat)
    requires k <= |tx.keys|
    ensures SignersBelow(tx, k) == [] <==> forall i :: 0 <= i < k ==> !SignedAt(tx, i)
    ensures SignersBelow(tx, k) != [] ==>
      exists i :: 0 <= i < k && IsFirstSigner(tx, i) && SignersBelow(tx, k)[0] == tx.keys[i]
  {
    if k > 0 {
      FirstOfSigners(tx, k - 1);
      if SignersBelow(tx, k - 1) == [] && SignedAt(tx, k - 1) {
        assert IsFirstSigner(tx, k - 1);
      }
    }
  }

  // ---------------------------------------------------------------- payer

  datatype Code =
    | NO_PAYMENT | MALFORMED_PAYMENT | NO_TRANSFER | UNSIGNED_PAYER
    | NOT_BONDED | BOND_BELOW_MIN | SCORE_BELOW_MIN | FROZEN | LOOKUP_FAILED

  /** The decoders this code calls into, as functions: `None` where they raise. */
  datatype Decoders = Decoders(
    header: string -> Option<Envelope>,
    base64: string -> Option<seq<byte>>,
    legacy: seq<byte> -> Option<Transaction>,
    versioned: seq<byte> -> Option<Transaction>)

  datatype Envelope = Envelope(serialized: Option<string>)

  ghost function TryParse(dec: Decoders, raw: seq<byte>): Option<seq<string>> {
    match dec.legacy(raw)
    case Some(tx) => Some(Signers(tx))
    case None =>
      match dec.versioned(raw)
      case None => None
      case Some(tx) => if KeyMissing(tx) then None else Some(Signers(tx))
  }

  method TryParseTx(dec: Decoders, raw: seq<byte>) returns (signed: Option<seq<string>>)
    ensures signed == TryParse(dec, raw)
  {
    var legacy := dec.legacy(raw);
    if legacy.Some? {
      var keys := LegacyLoop(legacy.value);
      return Some(keys);
    }
    var versioned := dec.versioned(raw);
    if versioned.None? {
      return None;
    }
    signed := VersionedLoop(versioned.value);
  }

  /** The transaction the code looks at: the legacy reading if there is one, else the versioned one. */
  ghost function Reading(dec: Decoders, serialized: string): Option<Transaction> {
    match dec.base64(serialized)
    case None => None
    case Some(raw) =>
      if dec.legacy(raw).Some? then dec.legacy(raw)
      else if dec.versioned(raw).Some? && !KeyMissing(dec.versioned(raw).value) then dec.versioned(raw)
      else None
  }

  /** The payer of a transaction that could be read. */
  function ComputedPayer(tx: Transaction): Result<string, Code> {
    if Signers(tx) == [] then Err(UNSIGNED_PAYER) else Ok(Signers(tx)[0])
  }

  ghost function Payer(dec: Decoders, serialized: string): Result<string, Code> {
    match Reading(dec, serialized)
    case None => Err(MALFORMED_PAYMENT)
    case Some(tx) => ComputedPayer(tx)
  }

  /** `Blank` is equality with the 64 zero bytes; the next lemmas say the rest without it. */
  lemma BlankIsZeros(zeros: seq<byte>, tx: Transaction)
    requires zeros == seq(64, _ => 0)
    ensures forall i :: 0 <= i < |tx.signatures| ==> (Blank(tx.signatures[i]) <==> tx.signatures[i] == zeros)
  {
  }

  /**
   * The payer in bytes. For the transaction the decoders yield, the legacy one or else a versioned one no
   * signature of which lacks a key: the key at the first required position whose signature is not 64 zero
   * bytes, and UNSIGNED_PAYER exactly if there is no such position.
   */
  lemma PayerInBytes(dec: Decoders, serialized: string, raw: seq<byte>, tx: Transaction, zeros: seq<byte>)
    requires zeros == seq(64, _ => 0)
    requires dec.base64(serialized) == Some(raw)
    requires
      || dec.legacy(raw) == Some(tx)
      || (dec.legacy(raw) == None && dec.versioned(raw) == Some(tx)
          && forall i :: |tx.keys| <= i < tx.required && i < |tx.signatures| ==> tx.signatures[i] == zeros)
    ensures forall i ::
      && 0 <= i < |tx.keys| && i < tx.required && i < |tx.signatures| && tx.signatures[i] != zeros
      && (forall j :: 0 <= j < i ==> tx.signatures[j] == zeros)
      ==> Payer(dec, serialized) == Ok(tx.keys[i])
    ensures Payer(dec, serialized) == Err(UNSIGNED_PAYER) <==>
      forall i :: 0 <= i < |tx.keys| && i < tx.required && i < |tx.signatures| ==> tx.signatures[i] == zeros
  {
    BlankIsZeros(zeros, tx);
    assert Payer(dec, serialized) == ComputedPayer(tx);
    NobodyPays(tx, zeros);
    forall i | 0 <= i < |tx.keys| && i < tx.required && i < |tx.signatures| && tx.signatures[i] != zeros
               && forall j :: 0 <= j < i ==> tx.signatures[j] == zeros
      ensures ComputedPayer(tx) == Ok(tx.keys[i])
    {
      FirstPays(tx, i);
    }
  }

  lemma FirstPays(tx: Transaction, i: nat)
    requires i < |tx.keys| && IsFirstSigner(tx, i)
    ensures ComputedPayer(tx) == Ok(tx.keys[i])
  {
    FirstOfSigners(tx, |tx.keys|);
    var first :| 0 <= first < |tx.keys| && IsFirstSigner(tx, first) && Signers(tx)[0] == tx.keys[first];
    FirstSignerIsUnique(tx, first, i);
  }

  lemma NobodyPays(tx: Transaction, zeros: seq<byte>)
    requires forall i :: 0 <= i < |tx.signatures| ==> (Blank(tx.signatures[i]) <==> tx.signatures[i] == zeros)
    ensures ComputedPayer(tx) == Err(UNSIGNED_PAYER) <==>
      forall i :: 0 <= i < |tx.keys| && i < tx.required && i < |tx.signatures| ==> tx.signatures[i] == zeros
  {
    FirstOfSigners(tx, |tx.keys|);
    assert forall i :: SignedAt(tx, i) <==> 0 <= i < tx.required && i < |tx.signatures| && tx.signatures[i] != zeros;
  }

  /** And what cannot be read: no base64, neither form of transaction, or a counting signature without a key. */
  lemma UnreadableInBytes(dec: Decoders, serialized: string, zeros: seq<byte>)
    requires zeros == seq(64, _ => 0)
    ensures Payer(dec, serialized) == Err(MALFORMED_PAYMENT) <==>
      match dec.base64(serialized)
      case None => true
      case Some(raw) =>
        && dec.legacy(raw) == None
        && match dec.versioned(raw)
           case None => true
           case Some(tx) => exists i :: |tx.keys| <= i < tx.required && i < |tx.signatures| && tx.signatures[i] != zeros
  {
    if dec.base64(serialized).Some? && dec.versioned(dec.base64(serialized).value).Some? {
      var tx := dec.versioned(dec.base64(serialized).value).value;
      BlankIsZeros(zeros, tx);
      assert forall i :: SignedAt(tx, i) <==> 0 <= i < tx.required && i < |tx.signatures| && tx.signatures[i] != zeros;
    }
  }

  /**
   * The whole list: the keys of exactly the required positions with a signature that is not 64 zero bytes,
   * in order, each once.
   */
  lemma SignersExactly(tx: Transaction, k: nat, zeros: seq<byte>) returns (positions: seq<nat>)
    requires k <= |tx.keys|
    requires zeros == seq(64, _ => 0)
    ensures |positions| == |SignersBelow(tx, k)|
    ensures forall n :: 0 <= n < |positions| ==> positions[n] < k && SignersBelow(tx, k)[n] == tx.keys[positions[n]]
    ensures forall m, n :: 0 <= m < n < |positions| ==> positions[m] < positions[n]
    ensures forall i :: i in positions <==>
      0 <= i < k && i < tx.required && i < |tx.signatures| && tx.signatures[i] != zeros
  {
    BlankIsZeros(zeros, tx);
    positions := SignerPositions(tx, k);
  }

  lemma {:induction false} SignerPositions(tx: Transaction, k: nat) returns (positions: seq<nat>)
    requires k <= |tx.keys|
    ensures |positions| == |SignersBelow(tx, k)|
    ensures forall n :: 0 <= n < |positions| ==> positions[n] < k && SignersBelow(tx, k)[n] == tx.keys[positions[n]]
    ensures forall m, n :: 0 <= m < n < |positions| ==> positions[m] < positions[n]
    ensures forall n :: 0 <= n < |positions| ==> SignedAt(tx, positions[n])
    ensures forall i :: 0 <= i < k && SignedAt(tx, i) ==> i in positions
  {
    if k == 0 {
      return [];
    }
    var earlier := SignerPositions(tx, k - 1);
    if !SignedAt(tx, k - 1) {
      return earlier;
    }
    positions := earlier + [k - 1];
    assert positions[|earlier|] == k - 1;
    forall i | 0 <= i < k && SignedAt(tx, i)
      ensures i in positions
    {
      if i < k - 1 {
        assert i in earlier;
      }
    }
  }

  /** Key i of a transaction is who pays. */
  ghost predicate Pays(tx: Transaction, payer: string) {
    exists i :: 0 <= i < |tx.keys| && IsFirstSigner(tx, i) && tx.keys[i] == payer
  }

  /** No position with a key was signed. */
  predicate Unsigned(tx: Transaction) {
    forall i :: 0 <= i < |tx.keys| ==> !SignedAt(tx, i)
  }

  lemma FirstSignerIsUnique(tx: Transaction, i: int, j: int)
    requires IsFirstSigner(tx, i) && IsFirstSigner(tx, j)
    ensures i == j
  {
  }

  /**
   * The payer is the key of the first required signer that signed; there is none exactly when no key's
   * signer signed, and the two other errors of the interface are a parse that failed and one that
   * never happens.
   */
  lemma PayerIsFirstSigner(dec: Decoders, serialized: string, payer: string)
    ensures var r, tx := Payer(dec, serialized), Reading(dec, serialized);
      && (r == Ok(payer) <==> tx.Some? && Pays(tx.value, payer))
      && (r == Err(UNSIGNED_PAYER) <==> tx.Some? && Unsigned(tx.value))
      && (r == Err(MALFORMED_PAYMENT) <==> tx.None?)
      && r != Err(NO_TRANSFER)
  {
    var tx := Reading(dec, serialized);
    if tx.Some? {
      FirstOfSigners(tx.value, |tx.value.keys|);
      if Signers(tx.value) != [] {
        var first :| 0 <= first < |tx.value.keys| && IsFirstSigner(tx.value, first)
                     && Signers(tx.value)[0] == tx.value.keys[first];
        if Pays(tx.value, payer) {
          var i :| 0 <= i < |tx.value.keys| && IsFirstSigner(tx.value, i) && tx.value.keys[i] == payer;
          FirstSignerIsUnique(tx.value, first, i);
        }
      }
    }
  }

  method ExtractPayer(dec: Decoders, serialized: string) returns (payer: Result<string, Code>)
    ensures payer == Payer(dec, serialized)
    ensures forall key :: payer == Ok(key) <==>
      Reading(dec, serialized).Some? && Pays(Reading(dec, serialized).value, key)
    ensures payer == Err(UNSIGNED_PAYER) <==>
      Reading(dec, serialized).Some? && Unsigned(Reading(dec, serialized).value)
    ensures payer == Err(MALFORMED_PAYMENT) <==> Reading(dec, serialized).None?
    ensures payer != Err(NO_TRANSFER)
  {
    forall key {
      PayerIsFirstSigner(dec, serialized, key);
    }
    PayerIsFirstSigner(dec, serialized, "");
    var raw := dec.base64(serialized);
    if raw.None? {
      return Err(MALFORMED_PAYMENT);
    }
    var signed := TryParseTx(dec, raw.value);
    if signed.None? {
      return Err(MALFORMED_PAYMENT);
    }
    if |signed.value| == 0 {
      return Err(UNSIGNED_PAYER);
    }
    return Ok(signed.value[0]);
  }

  // ---------------------------------------------------------------- gate

  datatype Policy = Policy(minBondAtomic: int, minScore: int)

  /** A well-typed profile; a missing number counts as zero. */
  datatype Profile = Profile(frozen: bool, score: Option<int>, bondAtomic: Option<int>)

  datatype Lookup = Raised | NotRegistered | Found(profile: Profile)

  datatype GateResult =
    | GatePass(payer: string, profile: Profile)
    | GateFail(code: Code, payer: string)
    | GateUnusable(code: Code)

  ghost function Judge(payer: string, found: Lookup, policy: Policy): GateResult {
    match found
    case Raised => GateFail(LOOKUP_FAILED, payer)
    case NotRegistered => GateFail(NOT_BONDED, payer)
    case Found(profile) =>
      if profile.frozen then GateFail(FROZEN, payer)
      else if OrZero(profile.score) < policy.minScore then GateFail(SCORE_BELOW_MIN, payer)
      else if OrZero(profile.bondAtomic) < policy.minBondAtomic then GateFail(BOND_BELOW_MIN, payer)
      else GatePass(payer, profile)
  }

  ghost function Serialized(dec: Decoders, header: Option<string>): Option<string> {
    if header.None? || header.value == "" || dec.header(header.value).None? then None
    else dec.header(header.value).value.serialized
  }

  ghost function Gate(dec: Decoders, header: Option<string>, policy: Policy, lookup: string -> Lookup): GateResult {
    if header.None? || header.value == "" then GateUnusable(NO_PAYMENT)
    else if Serialized(dec, header).None? then GateUnusable(MALFORMED_PAYMENT)
    else
      match Payer(dec, Serialized(dec, header).value)
      case Err(code) => GateUnusable(code)
      case Ok(payer) => Judge(payer, lookup(payer), policy)
  }

  /** From the header inwards: what the envelope carries is what the payer is taken from, and then judged. */
  lemma GateReadsEnvelope(dec: Decoders, header: string, policy: Policy, lookup: string -> Lookup)
    requires header != ""
    ensures forall serialized :: dec.header(header) == Some(Envelope(Some(serialized))) ==>
      Gate(dec, Some(header), policy, lookup) ==
        match Payer(dec, serialized)
        case Err(code) => GateUnusable(code)
        case Ok(payer) => Judge(payer, lookup(payer), policy)
    ensures dec.header(header) == None || dec.header(header) == Some(Envelope(None)) ==>
      Gate(dec, Some(header), policy, lookup) == GateUnusable(MALFORMED_PAYMENT)
  {
  }

  /**
   * From the header to the signature bytes: behind a readable payment, whoever holds the key at the first
   * required position with a signature other than 64 zero bytes is looked up and judged.
   */
  lemma GateChargesFirstSigner(dec: Decoders, header: string, policy: Policy, lookup: string -> Lookup,
                               serialized: string, raw: seq<byte>, tx: Transaction, i: nat, zeros: seq<byte>)
    requires zeros == seq(64, _ => 0)
    requires header != "" && dec.header(header) == Some(Envelope(Some(serialized)))
    requires dec.base64(serialized) == Some(raw)
    requires dec.legacy(raw) == Some(tx) || (dec.legacy(raw) == None && dec.versioned(raw) == Some(tx))
    requires dec.legacy(raw) == Some(tx) ||
             forall k :: |tx.keys| <= k < tx.required && k < |tx.signatures| ==> tx.signatures[k] == zeros
    requires i < |tx.keys| && i < tx.required && i < |tx.signatures| && tx.signatures[i] != zeros
    requires forall j :: 0 <= j < i ==> tx.signatures[j] == zeros
    ensures Gate(dec, Some(header), policy, lookup) == Judge(tx.keys[i], lookup(tx.keys[i]), policy)
  {
    PayerInBytes(dec, serialized, raw, tx, zeros);
    GateReadsEnvelope(dec, header, policy, lookup);
  }

  /** The judgement in numbers: a missing score or bond counts as 0, and only strictly less than a minimum fails. */
  lemma JudgedByNumbers(payer: string, score: int, bond: int, policy: Policy)
    ensures forall s, b ::
      (s == Some(score) || (s == None && score == 0)) && (b == Some(bond) || (b == None && bond == 0)) ==>
      && Judge(payer, Found(Profile(true, s, b)), policy) == GateFail(FROZEN, payer)
      && (score < policy.minScore ==>
            Judge(payer, Found(Profile(false, s, b)), policy) == GateFail(SCORE_BELOW_MIN, payer))
      && (score >= policy.minScore && bond < policy.minBondAtomic ==>
            Judge(payer, Found(Profile(false, s, b)), policy) == GateFail(BOND_BELOW_MIN, payer))
      && (score >= policy.minScore && bond >= policy.minBondAtomic ==>
            Judge(payer, Found(Profile(false, s, b)), policy) == GatePass(payer, Profile(false, s, b)))
    ensures Judge(payer, Raised, policy) == GateFail(LOOKUP_FAILED, payer)
    ensures Judge(payer, NotRegistered, policy) == GateFail(NOT_BONDED, payer)
  {
  }

  predicate Meets(profile: Profile, policy: Policy) {
    !profile.frozen && OrZero(profile.score) >= policy.minScore && OrZero(profile.bondAtomic) >= policy.minBondAtomic
  }

  /** The transaction behind a payment header. */
  ghost function PaymentOf(dec: Decoders, header: Option<string>): Option<Transaction> {
    if Serialized(dec, header).None? then None else Reading(dec, Serialized(dec, header).value)
  }

  ghost predicate Passes(dec: Decoders, header: Option<string>, policy: Policy, lookup: string -> Lookup,
                         payer: string, profile: Profile)
  {
    var tx := PaymentOf(dec, header);
    tx.Some? && Pays(tx.value, payer) && lookup(payer) == Found(profile) && Meets(profile, policy)
  }

  /** The first of the five checks to fail, score before bond. */
  ghost predicate Refuses(dec: Decoders, header: Option<string>, policy: Policy, lookup: string -> Lookup,
                          payer: string, code: Code)
  {
    var tx, found := PaymentOf(dec, header), lookup(payer);
    && tx.Some? && Pays(tx.value, payer)
    && match code
       case LOOKUP_FAILED => found.Raised?
       case NOT_BONDED => found.NotRegistered?
       case FROZEN => found.Found? && found.profile.frozen
       case SCORE_BELOW_MIN =>
         found.Found? && !found.profile.frozen && OrZero(found.profile.score) < policy.minScore
       case BOND_BELOW_MIN =>
         && found.Found? && !found.profile.frozen && OrZero(found.profile.score) >= policy.minScore
         && OrZero(found.profile.bondAtomic) < policy.minBondAtomic
       case _ => false
  }

  /** The gate opens exactly for a payment whose first signer has a profile that meets the policy. */
  lemma PassIff(dec: Decoders, header: Option<string>, policy: Policy, lookup: string -> Lookup,
                payer: string, profile: Profile)
    ensures Gate(dec, header, policy, lookup) == GatePass(payer, profile) <==>
            Passes(dec, header, policy, lookup, payer, profile)
  {
    if Serialized(dec, header).Some? {
      PayerIsFirstSigner(dec, Serialized(dec, header).value, payer);
    }
  }

  /** A refusal names the first signer and the first of the five checks that fails. */
  lemma FailIff(dec: Decoders, header: Option<string>, policy: Policy, lookup: string -> Lookup,
                payer: string, code: Code)
    ensures Gate(dec, header, policy, lookup) == GateFail(code, payer) <==>
            Refuses(dec, header, policy, lookup, payer, code)
  {
    if Serialized(dec, header).Some? {
      PayerIsFirstSigner(dec, Serialized(dec, header).value, payer);
    }
  }

  /** An unusable payment: no header, nothing readable in it, or no signer, and never NO_TRANSFER. */
  lemma UnusableIff(dec: Decoders, header: Option<string>, policy: Policy, lookup: string -> Lookup)
    ensures var result, tx := Gate(dec, header, policy, lookup), PaymentOf(dec, header);
      && (result == GateUnusable(NO_PAYMENT) <==> header == None || header == Some(""))
      && (result == GateUnusable(MALFORMED_PAYMENT) <==> header != None && header != Some("") && tx.None?)
      && (result == GateUnusable(UNSIGNED_PAYER) <==> tx.Some? && Unsigned(tx.value))
      && result != GateUnusable(NO_TRANSFER)
  {
    if Serialized(dec, header).Some? {
      PayerIsFirstSigner(dec, Serialized(dec, header).value, "");
    }
  }

  lemma GateConditions(dec: Decoders, header: Option<string>, policy: Policy, lookup: string -> Lookup)
    ensures forall payer, profile ::
      Gate(dec, header, policy, lookup) == GatePass(payer, profile)
      <==> Passes(dec, header, policy, lookup, payer, profile)
    ensures forall payer, code ::
      Gate(dec, header, policy, lookup) == GateFail(code, payer)
      <==> Refuses(dec, header, policy, lookup, payer, code)
    ensures var result, tx := Gate(dec, header, policy, lookup), PaymentOf(dec, header);
      && (result == GateUnusable(NO_PAYMENT) <==> header == None || header == Some(""))
      && (result == GateUnusable(MALFORMED_PAYMENT) <==> header != None && header != Some("") && tx.None?)
      && (result == GateUnusable(UNSIGNED_PAYER) <==> tx.Some? && Unsigned(tx.value))
      && result != GateUnusable(NO_TRANSFER)
  {
    forall payer, profile {
      PassIff(dec, header, policy, lookup, payer, profile);
    }
    forall payer, code {
      FailIff(dec, header, policy, lookup, payer, code);
    }
    UnusableIff(dec, header, policy, lookup);
  }

  /** `apply_x402_gate`, with its outcomes as conditions on the payment, the profile and the policy. */
  method ApplyGate(dec: Decoders, header: Option<string>, policy: Policy, lookup: string -> Lookup)
    returns (result: GateResult)
    ensures result == Gate(dec, header, policy, lookup)
    ensures forall payer, profile ::
      result == GatePass(payer, profile) <==> Passes(dec, header, policy, lookup, payer, profile)
    ensures forall payer, code :: result == GateFail(code, payer) <==> Refuses(dec, header, policy, lookup, payer, code)
    ensures result == GateUnusable(NO_PAYMENT) <==> header == None || header == Some("")
    ensures result == GateUnusable(MALFORMED_PAYMENT) <==>
      header != None && header != Some("") && PaymentOf(dec, header).None?
    ensures result == GateUnusable(UNSIGNED_PAYER) <==>
      PaymentOf(dec, header).Some? && Unsigned(PaymentOf(dec, header).value)
    ensures result != GateUnusable(NO_TRANSFER)
  {
    GateConditions(dec, header, policy, lookup);
    if header.None? || header.value == "" {
      return GateUnusable(NO_PAYMENT);
    }
    var envelope := dec.header(header.value);
    if envelope.None? || envelope.value.serialized.None? {
      return GateUnusable(MALFORMED_PAYMENT);
    }
    var payer := ExtractPayer(dec, envelope.value.serialized.value);
    if payer.Err? {
      return GateUnusable(payer.error);
    }
    var found := lookup(payer.value);
    match found
    case Raised => return GateFail(LOOKUP_FAILED, payer.value);
    case NotRegistered => return GateFail(NOT_BONDED, payer.value);
    case Found(profile) =>
      if profile.frozen {
        return GateFail(FROZEN, payer.value);
      }
      if OrZero(profile.score) < policy.minScore {
        return GateFail(SCORE_BELOW_MIN, payer.value);
      }
      if OrZero(profile.bondAtomic) < policy.minBondAtomic {
        return GateFail(BOND_BELOW_MIN, payer.value);
      }
      return GatePass(payer.value, profile);
  }

  /** A laxer policy never closes the gate, and never changes who pays. */
  lemma LaxerPolicyPasses(dec: Decoders, header: Option<string>, strict: Policy, lax: Policy, lookup: string -> Lookup)
    requires lax.minBondAtomic <= strict.minBondAtomic && lax.minScore <= strict.minScore
    requires Gate(dec, header, strict, lookup).GatePass?
    ensures Gate(dec, header, lax, lookup) == Gate(dec, header, strict, lookup)
  {
  }

  function StatusForCode(code: Code): int {
    if code in {NO_PAYMENT, MALFORMED_PAYMENT, NO_TRANSFER, UNSIGNED_PAYER} then 402
    else if code == LOOKUP_FAILED then 502
    else 403
  }

  lemma StatusTable()
    ensures StatusForCode(NO_PAYMENT) == StatusForCode(MALFORMED_PAYMENT) == 402
    ensures StatusForCode(NO_TRANSFER) == StatusForCode(UNSIGNED_PAYER) == 402
    ensures StatusForCode(LOOKUP_FAILED) == 502
    ensures StatusForCode(NOT_BONDED) == StatusForCode(FROZEN) == 403
    ensures StatusForCode(SCORE_BELOW_MIN) == StatusForCode(BOND_BELOW_MIN) == 403
  {
  }

  lemma SomebodyPays(tx: Transaction)
    ensures Unsigned(tx) <==> forall payer :: !Pays(tx, payer)
  {
    FirstOfSigners(tx, |tx.keys|);
    if !Unsigned(tx) {
      var i :| 0 <= i < |tx.keys| && IsFirstSigner(tx, i) && Signers(tx)[0] == tx.keys[i];
      assert Pays(tx, tx.keys[i]);
    }
  }

  /** The status tells whose fault a closed gate is: the payment's, the lookup's or the agent's. */
  lemma StatusTellsFault(dec: Decoders, header: Option<string>, policy: Policy, lookup: string -> Lookup)
    requires !Gate(dec, header, policy, lookup).GatePass?
    ensures var result := Gate(dec, header, policy, lookup);
      && (StatusForCode(result.code) == 402 <==>
          PaymentOf(dec, header).None? || forall payer :: !Pays(PaymentOf(dec, header).value, payer))
      && (StatusForCode(result.code) == 502 <==> result.GateFail? && lookup(result.payer).Raised?)
      && (StatusForCode(result.code) == 403 <==> result.GateFail? && !lookup(result.payer).Raised?)
      && result.code != NO_TRANSFER
  {
    UnusableIff(dec, header, policy, lookup);
    if PaymentOf(dec, header).Some? {
      SomebodyPays(PaymentOf(dec, header).value);
    }
  }
}
