/**
 * The payer as `extract_payer` documents it, against the payer it computes
 * (python/src/telaro_ars/x402.py:113-149).
 */
module X402Documented {
  import opened Events
  import opened Bytes
  import opened X402

  /** Which instructions count, by program key and data. The documentation speaks of two kinds. */
  type Reckoning = (string, seq<byte>) -> bool

  /** The comment: any instruction that references the signer. */
  predicate AnyInstruction(program: string, data: seq<byte>) {
    true
  }

  const TOKEN_PROGRAM := "TokenkegQfeZyiNwAJbNbGKPFXCWuBvf9Ss623VQ5DA"

  /** The docstring and the error message: an SPL transfer, that is Transfer (3) or TransferChecked (12). */
  predicate SplTransfer(program: string, data: seq<byte>) {
    program == TOKEN_PROGRAM && data != [] && (data[0] == 3 || data[0] == 12)
  }

  /** Instruction n counts and references the key. */
  predicate References(tx: Transaction, counts: Reckoning, n: int, key: string) {
    && 0 <= n < |tx.instructions|
    && tx.instructions[n].program < |tx.keys|
    && counts(tx.keys[tx.instructions[n].program], tx.instructions[n].data)
    && exists j :: 0 <= j < |tx.instructions[n].accounts| && tx.instructions[n].accounts[j] < |tx.keys|
                   && tx.keys[tx.instructions[n].accounts[j]] == key
  }

  predicate Referenced(tx: Transaction, counts: Reckoning, key: string) {
    exists n :: 0 <= n < |tx.instructions| && References(tx, counts, n, key)
  }

  /** A signer that an instruction of the right kind references. */
  predicate Authority(tx: Transaction, counts: Reckoning, i: int) {
    0 <= i < |tx.keys| && SignedAt(tx, i) && Referenced(tx, counts, tx.keys[i])
  }

  function AuthorityBelow(tx: Transaction, counts: Reckoning, k: nat): Option<string>
    requires k <= |tx.keys|
  {
    if k == 0 then None
    else if AuthorityBelow(tx, counts, k - 1).Some? then AuthorityBelow(tx, counts, k - 1)
    else if Authority(tx, counts, k - 1) then Some(tx.keys[k - 1])
    else None
  }

  /**
   * The documented payer: the first signed key that an instruction of the right kind references, with
   * NO_TRANSFER when there are signers and none of them is referenced.
   */
  function DocumentedPayer(tx: Transaction, counts: Reckoning): Result<string, Code> {
    if Signers(tx) == [] then Err(UNSIGNED_PAYER)
    else
      match AuthorityBelow(tx, counts, |tx.keys|)
      case Some(key) => Ok(key)
      case None => Err(NO_TRANSFER)
  }

  ghost predicate NoAuthority(tx: Transaction, counts: Reckoning) {
    forall i :: 0 <= i < |tx.keys| ==> !Authority(tx, counts, i)
  }

  lemma {:induction false} FirstAuthority(tx: Transaction, counts: Reckoning, k: nat)
    requires k <= |tx.keys|
    ensures AuthorityBelow(tx, counts, k).None? <==> forall i :: 0 <= i < k ==> !Authority(tx, counts, i)
    ensures AuthorityBelow(tx, counts, k).Some? ==>
      exists i :: 0 <= i < k && Authority(tx, counts, i) && AuthorityBelow(tx, counts, k) == Some(tx.keys[i])
                  && forall j :: 0 <= j < i ==> !Authority(tx, counts, j)
  {
    if k > 0 {
      FirstAuthority(tx, counts, k - 1);
    }
  }

  /** If position i is the first authority, its key is the documented payer. */
  lemma AuthorityPays(tx: Transaction, counts: Reckoning, i: int)
    requires Authority(tx, counts, i) && forall j :: 0 <= j < i ==> !Authority(tx, counts, j)
    ensures DocumentedPayer(tx, counts) == Ok(tx.keys[i])
  {
    FirstAuthority(tx, counts, |tx.keys|);
    FirstOfSigners(tx, |tx.keys|);
  }

  lemma PayersWithSigner(tx: Transaction, counts: Reckoning, first: int)
    requires 0 <= first < |tx.keys| && IsFirstSigner(tx, first) && ComputedPayer(tx) == Ok(tx.keys[first])
    ensures ComputedPayer(tx) == DocumentedPayer(tx, counts) <==> Referenced(tx, counts, tx.keys[first])
    ensures DocumentedPayer(tx, counts) == Err(NO_TRANSFER) <==> NoAuthority(tx, counts)
  {
    FirstAuthority(tx, counts, |tx.keys|);
    if Referenced(tx, counts, tx.keys[first]) {
      AuthorityPays(tx, counts, first);
    }
  }

  /**
   * For either kind of instruction, and any other: code and documentation name the same payer, or both
   * refuse, exactly if there is no signer or an instruction of that kind references the first one. Where
   * they differ the code pays from the first signer; the documentation names a later one, or refuses with
   * NO_TRANSFER exactly if no signer is referenced by an instruction of that kind.
   */
  lemma PayersAgreeIff(tx: Transaction, counts: Reckoning)
    ensures ComputedPayer(tx) == DocumentedPayer(tx, counts) <==>
      || Unsigned(tx)
      || exists i :: 0 <= i < |tx.keys| && IsFirstSigner(tx, i) && Referenced(tx, counts, tx.keys[i])
    ensures DocumentedPayer(tx, counts) == Err(NO_TRANSFER) <==> !Unsigned(tx) && NoAuthority(tx, counts)
    ensures ComputedPayer(tx) != DocumentedPayer(tx, counts) ==>
      ComputedPayer(tx).Ok? && Pays(tx, ComputedPayer(tx).value)
  {
    FirstOfSigners(tx, |tx.keys|);
    if Signers(tx) != [] {
      var first :| 0 <= first < |tx.keys| && IsFirstSigner(tx, first) && Signers(tx)[0] == tx.keys[first];
      PayersWithSigner(tx, counts, first);
      forall i | 0 <= i < |tx.keys| && IsFirstSigner(tx, i)
        ensures i == first
      {
        FirstSignerIsUnique(tx, first, i);
      }
    }
  }

  /** Where the code agrees with the docstring it agrees with the comment; `MemoIsCharged` shows the converse fails. */
  lemma TransferImpliesInstruction(tx: Transaction)
    ensures ComputedPayer(tx) == DocumentedPayer(tx, SplTransfer) ==>
      ComputedPayer(tx) == DocumentedPayer(tx, AnyInstruction)
  {
    PayersAgreeIff(tx, SplTransfer);
    PayersAgreeIff(tx, AnyInstruction);
    forall key | Referenced(tx, SplTransfer, key)
      ensures Referenced(tx, AnyInstruction, key)
    {
      var n :| 0 <= n < |tx.instructions| && References(tx, SplTransfer, n, key);
      assert References(tx, AnyInstruction, n, key);
    }
  }

  // ---------------------------------------------------------------- where they differ

  /** Two keys sign, the fee payer first; key 2 is the program of the one instruction. */
  function Signed(program: string, accounts: seq<nat>, data: seq<byte>): Transaction {
    Transaction(["fee payer", "authority", program], 2, [Signature(), Signature()],
                [Instruction(2, accounts, data)])
  }

  lemma FeePayerIsComputed(program: string, accounts: seq<nat>, data: seq<byte>)
    ensures ComputedPayer(Signed(program, accounts, data)) == Ok("fee payer")
  {
    var tx := Signed(program, accounts, data);
    FirstOfSigners(tx, 3);
    assert SignedAt(tx, 0);
  }

  /** A transfer by the second signer: the code charges the fee payer, both documents the authority. */
  lemma FeePayerIsCharged()
    ensures var tx := Signed(TOKEN_PROGRAM, [1], [3]);
      && ComputedPayer(tx) == Ok("fee payer")
      && DocumentedPayer(tx, SplTransfer) == DocumentedPayer(tx, AnyInstruction) == Ok("authority")
  {
    var tx := Signed(TOKEN_PROGRAM, [1], [3]);
    FeePayerIsComputed(TOKEN_PROGRAM, [1], [3]);
    assert tx.instructions[0].accounts[0] == 1 && tx.keys[1] == "authority";
    assert References(tx, SplTransfer, 0, "authority") && References(tx, AnyInstruction, 0, "authority");
    assert "fee payer"[0] != "authority"[0];
    assert !Referenced(tx, SplTransfer, "fee payer") && !Referenced(tx, AnyInstruction, "fee payer");
    AuthorityPays(tx, SplTransfer, 1);
    AuthorityPays(tx, AnyInstruction, 1);
  }

  /**
   * A memo that references the fee payer and moves no money: the code and the comment name a payer, the
   * docstring promises an error.
   */
  lemma MemoIsCharged()
    ensures var tx := Signed("memo", [0], []);
      && ComputedPayer(tx) == DocumentedPayer(tx, AnyInstruction) == Ok("fee payer")
      && DocumentedPayer(tx, SplTransfer) == Err(NO_TRANSFER)
  {
    var tx := Signed("memo", [0], []);
    FeePayerIsComputed("memo", [0], []);
    assert tx.instructions[0].accounts[0] == 0 && tx.keys[0] == "fee payer";
    assert References(tx, AnyInstruction, 0, "fee payer");
    AuthorityPays(tx, AnyInstruction, 0);
    FirstAuthority(tx, SplTransfer, 3);
  }
}
