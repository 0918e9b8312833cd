/** The ledger object and the loops that check transactions against it and change it
    (utils/ledger_utils.go and the validators of utils/transaction_utils.go). */
module LedgerOps {
  import opened Encoding
  import opened LedgerSpec
  import opened Types

  class Ledger {
    var L: Utxos

    constructor ()
      ensures L == map[]
    {
      L := map[];
    }
  }

  /** A new ledger with the same entries; the keys are visited in no particular order. */
  method GetLedgerDeepCopy(l: Ledger) returns (res: Ledger)
    ensures fresh(res) && res.L == l.L
  {
    res := new Ledger();
    var todo := l.L.Keys;
    while todo != {}
      invariant todo <= l.L.Keys
      invariant res.L == l.L - todo
      invariant fresh(res)
      decreases todo
    {
      var k :| k in todo;
      res.L := res.L[k := l.L[k]];
      todo := todo - {k};
    }
  }

  method ProcessInputsAndOutputs(tx: Transaction, l: Ledger)
    modifies l
    ensures l.L == ApplyTx(tx, old(l.L))
  {
    for i := 0 to |tx.inputs|
      invariant l.L == old(l.L) - Keys(tx.inputs[..i])
    {
      assert Keys(tx.inputs[..i + 1]) == Keys(tx.inputs[..i]) + {Outpoint(tx.inputs[i])} by {
        assert forall j :: 0 <= j < i + 1 ==> tx.inputs[..i + 1][j] == tx.inputs[j];
        assert forall j :: 0 <= j < i ==> tx.inputs[..i + 1][j] == tx.inputs[..i][j];
        assert tx.inputs[..i + 1][i] == tx.inputs[i];
      }
      l.L := l.L - {Outpoint(tx.inputs[i])};
    }
    assert tx.inputs[..|tx.inputs|] == tx.inputs;
    ghost var claimed := l.L;
    assert claimed + OutMap(tx.hash, tx.outputs[..0]) == claimed;
    for i := 0 to |tx.outputs|
      invariant l.L == claimed + OutMap(tx.hash, tx.outputs[..i])
    {
      OutMapSnoc(tx.hash, tx.outputs[..i + 1], claimed);
      assert tx.outputs[..i + 1][..i] == tx.outputs[..i];
      l.L := l.L[UTXOLite(tx.hash, i) := tx.outputs[i]];
    }
    assert tx.outputs[..|tx.outputs|] == tx.outputs;
  }

  /** No error exactly when the transaction is valid on the ledger, and otherwise the first one in order. */
  method IsValidTransaction(c: Crypto, tx: Transaction, l: Ledger) returns (err: Option<Error>)
    ensures err.None? <==> ValidTx(c, tx, l.L)
    ensures err == TxVerdict(c, tx, l.L)
  {
    var txBytes := GetTransactionBytes(c, tx, false);
    if txBytes.Err? {
      return Some(txBytes.error);
    }
    if BytesToHex(c.sha256(txBytes.value)) != tx.hash {
      return Some(BadTxHash);
    }
    var totalInput, totalOutput;
    err, totalInput := CheckInputs(c, tx, l);
    if err.Some? {
      return;
    }
    err, totalOutput := CheckOutputs(tx.outputs);
    if err.Some? {
      return;
    }
    if totalInput < totalOutput {
      return Some(OutputExceedsInput);
    }
    return None;
  }

  /** The loop over the inputs: unspent, signed by the owner, and none twice. */
  method CheckInputs(c: Crypto, tx: Transaction, l: Ledger) returns (err: Option<Error>, totalInput: real)
    requires TxBytes(c, tx, false).Ok?
    ensures err.None? <==>
      && Present(tx.inputs, l.L) && Distinct(tx.inputs)
      && forall i :: 0 <= i < |tx.inputs| ==> Signed(c, tx, i, l.L)
    ensures err.None? ==> totalInput == TotalIn(tx.inputs, l.L)
    ensures err == InputsVerdict(c, tx, 0, l.L)
  {
    totalInput := 0.0;
    var seenUtxo: set<UTXOLite> := {};
    for i := 0 to |tx.inputs|
      invariant seenUtxo == Keys(tx.inputs[..i])
      invariant InputsVerdict(c, tx, i, l.L) == InputsVerdict(c, tx, 0, l.L)
      invariant Present(tx.inputs[..i], l.L) && Distinct(tx.inputs[..i])
      invariant forall j :: 0 <= j < i ==> Outpoint(tx.inputs[j]) in l.L && Signed(c, tx, j, l.L)
      invariant totalInput + TotalIn(tx.inputs[i..], l.L) == TotalIn(tx.inputs, l.L)
    {
      var input := tx.inputs[i];
      var k := Outpoint(input);
      if k !in l.L {
        return Some(InputSpent), totalInput;
      }
      var output := l.L[k];
      totalInput := totalInput + output.value;
      assert tx.inputs[i..][1..] == tx.inputs[i + 1..];
      // An encodable transaction is signable, so fetching the message never fails here.
      SignableInputs(c, tx, i);
      var inputData := GetInputDataToSignByIndex(c, tx, i);
      var pk := c.parseKey(output.publicKey);
      if pk.None? {
        assert !Signed(c, tx, i, l.L);
        return Some(BadPublicKey), totalInput;
      }
      if !c.verify(inputData.value, pk.value, input.signature) {
        assert !Signed(c, tx, i, l.L);
        return Some(BadSignature), totalInput;
      }
      if k in seenUtxo {
        var j :| 0 <= j < i && Outpoint(tx.inputs[..i][j]) == k;
        assert Outpoint(tx.inputs[j]) == k;
        return Some(DoubleSpend), totalInput;
      }
      SeenSnoc(tx.inputs, i, l.L);
      seenUtxo := seenUtxo + {k};
    }
    assert tx.inputs[..|tx.inputs|] == tx.inputs;
    return None, totalInput;
  }

  /** The loop over the outputs: none negative. */
  method CheckOutputs(outputs: seq<Output>) returns (err: Option<Error>, totalOutput: real)
    ensures err == if NonNegative(outputs) then None else Some(NegativeOutput)
    ensures err.None? ==> totalOutput == TotalOut(outputs)
  {
    totalOutput := 0.0;
    for i := 0 to |outputs|
      invariant forall j :: 0 <= j < i ==> 0.0 <= outputs[j].value
      invariant totalOutput + TotalOut(outputs[i..]) == TotalOut(outputs)
    {
      if outputs[i].value < 0.0 {
        return Some(NegativeOutput), totalOutput;
      }
      assert outputs[i..][1..] == outputs[i + 1..];
      totalOutput := totalOutput + outputs[i].value;
    }
    return None, totalOutput;
  }

  lemma SeenSnoc(inputs: seq<Input>, i: nat, l: Utxos)
    requires i < |inputs| && Outpoint(inputs[i]) in l && Outpoint(inputs[i]) !in Keys(inputs[..i])
    requires Present(inputs[..i], l) && Distinct(inputs[..i])
    ensures Keys(inputs[..i + 1]) == Keys(inputs[..i]) + {Outpoint(inputs[i])}
    ensures Present(inputs[..i + 1], l) && Distinct(inputs[..i + 1])
  {
    var a, b := inputs[..i], inputs[..i + 1];
    assert forall j :: 0 <= j < i ==> b[j] == a[j];
    assert forall j :: 0 <= j < i ==> Outpoint(a[j]) in Keys(a);
    assert b[i] == inputs[i];
  }

  /** A transaction that can be encoded can be signed at every input. */
  lemma {:induction false} EncodableInputs(inputs: seq<Input>, i: nat)
    requires i < |inputs| && InputsBytes(inputs).Ok?
    ensures InputBytes(inputs[i]).Ok?
  {
    if i == 0 {
    } else {
      EncodableInputs(inputs[1..], i - 1);
    }
  }

  lemma SignableInputs(c: Crypto, tx: Transaction, i: nat)
    requires i < |tx.inputs| && TxBytes(c, tx, false).Ok?
    ensures SignBytes(c, tx, i).Ok?
  {
    EncodableInputs(tx.inputs, i);
  }

  method HandleTransaction(c: Crypto, tx: Transaction, l: Ledger) returns (err: Option<Error>)
    modifies l
    ensures err.None? <==> ValidTx(c, tx, old(l.L))
    ensures err == TxVerdict(c, tx, old(l.L))
    ensures l.L == if err.None? then ApplyTx(tx, old(l.L)) else old(l.L)
  {
    err := IsValidTransaction(c, tx, l);
    if err.None? {
      ProcessInputsAndOutputs(tx, l);
    }
  }

  method HandleTransactions(c: Crypto, txs: seq<Transaction>, l: Ledger)
    returns (errTxs: seq<Transaction>, err: Option<Error>)
    modifies l
    ensures Batch(l.L, errTxs) == Replay(c, txs, old(l.L))
    ensures err == if errTxs == [] then None else Some(BatchInvalid)
  {
    errTxs := [];
    for i := 0 to |txs|
      invariant var rest := Replay(c, txs[i..], l.L);
        Replay(c, txs, old(l.L)) == Batch(rest.ledger, errTxs + rest.failed)
    {
      ghost var rest := Replay(c, txs[i..][1..], if ValidTx(c, txs[i], l.L) then ApplyTx(txs[i], l.L) else l.L);
      assert txs[i..][1..] == txs[i + 1..];
      var e := HandleTransaction(c, txs[i], l);
      if e.Some? {
        assert errTxs + ([txs[i]] + rest.failed) == (errTxs + [txs[i]]) + rest.failed;
        errTxs := errTxs + [txs[i]];
      }
    }
    assert errTxs + [] == errTxs;
    err := if |errTxs| != 0 then Some(BatchInvalid) else None;
  }

  ghost function AddFee(fee: real, r: Result<real>): Result<real> {
    if r.Ok? then Ok(fee + r.value) else r
  }

  method CalcTxFee(txs: seq<Transaction>, l: Ledger) returns (r: Result<real>)
    ensures r == Fee(txs, l.L)
  {
    var fee := 0.0;
    for i := 0 to |txs|
      invariant AddFee(fee, Fee(txs[i..], l.L)) == Fee(txs, l.L)
    {
      assert txs[i..][1..] == txs[i + 1..];
      var tx := txs[i];
      var totalInput, totalOutput := 0.0, 0.0;
      for j := 0 to |tx.inputs|
        invariant forall m :: 0 <= m < j ==> Outpoint(tx.inputs[m]) in l.L
        invariant totalInput + TotalIn(tx.inputs[j..], l.L) == TotalIn(tx.inputs, l.L)
      {
        var k := Outpoint(tx.inputs[j]);
        if k !in l.L {
          assert !Present(tx.inputs, l.L);
          return Err(InputSpent);
        }
        assert tx.inputs[j..][1..] == tx.inputs[j + 1..];
        totalInput := totalInput + l.L[k].value;
      }
      for j := 0 to |tx.outputs|
        invariant totalOutput + TotalOut(tx.outputs[j..]) == TotalOut(tx.outputs)
      {
        assert tx.outputs[j..][1..] == tx.outputs[j + 1..];
        totalOutput := totalOutput + tx.outputs[j].value;
      }
      if totalOutput > totalInput {
        return Err(OutputExceedsInput);
      }
      fee := fee + (totalOutput - totalInput);
    }
    return Ok(fee);
  }

  method IsValidCoinbase(c: Crypto, tx: Transaction, maxFee: real) returns (err: Option<Error>)
    ensures err.None? <==> CoinbaseOk(c, tx, maxFee)
    ensures err == CoinbaseVerdict(c, tx, maxFee)
  {
    var txBytes := GetTransactionBytes(c, tx, false);
    if txBytes.Err? {
      return Some(txBytes.error);
    }
    if BytesToHex(c.sha256(txBytes.value)) != tx.hash {
      return Some(BadTxHash);
    }
    if |tx.inputs| != 0 || |tx.outputs| != 1 {
      return Some(BadCoinbaseShape);
    }
    if tx.outputs[0].value > maxFee {
      return Some(CoinbaseTooLarge);
    }
    return None;
  }

  /** Fill in the hash; a transaction that cannot be encoded is returned unchanged with the error. */
  method FillTxHash(c: Crypto, tx: Transaction) returns (filled: Transaction, err: Option<Error>)
    ensures err.None? <==> TxBytes(c, tx, false).Ok?
    ensures filled == tx.(hash := filled.hash)
    ensures if err.None? then HashOk(c, filled) && TxBytes(c, filled, false) == TxBytes(c, tx, false) else filled == tx
  {
    var data := GetTransactionBytes(c, tx, false);
    if data.Err? {
      return tx, Some(data.error);
    }
    filled := tx.(hash := BytesToHex(c.sha256(data.value)));
    assert TxBytes(c, filled, false) == TxBytes(c, tx, false);
    return filled, None;
  }

  method CreateCoinbaseTx(c: Crypto, totalReward: real, pk: seq<byte>, height: int) returns (r: Result<Transaction>)
    ensures r == CoinbaseTx(c, totalReward, pk, height)
  {
    VarintDefined(height);
    var tx := Transaction("", [], [Output(totalReward, pk)], height);
    var filled, err := FillTxHash(c, tx);
    return if err.Some? then Err(Panic) else Ok(filled);
  }
}
