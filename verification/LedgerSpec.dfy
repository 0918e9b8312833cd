/** What a transaction, a fee computation and a batch of transactions mean for a ledger. */
module LedgerSpec {
  import opened Encoding
  import opened Types

  // ----- one transaction -----

  ghost function Keys(inputs: seq<Input>): set<UTXOLite> {
    set i | 0 <= i < |inputs| :: Outpoint(inputs[i])
  }

  ghost predicate IsOut(tx: Transaction, k: UTXOLite) {
    k.prevTxHash == tx.hash && 0 <= k.index < |tx.outputs|
  }

  ghost function OutMap(h: Hash, outputs: seq<Output>): Utxos {
    map k | k in (set i | 0 <= i < |outputs| :: UTXOLite(h, i)) :: outputs[k.index]
  }

  /** Claim every input, then store every output under the transaction's own hash. */
  ghost function ApplyTx(tx: Transaction, l: Utxos): Utxos {
    (l - Keys(tx.inputs)) + OutMap(tx.hash, tx.outputs)
  }

  lemma ApplyTxAt(tx: Transaction, l: Utxos, k: UTXOLite)
    ensures k in ApplyTx(tx, l) <==> IsOut(tx, k) || (k in l && k !in Keys(tx.inputs))
    ensures IsOut(tx, k) ==> ApplyTx(tx, l)[k] == tx.outputs[k.index]
    ensures k in ApplyTx(tx, l) && !IsOut(tx, k) ==> ApplyTx(tx, l)[k] == l[k]
  {
    if IsOut(tx, k) {
      assert k == UTXOLite(tx.hash, k.index);
    }
  }

  ghost function ValueAt(l: Utxos, k: UTXOLite): real {
    if k in l then l[k].value else 0.0
  }

  ghost function TotalIn(inputs: seq<Input>, l: Utxos): real {
    if inputs == [] then 0.0 else ValueAt(l, Outpoint(inputs[0])) + TotalIn(inputs[1..], l)
  }

  ghost function TotalOut(outputs: seq<Output>): real {
    if outputs == [] then 0.0 else outputs[0].value + TotalOut(outputs[1..])
  }

  ghost predicate HashOk(c: Crypto, tx: Transaction) {
    TxBytes(c, tx, false).Ok? && BytesToHex(c.sha256(TxBytes(c, tx, false).value)) == tx.hash
  }

  ghost predicate Present(inputs: seq<Input>, l: Utxos) {
    forall i :: 0 <= i < |inputs| ==> Outpoint(inputs[i]) in l
  }

  ghost predicate Distinct(inputs: seq<Input>) {
    forall i, j :: 0 <= i < j < |inputs| ==> Outpoint(inputs[i]) != Outpoint(inputs[j])
  }

  ghost predicate NonNegative(outputs: seq<Output>) {
    forall i :: 0 <= i < |outputs| ==> 0.0 <= outputs[i].value
  }

  /** Input `i` is signed by the owner of the output it claims. */
  ghost predicate Signed(c: Crypto, tx: Transaction, i: nat, l: Utxos)
    requires i < |tx.inputs| && Outpoint(tx.inputs[i]) in l
  {
    var key := c.parseKey(l[Outpoint(tx.inputs[i])].publicKey);
    && SignBytes(c, tx, i).Ok?
    && key.Some?
    && c.verify(SignBytes(c, tx, i).value, key.value, tx.inputs[i].signature)
  }

  ghost predicate ValidTx(c: Crypto, tx: Transaction, l: Utxos) {
    && HashOk(c, tx)
    && Present(tx.inputs, l)
    && (forall i :: 0 <= i < |tx.inputs| ==> Signed(c, tx, i, l))
    && Distinct(tx.inputs)
    && NonNegative(tx.outputs)
    && TotalOut(tx.outputs) <= TotalIn(tx.inputs, l)
  }

  /** What the loop over the inputs finds first from input `i` on. */
  ghost function InputsVerdict(c: Crypto, tx: Transaction, i: nat, l: Utxos): Option<Error>
    requires i <= |tx.inputs|
    decreases |tx.inputs| - i
  {
    if i == |tx.inputs| then None
    else if Outpoint(tx.inputs[i]) !in l then Some(InputSpent)
    else if SignBytes(c, tx, i).Err? then Some(SignBytes(c, tx, i).error)
    else if c.parseKey(l[Outpoint(tx.inputs[i])].publicKey).None? then Some(BadPublicKey)
    else if !Signed(c, tx, i, l) then Some(BadSignature)
    else if Outpoint(tx.inputs[i]) in Keys(tx.inputs[..i]) then Some(DoubleSpend)
    else InputsVerdict(c, tx, i + 1, l)
  }

  /** Which error a transaction is turned down with: the hash first, then input by input, then the outputs. */
  ghost function TxVerdict(c: Crypto, tx: Transaction, l: Utxos): Option<Error> {
    if TxBytes(c, tx, false).Err? then Some(TxBytes(c, tx, false).error)
    else if !HashOk(c, tx) then Some(BadTxHash)
    else if InputsVerdict(c, tx, 0, l).Some? then InputsVerdict(c, tx, 0, l)
    else if !NonNegative(tx.outputs) then Some(NegativeOutput)
    else if TotalOut(tx.outputs) > TotalIn(tx.inputs, l) then Some(OutputExceedsInput)
    else None
  }

  ghost function CoinbaseVerdict(c: Crypto, tx: Transaction, maxFee: real): Option<Error> {
    if TxBytes(c, tx, false).Err? then Some(TxBytes(c, tx, false).error)
    else if !HashOk(c, tx) then Some(BadTxHash)
    else if |tx.inputs| != 0 || |tx.outputs| != 1 then Some(BadCoinbaseShape)
    else if tx.outputs[0].value > maxFee then Some(CoinbaseTooLarge)
    else None
  }

  ghost predicate CoinbaseOk(c: Crypto, tx: Transaction, maxFee: real) {
    HashOk(c, tx) && |tx.inputs| == 0 && |tx.outputs| == 1 && tx.outputs[0].value <= maxFee
  }

  /** The coinbase that pays `value` to a key, rightly hashed; a height that cannot be encoded panics. */
  ghost function CoinbaseTx(c: Crypto, value: real, pk: seq<byte>, height: int): Result<Transaction> {
    var tx := Transaction("", [], [Output(value, pk)], height);
    var bytes :- TxBytes(c, tx, false);
    Ok(tx.(hash := BytesToHex(c.sha256(bytes))))
  }

  /** It is defined exactly for heights that can be encoded, and valid exactly up to the maximum it pays. */
  lemma CoinbaseTxValid(c: Crypto, value: real, pk: seq<byte>, height: int, max: real)
    ensures var r := CoinbaseTx(c, value, pk, height);
      && (r.Ok? <==> -VARINT_BOUND <= height < VARINT_BOUND)
      && (r.Ok? ==> r.value == Transaction(r.value.hash, [], [Output(value, pk)], height))
      && (r.Ok? ==> (CoinbaseOk(c, r.value, max) <==> value <= max))
  {
    VarintDefined(height);
    var tx := Transaction("", [], [Output(value, pk)], height);
    if TxBytes(c, tx, false).Ok? {
      var hash := BytesToHex(c.sha256(TxBytes(c, tx, false).value));
      assert TxBytes(c, tx.(hash := hash), false) == TxBytes(c, tx, false);
    }
  }

  // ----- fees -----

  /** Outputs minus inputs over all transactions, every input looked up in the one ledger `l`.
      The sign is the program's: the sum is never positive. */
  ghost function Fee(txs: seq<Transaction>, l: Utxos): Result<real> {
    if txs == [] then Ok(0.0)
    else if !Present(txs[0].inputs, l) then Err(InputSpent)
    else if TotalOut(txs[0].outputs) > TotalIn(txs[0].inputs, l) then Err(OutputExceedsInput)
    else
      var rest :- Fee(txs[1..], l);
      Ok(TotalOut(txs[0].outputs) - TotalIn(txs[0].inputs, l) + rest)
  }

  ghost predicate FeeDefined(txs: seq<Transaction>, l: Utxos) {
    forall i :: 0 <= i < |txs| ==>
      Present(txs[i].inputs, l) && TotalOut(txs[i].outputs) <= TotalIn(txs[i].inputs, l)
  }

  lemma {:induction false} FeeIsDefined(txs: seq<Transaction>, l: Utxos)
    ensures Fee(txs, l).Ok? <==> FeeDefined(txs, l)
    ensures Fee(txs, l).Ok? ==> Fee(txs, l).value <= 0.0
  {
    if txs == [] {
    } else {
      FeeIsDefined(txs[1..], l);
      assert forall i :: 1 <= i < |txs| ==> txs[i] == txs[1..][i - 1];
      assert FeeDefined(txs, l) ==> FeeDefined(txs[1..], l) by {
        if FeeDefined(txs, l) {
          assert forall i :: 0 <= i < |txs| - 1 ==> txs[1..][i] == txs[i + 1];
        }
      }
    }
  }

  lemma {:induction false} TotalInAgrees(inputs: seq<Input>, l: Utxos, m: Utxos)
    requires forall i :: 0 <= i < |inputs| ==> ValueAt(l, Outpoint(inputs[i])) == ValueAt(m, Outpoint(inputs[i]))
    ensures TotalIn(inputs, l) == TotalIn(inputs, m)
  {
    if inputs == [] {
    } else {
      assert forall i :: 0 <= i < |inputs| - 1 ==> inputs[1..][i] == inputs[i + 1];
      TotalInAgrees(inputs[1..], l, m);
    }
  }

  // ----- a batch -----

  datatype Batch = Batch(ledger: Utxos, failed: seq<Transaction>)

  /** Every transaction in turn: applied when valid on the ledger so far, otherwise set aside. */
  ghost function Replay(c: Crypto, txs: seq<Transaction>, l: Utxos): Batch {
    if txs == [] then Batch(l, [])
    else if ValidTx(c, txs[0], l) then Replay(c, txs[1..], ApplyTx(txs[0], l))
    else
      var rest := Replay(c, txs[1..], l);
      Batch(rest.ledger, [txs[0]] + rest.failed)
  }

  /** One transaction more is decided by the ledger the others leave: it changes that ledger or joins the failed. */
  lemma {:induction false} ReplaySnoc(c: Crypto, txs: seq<Transaction>, t: Transaction, l: Utxos)
    ensures var r := Replay(c, txs, l);
      Replay(c, txs + [t], l) ==
        if ValidTx(c, t, r.ledger) then Batch(ApplyTx(t, r.ledger), r.failed) else Batch(r.ledger, r.failed + [t])
  {
    if txs == [] {
      assert [] + [t] == [t] && [t][1..] == [] && [t] + [] == [] + [t];
    } else {
      var rest := txs[1..];
      var valid := ValidTx(c, txs[0], l);
      var m := if valid then ApplyTx(txs[0], l) else l;
      var r := Replay(c, rest, m);
      assert (txs + [t])[1..] == rest + [t];
      ReplaySnoc(c, rest, t, m);
      assert [txs[0]] + (r.failed + [t]) == ([txs[0]] + r.failed) + [t];
    }
  }

  /** Transactions applied in order, with no validity test. */
  ghost function ApplyAll(txs: seq<Transaction>, l: Utxos): Utxos {
    if txs == [] then l else ApplyAll(txs[1..], ApplyTx(txs[0], l))
  }

  lemma {:induction false} SuccessAppliesAll(c: Crypto, txs: seq<Transaction>, l: Utxos)
    requires Replay(c, txs, l).failed == []
    ensures Replay(c, txs, l).ledger == ApplyAll(txs, l)
  {
    if txs == [] {
    } else {
      SuccessAppliesAll(c, txs[1..], ApplyTx(txs[0], l));
    }
  }

  ghost predicate DistinctIds(txs: seq<Transaction>) {
    forall i, j :: 0 <= i < j < |txs| ==> txs[i].hash != txs[j].hash
  }

  /** Transaction `t` spends no output of `u`. */
  ghost predicate SpendsNotFrom(t: Transaction, u: Transaction) {
    forall m :: 0 <= m < |t.inputs| ==> t.inputs[m].prevTxHash != u.hash
  }

  ghost predicate NoIntraSpend(txs: seq<Transaction>) {
    forall i, j :: 0 <= i < |txs| && 0 <= j < |txs| ==> SpendsNotFrom(txs[i], txs[j])
  }

  ghost predicate DisjointInputs(txs: seq<Transaction>) {
    forall i, j :: 0 <= i < j < |txs| ==> Keys(txs[i].inputs) !! Keys(txs[j].inputs)
  }

  ghost predicate AllValid(c: Crypto, txs: seq<Transaction>, l: Utxos) {
    forall i :: 0 <= i < |txs| ==> ValidTx(c, txs[i], l)
  }

  /** All inputs claimed. */
  ghost function AllKeys(txs: seq<Transaction>): set<UTXOLite> {
    if txs == [] then {} else Keys(txs[0].inputs) + AllKeys(txs[1..])
  }

  /** All outputs stored. */
  ghost function AllOuts(txs: seq<Transaction>): Utxos {
    if txs == [] then map[] else OutMap(txs[0].hash, txs[0].outputs) + AllOuts(txs[1..])
  }

  lemma {:induction false} AllKeysAt(txs: seq<Transaction>, k: UTXOLite)
    ensures k in AllKeys(txs) <==> exists i :: 0 <= i < |txs| && k in Keys(txs[i].inputs)
  {
    if txs == [] {
    } else {
      AllKeysAt(txs[1..], k);
      assert forall i :: 1 <= i < |txs| ==> txs[i] == txs[1..][i - 1];
      assert forall i :: 0 <= i < |txs| - 1 ==> txs[1..][i] == txs[i + 1];
    }
  }

  lemma OutMapAt(tx: Transaction, k: UTXOLite)
    ensures k in OutMap(tx.hash, tx.outputs) <==> IsOut(tx, k)
  {
    if IsOut(tx, k) {
      assert k == UTXOLite(tx.hash, k.index);
    }
  }

  lemma {:induction false} AllOutsAt(txs: seq<Transaction>, k: UTXOLite)
    ensures k in AllOuts(txs) <==> exists i :: 0 <= i < |txs| && IsOut(txs[i], k)
    ensures DistinctIds(txs) ==>
      forall i :: 0 <= i < |txs| && IsOut(txs[i], k) ==> AllOuts(txs)[k] == txs[i].outputs[k.index]
  {
    if txs == [] {
    } else {
      AllOutsAt(txs[1..], k);
      OutMapAt(txs[0], k);
      assert forall i :: 1 <= i < |txs| ==> txs[i] == txs[1..][i - 1];
      assert forall i :: 0 <= i < |txs| - 1 ==> txs[1..][i] == txs[i + 1];
    }
  }

  ghost predicate SameInputs(t: Transaction, l: Utxos, m: Utxos) {
    forall i :: 0 <= i < |t.inputs| ==>
      var k := Outpoint(t.inputs[i]);
      k in l && k in m && l[k] == m[k]
  }

  /** Validity reads the ledger at the claimed outputs only. */
  lemma ValidReadsInputs(c: Crypto, t: Transaction, l: Utxos, m: Utxos)
    requires SameInputs(t, l, m) && ValidTx(c, t, l)
    ensures ValidTx(c, t, m)
  {
    TotalInAgrees(t.inputs, l, m);
    forall i | 0 <= i < |t.inputs|
      ensures Signed(c, t, i, m)
    {
      assert Signed(c, t, i, l);
    }
  }

  lemma UnspentAfter(first: Transaction, t: Transaction, l: Utxos)
    requires SpendsNotFrom(t, first)
    ensures Present(t.inputs, ApplyTx(first, l)) <==> Present(t.inputs, l) && Keys(first.inputs) !! Keys(t.inputs)
    ensures Present(t.inputs, ApplyTx(first, l)) ==> SameInputs(t, l, ApplyTx(first, l))
  {
    forall i | 0 <= i < |t.inputs|
      ensures var k := Outpoint(t.inputs[i]);
        && k in Keys(t.inputs)
        && (k in ApplyTx(first, l) <==> k in l && k !in Keys(first.inputs))
        && (k in ApplyTx(first, l) ==> ApplyTx(first, l)[k] == l[k])
    {
      ApplyTxAt(first, l, Outpoint(t.inputs[i]));
    }
  }

  /** How validity moves past a transaction it does not spend from. */
  lemma ValidAfter(c: Crypto, first: Transaction, t: Transaction, l: Utxos)
    requires SpendsNotFrom(t, first)
    ensures ValidTx(c, t, ApplyTx(first, l)) <==> ValidTx(c, t, l) && Keys(first.inputs) !! Keys(t.inputs)
  {
    var m := ApplyTx(first, l);
    UnspentAfter(first, t, l);
    if ValidTx(c, t, m) {
      ValidReadsInputs(c, t, m, l);
    }
    if ValidTx(c, t, l) && Keys(first.inputs) !! Keys(t.inputs) {
      ValidReadsInputs(c, t, l, m);
    }
  }

  /** The rest of a batch is valid after its first transaction exactly if it is valid before and claims nothing
      the first one claims. */
  lemma RestValid(c: Crypto, txs: seq<Transaction>, l: Utxos)
    requires txs != [] && NoIntraSpend(txs)
    ensures AllValid(c, txs[1..], ApplyTx(txs[0], l)) <==>
      && AllValid(c, txs[1..], l)
      && forall i :: 1 <= i < |txs| ==> Keys(txs[0].inputs) !! Keys(txs[i].inputs)
  {
    var rest, m := txs[1..], ApplyTx(txs[0], l);
    forall i | 0 <= i < |rest|
      ensures rest[i] == txs[i + 1]
      ensures ValidTx(c, rest[i], m) <==> ValidTx(c, rest[i], l) && Keys(txs[0].inputs) !! Keys(txs[i + 1].inputs)
    {
      assert SpendsNotFrom(txs[i + 1], txs[0]);
      ValidAfter(c, txs[0], rest[i], l);
    }
    assert forall i :: 1 <= i < |txs| ==> txs[i] == rest[i - 1];
  }

  /** Without spends inside the batch, the batch succeeds exactly when every transaction is valid on the
      starting ledger and no two claim the same output, and the result does not mention the order. */
  lemma {:induction false} BatchVerdict(c: Crypto, txs: seq<Transaction>, l: Utxos)
    requires NoIntraSpend(txs)
    ensures Replay(c, txs, l).failed == [] <==> AllValid(c, txs, l) && DisjointInputs(txs)
  {
    if txs == [] {
    } else {
      assert NoIntraSpend(txs[1..]);
      BatchVerdict(c, txs[1..], ApplyTx(txs[0], l));
      RestValid(c, txs, l);
      assert forall i :: 0 <= i < |txs| - 1 ==> txs[1..][i] == txs[i + 1];
      assert forall i :: 1 <= i < |txs| ==> txs[i] == txs[1..][i - 1];
    }
  }

  lemma {:induction false} BatchLedger(c: Crypto, txs: seq<Transaction>, l: Utxos)
    requires NoIntraSpend(txs) && Replay(c, txs, l).failed == []
    ensures Replay(c, txs, l).ledger == (l - AllKeys(txs)) + AllOuts(txs)
  {
    if txs == [] {
    } else {
      var rest, m := txs[1..], ApplyTx(txs[0], l);
      assert forall i :: 0 <= i < |rest| ==> rest[i] == txs[i + 1];
      assert NoIntraSpend(rest);
      BatchLedger(c, rest, m);
      OutsNotClaimed(txs);
      MergeSteps(l, Keys(txs[0].inputs), OutMap(txs[0].hash, txs[0].outputs), AllKeys(rest), AllOuts(rest));
    }
  }

  lemma MergeSteps(l: Utxos, k1: set<UTXOLite>, o1: Utxos, k2: set<UTXOLite>, o2: Utxos)
    requires o1.Keys !! k2
    ensures (((l - k1) + o1) - k2) + o2 == (l - (k1 + k2)) + (o1 + o2)
  {
  }

  lemma OutsNotClaimed(txs: seq<Transaction>)
    requires txs != [] && NoIntraSpend(txs)
    ensures OutMap(txs[0].hash, txs[0].outputs).Keys !! AllKeys(txs[1..])
  {
    forall k | k in OutMap(txs[0].hash, txs[0].outputs)
      ensures k !in AllKeys(txs[1..])
    {
      AllKeysAt(txs[1..], k);
      forall i | 0 <= i < |txs[1..]|
        ensures k !in Keys(txs[1..][i].inputs)
      {
        assert SpendsNotFrom(txs[i + 1], txs[0]);
      }
    }
  }

  ghost predicate SameElements(txs: seq<Transaction>, perm: seq<Transaction>) {
    forall t :: t in txs <==> t in perm
  }

  lemma PositionOf(txs: seq<Transaction>, t: Transaction) returns (i: nat)
    requires t in txs
    ensures i < |txs| && txs[i] == t
  {
    i :| 0 <= i < |txs| && txs[i] == t;
  }

  lemma SubBatchNoIntraSpend(txs: seq<Transaction>, part: seq<Transaction>)
    requires NoIntraSpend(txs) && forall t :: t in part ==> t in txs
    ensures NoIntraSpend(part)
  {
    forall i, j | 0 <= i < |part| && 0 <= j < |part|
      ensures SpendsNotFrom(part[i], part[j])
    {
      var i' := PositionOf(txs, part[i]);
      var j' := PositionOf(txs, part[j]);
      assert SpendsNotFrom(txs[i'], txs[j']);
    }
  }

  lemma ReorderedPremises(c: Crypto, txs: seq<Transaction>, perm: seq<Transaction>, l: Utxos)
    requires DistinctIds(txs) && DistinctIds(perm) && SameElements(txs, perm)
    ensures NoIntraSpend(txs) ==> NoIntraSpend(perm)
    ensures AllValid(c, txs, l) ==> AllValid(c, perm, l)
    ensures DisjointInputs(txs) ==> DisjointInputs(perm)
  {
    if NoIntraSpend(txs) {
      SubBatchNoIntraSpend(txs, perm);
    }
    if AllValid(c, txs, l) {
      forall i | 0 <= i < |perm|
        ensures ValidTx(c, perm[i], l)
      {
        assert perm[i] in perm;
        var i' := PositionOf(txs, perm[i]);
      }
    }
    if DisjointInputs(txs) {
      forall i, j | 0 <= i < j < |perm|
        ensures Keys(perm[i].inputs) !! Keys(perm[j].inputs)
      {
        assert perm[i] in perm && perm[j] in perm && perm[i].hash != perm[j].hash;
        var i' := PositionOf(txs, perm[i]);
        var j' := PositionOf(txs, perm[j]);
        assert Keys(txs[i'].inputs) !! Keys(txs[j'].inputs) by {
          if i' < j' {
            assert Keys(txs[i'].inputs) !! Keys(txs[j'].inputs);
          } else {
            assert Keys(txs[j'].inputs) !! Keys(txs[i'].inputs);
          }
        }
      }
    }
  }

  lemma ReorderedResult(txs: seq<Transaction>, perm: seq<Transaction>)
    requires DistinctIds(txs) && DistinctIds(perm) && SameElements(txs, perm)
    ensures AllKeys(txs) == AllKeys(perm) && AllOuts(txs) == AllOuts(perm)
  {
    forall i | 0 <= i < |perm|
      ensures exists j :: 0 <= j < |txs| && txs[j] == perm[i]
    {
      assert perm[i] in perm;
    }
    forall i | 0 <= i < |txs|
      ensures exists j :: 0 <= j < |perm| && perm[j] == txs[i]
    {
      assert txs[i] in txs;
    }
    forall k
      ensures k in AllKeys(txs) <==> k in AllKeys(perm)
    {
      AllKeysAt(txs, k);
      AllKeysAt(perm, k);
    }
    forall k
      ensures k in AllOuts(txs) <==> k in AllOuts(perm)
      ensures k in AllOuts(txs) ==> AllOuts(txs)[k] == AllOuts(perm)[k]
    {
      AllOutsAt(txs, k);
      AllOutsAt(perm, k);
    }
  }

  /** Any order of the same transactions gives the same verdict and, on success, the same ledger. */
  lemma BatchOrderIndependent(c: Crypto, txs: seq<Transaction>, perm: seq<Transaction>, l: Utxos)
    requires DistinctIds(txs) && DistinctIds(perm) && SameElements(txs, perm) && NoIntraSpend(txs)
    ensures Replay(c, txs, l).failed == [] <==> Replay(c, perm, l).failed == []
    ensures Replay(c, txs, l).failed == [] ==> Replay(c, txs, l).ledger == Replay(c, perm, l).ledger
  {
    ReorderedPremises(c, txs, perm, l);
    ReorderedPremises(c, perm, txs, l);
    BatchVerdict(c, txs, l);
    BatchVerdict(c, perm, l);
    if Replay(c, txs, l).failed == [] {
      BatchLedger(c, txs, l);
      BatchLedger(c, perm, l);
      ReorderedResult(txs, perm);
    }
  }

  // ----- the two ledgers of the fee check -----

  /** The fee when every transaction is charged against the ledger it is applied to. */
  ghost function EvolvingFee(txs: seq<Transaction>, l: Utxos): real {
    if txs == [] then 0.0
    else TotalOut(txs[0].outputs) - TotalIn(txs[0].inputs, l) + EvolvingFee(txs[1..], ApplyTx(txs[0], l))
  }

  lemma {:induction false} FeeAgrees(txs: seq<Transaction>, l: Utxos, m: Utxos)
    requires forall i :: 0 <= i < |txs| ==> SameInputs(txs[i], l, m)
    ensures Fee(txs, l) == Fee(txs, m)
  {
    if txs == [] {
    } else {
      assert forall i :: 0 <= i < |txs| - 1 ==> txs[1..][i] == txs[i + 1];
      FeeAgrees(txs[1..], l, m);
      TotalInAgrees(txs[0].inputs, l, m);
    }
  }

  /** What a successful batch claims after its first transaction was there before it. */
  lemma RestWasThere(c: Crypto, txs: seq<Transaction>, l: Utxos)
    requires txs != [] && NoIntraSpend(txs)
    requires AllValid(c, txs[1..], ApplyTx(txs[0], l))
    ensures forall i :: 0 <= i < |txs| - 1 ==> SameInputs(txs[1..][i], l, ApplyTx(txs[0], l))
  {
    var rest := txs[1..];
    forall i | 0 <= i < |rest|
      ensures SameInputs(rest[i], l, ApplyTx(txs[0], l))
    {
      assert rest[i] == txs[i + 1] && SpendsNotFrom(txs[i + 1], txs[0]);
      UnspentAfter(txs[0], rest[i], l);
    }
  }

  lemma RestNoIntraSpend(txs: seq<Transaction>)
    requires txs != [] && NoIntraSpend(txs)
    ensures NoIntraSpend(txs[1..])
  {
    SubBatchNoIntraSpend(txs, txs[1..]);
  }

  /** What follows the first transaction has the same fee before and after it. */
  lemma RestFee(c: Crypto, txs: seq<Transaction>, l: Utxos)
    requires txs != [] && NoIntraSpend(txs) && Replay(c, txs, l).failed == []
    ensures Fee(txs[1..], l) == Fee(txs[1..], ApplyTx(txs[0], l))
  {
    RestNoIntraSpend(txs);
    BatchVerdict(c, txs[1..], ApplyTx(txs[0], l));
    RestWasThere(c, txs, l);
    FeeAgrees(txs[1..], l, ApplyTx(txs[0], l));
  }

  /** A batch that succeeds and spends none of its own outputs has the same fee on the starting ledger as
      along the evolving one, so the fatal branch of block creation is not taken. */
  lemma {:induction false} FeeOfSuccessfulBatch(c: Crypto, txs: seq<Transaction>, l: Utxos)
    requires NoIntraSpend(txs) && Replay(c, txs, l).failed == []
    ensures Fee(txs, l) == Ok(EvolvingFee(txs, l))
  {
    if txs == [] {
    } else {
      var m := ApplyTx(txs[0], l);
      RestNoIntraSpend(txs);
      FeeOfSuccessfulBatch(c, txs[1..], m);
      RestFee(c, txs, l);
    }
  }

  /** An output that the batch stores over an entry of the ledger has the entry's value. */
  ghost predicate KeepsValues(txs: seq<Transaction>, l: Utxos) {
    forall i, k :: 0 <= i < |txs| && k in l && IsOut(txs[i], k) ==> l[k].value == txs[i].outputs[k.index].value
  }

  /** What is in both ledgers has one value. */
  ghost predicate SameValues(l: Utxos, m: Utxos) {
    forall k :: k in l && k in m ==> l[k].value == m[k].value
  }

  lemma SameValuesAfter(t: Transaction, l: Utxos, m: Utxos)
    requires SameValues(l, m) && KeepsValues([t], l)
    ensures SameValues(l, ApplyTx(t, m))
  {
    forall k | k in l && k in ApplyTx(t, m)
      ensures l[k].value == ApplyTx(t, m)[k].value
    {
      ApplyTxAt(t, m, k);
      assert [t][0] == t;
    }
  }

  /** A batch that succeeds on a ledger has a fee on another if that has all its inputs, and the values agree. */
  lemma {:induction false} PresentHasFee(c: Crypto, txs: seq<Transaction>, l: Utxos, m: Utxos)
    requires Replay(c, txs, m).failed == [] && SameValues(l, m) && KeepsValues(txs, l)
    requires forall i :: 0 <= i < |txs| ==> Present(txs[i].inputs, l)
    ensures Fee(txs, l).Ok?
  {
    if txs == [] {
    } else {
      var t, rest := txs[0], txs[1..];
      assert forall i :: 0 <= i < |rest| ==> rest[i] == txs[i + 1];
      assert KeepsValues([t], l) && KeepsValues(rest, l);
      SameValuesAfter(t, l, m);
      PresentHasFee(c, rest, l, ApplyTx(t, m));
      TotalInAgrees(t.inputs, l, m);
    }
  }

  /** "Handle transaction success but fail calcFee" happens exactly when some transaction of the batch claims an output
      that is not in the starting ledger. */
  lemma FatalFeeExactly(c: Crypto, txs: seq<Transaction>, l: Utxos)
    requires Replay(c, txs, l).failed == [] && KeepsValues(txs, l)
    ensures Fee(txs, l).Err? <==> exists i :: 0 <= i < |txs| && !Present(txs[i].inputs, l)
  {
    FeeIsDefined(txs, l);
    if forall i :: 0 <= i < |txs| ==> Present(txs[i].inputs, l) {
      PresentHasFee(c, txs, l, l);
    }
  }

  /** No output of the batch is in the ledger beforehand. */
  ghost predicate FreshIds(txs: seq<Transaction>, l: Utxos) {
    forall i, k :: 0 <= i < |txs| && k in l ==> k.prevTxHash != txs[i].hash
  }

  /** With new ids that is exactly when the batch spends its own outputs. */
  lemma FatalFeeBranch(c: Crypto, txs: seq<Transaction>, l: Utxos)
    requires Replay(c, txs, l).failed == [] && FreshIds(txs, l)
    ensures Fee(txs, l).Err? <==> !NoIntraSpend(txs)
  {
    FatalFeeExactly(c, txs, l);
    if NoIntraSpend(txs) {
      FeeOfSuccessfulBatch(c, txs, l);
    } else {
      var i, j :| 0 <= i < |txs| && 0 <= j < |txs| && !SpendsNotFrom(txs[i], txs[j]);
      var m :| 0 <= m < |txs[i].inputs| && txs[i].inputs[m].prevTxHash == txs[j].hash;
      assert Outpoint(txs[i].inputs[m]) !in l;
      assert !Present(txs[i].inputs, l);
    }
  }

  // ----- cleaning up after a failed batch -----

  ghost function Survivors(c: Crypto, txs: seq<Transaction>, l: Utxos): seq<Transaction> {
    if txs == [] then []
    else if ValidTx(c, txs[0], l) then [txs[0]] + Survivors(c, txs[1..], ApplyTx(txs[0], l))
    else Survivors(c, txs[1..], l)
  }

  /** The transactions that did not fail, rerun in the same order, all succeed with the same ledger. */
  lemma {:induction false} SurvivorsSucceed(c: Crypto, txs: seq<Transaction>, l: Utxos)
    ensures Replay(c, Survivors(c, txs, l), l) == Batch(Replay(c, txs, l).ledger, [])
  {
    if txs == [] {
    } else {
      if ValidTx(c, txs[0], l) {
        var m := ApplyTx(txs[0], l);
        SurvivorsSucceed(c, txs[1..], m);
        var s := Survivors(c, txs, l);
        assert s[0] == txs[0] && s[1..] == Survivors(c, txs[1..], m);
      } else {
        SurvivorsSucceed(c, txs[1..], l);
      }
    }
  }

  lemma {:induction false} SurvivorsOrFailed(c: Crypto, txs: seq<Transaction>, l: Utxos)
    ensures forall t :: t in txs <==> t in Survivors(c, txs, l) || t in Replay(c, txs, l).failed
  {
    if txs == [] {
    } else {
      assert txs == [txs[0]] + txs[1..];
      SurvivorsOrFailed(c, txs[1..], if ValidTx(c, txs[0], l) then ApplyTx(txs[0], l) else l);
    }
  }

  /** Survivors and failures of distinct transactions are distinct, and none is both. */
  lemma {:induction false} SurvivorsDistinct(c: Crypto, txs: seq<Transaction>, l: Utxos)
    requires DistinctIds(txs)
    ensures DistinctIds(Survivors(c, txs, l))
    ensures forall t, u :: t in Survivors(c, txs, l) && u in Replay(c, txs, l).failed ==> t.hash != u.hash
  {
    if txs == [] {
    } else {
      var rest := txs[1..];
      assert forall i :: 0 <= i < |rest| ==> rest[i] == txs[i + 1];
      var m := if ValidTx(c, txs[0], l) then ApplyTx(txs[0], l) else l;
      SurvivorsDistinct(c, rest, m);
      SurvivorsOrFailed(c, rest, m);
      forall t | t in rest
        ensures t.hash != txs[0].hash
      {
        var i :| 0 <= i < |rest| && rest[i] == t;
        assert txs[0].hash != txs[i + 1].hash;
      }
      if ValidTx(c, txs[0], l) {
        DistinctCons(txs[0], Survivors(c, rest, m));
      }
    }
  }

  lemma DistinctCons(t: Transaction, s: seq<Transaction>)
    requires DistinctIds(s) && forall u :: u in s ==> u.hash != t.hash
    ensures DistinctIds([t] + s)
  {
    var r := [t] + s;
    forall i, j | 0 <= i < j < |r|
      ensures r[i].hash != r[j].hash
    {
      assert r[j] == s[j - 1] && s[j - 1] in s;
      if i > 0 {
        assert r[i] == s[i - 1];
      }
    }
  }

  // ----- supply -----

  ghost function Sum(l: Utxos, w: real -> real): real {
    if l == map[] then 0.0
    else
      var k :| k in l;
      w(l[k].value) + Sum(l - {k}, w)
  }

  function Value(v: real): real { v }

  function Positive(v: real): real {
    if v < 0.0 then 0.0 else v
  }

  ghost function Total(l: Utxos): real { Sum(l, Value) }

  /** The sum of the positive outputs. A coinbase may carry a negative value, so the plain sum bounds nothing. */
  ghost function Supply(l: Utxos): real { Sum(l, Positive) }

  lemma {:induction false} SumRemove(l: Utxos, k: UTXOLite, w: real -> real)
    requires k in l
    ensures Sum(l, w) == w(l[k].value) + Sum(l - {k}, w)
    decreases |l|
  {
    var j :| j in l && Sum(l, w) == w(l[j].value) + Sum(l - {j}, w);
    if j == k {
    } else {
      var a, b := l - {j}, l - {k};
      SumRemove(a, k, w);
      SumRemove(b, j, w);
      assert a - {k} == b - {j};
    }
  }

  lemma SumUpdate(l: Utxos, k: UTXOLite, o: Output, w: real -> real)
    ensures Sum(l[k := o], w) == (if k in l then Sum(l, w) - w(l[k].value) else Sum(l, w)) + w(o.value)
  {
    var m := l[k := o];
    SumRemove(m, k, w);
    if k in l {
      SumRemove(l, k, w);
      assert m - {k} == l - {k};
    } else {
      assert m - {k} == l;
    }
  }

  ghost function WeightIn(inputs: seq<Input>, l: Utxos, w: real -> real): real {
    if inputs == [] then 0.0 else w(ValueAt(l, Outpoint(inputs[0]))) + WeightIn(inputs[1..], l, w)
  }

  ghost function WeightOut(outputs: seq<Output>, w: real -> real): real {
    if outputs == [] then 0.0 else WeightOut(outputs[..|outputs| - 1], w) + w(outputs[|outputs| - 1].value)
  }

  lemma {:induction false} WeightInAgrees(inputs: seq<Input>, l: Utxos, m: Utxos, w: real -> real)
    requires forall i :: 0 <= i < |inputs| ==> ValueAt(l, Outpoint(inputs[i])) == ValueAt(m, Outpoint(inputs[i]))
    ensures WeightIn(inputs, l, w) == WeightIn(inputs, m, w)
  {
    if inputs == [] {
    } else {
      assert forall i :: 0 <= i < |inputs| - 1 ==> inputs[1..][i] == inputs[i + 1];
      WeightInAgrees(inputs[1..], l, m, w);
    }
  }

  lemma {:induction false} SumClaimed(inputs: seq<Input>, l: Utxos, w: real -> real)
    requires Present(inputs, l) && Distinct(inputs)
    ensures Sum(l - Keys(inputs), w) == Sum(l, w) - WeightIn(inputs, l, w)
  {
    if inputs == [] {
      assert l - Keys(inputs) == l;
    } else {
      var k, rest := Outpoint(inputs[0]), inputs[1..];
      assert forall i :: 0 <= i < |rest| ==> rest[i] == inputs[i + 1];
      assert forall i :: 1 <= i < |inputs| ==> inputs[i] == rest[i - 1];
      var m := l - {k};
      SumRemove(l, k, w);
      SumClaimed(rest, m, w);
      WeightInAgrees(rest, l, m, w);
      assert Keys(inputs) == {k} + Keys(rest);
      assert m - Keys(rest) == l - Keys(inputs);
    }
  }

  ghost predicate FreshOuts(h: Hash, outputs: seq<Output>, l: Utxos) {
    forall i :: 0 <= i < |outputs| ==> UTXOLite(h, i) !in l
  }

  lemma OutMapSnoc(h: Hash, outputs: seq<Output>, l: Utxos)
    requires outputs != []
    ensures var n := |outputs| - 1;
      l + OutMap(h, outputs) == (l + OutMap(h, outputs[..n]))[UTXOLite(h, n) := outputs[n]]
  {
    var n := |outputs| - 1;
    var s := OutMap(h, outputs);
    var t := OutMap(h, outputs[..n])[UTXOLite(h, n) := outputs[n]];
    assert forall i :: 0 <= i < n ==> UTXOLite(h, i) in t;
    assert s == t;
  }

  lemma {:induction false} SumStored(h: Hash, outputs: seq<Output>, l: Utxos, w: real -> real)
    requires forall v :: 0.0 <= w(v) || FreshOuts(h, outputs, l)
    ensures Sum(l + OutMap(h, outputs), w) <= Sum(l, w) + WeightOut(outputs, w)
    ensures FreshOuts(h, outputs, l) ==> Sum(l + OutMap(h, outputs), w) == Sum(l, w) + WeightOut(outputs, w)
  {
    if outputs == [] {
      assert l + OutMap(h, outputs) == l;
    } else {
      var n := |outputs| - 1;
      var m := l + OutMap(h, outputs[..n]);
      SumStored(h, outputs[..n], l, w);
      OutMapSnoc(h, outputs, l);
      SumUpdate(m, UTXOLite(h, n), outputs[n], w);
      if FreshOuts(h, outputs, l) {
        assert UTXOLite(h, n) !in m;
      }
    }
  }

  /** What the outputs stored under `h` overwrite. */
  ghost function Replaced(h: Hash, outputs: seq<Output>, l: Utxos): real {
    if outputs == [] then 0.0
    else Replaced(h, outputs[..|outputs| - 1], l) + ValueAt(l, UTXOLite(h, |outputs| - 1))
  }

  lemma {:induction false} StoredTotal(h: Hash, outputs: seq<Output>, l: Utxos)
    ensures Total(l + OutMap(h, outputs)) == Total(l) + WeightOut(outputs, Value) - Replaced(h, outputs, l)
  {
    if outputs == [] {
      assert l + OutMap(h, outputs) == l;
    } else {
      var n := |outputs| - 1;
      StoredTotal(h, outputs[..n], l);
      OutMapSnoc(h, outputs, l);
      SumUpdate(l + OutMap(h, outputs[..n]), UTXOLite(h, n), outputs[n], Value);
    }
  }

  lemma {:induction false} FreshReplacesNothing(h: Hash, outputs: seq<Output>, l: Utxos)
    requires FreshOuts(h, outputs, l)
    ensures Replaced(h, outputs, l) == 0.0
  {
    if outputs == [] {
    } else {
      FreshReplacesNothing(h, outputs[..|outputs| - 1], l);
    }
  }

  /** A transaction changes the ledger total by exactly outputs minus inputs minus what it overwrites. */
  lemma TxBalance(tx: Transaction, l: Utxos)
    requires Present(tx.inputs, l) && Distinct(tx.inputs)
    ensures Total(ApplyTx(tx, l)) ==
      Total(l) - TotalIn(tx.inputs, l) + TotalOut(tx.outputs) - Replaced(tx.hash, tx.outputs, l - Keys(tx.inputs))
  {
    SumClaimed(tx.inputs, l, Value);
    StoredTotal(tx.hash, tx.outputs, l - Keys(tx.inputs));
    WeightInTotals(tx.inputs, l);
    WeightOutSnoc(tx.outputs);
  }

  lemma {:induction false} WeightOutSnoc(outputs: seq<Output>)
    ensures WeightOut(outputs, Value) == TotalOut(outputs)
    ensures NonNegative(outputs) ==> WeightOut(outputs, Positive) == TotalOut(outputs)
  {
    if outputs == [] {
    } else {
      var n := |outputs| - 1;
      WeightOutSnoc(outputs[..n]);
      TotalOutSnoc(outputs);
    }
  }

  lemma {:induction false} TotalOutSnoc(outputs: seq<Output>)
    requires outputs != []
    ensures TotalOut(outputs) == TotalOut(outputs[..|outputs| - 1]) + outputs[|outputs| - 1].value
  {
    if |outputs| == 1 {
    } else {
      TotalOutSnoc(outputs[1..]);
      assert outputs[1..][..|outputs| - 2] == outputs[..|outputs| - 1][1..];
    }
  }

  lemma {:induction false} WeightInTotals(inputs: seq<Input>, l: Utxos)
    ensures WeightIn(inputs, l, Value) == TotalIn(inputs, l) <= WeightIn(inputs, l, Positive)
  {
    if inputs == [] {
    } else {
      WeightInTotals(inputs[1..], l);
    }
  }

  /** With fresh output keys nothing is overwritten. */
  lemma TxConserves(tx: Transaction, l: Utxos)
    requires Present(tx.inputs, l) && Distinct(tx.inputs) && FreshOuts(tx.hash, tx.outputs, l - Keys(tx.inputs))
    ensures Total(ApplyTx(tx, l)) == Total(l) - TotalIn(tx.inputs, l) + TotalOut(tx.outputs)
  {
    TxBalance(tx, l);
    FreshReplacesNothing(tx.hash, tx.outputs, l - Keys(tx.inputs));
  }

  /** A valid transaction never raises the supply, even when it overwrites an output. */
  lemma ValidTxSupply(c: Crypto, tx: Transaction, l: Utxos)
    requires ValidTx(c, tx, l)
    ensures Supply(ApplyTx(tx, l)) <= Supply(l)
  {
    SumClaimed(tx.inputs, l, Positive);
    SumStored(tx.hash, tx.outputs, l - Keys(tx.inputs), Positive);
    WeightInTotals(tx.inputs, l);
    WeightOutSnoc(tx.outputs);
  }

  lemma {:induction false} BatchSupply(c: Crypto, txs: seq<Transaction>, l: Utxos)
    ensures Supply(Replay(c, txs, l).ledger) <= Supply(l)
  {
    if txs == [] {
    } else {
      if ValidTx(c, txs[0], l) {
        ValidTxSupply(c, txs[0], l);
        BatchSupply(c, txs[1..], ApplyTx(txs[0], l));
      } else {
        BatchSupply(c, txs[1..], l);
      }
    }
  }

  lemma CoinbaseSupply(c: Crypto, tx: Transaction, l: Utxos, maxFee: real)
    requires CoinbaseOk(c, tx, maxFee)
    ensures Supply(ApplyTx(tx, l)) <= Supply(l) + Positive(maxFee)
  {
    assert l - Keys(tx.inputs) == l;
    SumStored(tx.hash, tx.outputs, l, Positive);
    assert tx.outputs[..0] == [];
    assert WeightOut(tx.outputs, Positive) == Positive(tx.outputs[0].value);
  }
}
