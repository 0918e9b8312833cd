/** Transfers built by a wallet, and when a node accepts them (CreatePendingTransaction). */
module Wallet {
  import opened Encoding
  import opened LedgerSpec
  import opened Ownership
  import opened Types
  import LedgerOps

  /** A private key: how it signs, its public key, and the encoding of that. Signing can fail. */
  datatype KeyPair = KeyPair(sign: seq<byte> -> Option<seq<byte>>, publicKey: seq<byte>, publicKeyBytes: seq<byte>)

  /** What it signs verifies, and its encoded public key parses back. */
  ghost predicate Matches(c: Crypto, sk: KeyPair) {
    && c.parseKey(sk.publicKeyBytes) == Some(sk.publicKey)
    && forall msg :: sk.sign(msg).Some? ==> c.verify(msg, sk.publicKey, sk.sign(msg).value)
  }

  /** The wallet's outputs are unspent in the node's ledger and belong to its key. */
  ghost predicate Owned(sk: KeyPair, utxos: Utxos, l: Utxos) {
    forall k :: k in utxos ==> k in l && l[k] == utxos[k] && utxos[k].publicKey == sk.publicKeyBytes
  }

  /** The inputs name every output of the wallet once. */
  ghost predicate Claims(inputs: seq<Input>, utxos: Utxos) {
    Distinct(inputs) && Keys(inputs) == utxos.Keys
  }

  /** One input per output, and the balance. The outputs come in no particular order. */
  method BuildInputs(utxos: Utxos) returns (inputs: seq<Input>, balance: real)
    ensures Claims(inputs, utxos) && balance == TotalIn(inputs, utxos)
    ensures balance == Total(utxos)
  {
    inputs, balance := [], 0.0;
    var todo := utxos.Keys;
    assert utxos - todo == map[];
    while todo != {}
      invariant todo <= utxos.Keys
      invariant Distinct(inputs) && Keys(inputs) == utxos.Keys - todo
      invariant balance == TotalIn(inputs, utxos) == Total(utxos - todo)
      decreases todo
    {
      var k :| k in todo;
      var input := Input(k.prevTxHash, k.index, []);
      ghost var before, done := inputs, utxos - todo;
      inputs := inputs + [input];
      balance := balance + utxos[k].value;
      ClaimOneMore(before, input, utxos);
      assert utxos - (todo - {k}) == done[k := utxos[k]];
      SumUpdate(done, k, utxos[k], Value);
      todo := todo - {k};
    }
    assert utxos - {} == utxos;
  }

  lemma ClaimOneMore(inputs: seq<Input>, input: Input, l: Utxos)
    requires Distinct(inputs) && Outpoint(input) !in Keys(inputs)
    ensures Distinct(inputs + [input]) && Keys(inputs + [input]) == Keys(inputs) + {Outpoint(input)}
    ensures TotalIn(inputs + [input], l) == TotalIn(inputs, l) + ValueAt(l, Outpoint(input))
  {
    var more := inputs + [input];
    assert forall i :: 0 <= i < |inputs| ==> more[i] == inputs[i] && Outpoint(inputs[i]) in Keys(inputs);
    assert more[|inputs|] == input;
    TotalInSnoc(inputs, input, l);
  }

  lemma {:induction false} TotalInSnoc(inputs: seq<Input>, input: Input, l: Utxos)
    ensures TotalIn(inputs + [input], l) == TotalIn(inputs, l) + ValueAt(l, Outpoint(input))
  {
    if inputs == [] {
      assert ([] + [input])[1..] == [];
    } else {
      assert (inputs + [input])[1..] == inputs[1..] + [input];
      TotalInSnoc(inputs[1..], input, l);
    }
  }

  lemma {:induction false} TotalOutConcat(a: seq<Output>, o: Output)
    ensures TotalOut(a + [o]) == TotalOut(a) + o.value
  {
    assert (a + [o])[..|a|] == a;
    TotalOutSnoc(a + [o]);
  }

  /** The same inputs apart from the signatures. */
  ghost predicate SameUnsigned(a: seq<Input>, b: seq<Input>) {
    |a| == |b| && forall i :: 0 <= i < |a| ==> StripInput(a[i]) == StripInput(b[i])
  }

  lemma UnsignedKeepsClaims(a: seq<Input>, b: seq<Input>, l: Utxos)
    requires SameUnsigned(a, b)
    ensures Keys(a) == Keys(b) && (Distinct(a) <==> Distinct(b)) && TotalIn(a, l) == TotalIn(b, l)
  {
    forall i | 0 <= i < |a|
      ensures Outpoint(a[i]) == Outpoint(b[i])
    {
      assert StripInput(a[i]) == StripInput(b[i]);
    }
    UnsignedTotal(a, b, l);
  }

  lemma {:induction false} UnsignedTotal(a: seq<Input>, b: seq<Input>, l: Utxos)
    requires |a| == |b| && forall i :: 0 <= i < |a| ==> Outpoint(a[i]) == Outpoint(b[i])
    ensures TotalIn(a, l) == TotalIn(b, l)
  {
    if a == [] {
    } else {
      assert forall i :: 0 <= i < |a| - 1 ==> a[1..][i] == a[i + 1] && b[1..][i] == b[i + 1];
      UnsignedTotal(a[1..], b[1..], l);
    }
  }

  ghost predicate SignedBy(c: Crypto, sk: KeyPair, tx: Transaction, i: nat) {
    SignBytes(c, tx, i).Ok? && sk.sign(SignBytes(c, tx, i).value).Some?
  }

  /** Input `i` of `inputs` carries the signature of the message for that input of `tx`. */
  ghost predicate SignedWith(c: Crypto, sk: KeyPair, tx: Transaction, inputs: seq<Input>, i: nat) {
    && i < |inputs| && SignBytes(c, tx, i).Ok?
    && sk.sign(SignBytes(c, tx, i).value) == Some(inputs[i].signature)
  }

  /** Sign every input; it fails exactly if some message cannot be formed or signed. */
  method SignInputs(c: Crypto, sk: KeyPair, unsigned: Transaction) returns (r: Result<seq<Input>>)
    ensures r.Ok? <==> forall i :: 0 <= i < |unsigned.inputs| ==> SignedBy(c, sk, unsigned, i)
    ensures r.Ok? ==> SameUnsigned(unsigned.inputs, r.value)
    ensures r.Ok? ==> forall i :: 0 <= i < |r.value| ==> SignedWith(c, sk, unsigned, r.value, i)
  {
    var inputs := unsigned.inputs;
    for i := 0 to |inputs|
      invariant SameUnsigned(unsigned.inputs, inputs)
      invariant forall j :: i <= j < |inputs| ==> inputs[j] == unsigned.inputs[j]
      invariant forall j :: 0 <= j < i ==> SignedBy(c, sk, unsigned, j) && SignedWith(c, sk, unsigned, inputs, j)
    {
      var data := GetInputDataToSignByIndex(c, unsigned, i);
      if data.Err? {
        assert !SignedBy(c, sk, unsigned, i);
        return Err(data.error);
      }
      var signature := sk.sign(data.value);
      if signature.None? {
        assert !SignedBy(c, sk, unsigned, i);
        return Err(BadSignature);
      }
      assert StripInput(inputs[i]) == StripInput(unsigned.inputs[i]);
      inputs := inputs[i := inputs[i].(signature := signature.value)];
    }
    return Ok(inputs);
  }

  lemma SignBytesUnsigned(c: Crypto, t: Transaction, u: Transaction)
    requires SameUnsigned(t.inputs, u.inputs) && t.outputs == u.outputs
    ensures forall i :: 0 <= i < |t.inputs| ==> SignBytes(c, t, i) == SignBytes(c, u, i)
  {
    forall i | 0 <= i < |t.inputs|
      ensures SignBytes(c, t, i) == SignBytes(c, u, i)
    {
      assert StripInput(t.inputs[i]) == StripInput(u.inputs[i]);
    }
  }

  lemma {:induction false} EncodableTogether(inputs: seq<Input>)
    requires forall i :: 0 <= i < |inputs| ==> InputBytes(inputs[i]).Ok?
    ensures InputsBytes(inputs).Ok?
  {
    if inputs == [] {
    } else {
      assert forall i :: 0 <= i < |inputs| - 1 ==> inputs[1..][i] == inputs[i + 1];
      EncodableTogether(inputs[1..]);
    }
  }

  /** Once every input is signed, hashing cannot fail: the empty transaction the program would then return
      with no error never comes out. */
  lemma SignedIsEncodable(c: Crypto, tx: Transaction)
    requires tx.height == 0 && forall i :: 0 <= i < |tx.inputs| ==> SignBytes(c, tx, i).Ok?
    ensures TxBytes(c, tx, false).Ok?
  {
    forall i | 0 <= i < |tx.inputs|
      ensures InputBytes(tx.inputs[i]).Ok?
    {
      assert SignBytes(c, tx, i).Ok?;
    }
    EncodableTogether(tx.inputs);
    VarintDefined(0);
  }

  /** The output that returns to the wallet what is not paid. */
  ghost function Change(sk: KeyPair, utxos: Utxos, outputs: seq<Output>): Output {
    Output(Total(utxos) - TotalOut(outputs), sk.publicKeyBytes)
  }

  /** All the wallet's outputs in, the requested outputs and the change out. */
  ghost predicate Pending(c: Crypto, sk: KeyPair, utxos: Utxos, outputs: seq<Output>, tx: Transaction) {
    && Claims(tx.inputs, utxos)
    && tx.outputs == outputs + [Change(sk, utxos, outputs)]
    && TotalIn(tx.inputs, utxos) == Total(utxos)
    && HashOk(c, tx)
    && forall i :: 0 <= i < |tx.inputs| ==> SignedWith(c, sk, tx, tx.inputs, i)
  }

  /** Every output of the wallet can be named in a message, and the message signed. */
  ghost predicate CanSign(c: Crypto, sk: KeyPair, utxos: Utxos, outputs: seq<Output>) {
    forall k :: k in utxos ==>
      var input := InputBytes(Input(k.prevTxHash, k.index, []));
      && input.Ok?
      && sk.sign(input.value + OutputsBytes(c, outputs + [Change(sk, utxos, outputs)])).Some?
  }

  lemma SignableExactly(c: Crypto, sk: KeyPair, utxos: Utxos, outputs: seq<Output>, tx: Transaction)
    requires Claims(tx.inputs, utxos) && tx.outputs == outputs + [Change(sk, utxos, outputs)]
    ensures (forall i :: 0 <= i < |tx.inputs| ==> SignedBy(c, sk, tx, i)) <==> CanSign(c, sk, utxos, outputs)
  {
    forall i | 0 <= i < |tx.inputs|
      ensures InputBytes(tx.inputs[i]) == InputBytes(StripInput(tx.inputs[i]))
      ensures Outpoint(tx.inputs[i]) in utxos
    {
      assert Outpoint(tx.inputs[i]) in Keys(tx.inputs);
    }
    if forall i :: 0 <= i < |tx.inputs| ==> SignedBy(c, sk, tx, i) {
      forall k | k in utxos
        ensures exists i :: 0 <= i < |tx.inputs| && SignedBy(c, sk, tx, i) && Outpoint(tx.inputs[i]) == k
      {
        assert k in Keys(tx.inputs);
      }
    }
  }

  /** A transfer is built exactly if every output of the wallet can be named and signed for. */
  method CreatePendingTransaction(c: Crypto, sk: KeyPair, utxos: Utxos, outputs: seq<Output>)
    returns (r: Result<Transaction>)
    ensures r.Ok? <==> CanSign(c, sk, utxos, outputs)
    ensures r.Ok? ==> Pending(c, sk, utxos, outputs, r.value)
  {
    var inputs, totalInputValue := BuildInputs(utxos);
    var totalOutputValue := 0.0;
    for i := 0 to |outputs|
      invariant totalOutputValue + TotalOut(outputs[i..]) == TotalOut(outputs)
    {
      assert outputs[i..][1..] == outputs[i + 1..];
      totalOutputValue := totalOutputValue + outputs[i].value;
    }
    var change := Output(totalInputValue - totalOutputValue, sk.publicKeyBytes);
    r := SignAndHash(c, sk, Transaction("", inputs, outputs + [change], 0), utxos, outputs);
  }

  /** Sign the inputs of a transfer and fill in its hash. */
  method SignAndHash(c: Crypto, sk: KeyPair, unsigned: Transaction, ghost utxos: Utxos, ghost outputs: seq<Output>)
    returns (r: Result<Transaction>)
    requires Claims(unsigned.inputs, utxos) && TotalIn(unsigned.inputs, utxos) == Total(utxos)
    requires unsigned.outputs == outputs + [Change(sk, utxos, outputs)] && unsigned.height == 0
    ensures r.Ok? <==> CanSign(c, sk, utxos, outputs)
    ensures r.Ok? ==> Pending(c, sk, utxos, outputs, r.value)
  {
    SignableExactly(c, sk, utxos, outputs, unsigned);
    var signed :- SignInputs(c, sk, unsigned);
    var filled := HashSigned(c, sk, unsigned, signed);
    UnsignedKeepsClaims(unsigned.inputs, signed, utxos);
    return Ok(filled);
  }

  /** The transaction with signed inputs and its hash. */
  method HashSigned(c: Crypto, sk: KeyPair, unsigned: Transaction, signed: seq<Input>) returns (filled: Transaction)
    requires SameUnsigned(unsigned.inputs, signed) && unsigned.height == 0
    requires forall i :: 0 <= i < |signed| ==> SignedWith(c, sk, unsigned, signed, i)
    ensures HashOk(c, filled) && filled.inputs == signed && filled.outputs == unsigned.outputs
    ensures forall i :: 0 <= i < |signed| ==> SignedWith(c, sk, filled, signed, i)
  {
    var tx := unsigned.(inputs := signed);
    SignBytesUnsigned(c, unsigned, tx);
    forall i | 0 <= i < |signed|
      ensures SignBytes(c, tx, i).Ok?
    {
      assert SignedWith(c, sk, unsigned, signed, i);
    }
    SignedIsEncodable(c, tx);
    var err;
    filled, err := LedgerOps.FillTxHash(c, tx);
    SignBytesUnsigned(c, unsigned, filled);
    forall i | 0 <= i < |signed|
      ensures SignedWith(c, sk, filled, signed, i)
    {
      assert SignedWith(c, sk, unsigned, signed, i);
    }
  }

  /** A transfer is valid at the node exactly when the requested values are non-negative and within the
      balance; inputs and outputs are then equal, so it pays no fee. */
  lemma TransferValid(c: Crypto, sk: KeyPair, utxos: Utxos, outputs: seq<Output>, tx: Transaction, l: Utxos)
    requires Matches(c, sk) && Owned(sk, utxos, l) && Pending(c, sk, utxos, outputs, tx)
    ensures TotalIn(tx.inputs, l) == TotalOut(tx.outputs) == Total(utxos)
    ensures ValidTx(c, tx, l) <==> NonNegative(outputs) && TotalOut(outputs) <= Total(utxos)
  {
    var change := Change(sk, utxos, outputs);
    TotalOutConcat(outputs, change);
    forall i | 0 <= i < |tx.inputs|
      ensures Outpoint(tx.inputs[i]) in l && Signed(c, tx, i, l)
      ensures ValueAt(l, Outpoint(tx.inputs[i])) == ValueAt(utxos, Outpoint(tx.inputs[i]))
    {
      assert SignedWith(c, sk, tx, tx.inputs, i);
      assert Outpoint(tx.inputs[i]) in Keys(tx.inputs);
    }
    TotalInAgrees(tx.inputs, l, utxos);
    assert tx.outputs[|outputs|] == change;
    assert forall i :: 0 <= i < |outputs| ==> tx.outputs[i] == outputs[i];
  }

  /** Given exactly the outputs of its key in a ledger, a wallet owns them there, and the transfer it builds is valid
      there exactly if no requested value is negative and together they are within what the key has. */
  lemma ServedCanBeSpent(c: Crypto, sk: KeyPair, utxos: Utxos, outputs: seq<Output>, tx: Transaction, l: Utxos)
    requires Matches(c, sk)
    requires forall k :: k in utxos <==> k in l && l[k].publicKey == sk.publicKeyBytes
    requires forall k :: k in utxos ==> utxos[k] == l[k]
    requires Pending(c, sk, utxos, outputs, tx)
    ensures Owned(sk, utxos, l)
    ensures ValidTx(c, tx, l) <==>
      && (forall i :: 0 <= i < |outputs| ==> 0.0 <= outputs[i].value)
      && TotalOut(outputs) <= KeyTotal(l, sk.publicKeyBytes)
  {
    assert utxos == OwnedBy(l, sk.publicKeyBytes);
    TransferValid(c, sk, utxos, outputs, tx, l);
  }

  /** On a ledger where the outputs served may have been spent since, it is valid exactly if none of them was. */
  lemma ServedThenSpent(c: Crypto, sk: KeyPair, utxos: Utxos, outputs: seq<Output>, tx: Transaction, m: Utxos)
    requires Matches(c, sk) && Pending(c, sk, utxos, outputs, tx)
    requires forall k :: k in utxos ==> utxos[k].publicKey == sk.publicKeyBytes
    requires forall k :: k in utxos && k in m ==> m[k] == utxos[k]
    ensures ValidTx(c, tx, m) <==>
      && utxos.Keys <= m.Keys
      && (forall i :: 0 <= i < |outputs| ==> 0.0 <= outputs[i].value) && TotalOut(outputs) <= Total(utxos)
  {
    if utxos.Keys <= m.Keys {
      TransferValid(c, sk, utxos, outputs, tx, m);
    } else {
      var k :| k in utxos && k !in m;
      assert k in Keys(tx.inputs);
      var i :| 0 <= i < |tx.inputs| && Outpoint(tx.inputs[i]) == k;
      assert !Present(tx.inputs, m);
    }
  }

  /** A transfer with a new id takes from the wallet what it asked to pay to other keys and nothing else, and every
      other key gains exactly what was asked for it. */
  lemma TransferPays(c: Crypto, sk: KeyPair, utxos: Utxos, outputs: seq<Output>, tx: Transaction, l: Utxos)
    requires Owned(sk, utxos, l) && Pending(c, sk, utxos, outputs, tx)
    requires forall k :: k in l ==> k.prevTxHash != tx.hash
    ensures KeyTotal(ApplyTx(tx, l), sk.publicKeyBytes) ==
      KeyTotal(l, sk.publicKeyBytes) - (TotalOut(outputs) - PaidTo(outputs, sk.publicKeyBytes))
    ensures forall pk :: pk != sk.publicKeyBytes ==>
      KeyTotal(ApplyTx(tx, l), pk) == KeyTotal(l, pk) + PaidTo(outputs, pk)
  {
    TransferMoves(c, sk, utxos, outputs, tx, l, sk.publicKeyBytes);
    forall pk | pk != sk.publicKeyBytes
      ensures KeyTotal(ApplyTx(tx, l), pk) == KeyTotal(l, pk) + PaidTo(outputs, pk)
    {
      TransferMoves(c, sk, utxos, outputs, tx, l, pk);
    }
  }

  lemma TransferMoves(
      c: Crypto, sk: KeyPair, utxos: Utxos, outputs: seq<Output>, tx: Transaction, l: Utxos, pk: seq<byte>)
    requires Owned(sk, utxos, l) && Pending(c, sk, utxos, outputs, tx)
    requires forall k :: k in l ==> k.prevTxHash != tx.hash
    ensures KeyTotal(ApplyTx(tx, l), pk) ==
      KeyTotal(l, pk) + PaidTo(outputs, pk) - if pk == sk.publicKeyBytes then TotalOut(outputs) else 0.0
  {
    var change := Change(sk, utxos, outputs);
    KeyBalance(tx, l, pk);
    assert tx.outputs[|outputs|] == change && tx.outputs[..|outputs|] == outputs;
    forall i | 0 <= i < |tx.inputs|
      ensures Outpoint(tx.inputs[i]) in utxos
    {
      assert Outpoint(tx.inputs[i]) in Keys(tx.inputs);
    }
    TotalInAgrees(tx.inputs, OwnedBy(l, pk), if pk == sk.publicKeyBytes then utxos else map[]);
    if pk != sk.publicKeyBytes {
      NothingClaimed(tx.inputs);
    }
  }

  lemma {:induction false} NothingClaimed(inputs: seq<Input>)
    ensures TotalIn(inputs, map[]) == 0.0
  {
    if inputs == [] {
    } else {
      NothingClaimed(inputs[1..]);
    }
  }
}
