/** What the outputs of one key are, and what a transaction does to their total. */
module Ownership {
  import opened LedgerSpec
  import opened Types

  /** The part of a ledger that belongs to one key. */
  ghost function OwnedBy(l: Utxos, pk: seq<byte>): Utxos {
    map k | k in l && l[k].publicKey == pk :: l[k]
  }

  /** An entry of the ledger is in the answer for a key exactly if that is its key, so answers for different keys
      share nothing and every entry is in the answer for its own. */
  lemma ServedOutputs(l: Utxos, pk: seq<byte>, other: seq<byte>)
    ensures forall k :: k in OwnedBy(l, pk) <==> k in l && l[k].publicKey == pk
    ensures forall k :: k in OwnedBy(l, pk) ==> OwnedBy(l, pk)[k] == l[k]
    ensures pk != other ==> OwnedBy(l, pk).Keys !! OwnedBy(l, other).Keys
    ensures forall k :: k in l ==> k in OwnedBy(l, l[k].publicKey)
  {
  }

  ghost function KeyTotal(l: Utxos, pk: seq<byte>): real {
    Total(OwnedBy(l, pk))
  }

  /** What the outputs pay to a key. */
  ghost function PaidTo(outputs: seq<Output>, pk: seq<byte>): real {
    if outputs == [] then 0.0
    else
      var o := outputs[|outputs| - 1];
      PaidTo(outputs[..|outputs| - 1], pk) + if o.publicKey == pk then o.value else 0.0
  }

  /** Claiming inputs takes away what they hold; an input that is not there takes nothing. */
  lemma {:induction false} TotalClaimed(inputs: seq<Input>, l: Utxos)
    requires Distinct(inputs)
    ensures Total(l - Keys(inputs)) == Total(l) - TotalIn(inputs, l)
  {
    if inputs == [] {
      assert l - Keys(inputs) == l;
    } else {
      var k, rest := Outpoint(inputs[0]), inputs[1..];
      assert forall i :: 0 <= i < |rest| ==> rest[i] == inputs[i + 1];
      assert forall i :: 1 <= i < |inputs| ==> inputs[i] == rest[i - 1];
      var m := l - {k};
      if k in l {
        SumRemove(l, k, Value);
      } else {
        assert m == l;
      }
      TotalClaimed(rest, m);
      TotalInAgrees(rest, l, m);
      assert Keys(inputs) == {k} + Keys(rest);
      assert m - Keys(rest) == l - Keys(inputs);
    }
  }

  lemma KeyGains(m: Utxos, k: UTXOLite, o: Output, pk: seq<byte>)
    requires k !in m
    ensures KeyTotal(m[k := o], pk) == KeyTotal(m, pk) + if o.publicKey == pk then o.value else 0.0
  {
    var before, after := OwnedBy(m, pk), OwnedBy(m[k := o], pk);
    if o.publicKey == pk {
      assert after == before[k := o];
      SumUpdate(before, k, o, Value);
    } else {
      assert after == before;
    }
  }

  lemma {:induction false} KeyStored(h: Hash, outputs: seq<Output>, l: Utxos, pk: seq<byte>)
    requires FreshOuts(h, outputs, l)
    ensures KeyTotal(l + OutMap(h, outputs), pk) == KeyTotal(l, pk) + PaidTo(outputs, pk)
  {
    if outputs == [] {
      assert l + OutMap(h, outputs) == l;
    } else {
      var n := |outputs| - 1;
      KeyStored(h, outputs[..n], l, pk);
      OutMapSnoc(h, outputs, l);
      KeyGains(l + OutMap(h, outputs[..n]), UTXOLite(h, n), outputs[n], pk);
    }
  }

  /** A transaction with a new id changes what a key has by what its outputs pay to the key less what its inputs
      take from it. */
  lemma KeyBalance(tx: Transaction, l: Utxos, pk: seq<byte>)
    requires Distinct(tx.inputs) && FreshOuts(tx.hash, tx.outputs, l - Keys(tx.inputs))
    ensures KeyTotal(ApplyTx(tx, l), pk) ==
      KeyTotal(l, pk) - TotalIn(tx.inputs, OwnedBy(l, pk)) + PaidTo(tx.outputs, pk)
  {
    var claimed := l - Keys(tx.inputs);
    TotalClaimed(tx.inputs, OwnedBy(l, pk));
    assert OwnedBy(claimed, pk) == OwnedBy(l, pk) - Keys(tx.inputs);
    KeyStored(tx.hash, tx.outputs, claimed, pk);
  }
}
