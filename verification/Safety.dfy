/** Properties of whole runs of one node: supply, single spending, conservation. */
module Safety {
  import opened Agreement
  import opened Encoding
  import opened LedgerSpec
  import opened NodeSpec
  import opened Types

  // ----- supply -----

  lemma BlockSupply(c: Crypto, cfg: Config, b: Block, l: Utxos)
    requires cfg.Valid() && BodyVerdict(c, cfg, b, l) == None
    ensures Supply(BlockLedger(c, b, l)) <= Supply(l) + cfg.reward
  {
    FeeIsDefined(b.txs, l);
    BatchSupply(c, b.txs, l);
    CoinbaseSupply(c, b.coinbase, Replay(c, b.txs, l).ledger, Fee(b.txs, l).value + cfg.reward);
  }

  /** What `height` rewards can have issued. */
  ghost function Issued(cfg: Config, height: int): real {
    height as real * cfg.reward
  }

  lemma IssuedStep(cfg: Config, height: int)
    ensures Issued(cfg, height + 1) == Issued(cfg, height) + cfg.reward
  {
    assert (height + 1) as real == height as real + 1.0;
  }

  lemma ParentSupply(c: Crypto, cfg: Config, s: NodeState, h: Hash)
    requires cfg.Valid() && Inv(c, cfg, s) && h in s.chain && h != GENESIS_HASH
    ensures var p := s.chain[h].block.prevHash;
      p in s.chain && Supply(s.chain[h].ledger) <= Supply(s.chain[p].ledger) + cfg.reward
  {
    assert Linked(s, h) && ValidAt(c, cfg, s, h);
    BlockSupply(c, cfg, s.chain[h].block, s.chain[s.chain[h].block.prevHash].ledger);
  }

  lemma {:induction false} SupplyAtHeight(c: Crypto, cfg: Config, s: NodeState, h: Hash)
    requires cfg.Valid() && Inv(c, cfg, s) && h in s.chain
    ensures Supply(s.chain[h].ledger) <= Issued(cfg, s.chain[h].height)
    decreases s.chain[h].height
  {
    if h != GENESIS_HASH {
      assert Linked(s, h);
      var p := s.chain[h].block.prevHash;
      SupplyAtHeight(c, cfg, s, p);
      ParentSupply(c, cfg, s, h);
      IssuedStep(cfg, s.chain[p].height);
    } else {
      assert Issued(cfg, 0) == 0.0;
    }
  }

  /** On any branch of any reachable state, the supply at height h is at most h rewards. */
  lemma SupplyBound(c: Crypto, cfg: Config, steps: seq<Step>, h: Hash)
    requires cfg.Valid() && h in Reached(c, cfg, steps).chain
    ensures var e := Reached(c, cfg, steps).chain[h];
      Supply(e.ledger) <= Issued(cfg, e.height)
  {
    SupplyAtHeight(c, cfg, Reached(c, cfg, steps), h);
  }

  /** The comments let a miner claim the reward plus the fees paid; the code adds a fee that is minus
      what was paid. The documented amount passes exactly when nothing was paid. */
  lemma ClaimingFees(c: Crypto, cfg: Config, b: Block, l: Utxos)
    requires Fee(b.txs, l).Ok? && Replay(c, b.txs, l).failed == []
    requires CoinbaseOk(c, b.coinbase, cfg.reward - Fee(b.txs, l).value)
    requires b.coinbase.outputs[0].value == cfg.reward - Fee(b.txs, l).value
    ensures BodyVerdict(c, cfg, b, l) == None <==> Fee(b.txs, l).value == 0.0
  {
    FeeIsDefined(b.txs, l);
  }

  // ----- transaction ids and outpoints along a branch -----

  /** All transactions of a branch in the order they reach the ledger. */
  ghost function History(bs: seq<Block>): seq<Transaction> {
    if bs == [] then []
    else History(bs[..|bs| - 1]) + (bs[|bs| - 1].txs + [bs[|bs| - 1].coinbase])
  }

  /** Every transaction finds its inputs unspent, and names none twice, when its turn comes. */
  ghost predicate Admissible(ts: seq<Transaction>, l: Utxos) {
    forall n :: 0 <= n < |ts| ==> Present(ts[n].inputs, ApplyAll(ts[..n], l)) && Distinct(ts[n].inputs)
  }

  lemma {:induction false} ApplyAllConcat(a: seq<Transaction>, b: seq<Transaction>, l: Utxos)
    ensures ApplyAll(a + b, l) == ApplyAll(b, ApplyAll(a, l))
  {
    if a == [] {
      assert [] + b == b;
    } else {
      assert (a + b)[1..] == a[1..] + b;
      ApplyAllConcat(a[1..], b, ApplyTx(a[0], l));
    }
  }

  lemma AdmissibleConcat(a: seq<Transaction>, b: seq<Transaction>, l: Utxos)
    requires Admissible(a, l) && Admissible(b, ApplyAll(a, l))
    ensures Admissible(a + b, l)
  {
    var ts := a + b;
    forall n | 0 <= n < |ts|
      ensures Present(ts[n].inputs, ApplyAll(ts[..n], l)) && Distinct(ts[n].inputs)
    {
      if n < |a| {
        assert ts[..n] == a[..n];
      } else {
        assert ts[..n] == a + b[..n - |a|];
        ApplyAllConcat(a, b[..n - |a|], l);
      }
    }
  }

  lemma {:induction false} SuccessIsAdmissible(c: Crypto, txs: seq<Transaction>, l: Utxos)
    requires Replay(c, txs, l).failed == []
    ensures Admissible(txs, l)
  {
    if txs == [] {
    } else {
      var m := ApplyTx(txs[0], l);
      SuccessIsAdmissible(c, txs[1..], m);
      assert ApplyAll([txs[0]], l) == m by {
        assert [txs[0]][1..] == [];
      }
      assert Admissible([txs[0]], l) by {
        assert [txs[0]][..0] == [];
      }
      AdmissibleConcat([txs[0]], txs[1..], l);
      assert txs == [txs[0]] + txs[1..];
    }
  }

  lemma BlockIsAdmissible(c: Crypto, cfg: Config, b: Block, l: Utxos)
    requires BodyVerdict(c, cfg, b, l) == None
    ensures Admissible(b.txs + [b.coinbase], l)
    ensures ApplyAll(b.txs + [b.coinbase], l) == BlockLedger(c, b, l)
  {
    SuccessIsAdmissible(c, b.txs, l);
    SuccessAppliesAll(c, b.txs, l);
    var m := ApplyAll(b.txs, l);
    AdmissibleConcat(b.txs, [b.coinbase], l);
    ApplyAllConcat(b.txs, [b.coinbase], l);
    assert [b.coinbase][1..] == [];
    assert ApplyAll([b.coinbase], m) == ApplyTx(b.coinbase, m);
  }

  lemma {:induction false} HistoryIsAdmissible(c: Crypto, cfg: Config, s: NodeState, h: Hash)
    requires Inv(c, cfg, s) && h in s.chain
    ensures Admissible(History(Branch(s, h)), map[])
    ensures s.chain[h].ledger == ApplyAll(History(Branch(s, h)), map[])
    decreases s.chain[h].height
  {
    if h == GENESIS_HASH {
    } else {
      var b := s.chain[h].block;
      var p := b.prevHash;
      assert Linked(s, h) && ValidAt(c, cfg, s, h);
      HistoryIsAdmissible(c, cfg, s, p);
      BlockIsAdmissible(c, cfg, b, s.chain[p].ledger);
      var past, now := History(Branch(s, p)), b.txs + [b.coinbase];
      assert Branch(s, h)[..|Branch(s, h)| - 1] == Branch(s, p);
      assert History(Branch(s, h)) == past + now;
      AdmissibleConcat(past, now, map[]);
      ApplyAllConcat(past, now, map[]);
    }
  }

  // ----- every spend is signed -----

  /** Every transaction that claims something is valid when its turn comes. */
  ghost predicate Authorised(c: Crypto, ts: seq<Transaction>, l: Utxos) {
    forall n :: 0 <= n < |ts| && ts[n].inputs != [] ==> ValidTx(c, ts[n], ApplyAll(ts[..n], l))
  }

  lemma AuthorisedConcat(c: Crypto, a: seq<Transaction>, b: seq<Transaction>, l: Utxos)
    requires Authorised(c, a, l) && Authorised(c, b, ApplyAll(a, l))
    ensures Authorised(c, a + b, l)
  {
    var ts := a + b;
    forall n | 0 <= n < |ts| && ts[n].inputs != []
      ensures ValidTx(c, ts[n], ApplyAll(ts[..n], l))
    {
      if n < |a| {
        assert ts[..n] == a[..n];
      } else {
        assert ts[..n] == a + b[..n - |a|];
        ApplyAllConcat(a, b[..n - |a|], l);
      }
    }
  }

  lemma {:induction false} SuccessIsAuthorised(c: Crypto, txs: seq<Transaction>, l: Utxos)
    requires Replay(c, txs, l).failed == []
    ensures Authorised(c, txs, l)
  {
    if txs == [] {
    } else {
      var m := ApplyTx(txs[0], l);
      SuccessIsAuthorised(c, txs[1..], m);
      assert ApplyAll([txs[0]], l) == m by {
        assert [txs[0]][1..] == [];
      }
      assert Authorised(c, [txs[0]], l) by {
        assert [txs[0]][..0] == [];
      }
      AuthorisedConcat(c, [txs[0]], txs[1..], l);
      assert txs == [txs[0]] + txs[1..];
    }
  }

  lemma {:induction false} HistoryIsAuthorised(c: Crypto, cfg: Config, s: NodeState, h: Hash)
    requires Inv(c, cfg, s) && h in s.chain
    ensures Authorised(c, History(Branch(s, h)), map[])
    decreases s.chain[h].height
  {
    if h == GENESIS_HASH {
    } else {
      var b := s.chain[h].block;
      var p := b.prevHash;
      assert Linked(s, h) && ValidAt(c, cfg, s, h);
      HistoryIsAuthorised(c, cfg, s, p);
      HistoryIsAdmissible(c, cfg, s, p);
      SuccessIsAuthorised(c, b.txs, s.chain[p].ledger);
      AuthorisedConcat(c, b.txs, [b.coinbase], s.chain[p].ledger);
      AuthorisedConcat(c, History(Branch(s, p)), b.txs + [b.coinbase], map[]);
      assert Branch(s, h)[..|Branch(s, h)| - 1] == Branch(s, p);
    }
  }

  /** On every branch of every reachable state, each output that is claimed was there, and its key verifies the
      signature of the claim over the bytes of that input followed by those of all outputs. The id of the
      transaction is the digest of its content, and it pays out no more than it claims. */
  lemma SpendsAreSigned(c: Crypto, cfg: Config, steps: seq<Step>, h: Hash, n: nat, i: nat)
    requires h in Reached(c, cfg, steps).chain
    requires n < |History(Branch(Reached(c, cfg, steps), h))|
    requires i < |History(Branch(Reached(c, cfg, steps), h))[n].inputs|
    ensures var ts := History(Branch(Reached(c, cfg, steps), h));
      var l, t, k := ApplyAll(ts[..n], map[]), ts[n], Outpoint(ts[n].inputs[i]);
      && k in l && c.parseKey(l[k].publicKey).Some? && InputBytes(t.inputs[i]).Ok?
      && c.verify(InputBytes(t.inputs[i]).value + OutputsBytes(c, t.outputs),
                  c.parseKey(l[k].publicKey).value, t.inputs[i].signature)
      && TxBytes(c, t, false).Ok? && t.hash == BytesToHex(c.sha256(TxBytes(c, t, false).value))
      && (forall j :: 0 <= j < |t.outputs| ==> 0.0 <= t.outputs[j].value)
      && TotalOut(t.outputs) <= TotalIn(t.inputs, l)
  {
    var ts := History(Branch(Reached(c, cfg, steps), h));
    HistoryIsAuthorised(c, cfg, Reached(c, cfg, steps), h);
    var l := ApplyAll(ts[..n], map[]);
    assert ValidTx(c, ts[n], l);
    assert Outpoint(ts[n].inputs[i]) in l && Signed(c, ts[n], i, l);
  }

  /** Equal ids mean equal hashed content. */
  ghost predicate NoTxCollision(ts: seq<Transaction>) {
    forall i, j :: 0 <= i < |ts| && 0 <= j < |ts| && ts[i].hash == ts[j].hash ==> StripTx(ts[i]) == StripTx(ts[j])
  }

  /** Equal ids mean equal counts of inputs and outputs and equal lengths of the keys. */
  ghost predicate SameIdSameShape(ts: seq<Transaction>) {
    forall i, j :: 0 <= i < |ts| && 0 <= j < |ts| && ts[i].hash == ts[j].hash ==> SameTxShape(ts[i], ts[j])
  }

  /** Equal digests come from equal bytes. */
  ghost predicate DigestsTell(c: Crypto, t: Transaction, u: Transaction) {
    TxBytes(c, t, false).Ok? && TxBytes(c, u, false).Ok?
      && c.sha256(TxBytes(c, t, false).value) == c.sha256(TxBytes(c, u, false).value) ==>
        TxBytes(c, t, false) == TxBytes(c, u, false)
  }

  /** The digest and the float encoding separate the transactions: equal digests come from equal bytes, and
      equal float bits from equal amounts. */
  ghost predicate SeparatesTxs(c: Crypto, ts: seq<Transaction>) {
    forall i, j :: 0 <= i < |ts| && 0 <= j < |ts| ==>
      Separates(c, ts[i].outputs, ts[j].outputs) && DigestsTell(c, ts[i], ts[j])
  }

  /** A digest that separates the bytes of two transactions of one shape separates them. */
  lemma DigestSeparatesTxs(c: Crypto, t: Transaction, u: Transaction)
    requires HashOk(c, t) && HashOk(c, u) && t.hash == u.hash
    requires SameTxShape(t, u) && LowerHexInputs(t.inputs) && LowerHexInputs(u.inputs)
    requires Separates(c, t.outputs, u.outputs) && DigestsTell(c, t, u)
    ensures StripTx(t) == StripTx(u)
  {
    DigestHex(c, TxBytes(c, t, false).value);
    HexRoundTrip(c.sha256(TxBytes(c, t, false).value));
    HexRoundTrip(c.sha256(TxBytes(c, u, false).value));
    assert TxBytes(c, t, false).value + [] == TxBytes(c, u, false).value + [];
    TxBytesInjective(c, t, u, false, [], []);
    assert StripTx(t) == StripTx(t).(hash := "").(hash := t.hash);
    assert StripTx(u) == StripTx(u).(hash := "").(hash := t.hash);
  }

  lemma {:induction false} HistorySettled(c: Crypto, bs: seq<Block>)
    requires forall i :: 0 <= i < |bs| ==> SettledBlock(c, bs[i])
    ensures forall t :: t in History(bs) ==> Settled(c, t)
  {
    if bs == [] {
    } else {
      HistorySettled(c, bs[..|bs| - 1]);
    }
  }

  lemma BranchSettled(c: Crypto, cfg: Config, s: NodeState, h: Hash)
    requires Inv(c, cfg, s) && h in s.chain
    ensures forall i :: 0 <= i < |Branch(s, h)| ==> SettledBlock(c, Branch(s, h)[i])
    ensures forall t :: t in History(Branch(s, h)) ==> Settled(c, t)
  {
    forall i | 0 <= i < |Branch(s, h)|
      ensures SettledBlock(c, Branch(s, h)[i])
    {
      BranchOfPath(s, h, i);
      ChainHex(c, cfg, s, Path(s, h)[i + 1]);
    }
    HistorySettled(c, Branch(s, h));
  }

  /** With a digest that separates, equal ids on a branch mean equal content exactly if they mean equal shape. */
  lemma IdsCollideExactly(c: Crypto, ts: seq<Transaction>)
    requires (forall t :: t in ts ==> Settled(c, t)) && SeparatesTxs(c, ts)
    ensures NoTxCollision(ts) <==> SameIdSameShape(ts)
  {
    forall i, j | 0 <= i < |ts| && 0 <= j < |ts| && ts[i].hash == ts[j].hash
      ensures StripTx(ts[i]) == StripTx(ts[j]) <==> SameTxShape(ts[i], ts[j])
    {
      assert ts[i] in ts && ts[j] in ts;
      if SameTxShape(ts[i], ts[j]) {
        DigestSeparatesTxs(c, ts[i], ts[j]);
      }
      if StripTx(ts[i]) == StripTx(ts[j]) {
        SameTxContent(ts[i], ts[j]);
      }
    }
  }

  /** Transactions that claim nothing have ids of their own. */
  ghost predicate SourcesDistinct(ts: seq<Transaction>) {
    forall i, j :: 0 <= i < j < |ts| && ts[i].inputs == [] && ts[j].inputs == [] ==> ts[i].hash != ts[j].hash
  }

  /** Outpoint `k` is consumed by transaction `i`. */
  ghost predicate Consumes(ts: seq<Transaction>, i: int, k: UTXOLite) {
    0 <= i < |ts| && k in Keys(ts[i].inputs)
  }

  /** Outpoint `k` carries the id of one of the first `n` transactions. */
  ghost predicate Created(ts: seq<Transaction>, n: int, k: UTXOLite) {
    0 <= n <= |ts| && exists j :: 0 <= j < n && ts[j].hash == k.prevTxHash
  }

  /** Ids are new, unspent outputs come from past transactions, and consumed outputs stay consumed. */
  ghost predicate SingleSpend(ts: seq<Transaction>) {
    var l := ApplyAll(ts, map[]);
    && DistinctIds(ts)
    && (forall k :: k in l ==> Created(ts, |ts|, k))
    && (forall i, k :: Consumes(ts, i, k) ==> k !in l && Created(ts, i, k))
    && (forall i, j, k :: Consumes(ts, i, k) && Consumes(ts, j, k) ==> i == j)
  }

  lemma AdmissibleStep(ts: seq<Transaction>)
    requires ts != [] && Admissible(ts, map[])
    ensures var past := ts[..|ts| - 1];
      var t, l := ts[|ts| - 1], ApplyAll(ts[..|ts| - 1], map[]);
      && Admissible(past, map[])
      && Present(t.inputs, l) && Distinct(t.inputs)
      && ApplyAll(ts, map[]) == ApplyTx(t, l)
  {
    var past, t := ts[..|ts| - 1], ts[|ts| - 1];
    assert forall n :: 0 <= n < |past| ==> past[..n] == ts[..n] && past[n] == ts[n];
    assert ts == past + [t];
    ApplyAllConcat(past, [t], map[]);
    assert [t][1..] == [];
  }

  lemma FreshId(ts: seq<Transaction>, n: nat)
    requires n + 1 == |ts| && Admissible(ts, map[]) && NoTxCollision(ts) && SourcesDistinct(ts)
    requires SingleSpend(ts[..n])
    ensures forall i :: 0 <= i < n ==> ts[i].hash != ts[n].hash
  {
    AdmissibleStep(ts);
    var past, l := ts[..n], ApplyAll(ts[..n], map[]);
    forall i | 0 <= i < n
      ensures ts[i].hash != ts[n].hash
    {
      if ts[i].hash == ts[n].hash {
        assert StripTx(ts[i]) == StripTx(ts[n]);
        assert |ts[i].inputs| == |StripTx(ts[i]).inputs| == |ts[n].inputs|;
        if ts[n].inputs != [] {
          assert StripTx(ts[i]).inputs[0] == StripTx(ts[n]).inputs[0];
          var k := Outpoint(ts[n].inputs[0]);
          assert k == Outpoint(past[i].inputs[0]);
          assert Consumes(past, i, k);
          assert false;
        }
      }
    }
  }

  /** Distinct ids are enough for every output to be consumed at most once. */
  lemma {:induction false} AdmissibleSingleSpend(ts: seq<Transaction>)
    requires Admissible(ts, map[]) && DistinctIds(ts)
    ensures SingleSpend(ts)
  {
    if ts == [] {
    } else {
      var n := |ts| - 1;
      AdmissibleStep(ts);
      assert forall i :: 0 <= i < n ==> ts[..n][i] == ts[i];
      AdmissibleSingleSpend(ts[..n]);
      SingleSpendStep(ts, n);
    }
  }

  lemma {:induction false} AdmissibleIds(ts: seq<Transaction>)
    requires Admissible(ts, map[]) && NoTxCollision(ts) && SourcesDistinct(ts)
    ensures DistinctIds(ts)
  {
    if ts == [] {
    } else {
      var n := |ts| - 1;
      AdmissibleStep(ts);
      assert forall i :: 0 <= i < n ==> ts[..n][i] == ts[i];
      AdmissibleIds(ts[..n]);
      AdmissibleSingleSpend(ts[..n]);
      FreshId(ts, n);
    }
  }

  /** Transaction `n` is applied on the ledger of the first `n`, where its inputs are unspent. */
  ghost predicate Stepping(ts: seq<Transaction>, n: nat) {
    && n + 1 == |ts| && SingleSpend(ts[..n])
    && (forall i :: 0 <= i < n ==> ts[i].hash != ts[n].hash)
    && ApplyAll(ts, map[]) == ApplyTx(ts[n], ApplyAll(ts[..n], map[]))
    && Present(ts[n].inputs, ApplyAll(ts[..n], map[]))
  }

  lemma ConsumedNow(ts: seq<Transaction>, n: nat, k: UTXOLite)
    requires Stepping(ts, n) && Consumes(ts, n, k)
    ensures k in ApplyAll(ts[..n], map[]) && Created(ts, n, k)
  {
    var m :| 0 <= m < |ts[n].inputs| && Outpoint(ts[n].inputs[m]) == k;
    CreatedIn(ts[..n], ts, n, k);
  }

  lemma ConsumedBefore(ts: seq<Transaction>, n: nat, i: nat, k: UTXOLite)
    requires Stepping(ts, n) && i < n && Consumes(ts, i, k)
    ensures Consumes(ts[..n], i, k) && k !in ApplyAll(ts[..n], map[]) && Created(ts, i, k)
  {
    assert ts[..n][i] == ts[i];
    assert Consumes(ts[..n], i, k);
    CreatedIn(ts[..n], ts, i, k);
  }

  lemma SingleSpendStep(ts: seq<Transaction>, n: nat)
    requires Stepping(ts, n)
    ensures SingleSpend(ts)
  {
    var past, t := ts[..n], ts[n];
    var l, l' := ApplyAll(past, map[]), ApplyAll(ts, map[]);
    assert forall i :: 0 <= i < n ==> past[i] == ts[i];
    forall k | k in l'
      ensures Created(ts, |ts|, k)
    {
      ApplyTxAt(t, l, k);
      if IsOut(t, k) {
        assert ts[n].hash == k.prevTxHash;
      } else {
        CreatedIn(past, ts, n, k);
      }
    }
    forall i, k | Consumes(ts, i, k)
      ensures k !in l' && Created(ts, i, k)
    {
      ApplyTxAt(t, l, k);
      if i < n {
        ConsumedBefore(ts, n, i, k);
      } else {
        ConsumedNow(ts, n, k);
      }
    }
    forall i, j, k | Consumes(ts, i, k) && Consumes(ts, j, k)
      ensures i == j
    {
      if i < n {
        ConsumedBefore(ts, n, i, k);
      } else {
        ConsumedNow(ts, n, k);
      }
      if j < n {
        ConsumedBefore(ts, n, j, k);
      } else {
        ConsumedNow(ts, n, k);
      }
    }
  }

  lemma CreatedIn(past: seq<Transaction>, ts: seq<Transaction>, n: nat, k: UTXOLite)
    requires n <= |past| <= |ts| && past == ts[..|past|] && Created(past, n, k)
    ensures Created(ts, n, k)
  {
    var j :| 0 <= j < n && past[j].hash == k.prevTxHash;
    assert ts[j].hash == k.prevTxHash;
  }

  /** Every transaction of a branch other than a coinbase claims something. */
  ghost predicate TxsHaveInputs(bs: seq<Block>) {
    forall i, t :: 0 <= i < |bs| && t in bs[i].txs ==> t.inputs != []
  }

  ghost predicate CoinbaseIdsDistinct(bs: seq<Block>) {
    forall i, j :: 0 <= i < j < |bs| ==> bs[i].coinbase.hash != bs[j].coinbase.hash
  }

  lemma {:induction false} SourcesAreCoinbases(bs: seq<Block>, t: Transaction)
    requires TxsHaveInputs(bs) && t in History(bs) && t.inputs == []
    ensures exists i :: 0 <= i < |bs| && bs[i].coinbase == t
  {
    var n := |bs| - 1;
    if t in History(bs[..n]) {
      SourcesAreCoinbases(bs[..n], t);
      var i :| 0 <= i < n && bs[..n][i].coinbase == t;
      assert bs[i].coinbase == t;
    } else {
      assert t in bs[n].txs + [bs[n].coinbase];
      assert t == bs[n].coinbase;
    }
  }

  lemma {:induction false} CoinbasesSeparateSources(bs: seq<Block>)
    requires TxsHaveInputs(bs) && CoinbaseIdsDistinct(bs)
    ensures SourcesDistinct(History(bs))
  {
    if bs == [] {
    } else {
      var n := |bs| - 1;
      CoinbasesSeparateSources(bs[..n]);
      var past, now := History(bs[..n]), bs[n].txs + [bs[n].coinbase];
      var ts := past + now;
      assert forall i :: 0 <= i < |bs[n].txs| ==> now[i] == bs[n].txs[i] && bs[n].txs[i] in bs[n].txs;
      forall i, j | 0 <= i < j < |ts| && ts[i].inputs == [] && ts[j].inputs == []
        ensures ts[i].hash != ts[j].hash
      {
        if j < |past| {
          assert ts[i] == past[i] && ts[j] == past[j];
        } else {
          assert ts[j] == now[j - |past|] == bs[n].coinbase;
          assert i < |past|;
          assert ts[i] == past[i] && past[i] in past;
          SourcesAreCoinbases(bs[..n], ts[i]);
          var m :| 0 <= m < n && bs[..n][m].coinbase == ts[i];
          assert bs[m].coinbase == ts[i];
        }
      }
    }
  }

  lemma {:induction false} SourcesSeparateCoinbases(bs: seq<Block>)
    requires SourcesDistinct(History(bs)) && forall i :: 0 <= i < |bs| ==> bs[i].coinbase.inputs == []
    ensures CoinbaseIdsDistinct(bs)
  {
    if bs == [] {
    } else {
      var n := |bs| - 1;
      var past, ts := History(bs[..n]), History(bs);
      assert ts[|ts| - 1] == bs[n].coinbase;
      assert forall k :: 0 <= k < |past| ==> ts[k] == past[k];
      SourcesSeparateCoinbases(bs[..n]);
      forall i | 0 <= i < n
        ensures bs[i].coinbase.hash != bs[n].coinbase.hash
      {
        CoinbaseInHistory(bs[..n], i);
        var k :| 0 <= k < |past| && past[k] == bs[..n][i].coinbase;
        assert ts[k].hash != ts[|ts| - 1].hash;
      }
      assert forall i :: 0 <= i < n ==> bs[..n][i] == bs[i];
    }
  }

  lemma {:induction false} CoinbaseInHistory(bs: seq<Block>, i: nat)
    requires i < |bs|
    ensures bs[i].coinbase in History(bs)
  {
    var n := |bs| - 1;
    if i == n {
      assert bs[n].coinbase in bs[n].txs + [bs[n].coinbase];
    } else {
      CoinbaseInHistory(bs[..n], i);
    }
  }

  lemma BranchCoinbases(c: Crypto, cfg: Config, s: NodeState, h: Hash)
    requires Inv(c, cfg, s) && h in s.chain
    ensures forall i :: 0 <= i < |Branch(s, h)| ==>
      var t := Branch(s, h)[i].coinbase;
      HashOk(c, t) && t.inputs == [] && |t.outputs| == 1
  {
    forall i | 0 <= i < |Branch(s, h)|
      ensures var t := Branch(s, h)[i].coinbase;
        HashOk(c, t) && t.inputs == [] && |t.outputs| == 1
    {
      BranchOfPath(s, h, i);
      assert ValidAt(c, cfg, s, Path(s, h)[i + 1]);
    }
  }

  /** The height is the end of what a transaction is hashed from. */
  lemma BytesEndInHeight(c: Crypto, t: Transaction, u: Transaction)
    requires TxBytes(c, t, false).Ok? && TxBytes(c, t, false) == TxBytes(c, u, false)
    ensures t.height == u.height
  {
    TxBytesFields(c, t, false);
    TxBytesFields(c, u, false);
    var bytes := TxBytes(c, t, false).value;
    assert bytes[|bytes| - 8..] == Varint(t.height).value;
    assert bytes[|bytes| - 8..] == Varint(u.height).value;
    VarintInjective(t.height, u.height);
  }

  lemma SameIdSameHeight(c: Crypto, t: Transaction, u: Transaction)
    requires HashOk(c, t) && HashOk(c, u) && t.hash == u.hash && DigestsTell(c, t, u)
    ensures t.height == u.height
  {
    HexRoundTrip(c.sha256(TxBytes(c, t, false).value));
    HexRoundTrip(c.sha256(TxBytes(c, u, false).value));
    BytesEndInHeight(c, t, u);
  }

  ghost predicate SeparatesCoinbases(c: Crypto, bs: seq<Block>) {
    forall i, j :: 0 <= i < |bs| && 0 <= j < |bs| ==> DigestsTell(c, bs[i].coinbase, bs[j].coinbase)
  }

  /** Every coinbase carries the height of its block (BIP 34). */
  ghost predicate CarryHeights(bs: seq<Block>) {
    forall i :: 0 <= i < |bs| ==> bs[i].coinbase.height == i + 1
  }

  lemma HeightsSeparateIds(c: Crypto, bs: seq<Block>)
    requires SeparatesCoinbases(c, bs) && CarryHeights(bs)
    requires forall i :: 0 <= i < |bs| ==> HashOk(c, bs[i].coinbase)
    ensures CoinbaseIdsDistinct(bs)
  {
    forall i, j | 0 <= i < j < |bs|
      ensures bs[i].coinbase.hash != bs[j].coinbase.hash
    {
      if bs[i].coinbase.hash == bs[j].coinbase.hash {
        assert DigestsTell(c, bs[i].coinbase, bs[j].coinbase);
        SameIdSameHeight(c, bs[i].coinbase, bs[j].coinbase);
      }
    }
  }

  /** Coinbases that carry their block's height have distinct ids, whatever shape they have. The validator does
      not check the height of a coinbase. */
  lemma HeightsSeparateCoinbases(c: Crypto, cfg: Config, steps: seq<Step>, h: Hash)
    requires h in Reached(c, cfg, steps).chain
    requires SeparatesCoinbases(c, Branch(Reached(c, cfg, steps), h)) && CarryHeights(Branch(Reached(c, cfg, steps), h))
    ensures CoinbaseIdsDistinct(Branch(Reached(c, cfg, steps), h))
  {
    BranchCoinbases(c, cfg, Reached(c, cfg, steps), h);
    HeightsSeparateIds(c, Branch(Reached(c, cfg, steps), h));
  }

  /** Along every branch of every reachable state no transaction id repeats exactly if transactions that claim
      nothing have ids of their own and equal ids mean equal shape, given a digest and a float encoding that
      separate. If only coinbases claim nothing, it is their ids that must be distinct. */
  lemma IdsDistinctExactly(c: Crypto, cfg: Config, steps: seq<Step>, h: Hash)
    requires h in Reached(c, cfg, steps).chain
    requires SeparatesTxs(c, History(Branch(Reached(c, cfg, steps), h)))
    ensures var bs := Branch(Reached(c, cfg, steps), h);
      var ts := History(bs);
      && (DistinctIds(ts) <==> SourcesDistinct(ts) && SameIdSameShape(ts))
      && (TxsHaveInputs(bs) ==> (SourcesDistinct(ts) <==> CoinbaseIdsDistinct(bs)))
  {
    var s := Reached(c, cfg, steps);
    var bs := Branch(s, h);
    HistoryIsAdmissible(c, cfg, s, h);
    BranchSettled(c, cfg, s, h);
    IdsCollideExactly(c, History(bs));
    if SourcesDistinct(History(bs)) {
      BranchCoinbases(c, cfg, s, h);
      SourcesSeparateCoinbases(bs);
      if SameIdSameShape(History(bs)) {
        AdmissibleIds(History(bs));
      }
    }
    if TxsHaveInputs(bs) && CoinbaseIdsDistinct(bs) {
      CoinbasesSeparateSources(bs);
    }
  }

  /** An output consumed by transaction `i` that is unspent after the first `n` was stored again in between. */
  lemma {:induction false} StoredSince(ts: seq<Transaction>, i: nat, n: nat, k: UTXOLite)
    requires i < n <= |ts| && Consumes(ts, i, k) && k in ApplyAll(ts[..n], map[])
    ensures exists m :: i <= m < n && IsOut(ts[m], k)
    decreases n
  {
    var past, t := ts[..n - 1], ts[n - 1];
    assert ts[..n] == past + [t] && [t][1..] == [];
    ApplyAllConcat(past, [t], map[]);
    ApplyTxAt(t, ApplyAll(past, map[]), k);
    if IsOut(t, k) || n == i + 1 {
      assert IsOut(ts[n - 1], k);
    } else {
      StoredSince(ts, i, n - 1, k);
    }
  }

  /** Along every branch of every reachable state, whatever its ids: an output that is consumed again was stored
      again after it was consumed, and one that is consumed and unspent too. */
  lemma ConsumedAgain(c: Crypto, cfg: Config, steps: seq<Step>, h: Hash, i: nat, k: UTXOLite)
    requires h in Reached(c, cfg, steps).chain
    requires Consumes(History(Branch(Reached(c, cfg, steps), h)), i, k)
    ensures var ts := History(Branch(Reached(c, cfg, steps), h));
      && (forall j :: i < j && Consumes(ts, j, k) ==> exists m :: i <= m < j && IsOut(ts[m], k))
      && (k in Reached(c, cfg, steps).chain[h].ledger ==> exists m :: i <= m < |ts| && IsOut(ts[m], k))
  {
    var s := Reached(c, cfg, steps);
    var ts := History(Branch(s, h));
    HistoryIsAdmissible(c, cfg, s, h);
    forall j | i < j && Consumes(ts, j, k)
      ensures exists m :: i <= m < j && IsOut(ts[m], k)
    {
      assert Present(ts[j].inputs, ApplyAll(ts[..j], map[]));
      StoredSince(ts, i, j, k);
    }
    if k in s.chain[h].ledger {
      assert ts[..|ts|] == ts;
      StoredSince(ts, i, |ts|, k);
    }
  }

  /** Along every branch of every reachable state on which no id repeats, no output is consumed twice, none is
      consumed before it is created, and consumed outputs are not in the ledger. */
  lemma NoDoubleSpend(c: Crypto, cfg: Config, steps: seq<Step>, h: Hash)
    requires h in Reached(c, cfg, steps).chain
    requires DistinctIds(History(Branch(Reached(c, cfg, steps), h)))
    ensures var ts := History(Branch(Reached(c, cfg, steps), h));
      && (forall i, j, k :: Consumes(ts, i, k) && Consumes(ts, j, k) ==> i == j)
      && (forall i :: 0 <= i < |ts| ==> Distinct(ts[i].inputs))
      && (forall i, k :: Consumes(ts, i, k) ==>
            Created(ts, i, k) && k !in Reached(c, cfg, steps).chain[h].ledger)
  {
    HistoryIsAdmissible(c, cfg, Reached(c, cfg, steps), h);
    AdmissibleSingleSpend(History(Branch(Reached(c, cfg, steps), h)));
  }

  // ----- conservation -----

  /** What a history has put into the ledger minus what it has taken out. */
  ghost function NetIssue(ts: seq<Transaction>): real {
    if ts == [] then 0.0
    else
      var n := |ts| - 1;
      NetIssue(ts[..n]) + TotalOut(ts[n].outputs) - TotalIn(ts[n].inputs, ApplyAll(ts[..n], map[]))
  }

  lemma FreshOutputs(ts: seq<Transaction>, n: nat)
    requires n + 1 == |ts| && DistinctIds(ts) && SingleSpend(ts[..n])
    ensures FreshOuts(ts[n].hash, ts[n].outputs, ApplyAll(ts[..n], map[]) - Keys(ts[n].inputs))
  {
    forall k | k in ApplyAll(ts[..n], map[])
      ensures k.prevTxHash != ts[n].hash
    {
      var i :| 0 <= i < n && ts[..n][i].hash == k.prevTxHash;
      assert ts[i].hash != ts[n].hash;
    }
  }

  /** What a history has overwritten. */
  ghost function Overwritten(ts: seq<Transaction>): real {
    if ts == [] then 0.0
    else
      var n := |ts| - 1;
      Overwritten(ts[..n]) +
      Replaced(ts[n].hash, ts[n].outputs, ApplyAll(ts[..n], map[]) - Keys(ts[n].inputs))
  }

  lemma {:induction false} HistoryBalance(ts: seq<Transaction>)
    requires Admissible(ts, map[])
    ensures Total(ApplyAll(ts, map[])) == NetIssue(ts) - Overwritten(ts)
  {
    if ts == [] {
    } else {
      var n := |ts| - 1;
      AdmissibleStep(ts);
      HistoryBalance(ts[..n]);
      TxBalance(ts[n], ApplyAll(ts[..n], map[]));
    }
  }

  lemma {:induction false} DistinctOverwritesNothing(ts: seq<Transaction>)
    requires Admissible(ts, map[]) && DistinctIds(ts)
    ensures Overwritten(ts) == 0.0
  {
    if ts == [] {
    } else {
      var n := |ts| - 1;
      AdmissibleStep(ts);
      assert forall i :: 0 <= i < n ==> ts[..n][i] == ts[i];
      DistinctOverwritesNothing(ts[..n]);
      AdmissibleSingleSpend(ts[..n]);
      FreshOutputs(ts, n);
      FreshReplacesNothing(ts[n].hash, ts[n].outputs, ApplyAll(ts[..n], map[]) - Keys(ts[n].inputs));
    }
  }

  /** The ledger of a block totals exactly what its branch issued less what its branch overwrote, and where no id
      repeats nothing was overwritten. */
  lemma BranchConserves(c: Crypto, cfg: Config, steps: seq<Step>, h: Hash)
    requires h in Reached(c, cfg, steps).chain
    ensures var s := Reached(c, cfg, steps);
      var ts := History(Branch(s, h));
      && Total(s.chain[h].ledger) == NetIssue(ts) - Overwritten(ts)
      && (DistinctIds(ts) ==> Overwritten(ts) == 0.0)
  {
    var ts := History(Branch(Reached(c, cfg, steps), h));
    HistoryIsAdmissible(c, cfg, Reached(c, cfg, steps), h);
    HistoryBalance(ts);
    if DistinctIds(ts) {
      DistinctOverwritesNothing(ts);
    }
  }

  // ----- ids that repeat -----

  /** A block with no transactions but its coinbase on top of the tail. */
  ghost predicate EmptyBlockOn(c: Crypto, cfg: Config, s: NodeState, b: Block) {
    && Inv(c, cfg, s) && b.prevHash == s.tail && b.txs == []
    && HeaderOk(c, cfg, b) && b.hash !in s.chain
  }

  lemma EmptyBlockArrives(c: Crypto, cfg: Config, s: NodeState, b: Block)
    requires cfg.Valid() && EmptyBlockOn(c, cfg, s, b)
    ensures Check(c, cfg, s, b) == CoinbaseVerdict(c, b.coinbase, cfg.reward)
    ensures Check(c, cfg, s, b) == None ==> var s' := Handle(c, cfg, s, b).0;
      && Inv(c, cfg, s') && s'.tail == b.hash
      && s'.chain[b.hash].ledger == ApplyTx(b.coinbase, s.chain[s.tail].ledger)
      && Branch(s', b.hash) == Branch(s, s.tail) + [b]
      && History(Branch(s', b.hash)) == History(Branch(s, s.tail)) + [b.coinbase]
  {
    assert Fee([], s.chain[s.tail].ledger) == Ok(0.0);
    if Check(c, cfg, s, b) == None {
      var s' := Handle(c, cfg, s, b).0;
      HandleKeepsInv(c, cfg, s, b);
      ExtendsBranch(s, s', s.tail);
      assert Linked(s', b.hash);
      var bs := Branch(s', b.hash);
      assert bs[..|bs| - 1] == Branch(s, s.tail);
      assert [] + [b.coinbase] == [b.coinbase];
    }
  }

  /** A transaction with no inputs and one output that has the bytes of the inputs and outputs of another. */
  ghost predicate ReadsAs(c: Crypto, u: Transaction, t: Transaction) {
    && u.inputs == [] && |u.outputs| == 1 && u.height == t.height && t.inputs != []
    && InputsBytes(t.inputs).Ok?
    && OutputBytes(c, u.outputs[0]) == InputsBytes(t.inputs).value + OutputsBytes(c, t.outputs)
  }

  lemma ReadsAsHashes(c: Crypto, u: Transaction, t: Transaction)
    requires ReadsAs(c, u, t) && u.hash == t.hash && HashOk(c, t)
    ensures HashOk(c, u) && !SameTxShape(t, u)
  {
    assert u.outputs[1..] == [];
    assert OutputsBytes(c, u.outputs) == OutputBytes(c, u.outputs[0]) + [] == OutputBytes(c, u.outputs[0]);
    assert [] + OutputsBytes(c, u.outputs) == OutputsBytes(c, u.outputs);
    assert TxBytes(c, u, false) == TxBytes(c, t, false);
  }

  lemma RepeatedId(past: seq<Transaction>, t: Transaction, u: Transaction)
    requires t in past && u.hash == t.hash && !SameTxShape(t, u)
    ensures !DistinctIds(past + [u]) && !SameIdSameShape(past + [u])
  {
    var ts := past + [u];
    var i :| 0 <= i < |past| && past[i] == t;
    assert ts[i] == t && ts[|past|] == u;
  }

  /** What is asked of transactions without inputs holds after `b` as before. */
  ghost predicate SourcesUnaffected(bs: seq<Block>, bs': seq<Block>) {
    && (TxsHaveInputs(bs) ==> TxsHaveInputs(bs'))
    && (CoinbaseIdsDistinct(bs) ==> CoinbaseIdsDistinct(bs'))
  }

  lemma CoinbaseIdsStayDistinct(bs: seq<Block>, b: Block)
    requires b.txs == [] && forall i :: 0 <= i < |bs| ==> bs[i].coinbase.hash != b.coinbase.hash
    ensures SourcesUnaffected(bs, bs + [b])
  {
  }

  /** Ids do repeat: a coinbase that reads as another transaction has its id. It is accepted exactly up to the
      reward, also with a negative value. Coinbase ids stay distinct if no coinbase had that id; only the shape of
      the two tells. */
  lemma CoinbaseTakesId(c: Crypto, cfg: Config, s: NodeState, b: Block, t: Transaction)
    requires cfg.Valid() && EmptyBlockOn(c, cfg, s, b) && t in History(Branch(s, s.tail))
    requires ReadsAs(c, b.coinbase, t) && b.coinbase.hash == t.hash
    ensures Check(c, cfg, s, b) ==
      if b.coinbase.outputs[0].value <= cfg.reward then None else Some(CoinbaseTooLarge)
    ensures Check(c, cfg, s, b) == None ==> var s' := Handle(c, cfg, s, b).0;
      && Inv(c, cfg, s') && s'.tail == b.hash
      && !DistinctIds(History(Branch(s', b.hash))) && !SameIdSameShape(History(Branch(s', b.hash)))
      && ((forall i :: 0 <= i < |Branch(s, s.tail)| ==> Branch(s, s.tail)[i].coinbase.hash != t.hash) ==>
            SourcesUnaffected(Branch(s, s.tail), Branch(s', b.hash)))
  {
    BranchSettled(c, cfg, s, s.tail);
    ReadsAsHashes(c, b.coinbase, t);
    EmptyBlockArrives(c, cfg, s, b);
    RepeatedId(History(Branch(s, s.tail)), t, b.coinbase);
    var bs := Branch(s, s.tail);
    if forall i :: 0 <= i < |bs| ==> bs[i].coinbase.hash != t.hash {
      CoinbaseIdsStayDistinct(bs, b);
    }
  }

  /** What the distinctness of coinbase ids is for: a block that repeats the coinbase of the tail is accepted,
      its branch issues that value again, and the ledger stays what it was. */
  lemma RepeatedCoinbaseOverwrites(c: Crypto, cfg: Config, s: NodeState, b: Block)
    requires cfg.Valid() && EmptyBlockOn(c, cfg, s, b)
    requires s.tail != GENESIS_HASH && b.coinbase == s.chain[s.tail].block.coinbase
    ensures Check(c, cfg, s, b) == None && |b.coinbase.outputs| == 1
    ensures var s' := Handle(c, cfg, s, b).0;
      && Inv(c, cfg, s') && s'.tail == b.hash
      && s'.chain[b.hash].ledger == s.chain[s.tail].ledger
      && NetIssue(History(Branch(s', b.hash))) ==
         NetIssue(History(Branch(s, s.tail))) + b.coinbase.outputs[0].value
  {
    TailCoinbase(c, cfg, s);
    EmptyBlockArrives(c, cfg, s, b);
    IssuedByCoinbase(History(Branch(s, s.tail)), b.coinbase);
  }

  /** The coinbase of the tail is within the reward, and applying it again changes nothing. */
  lemma TailCoinbase(c: Crypto, cfg: Config, s: NodeState)
    requires cfg.Valid() && Inv(c, cfg, s) && s.tail != GENESIS_HASH
    ensures s.tail in s.chain
    ensures var u, l := s.chain[s.tail].block.coinbase, s.chain[s.tail].ledger;
      && CoinbaseVerdict(c, u, cfg.reward) == None && u.inputs == [] && |u.outputs| == 1
      && ApplyTx(u, l) == l
  {
    var b := s.chain[s.tail].block;
    assert ValidAt(c, cfg, s, s.tail) && Linked(s, s.tail);
    var before := s.chain[b.prevHash].ledger;
    FeeIsDefined(b.txs, before);
    ApplyTwice(b.coinbase, Replay(c, b.txs, before).ledger);
  }

  lemma IssuedByCoinbase(past: seq<Transaction>, u: Transaction)
    requires u.inputs == [] && |u.outputs| == 1
    ensures NetIssue(past + [u]) == NetIssue(past) + u.outputs[0].value
  {
    var ts := past + [u];
    assert ts[..|past|] == past && ts[|past|] == u;
    assert u.outputs[1..] == [] && TotalOut(u.outputs) == u.outputs[0].value;
    assert TotalIn(u.inputs, ApplyAll(past, map[])) == 0.0;
  }

  lemma ApplyTwice(t: Transaction, l: Utxos)
    requires t.inputs == []
    ensures ApplyTx(t, ApplyTx(t, l)) == ApplyTx(t, l)
  {
    assert Keys(t.inputs) == {};
  }
}
