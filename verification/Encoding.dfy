/** The byte encodings that are hashed and signed (utils/bytes_utils.go and the Get*Bytes functions). */
module Encoding {
  import opened Types

  // ----- hex -----

  function HexDigit(n: int): char
    requires 0 <= n < 16
  {
    "0123456789abcdef"[n]
  }

  /** Both cases are read; only lower case is written. */
  function HexValue(ch: char): Option<int> {
    if '0' <= ch <= '9' then Some(ch as int - '0' as int)
    else if 'a' <= ch <= 'f' then Some(ch as int - 'a' as int + 10)
    else if 'A' <= ch <= 'F' then Some(ch as int - 'A' as int + 10)
    else None
  }

  lemma HexValueRange(ch: char)
    ensures HexValue(ch).Some? ==> 0 <= HexValue(ch).value < 16
  {
  }

  function BytesToHex(bs: seq<byte>): (s: string) {
    if bs == [] then ""
    else [HexDigit(bs[0] as int / 16), HexDigit(bs[0] as int % 16)] + BytesToHex(bs[1..])
  }

  function HexToBytes(s: string): (r: Result<seq<byte>>)
    ensures r.Ok? ==> |s| == 2 * |r.value|
  {
    if s == "" then Ok([])
    else if |s| == 1 || HexValue(s[0]).None? || HexValue(s[1]).None? then Err(BadHex)
    else
      HexValueRange(s[0]);
      HexValueRange(s[1]);
      var rest :- HexToBytes(s[2..]);
      Ok([(HexValue(s[0]).value * 16 + HexValue(s[1]).value) as byte] + rest)
  }

  ghost predicate LowerHex(s: string) {
    forall i :: 0 <= i < |s| ==> !('A' <= s[i] <= 'F')
  }

  lemma HexDigitValue(n: int)
    requires 0 <= n < 16
    ensures HexValue(HexDigit(n)) == Some(n)
    ensures !('A' <= HexDigit(n) <= 'F')
  {
  }

  lemma HexValueDigit(ch: char)
    requires HexValue(ch).Some? && !('A' <= ch <= 'F')
    ensures 0 <= HexValue(ch).value < 16 && HexDigit(HexValue(ch).value) == ch
  {
  }

  /** Two written digits in front of anything read back as their byte. */
  lemma HexByteRead(b: byte, rest: string)
    ensures var s := [HexDigit(b as int / 16), HexDigit(b as int % 16)] + rest;
      HexToBytes(s) == if HexToBytes(rest).Ok? then Ok([b] + HexToBytes(rest).value) else HexToBytes(rest)
  {
    var hi, lo := b as int / 16, b as int % 16;
    var s := [HexDigit(hi), HexDigit(lo)] + rest;
    HexDigitValue(hi);
    HexDigitValue(lo);
    assert s[0] == HexDigit(hi) && s[1] == HexDigit(lo) && s[2..] == rest;
    assert (hi * 16 + lo) as byte == b;
  }

  /** Reading back what was written gives the bytes, and what is written is lower case. */
  lemma {:induction false} HexRoundTrip(bs: seq<byte>)
    ensures HexToBytes(BytesToHex(bs)) == Ok(bs)
    ensures LowerHex(BytesToHex(bs)) && |BytesToHex(bs)| == 2 * |bs|
  {
    if bs == [] {
    } else {
      HexRoundTrip(bs[1..]);
      HexByteRead(bs[0], BytesToHex(bs[1..]));
      assert bs == [bs[0]] + bs[1..];
      LowerHexCons(bs[0], BytesToHex(bs[1..]));
    }
  }

  lemma LowerHexCons(b: byte, rest: string)
    requires LowerHex(rest)
    ensures LowerHex([HexDigit(b as int / 16), HexDigit(b as int % 16)] + rest)
  {
    HexDigitValue(b as int / 16);
    HexDigitValue(b as int % 16);
  }

  lemma BytesToHexCons(b: byte, rest: seq<byte>, hi: int, lo: int)
    requires 0 <= hi < 16 && 0 <= lo < 16 && b as int == hi * 16 + lo
    ensures BytesToHex([b] + rest) == [HexDigit(hi), HexDigit(lo)] + BytesToHex(rest)
  {
    SplitByte(b as int, hi, lo);
    var bs := [b] + rest;
    assert bs[0] == b && bs[1..] == rest;
  }

  lemma SplitByte(b: int, hi: int, lo: int)
    requires 0 <= lo < 16 && b == hi * 16 + lo
    ensures b / 16 == hi && b % 16 == lo
  {
  }

  /** A lower-case hex string is determined by its bytes. */
  lemma {:induction false} HexCanonical(s: string)
    requires LowerHex(s) && HexToBytes(s).Ok?
    ensures BytesToHex(HexToBytes(s).value) == s
  {
    if s == "" {
    } else {
      HexValueDigit(s[0]);
      HexValueDigit(s[1]);
      HexCanonical(s[2..]);
      var hi, lo := HexValue(s[0]).value, HexValue(s[1]).value;
      var rest := HexToBytes(s[2..]).value;
      BytesToHexCons((hi * 16 + lo) as byte, rest, hi, lo);
      assert s == [s[0], s[1]] + s[2..];
    }
  }

  // ----- the padded variable-length integer -----

  const VARINT_BOUND := 0x80_0000_0000_0000  // 2^55

  function ZigZag(i: int): nat {
    if 0 <= i then 2 * i else -2 * i - 1
  }

  function Uvarint(x: nat): (r: seq<byte>)
    ensures |r| > 0
  {
    if x < 128 then [x as byte] else [(x % 128 + 128) as byte] + Uvarint(x / 128)
  }

  function ReadUvarint(bs: seq<byte>): nat {
    if bs == [] then 0
    else if bs[0] < 128 then bs[0] as nat
    else bs[0] as nat - 128 + 128 * ReadUvarint(bs[1..])
  }

  function Zeros(n: nat): (r: seq<byte>)
    ensures |r| == n
  {
    seq(n, _ => 0)
  }

  /** Eight bytes, padded with zeros; a value whose encoding is longer overruns the buffer. */
  function Varint(i: int): (r: Result<seq<byte>>)
    ensures r.Ok? ==> |r.value| == 8
  {
    var bs := Uvarint(ZigZag(i));
    if |bs| <= 8 then Ok(bs + Zeros(8 - |bs|)) else Err(Panic)
  }

  function Pow(b: nat, n: nat): nat {
    if n == 0 then 1 else b * Pow(b, n - 1)
  }

  lemma {:induction false} UvarintLength(x: nat, n: nat)
    requires 0 < n
    ensures |Uvarint(x)| <= n <==> x < Pow(128, n)
  {
    if n == 1 {
      assert Pow(128, 1) == 128 * Pow(128, 0);
    } else if 128 <= x {
      UvarintLength(x / 128, n - 1);
      assert x / 128 < Pow(128, n - 1) <==> x < 128 * Pow(128, n - 1);
    } else {
      PowPositive(128, n - 1);
    }
  }

  lemma {:induction false} PowPositive(b: nat, n: nat)
    requires 0 < b
    ensures 0 < Pow(b, n)
  {
    if n == 0 {
    } else {
      PowPositive(b, n - 1);
    }
  }

  lemma {:induction false} UvarintReadBack(x: nat, pad: seq<byte>)
    ensures ReadUvarint(Uvarint(x) + pad) == x
  {
    if x < 128 {
    } else {
      UvarintReadBack(x / 128, pad);
      assert (Uvarint(x) + pad)[1..] == Uvarint(x / 128) + pad;
    }
  }

  /** The encoding is defined exactly on [-2^55, 2^55). */
  lemma VarintDefined(i: int)
    ensures Varint(i).Ok? <==> -VARINT_BOUND <= i < VARINT_BOUND
  {
    UvarintLength(ZigZag(i), 8);
    assert Pow(128, 8) == 0x100_0000_0000_0000 by {
      assert Pow(128, 4) == 0x1000_0000 by {
        assert Pow(128, 2) == 0x4000;
      }
      assert Pow(128, 6) == 0x400_0000_0000 by {
        assert Pow(128, 5) == 0x8_0000_0000;
      }
      assert Pow(128, 7) == 0x2_0000_0000_0000;
    }
  }

  /** ... and injective there. */
  lemma VarintInjective(i: int, j: int)
    requires Varint(i).Ok? && Varint(i) == Varint(j)
    ensures i == j
  {
    UvarintReadBack(ZigZag(i), Zeros(8 - |Uvarint(ZigZag(i))|));
    UvarintReadBack(ZigZag(j), Zeros(8 - |Uvarint(ZigZag(j))|));
  }

  method Int64ToBytes(i: int) returns (r: Result<seq<byte>>)
    ensures r == Varint(i)
  {
    var b := new byte[8](_ => 0);
    var x: nat, k := ZigZag(i), 0;
    ghost var done: seq<byte> := [];
    while 128 <= x
      invariant 0 <= k <= 8 && |done| == k && b[..] == done + Zeros(8 - k)
      invariant done + Uvarint(x) == Uvarint(ZigZag(i))
      decreases x
    {
      if k == 8 {
        return Err(Panic);
      }
      var next: byte := (x % 128 + 128) as byte;
      b[k] := next;
      PutByte(done, next, k, b[..]);
      AppendAssoc(done, next, Uvarint(x / 128));
      done := done + [next];
      x, k := x / 128, k + 1;
    }
    if k == 8 {
      return Err(Panic);
    }
    b[k] := x as byte;
    PutByte(done, x as byte, k, b[..]);
    return Ok(b[..]);
  }

  lemma PutByte(done: seq<byte>, next: byte, k: nat, b: seq<byte>)
    requires |done| == k < 8 && b == (done + Zeros(8 - k))[k := next]
    ensures b == (done + [next]) + Zeros(7 - k)
  {
  }

  lemma AppendAssoc(a: seq<byte>, x: byte, b: seq<byte>)
    ensures a + ([x] + b) == (a + [x]) + b
  {
  }

  method IsSameBytes(lhs: seq<byte>, rhs: seq<byte>) returns (same: bool)
    ensures same <==> lhs == rhs
  {
    if |lhs| != |rhs| {
      return false;
    }
    for i := 0 to |lhs|
      invariant lhs[..i] == rhs[..i]
    {
      if lhs[i] != rhs[i] {
        return false;
      }
    }
    return true;
  }

  // ----- transactions and blocks -----

  function InputBytes(input: Input): Result<seq<byte>> {
    var prevHash :- HexToBytes(input.prevTxHash);
    var index :- Varint(input.index);
    Ok(prevHash + index)
  }

  function OutputBytes(c: Crypto, output: Output): seq<byte> {
    c.floatBits(output.value) + output.publicKey
  }

  function InputsBytes(inputs: seq<Input>): Result<seq<byte>> {
    if inputs == [] then Ok([])
    else
      var first :- InputBytes(inputs[0]);
      var rest :- InputsBytes(inputs[1..]);
      Ok(first + rest)
  }

  function OutputsBytes(c: Crypto, outputs: seq<Output>): seq<byte> {
    if outputs == [] then [] else OutputBytes(c, outputs[0]) + OutputsBytes(c, outputs[1..])
  }

  /** What a transaction hash is computed from; with its own hash appended when a block is hashed. */
  function TxBytes(c: Crypto, tx: Transaction, withHash: bool): Result<seq<byte>> {
    var inputs :- InputsBytes(tx.inputs);
    var height :- Varint(tx.height);
    var content := inputs + OutputsBytes(c, tx.outputs) + height;
    if withHash then
      var hash :- HexToBytes(tx.hash);
      Ok(content + hash)
    else
      Ok(content)
  }

  function TxsBytes(c: Crypto, txs: seq<Transaction>): Result<seq<byte>> {
    if txs == [] then Ok([])
    else
      var first :- TxBytes(c, txs[0], true);
      var rest :- TxsBytes(c, txs[1..]);
      Ok(first + rest)
  }

  function BlockBytes(c: Crypto, b: Block): Result<seq<byte>> {
    var nounce :- Varint(b.nounce);
    var prevHash :- HexToBytes(b.prevHash);
    var txs :- TxsBytes(c, b.txs);
    var coinbase :- TxBytes(c, b.coinbase, true);
    Ok(nounce + prevHash + txs + coinbase)
  }

  /** The message signed for input `index`: that input and all outputs. */
  function SignBytes(c: Crypto, tx: Transaction, index: nat): Result<seq<byte>> {
    if |tx.inputs| - 1 < index then Err(IndexOutOfRange)
    else
      var input :- InputBytes(tx.inputs[index]);
      Ok(input + OutputsBytes(c, tx.outputs))
  }

  method GetInputBytes(input: Input) returns (r: Result<seq<byte>>)
    ensures r == InputBytes(input)
  {
    var data :- HexToBytes(input.prevTxHash);
    var index :- Int64ToBytes(input.index);
    data := data + index;
    return Ok(data);
  }

  method GetOutputsBytes(c: Crypto, outputs: seq<Output>, data0: seq<byte>) returns (data: seq<byte>)
    ensures data == data0 + OutputsBytes(c, outputs)
  {
    data := data0;
    for i := 0 to |outputs|
      invariant data + OutputsBytes(c, outputs[i..]) == data0 + OutputsBytes(c, outputs)
    {
      assert outputs[i..][1..] == outputs[i + 1..];
      var next := OutputBytes(c, outputs[i]);
      assert data + (next + OutputsBytes(c, outputs[i + 1..])) == (data + next) + OutputsBytes(c, outputs[i + 1..]);
      data := data + next;
    }
  }

  /** `r` with `data` in front. */
  ghost function Prepend(data: seq<byte>, r: Result<seq<byte>>): Result<seq<byte>> {
    if r.Ok? then Ok(data + r.value) else r
  }

  lemma PrependNothing(r: Result<seq<byte>>)
    ensures Prepend([], r) == r
  {
    if r.Ok? {
      assert [] + r.value == r.value;
    }
  }

  lemma PrependTwice(a: seq<byte>, b: seq<byte>, r: Result<seq<byte>>)
    ensures Prepend(a, Prepend(b, r)) == Prepend(a + b, r)
  {
    if r.Ok? {
      assert a + (b + r.value) == (a + b) + r.value;
    }
  }

  method GetTransactionBytes(c: Crypto, tx: Transaction, withHash: bool) returns (r: Result<seq<byte>>)
    ensures r == TxBytes(c, tx, withHash)
  {
    var data: seq<byte> := [];
    PrependNothing(InputsBytes(tx.inputs));
    assert tx.inputs[0..] == tx.inputs;
    for i := 0 to |tx.inputs|
      invariant Prepend(data, InputsBytes(tx.inputs[i..])) == InputsBytes(tx.inputs)
    {
      assert tx.inputs[i..][1..] == tx.inputs[i + 1..];
      var next :- GetInputBytes(tx.inputs[i]);
      PrependTwice(data, next, InputsBytes(tx.inputs[i + 1..]));
      data := data + next;
    }
    assert data + [] == data;
    assert Ok(data) == InputsBytes(tx.inputs);
    data := GetOutputsBytes(c, tx.outputs, data);
    var height :- Int64ToBytes(tx.height);
    data := data + height;
    if withHash {
      var hash :- HexToBytes(tx.hash);
      data := data + hash;
    }
    return Ok(data);
  }

  method GetInputDataToSignByIndex(c: Crypto, tx: Transaction, index: nat) returns (r: Result<seq<byte>>)
    ensures r == SignBytes(c, tx, index)
  {
    if |tx.inputs| - 1 < index {
      return Err(IndexOutOfRange);
    }
    var data :- GetInputBytes(tx.inputs[index]);
    data := GetOutputsBytes(c, tx.outputs, data);
    return Ok(data);
  }

  method GetBlockBytes(c: Crypto, b: Block) returns (r: Result<seq<byte>>)
    ensures r == BlockBytes(c, b)
  {
    var rawBlock :- Int64ToBytes(b.nounce);
    var prevHash :- HexToBytes(b.prevHash);
    rawBlock := rawBlock + prevHash;
    ghost var header := rawBlock;
    for i := 0 to |b.txs|
      invariant Prepend(rawBlock, TxsBytes(c, b.txs[i..])) == Prepend(header, TxsBytes(c, b.txs))
    {
      assert b.txs[i..][1..] == b.txs[i + 1..];
      var next :- GetTransactionBytes(c, b.txs[i], true);
      PrependTwice(rawBlock, next, TxsBytes(c, b.txs[i + 1..]));
      rawBlock := rawBlock + next;
    }
    assert rawBlock + [] == rawBlock;
    assert Ok(rawBlock) == Prepend(header, TxsBytes(c, b.txs));
    var coinbase :- GetTransactionBytes(c, b.coinbase, true);
    rawBlock := rawBlock + coinbase;
    return Ok(rawBlock);
  }

  // ----- injectivity -----

  /** Equal counts and field widths: nothing in the encoding separates the fields. */
  ghost predicate SameTxShape(t: Transaction, u: Transaction) {
    && |t.hash| == |u.hash|
    && |t.inputs| == |u.inputs|
    && (forall i :: 0 <= i < |t.inputs| ==> |t.inputs[i].prevTxHash| == |u.inputs[i].prevTxHash|)
    && |t.outputs| == |u.outputs|
    && (forall i :: 0 <= i < |t.outputs| ==> |t.outputs[i].publicKey| == |u.outputs[i].publicKey|)
  }

  ghost predicate SameBlockShape(a: Block, b: Block) {
    && |a.prevHash| == |b.prevHash|
    && |a.txs| == |b.txs|
    && (forall i :: 0 <= i < |a.txs| ==> SameTxShape(a.txs[i], b.txs[i]))
    && SameTxShape(a.coinbase, b.coinbase)
  }

  ghost predicate LowerHexInputs(inputs: seq<Input>) {
    forall i :: 0 <= i < |inputs| ==> LowerHex(inputs[i].prevTxHash)
  }

  ghost predicate LowerHexTx(t: Transaction) {
    LowerHex(t.hash) && LowerHexInputs(t.inputs)
  }

  ghost predicate LowerHexBlock(b: Block) {
    && LowerHex(b.prevHash)
    && LowerHexTx(b.coinbase)
    && forall i :: 0 <= i < |b.txs| ==> LowerHexTx(b.txs[i])
  }

  /** The float encoding separates the amounts at each position of `us` and `vs`. */
  ghost predicate Separates(c: Crypto, us: seq<Output>, vs: seq<Output>) {
    forall i :: 0 <= i < |us| && i < |vs| && c.floatBits(us[i].value) == c.floatBits(vs[i].value)
      ==> us[i].value == vs[i].value
  }

  ghost predicate SeparatesBlocks(c: Crypto, a: Block, b: Block) {
    && Separates(c, a.coinbase.outputs, b.coinbase.outputs)
    && forall i :: 0 <= i < |a.txs| && i < |b.txs| ==> Separates(c, a.txs[i].outputs, b.txs[i].outputs)
  }

  lemma SplitEqual(a: seq<byte>, b: seq<byte>, x: seq<byte>, y: seq<byte>)
    requires a + x == b + y && |a| == |b|
    ensures a == b && x == y
  {
    assert a == (a + x)[..|a|] && b == (b + y)[..|b|];
    assert x == (a + x)[|a|..] && y == (b + y)[|b|..];
  }

  lemma Assoc(a: seq<byte>, b: seq<byte>, x: seq<byte>)
    ensures (a + b) + x == a + (b + x)
  {
  }

  lemma Assoc4(a: seq<byte>, b: seq<byte>, d: seq<byte>, e: seq<byte>, x: seq<byte>)
    ensures (((a + b) + d) + e) + x == a + (b + (d + (e + x)))
  {
    Assoc((a + b) + d, e, x);
    Assoc(a + b, d, e + x);
    Assoc(a, b, d + (e + x));
  }

  lemma HexInjective(s: string, t: string)
    requires LowerHex(s) && LowerHex(t)
    requires HexToBytes(s).Ok? && HexToBytes(s) == HexToBytes(t)
    ensures s == t
  {
    HexCanonical(s);
    HexCanonical(t);
  }

  lemma InputBytesInjective(a: Input, b: Input, x: seq<byte>, y: seq<byte>)
    requires LowerHex(a.prevTxHash) && LowerHex(b.prevTxHash) && |a.prevTxHash| == |b.prevTxHash|
    requires InputBytes(a).Ok? && InputBytes(b).Ok? && InputBytes(a).value + x == InputBytes(b).value + y
    ensures StripInput(a) == StripInput(b) && x == y
  {
    var ha, hb := HexToBytes(a.prevTxHash).value, HexToBytes(b.prevTxHash).value;
    var ia, ib := Varint(a.index).value, Varint(b.index).value;
    SplitEqual(ha + ia, hb + ib, x, y);
    SplitEqual(ha, hb, ia, ib);
    HexInjective(a.prevTxHash, b.prevTxHash);
    VarintInjective(a.index, b.index);
  }

  lemma {:induction false} InputsBytesInjective(a: seq<Input>, b: seq<Input>, x: seq<byte>, y: seq<byte>)
    requires |a| == |b| && LowerHexInputs(a) && LowerHexInputs(b)
    requires forall i :: 0 <= i < |a| ==> |a[i].prevTxHash| == |b[i].prevTxHash|
    requires InputsBytes(a).Ok? && InputsBytes(b).Ok? && InputsBytes(a).value + x == InputsBytes(b).value + y
    ensures forall i :: 0 <= i < |a| ==> StripInput(a[i]) == StripInput(b[i])
    ensures x == y
  {
    if a != [] {
      var ra, rb := InputsBytes(a[1..]).value + x, InputsBytes(b[1..]).value + y;
      Assoc(InputBytes(a[0]).value, InputsBytes(a[1..]).value, x);
      Assoc(InputBytes(b[0]).value, InputsBytes(b[1..]).value, y);
      InputBytesInjective(a[0], b[0], ra, rb);
      InputsBytesInjective(a[1..], b[1..], x, y);
      forall i | 0 <= i < |a|
        ensures StripInput(a[i]) == StripInput(b[i])
      {
        if i > 0 {
          assert a[i] == a[1..][i - 1] && b[i] == b[1..][i - 1];
        }
      }
    } else {
      assert [] + x == x && [] + y == y;
    }
  }

  lemma {:induction false} OutputsBytesInjective(c: Crypto, a: seq<Output>, b: seq<Output>, x: seq<byte>, y: seq<byte>)
    requires |a| == |b| && Separates(c, a, b)
    requires forall i :: 0 <= i < |a| ==> |a[i].publicKey| == |b[i].publicKey|
    requires OutputsBytes(c, a) + x == OutputsBytes(c, b) + y
    ensures a == b && x == y
  {
    if a != [] {
      var va, vb := c.floatBits(a[0].value), c.floatBits(b[0].value);
      var ra, rb := OutputsBytes(c, a[1..]) + x, OutputsBytes(c, b[1..]) + y;
      Assoc(OutputBytes(c, a[0]), OutputsBytes(c, a[1..]), x);
      Assoc(OutputBytes(c, b[0]), OutputsBytes(c, b[1..]), y);
      Assoc(va, a[0].publicKey, ra);
      Assoc(vb, b[0].publicKey, rb);
      SplitEqual(va, vb, a[0].publicKey + ra, b[0].publicKey + rb);
      SplitEqual(a[0].publicKey, b[0].publicKey, ra, rb);
      OutputsBytesInjective(c, a[1..], b[1..], x, y);
      assert a == [a[0]] + a[1..] && b == [b[0]] + b[1..];
    } else {
      assert [] + x == x && [] + y == y;
    }
  }

  ghost function HashBytes(t: Transaction, withHash: bool): seq<byte>
    requires withHash ==> HexToBytes(t.hash).Ok?
  {
    if withHash then HexToBytes(t.hash).value else []
  }

  lemma TxBytesFields(c: Crypto, t: Transaction, withHash: bool)
    requires TxBytes(c, t, withHash).Ok?
    ensures InputsBytes(t.inputs).Ok? && Varint(t.height).Ok? && (withHash ==> HexToBytes(t.hash).Ok?)
    ensures TxBytes(c, t, withHash).value ==
      ((InputsBytes(t.inputs).value + OutputsBytes(c, t.outputs)) + Varint(t.height).value) + HashBytes(t, withHash)
  {
    if !withHash {
      var content := (InputsBytes(t.inputs).value + OutputsBytes(c, t.outputs)) + Varint(t.height).value;
      assert content + [] == content;
    }
  }

  /** With the hash or without it, the bytes of a transaction determine it up to signatures. */
  lemma TxBytesInjective(c: Crypto, t: Transaction, u: Transaction, withHash: bool, x: seq<byte>, y: seq<byte>)
    requires SameTxShape(t, u) && LowerHexTx(t) && LowerHexTx(u) && Separates(c, t.outputs, u.outputs)
    requires TxBytes(c, t, withHash).Ok? && TxBytes(c, u, withHash).Ok?
    requires TxBytes(c, t, withHash).value + x == TxBytes(c, u, withHash).value + y
    ensures StripTx(t).(hash := "") == StripTx(u).(hash := "") && x == y
    ensures withHash ==> StripTx(t) == StripTx(u)
  {
    var ti, ui := InputsBytes(t.inputs).value, InputsBytes(u.inputs).value;
    var to, uo := OutputsBytes(c, t.outputs), OutputsBytes(c, u.outputs);
    var th, uh := Varint(t.height).value, Varint(u.height).value;
    var tt, ut := HashBytes(t, withHash), HashBytes(u, withHash);
    TxBytesFields(c, t, withHash);
    TxBytesFields(c, u, withHash);
    Assoc4(ti, to, th, tt, x);
    Assoc4(ui, uo, uh, ut, y);
    var tr, ur := to + (th + (tt + x)), uo + (uh + (ut + y));
    InputsBytesInjective(t.inputs, u.inputs, tr, ur);
    OutputsBytesInjective(c, t.outputs, u.outputs, th + (tt + x), uh + (ut + y));
    SplitEqual(th, uh, tt + x, ut + y);
    SplitEqual(tt, ut, x, y);
    VarintInjective(t.height, u.height);
    if withHash {
      HexInjective(t.hash, u.hash);
    }
  }

  lemma TxsBytesCons(c: Crypto, a: seq<Transaction>, x: seq<byte>)
    requires a != [] && TxsBytes(c, a).Ok?
    ensures TxBytes(c, a[0], true).Ok? && TxsBytes(c, a[1..]).Ok?
    ensures TxsBytes(c, a).value + x == TxBytes(c, a[0], true).value + (TxsBytes(c, a[1..]).value + x)
  {
    Assoc(TxBytes(c, a[0], true).value, TxsBytes(c, a[1..]).value, x);
  }

  lemma {:induction false} TxsBytesInjective(
      c: Crypto, a: seq<Transaction>, b: seq<Transaction>, x: seq<byte>, y: seq<byte>)
    requires |a| == |b|
    requires forall i :: 0 <= i < |a| ==> SameTxShape(a[i], b[i]) && LowerHexTx(a[i]) && LowerHexTx(b[i])
    requires forall i :: 0 <= i < |a| ==> Separates(c, a[i].outputs, b[i].outputs)
    requires TxsBytes(c, a).Ok? && TxsBytes(c, b).Ok? && TxsBytes(c, a).value + x == TxsBytes(c, b).value + y
    ensures StripTxs(a) == StripTxs(b) && x == y
  {
    if a != [] {
      var ra, rb := TxsBytes(c, a[1..]).value + x, TxsBytes(c, b[1..]).value + y;
      TxsBytesCons(c, a, x);
      TxsBytesCons(c, b, y);
      TxBytesInjective(c, a[0], b[0], true, ra, rb);
      TxsBytesInjective(c, a[1..], b[1..], x, y);
      assert StripTxs(a) == [StripTx(a[0])] + StripTxs(a[1..]);
      assert StripTxs(b) == [StripTx(b[0])] + StripTxs(b[1..]);
    } else {
      assert [] + x == x && [] + y == y;
    }
  }

  /** The bytes of a block determine it up to its own hash and the signatures, for one block shape. */
  lemma BlockBytesInjective(c: Crypto, a: Block, b: Block)
    requires SameBlockShape(a, b) && LowerHexBlock(a) && LowerHexBlock(b) && SeparatesBlocks(c, a, b)
    requires BlockBytes(c, a).Ok? && BlockBytes(c, a) == BlockBytes(c, b)
    ensures StripBlock(a).(hash := "") == StripBlock(b).(hash := "")
  {
    var an, bn := Varint(a.nounce).value, Varint(b.nounce).value;
    var ap, bp := HexToBytes(a.prevHash).value, HexToBytes(b.prevHash).value;
    var at, bt := TxsBytes(c, a.txs).value, TxsBytes(c, b.txs).value;
    var ac, bc := TxBytes(c, a.coinbase, true).value, TxBytes(c, b.coinbase, true).value;
    Assoc4(an, ap, at, ac, []);
    Assoc4(bn, bp, bt, bc, []);
    assert ac + [] == ac && bc + [] == bc;
    assert BlockBytes(c, a).value + [] == BlockBytes(c, a).value;
    assert BlockBytes(c, b).value + [] == BlockBytes(c, b).value;
    SplitEqual(an, bn, ap + (at + ac), bp + (bt + bc));
    SplitEqual(ap, bp, at + ac, bt + bc);
    TxsBytesInjective(c, a.txs, b.txs, ac, bc);
    TxBytesInjective(c, a.coinbase, b.coinbase, true, [], []);
    VarintInjective(a.nounce, b.nounce);
    HexInjective(a.prevHash, b.prevHash);
  }

  /** Two nounces never give the same bytes to hash, whatever else the block holds. */
  lemma NouncesSeparateBlocks(c: Crypto, b: Block, i: int, j: int)
    requires i != j
    requires BlockBytes(c, b.(nounce := i)).Ok? && BlockBytes(c, b.(nounce := j)).Ok?
    ensures BlockBytes(c, b.(nounce := i)) != BlockBytes(c, b.(nounce := j))
  {
    var a, d := b.(nounce := i), b.(nounce := j);
    assert BlockBytes(c, a).value[..8] == Varint(i).value;
    assert BlockBytes(c, d).value[..8] == Varint(j).value;
    if BlockBytes(c, a) == BlockBytes(c, d) {
      VarintInjective(i, j);
    }
  }

  /** Hashes are written in lower case and are never the genesis hash. */
  lemma DigestHex(c: Crypto, bs: seq<byte>)
    ensures |BytesToHex(c.sha256(bs))| == 64 && LowerHex(BytesToHex(c.sha256(bs)))
    ensures BytesToHex(c.sha256(bs)) != GENESIS_HASH
  {
    HexRoundTrip(c.sha256(bs));
  }
}
