/** Where every field stands in the bytes that are hashed and signed. */
module Layout {
  import opened Encoding
  import opened Types
  import Difficulty

  // ----- hex and integers -----

  /** Hex digits in order, in lower case. */
  lemma HexDigits(n: int)
    requires 0 <= n < 16
    ensures HexDigit(n) as int == if n < 10 then '0' as int + n else 'a' as int + n - 10
  {
  }

  /** The high half of a byte comes first. */
  lemma {:induction false} HexAt(bs: seq<byte>, i: nat)
    requires i < |bs|
    ensures |BytesToHex(bs)| == 2 * |bs|
    ensures BytesToHex(bs)[2 * i] == HexDigit(bs[i] as int / 16)
    ensures BytesToHex(bs)[2 * i + 1] == HexDigit(bs[i] as int % 16)
  {
    HexRoundTrip(bs);
    if i == 0 {
    } else {
      HexAt(bs[1..], i - 1);
    }
  }

  /** Digits of both cases are read, two to a byte; anything else, and an odd number of them, is an error. */
  lemma {:induction false} HexReads(s: string)
    ensures HexToBytes(s).Ok? <==>
      |s| % 2 == 0 && forall i :: 0 <= i < |s| ==> '0' <= s[i] <= '9' || 'a' <= s[i] <= 'f' || 'A' <= s[i] <= 'F'
    ensures HexToBytes(s).Err? ==> HexToBytes(s).error == BadHex
  {
    if |s| < 2 {
    } else {
      HexReads(s[2..]);
      assert forall i :: 2 <= i < |s| ==> s[i] == s[2..][i - 2];
      assert forall i :: 0 <= i < |s| - 2 ==> s[2..][i] == s[i + 2];
    }
  }

  /** Byte `i` is read from digits `2 * i` and `2 * i + 1`, the high half first. */
  lemma {:induction false} HexReadAt(s: string, i: nat)
    requires HexToBytes(s).Ok? && i < |HexToBytes(s).value|
    ensures HexValue(s[2 * i]).Some? && HexValue(s[2 * i + 1]).Some?
    ensures HexToBytes(s).value[i] as int == HexValue(s[2 * i]).value * 16 + HexValue(s[2 * i + 1]).value
  {
    HexValueRange(s[0]);
    HexValueRange(s[1]);
    if i == 0 {
    } else {
      HexReadAt(s[2..], i - 1);
    }
  }

  /** What a digit is worth, in either case. */
  lemma DigitValues(ch: char)
    ensures HexValue(ch) ==
      if '0' <= ch <= '9' then Some(ch as int - 48)
      else if 'a' <= ch <= 'f' then Some(ch as int - 87)
      else if 'A' <= ch <= 'F' then Some(ch as int - 55)
      else None
  {
  }

  lemma {:induction false} ProductStep(d: nat, a: nat, b: nat)
    requires a < b
    ensures d * a + d <= d * b
    decreases b
  {
    assert d * b == d * (b - 1) + d;
    if b == a + 1 {
    } else {
      ProductStep(d, a, b - 1);
    }
  }

  lemma DivAtLeast(x: nat, d: nat, m: nat)
    requires 0 < d
    ensures m <= x / d <==> m * d <= x
  {
    var q := x / d;
    assert x == d * q + x % d;
    if m < q {
      ProductStep(d, m, q);
    } else if q < m {
      ProductStep(d, q, m);
    }
  }

  lemma DivTwice(x: nat, a: nat, b: nat)
    requires 0 < a && 0 < b
    ensures 0 < a * b && (x / a) / b == x / (a * b)
  {
    DivTwiceAtLeast(x, a, b, (x / a) / b);
    DivTwiceAtLeast(x, a, b, x / (a * b));
  }

  lemma DivTwiceAtLeast(x: nat, a: nat, b: nat, m: nat)
    requires 0 < a && 0 < b
    ensures 0 < a * b && (m <= (x / a) / b <==> m <= x / (a * b))
  {
    ProductStep(a, 0, b);
    DivAtLeast(x / a, b, m);
    DivAtLeast(x, a, m * b);
    DivAtLeast(x, a * b, m);
    assert (m * b) * a == m * (a * b);
  }

  /** Byte `p` of the encoding of `x`: its seven-bit group, least significant first, with the top bit set if more
      groups follow. */
  lemma {:induction false} UvarintAt(x: nat, pad: nat, p: nat)
    requires p < |Uvarint(x)| + pad
    ensures 0 < Pow(128, p)
    ensures (Uvarint(x) + Zeros(pad))[p] as int ==
      x / Pow(128, p) % 128 + if Pow(128, p + 1) <= x then 128 else 0
    decreases p
  {
    PowPositive(128, p);
    if p == 0 {
      assert Pow(128, 1) == 128 * Pow(128, 0);
    } else if x < 128 {
      Difficulty.PowMonotone(128, 1, p);
      Difficulty.PowMonotone(128, 1, p + 1);
      assert Pow(128, 1) == 128;
      DivAtLeast(x, Pow(128, p), 1);
    } else {
      UvarintAt(x / 128, pad, p - 1);
      assert (Uvarint(x) + Zeros(pad))[p] == (Uvarint(x / 128) + Zeros(pad))[p - 1];
      NextGroup(x, p);
    }
  }

  /** Group `p` of a number is group `p - 1` of what is left after the first. */
  lemma NextGroup(x: nat, p: nat)
    requires 0 < p
    ensures 0 < Pow(128, p - 1) && 0 < Pow(128, p)
    ensures x / 128 / Pow(128, p - 1) == x / Pow(128, p)
    ensures Pow(128, p) <= x / 128 <==> Pow(128, p + 1) <= x
  {
    PowPositive(128, p - 1);
    PowPositive(128, p);
    DivTwice(x, 128, Pow(128, p - 1));
    DivAtLeast(x, 128, Pow(128, p));
    assert Pow(128, p) == 128 * Pow(128, p - 1) && Pow(128, p + 1) == 128 * Pow(128, p);
  }

  /** An integer is written as twice its value, or twice its negation less one, in eight bytes. */
  lemma VarintAt(i: int, p: nat)
    requires Varint(i).Ok? && p < 8
    ensures 0 < Pow(128, p) && |Varint(i).value| == 8
    ensures var z := if 0 <= i then 2 * i else -2 * i - 1;
      Varint(i).value[p] as int == z / Pow(128, p) % 128 + if Pow(128, p + 1) <= z then 128 else 0
  {
    var bs := Uvarint(ZigZag(i));
    UvarintAt(ZigZag(i), 8 - |bs|, p);
  }

  // ----- lists, in order -----

  lemma {:induction false} InputsInOrder(a: seq<Input>, input: Input)
    ensures InputsBytes(a + [input]) ==
      if InputsBytes(a).Ok? && InputBytes(input).Ok? then Ok(InputsBytes(a).value + InputBytes(input).value)
      else if InputsBytes(a).Err? then InputsBytes(a)
      else InputBytes(input)
  {
    if a == [] {
      assert [] + [input] == [input] && [input][1..] == [];
      assert InputBytes(input).Ok? ==> InputBytes(input).value + [] == [] + InputBytes(input).value;
    } else {
      assert (a + [input])[1..] == a[1..] + [input];
      InputsInOrder(a[1..], input);
      if InputsBytes(a).Ok? && InputBytes(input).Ok? {
        Assoc(InputBytes(a[0]).value, InputsBytes(a[1..]).value, InputBytes(input).value);
      }
    }
  }

  lemma {:induction false} OutputsInOrder(c: Crypto, a: seq<Output>, output: Output)
    ensures OutputsBytes(c, a + [output]) == OutputsBytes(c, a) + OutputBytes(c, output)
  {
    if a == [] {
      assert [] + [output] == [output] && [output][1..] == [];
    } else {
      assert (a + [output])[1..] == a[1..] + [output];
      OutputsInOrder(c, a[1..], output);
      Assoc(OutputBytes(c, a[0]), OutputsBytes(c, a[1..]), OutputBytes(c, output));
    }
  }

  lemma {:induction false} TxsInOrder(c: Crypto, a: seq<Transaction>, t: Transaction)
    ensures TxsBytes(c, a + [t]) ==
      if TxsBytes(c, a).Ok? && TxBytes(c, t, true).Ok? then Ok(TxsBytes(c, a).value + TxBytes(c, t, true).value)
      else if TxsBytes(c, a).Err? then TxsBytes(c, a)
      else TxBytes(c, t, true)
  {
    if a == [] {
      assert [] + [t] == [t] && [t][1..] == [];
      assert TxBytes(c, t, true).Ok? ==> TxBytes(c, t, true).value + [] == [] + TxBytes(c, t, true).value;
    } else {
      assert (a + [t])[1..] == a[1..] + [t];
      TxsInOrder(c, a[1..], t);
      if TxsBytes(c, a).Ok? && TxBytes(c, t, true).Ok? {
        Assoc(TxBytes(c, a[0], true).value, TxsBytes(c, a[1..]).value, TxBytes(c, t, true).value);
      }
    }
  }

  // ----- fields, by position -----

  /** The digest an input names comes before its index, and an amount before its key. */
  lemma PartsLayout(c: Crypto, input: Input, output: Output)
    ensures InputBytes(input).Ok? <==> HexToBytes(input.prevTxHash).Ok? && Varint(input.index).Ok?
    ensures InputBytes(input).Ok? ==>
      var bytes, n := InputBytes(input).value, |HexToBytes(input.prevTxHash).value|;
      |bytes| == n + 8 && Ok(bytes[..n]) == HexToBytes(input.prevTxHash) && Ok(bytes[n..]) == Varint(input.index)
    ensures var bytes := OutputBytes(c, output);
      |bytes| >= 8 && bytes[..8] == c.floatBits(output.value) && bytes[8..] == output.publicKey
  {
  }

  /** Inputs, outputs, eight bytes of height, and the hash at the end if it is asked for. */
  lemma TxLayout(c: Crypto, t: Transaction, withHash: bool)
    requires TxBytes(c, t, withHash).Ok?
    ensures InputsBytes(t.inputs).Ok? && Varint(t.height).Ok? && (withHash ==> HexToBytes(t.hash).Ok?)
    ensures var bytes := TxBytes(c, t, withHash).value;
      var m := |InputsBytes(t.inputs).value|;
      var n := m + |OutputsBytes(c, t.outputs)|;
      && n + 8 <= |bytes| && bytes[..m] == InputsBytes(t.inputs).value
      && bytes[m..n] == OutputsBytes(c, t.outputs)
      && Ok(bytes[n..n + 8]) == Varint(t.height)
      && bytes[n + 8..] == if withHash then HexToBytes(t.hash).value else []
  {
    TxBytesFields(c, t, withHash);
    var a, b := InputsBytes(t.inputs).value, OutputsBytes(c, t.outputs);
    var h, e := Varint(t.height).value, if withHash then HexToBytes(t.hash).value else [];
    var bytes := ((a + b) + h) + e;
    assert bytes == TxBytes(c, t, withHash).value;
    assert bytes[|a|..|a| + |b|] == b;
    assert bytes[|a| + |b|..|a| + |b| + 8] == h;
  }

  /** Eight bytes of nounce, the parent hash, the transactions and the coinbase. */
  lemma BlockLayout(c: Crypto, b: Block)
    requires BlockBytes(c, b).Ok?
    ensures HexToBytes(b.prevHash).Ok? && TxsBytes(c, b.txs).Ok? && TxBytes(c, b.coinbase, true).Ok?
    ensures var bytes := BlockBytes(c, b).value;
      var m := 8 + |HexToBytes(b.prevHash).value|;
      var n := m + |TxsBytes(c, b.txs).value|;
      && n <= |bytes| && Ok(bytes[..8]) == Varint(b.nounce)
      && bytes[8..m] == HexToBytes(b.prevHash).value
      && bytes[m..n] == TxsBytes(c, b.txs).value
      && bytes[n..] == TxBytes(c, b.coinbase, true).value
  {
    var v, p := Varint(b.nounce).value, HexToBytes(b.prevHash).value;
    var t, e := TxsBytes(c, b.txs).value, TxBytes(c, b.coinbase, true).value;
    var bytes := ((v + p) + t) + e;
    assert bytes == BlockBytes(c, b).value;
    assert bytes[..8] == v && bytes[8..8 + |p|] == p;
    assert bytes[8 + |p|..8 + |p| + |t|] == t;
  }

  /** The message for an input is that input and all outputs. */
  lemma SignLayout(c: Crypto, t: Transaction, i: nat)
    requires i < |t.inputs|
    ensures SignBytes(c, t, i).Ok? <==> InputBytes(t.inputs[i]).Ok?
    ensures SignBytes(c, t, i).Ok? ==>
      SignBytes(c, t, i).value == InputBytes(t.inputs[i]).value + OutputsBytes(c, t.outputs)
  {
  }
}
