/** Proof of work: the leading-zero test as a numeric threshold, and the search for a nounce. */
module Difficulty {
  import opened Encoding
  import opened Types

  const MAX_INT := 0x7fff_ffff_ffff_ffff

  function BigEndian(bs: seq<byte>): nat {
    if bs == [] then 0 else bs[0] as nat * Pow(256, |bs| - 1) + BigEndian(bs[1..])
  }

  /** At most `8 * |bs| - d` significant bits. */
  ghost predicate MeetsThreshold(bs: seq<byte>, d: int) {
    0 <= d <= 8 * |bs| && BigEndian(bs) < Pow(2, 8 * |bs| - d)
  }

  lemma {:induction false} PowAdd(b: nat, m: nat, n: nat)
    ensures Pow(b, m + n) == Pow(b, m) * Pow(b, n)
  {
    if m == 0 {
    } else {
      PowAdd(b, m - 1, n);
      var x, y := Pow(b, m - 1), Pow(b, n);
      assert b * (x * y) == (b * x) * y;
    }
  }

  lemma {:induction false} Pow256(n: nat)
    ensures Pow(256, n) == Pow(2, 8 * n)
  {
    if n == 0 {
    } else {
      Pow256(n - 1);
      PowAdd(2, 8, 8 * (n - 1));
      assert Pow(2, 8) == 256 by {
        assert Pow(2, 4) == 16;
      }
    }
  }

  lemma {:induction false} PowMonotone(b: nat, m: nat, n: nat)
    requires 0 < b && m <= n
    ensures 0 < Pow(b, m) <= Pow(b, n)
  {
    PowAdd(b, m, n - m);
    PowPositive(b, m);
    PowPositive(b, n - m);
    var x, y := Pow(b, m), Pow(b, n - m);
    assert x <= x * y;
  }

  /** A leading digit decides the comparison with a multiple of its weight. */
  lemma Digits(x: nat, p: nat, rest: nat, t: nat)
    requires rest < p
    ensures x * p + rest < t * p <==> x < t
  {
    if x < t {
      assert (x + 1) * p <= t * p;
      assert (x + 1) * p == x * p + p;
    } else {
      assert t * p <= x * p;
    }
  }

  lemma {:induction false} BigEndianBound(bs: seq<byte>)
    ensures BigEndian(bs) < Pow(256, |bs|)
  {
    if bs == [] {
    } else {
      BigEndianBound(bs[1..]);
      Digits(bs[0] as nat, Pow(256, |bs| - 1), BigEndian(bs[1..]), 256);
      assert Pow(256, |bs|) == 256 * Pow(256, |bs| - 1);
    }
  }

  lemma {:induction false} SkipZeros(bs: seq<byte>, q: nat)
    requires q <= |bs| && forall i :: 0 <= i < q ==> bs[i] == 0
    ensures BigEndian(bs) == BigEndian(bs[q..])
  {
    if q > 0 {
      SkipZeros(bs[1..], q - 1);
      assert bs[1..][q - 1..] == bs[q..];
    } else {
      assert bs[0..] == bs;
    }
  }

  lemma {:induction false} NonzeroByte(bs: seq<byte>, k: nat)
    requires k < |bs| && bs[k] != 0
    ensures Pow(256, |bs| - 1 - k) <= BigEndian(bs)
  {
    Product(bs[0] as nat, Pow(256, |bs| - 1));
    if k == 0 {
    } else {
      NonzeroByte(bs[1..], k - 1);
    }
  }

  lemma Product(x: nat, p: nat)
    ensures 0 <= x * p && (0 < x ==> p <= x * p)
  {
  }

  /** A nonzero byte among the first `d / 8` puts the value at or above the threshold. */
  lemma EarlyByteFails(bs: seq<byte>, k: nat, d: nat)
    requires k < |bs| && bs[k] != 0 && 8 * (k + 1) <= d
    ensures !MeetsThreshold(bs, d)
  {
    if d <= 8 * |bs| {
      NonzeroByte(bs, k);
      Pow256(|bs| - 1 - k);
      PowMonotone(2, 8 * |bs| - d, 8 * (|bs| - 1 - k));
    }
  }

  /** With the full bytes zero, the decision is whether the next byte has its top bits clear. */
  lemma NextByteDecides(bs: seq<byte>, d: nat)
    requires d < 8 * |bs| && forall i :: 0 <= i < d / 8 ==> bs[i] == 0
    ensures 0 < Pow(2, 8 - d % 8)
    ensures MeetsThreshold(bs, d) <==> bs[d / 8] as nat / Pow(2, 8 - d % 8) == 0
  {
    var q, r := d / 8, d % 8;
    var n := |bs| - 1 - q;
    var t := Pow(2, 8 - r);
    SkipZeros(bs, q);
    BigEndianBound(bs[q..][1..]);
    PowPositive(2, 8 - r);
    ThresholdSplits(8 - r, n);
    Digits(bs[q] as nat, Pow(256, n), BigEndian(bs[q..][1..]), t);
    assert 8 * |bs| - d == (8 - r) + 8 * n;
    DivZero(bs[q] as nat, t);
  }

  lemma ThresholdSplits(k: nat, n: nat)
    ensures Pow(2, k + 8 * n) == Pow(2, k) * Pow(256, n)
  {
    Pow256(n);
    PowAdd(2, k, 8 * n);
  }

  lemma DivZero(x: nat, t: nat)
    requires 0 < t
    ensures x / t == 0 <==> x < t
  {
    assert x == t * (x / t) + x % t;
    if x / t >= 1 {
      assert t <= t * (x / t);
    }
  }

  /** Passing a difficulty means passing every smaller one. */
  lemma ThresholdMonotone(bs: seq<byte>, d: nat, e: nat)
    requires MeetsThreshold(bs, d) && e <= d
    ensures MeetsThreshold(bs, e)
  {
    PowMonotone(2, 8 * |bs| - d, 8 * |bs| - e);
  }

  /** Every difficulty has an answer or a panic. Below zero the shift leaves nothing of the first byte, or the
      byte looked at is before the start; at exactly `8 * |bs|` zero bytes it is past the end. */
  ghost function ZeroTest(bs: seq<byte>, d: int): Result<bool> {
    if d <= -8 || (d < 0 && bs == []) then Err(Panic)
    else if d < 0 then Ok(true)
    else if d == 8 * |bs| && (forall k :: 0 <= k < |bs| ==> bs[k] == 0) then Err(Panic)
    else Ok(MeetsThreshold(bs, d))
  }

  /** Division as in Go, toward zero. */
  function Quotient(a: int, b: int): int
    requires 0 < b
  {
    if a < 0 then -(-a / b) else a / b
  }

  method ByteHasLeadingZeros(bytes: seq<byte>, difficulty: int) returns (r: Result<bool>)
    ensures r == ZeroTest(bytes, difficulty)
  {
    var numOfZeroBytes := Quotient(difficulty, 8);
    var numOfZeroBits := difficulty - 8 * numOfZeroBytes;
    var totalBytes := numOfZeroBytes;
    if numOfZeroBits > 0 {
      totalBytes := totalBytes + 1;
    }
    if totalBytes > |bytes| {
      return Ok(false);
    }
    var i := 0;
    while i < numOfZeroBytes
      invariant 0 <= i && (0 <= numOfZeroBytes ==> i <= numOfZeroBytes)
      invariant forall j :: 0 <= j < i && j < |bytes| ==> bytes[j] == 0
    {
      if bytes[i] != 0 {
        EarlyByteFails(bytes, i, difficulty);
        return Ok(false);
      }
      i := i + 1;
    }
    if numOfZeroBytes < 0 || numOfZeroBytes == |bytes| {
      return Err(Panic);
    }
    ShiftDecides(bytes, difficulty, numOfZeroBytes);
    return Ok(bytes[numOfZeroBytes] as int / Pow(2, 8 - numOfZeroBits) == 0);
  }

  /** What is left of byte `q`, shifted by 8 less the remaining bits, decides. */
  lemma ShiftDecides(bs: seq<byte>, d: int, q: nat)
    requires -8 < d && q == Quotient(d, 8) < |bs| && forall i :: 0 <= i < q ==> bs[i] == 0
    ensures 0 <= 8 - (d - 8 * q) && 0 < Pow(2, 8 - (d - 8 * q))
    ensures ZeroTest(bs, d) == Ok(bs[q] as int / Pow(2, 8 - (d - 8 * q)) == 0)
  {
    if d < 0 {
      PowMonotone(2, 8, 8 - d);
      assert Pow(2, 8) == 256 by {
        assert Pow(2, 4) == 16;
      }
      DivZero(bs[q] as nat, Pow(2, 8 - d));
    } else {
      NextByteDecides(bs, d);
    }
  }

  /** Verdict and digest of a block; the digest is empty when the block cannot be encoded. */
  ghost function Match(c: Crypto, b: Block, difficulty: int): Result<(bool, Hash)> {
    match BlockBytes(c, b)
    case Err(e) => if e.Panic? then Err(Panic) else Ok((false, ""))
    case Ok(bytes) =>
      var zeros :- ZeroTest(c.sha256(bytes), difficulty);
      Ok((zeros, BytesToHex(c.sha256(bytes))))
  }

  /** The verdict is true exactly for a digest below the target, whatever hash the block itself carries. */
  lemma MatchExactly(c: Crypto, b: Block, difficulty: int)
    ensures var m := Match(c, b, difficulty);
      && (0 <= difficulty < 256 ==>
            (m.Ok? && m.value.0 <==>
               && BlockBytes(c, b).Ok?
               && BigEndian(c.sha256(BlockBytes(c, b).value)) < Pow(2, 256 - difficulty)))
      && (-8 < difficulty < 0 ==> (m.Ok? && m.value.0 <==> BlockBytes(c, b).Ok?))
      && (m.Ok? && m.value.0 ==>
            BlockBytes(c, b).Ok? && -8 < difficulty < 256 && m.value.1 == BytesToHex(c.sha256(BlockBytes(c, b).value)))
      && (m.Err? && 0 <= difficulty < 256 ==> BlockBytes(c, b) == Err(Panic))
  {
    var r := BlockBytes(c, b);
    if r.Ok? {
      var digest := c.sha256(r.value);
      assert |digest| == 32;
      if difficulty == 256 {
        NeverBelowOne(digest);
      }
    }
  }

  method MatchDifficulty(c: Crypto, b: Block, difficulty: int) returns (r: Result<(bool, Hash)>)
    ensures r == Match(c, b, difficulty)
    ensures 0 <= difficulty < 256 ==>
      (r.Ok? && r.value.0 <==>
         && BlockBytes(c, b).Ok?
         && BigEndian(c.sha256(BlockBytes(c, b).value)) < Pow(2, 256 - difficulty))
  {
    MatchExactly(c, b, difficulty);
    var blockBytes := GetBlockBytes(c, b);
    if blockBytes.Err? {
      return if blockBytes.error.Panic? then Err(Panic) else Ok((false, ""));
    }
    var digest := c.sha256(blockBytes.value);
    var zeros :- ByteHasLeadingZeros(digest, difficulty);
    return Ok((zeros, BytesToHex(digest)));
  }

  ghost predicate Hit(c: Crypto, b: Block, difficulty: int, nounce: int) {
    var m := Match(c, b.(nounce := nounce), difficulty);
    m.Ok? && m.value.0
  }

  /** The nounces tried before a command arrives on the control channel. */
  predicate Before(i: int, interruptAt: Option<int>) {
    interruptAt.None? || i < interruptAt.value
  }

  /** Some nounce below 2^55 meets the difficulty before a command arrives. */
  ghost predicate Winnable(c: Crypto, b: Block, difficulty: int, interruptAt: Option<int>) {
    exists i :: 0 <= i < VARINT_BOUND && Before(i, interruptAt) && Hit(c, b, difficulty, i)
  }

  /** `mined` is the block with the least nounce that meets the difficulty, and with its digest. */
  ghost predicate Won(c: Crypto, b: Block, difficulty: int, interruptAt: Option<int>, mined: Block) {
    && 0 <= mined.nounce < VARINT_BOUND && Before(mined.nounce, interruptAt)
    && mined == b.(nounce := mined.nounce, hash := mined.hash)
    && Match(c, mined, difficulty) == Ok((true, mined.hash))
    && Hit(c, b, difficulty, mined.nounce)
    && Missed(c, b, difficulty, mined.nounce)
  }

  ghost predicate CanTry(c: Crypto, b: Block, difficulty: int, nounce: int) {
    Match(c, b.(nounce := nounce), difficulty).Ok?
  }

  /** How the search ends: with a result, with the command if every try before it can be made, or with a panic. */
  ghost function MineVerdict(c: Crypto, b: Block, difficulty: int, interruptAt: Option<int>): Option<Error> {
    if Winnable(c, b, difficulty, interruptAt) then None
    else if interruptAt.Some? && forall j :: 0 <= j < interruptAt.value ==> CanTry(c, b, difficulty, j) then
      Some(MiningInterrupted)
    else Some(Panic)
  }

  /** Every nounce below `i` was tried in vain. */
  ghost predicate Missed(c: Crypto, b: Block, difficulty: int, i: int) {
    forall j :: 0 <= j < i ==> CanTry(c, b, difficulty, j) && !Hit(c, b, difficulty, j)
  }

  lemma Interrupted(c: Crypto, b: Block, difficulty: int, interruptAt: Option<int>, i: int)
    requires Missed(c, b, difficulty, i) && interruptAt.Some? && interruptAt.value <= i
    ensures MineVerdict(c, b, difficulty, interruptAt) == Some(MiningInterrupted)
  {
  }

  lemma Panicked(c: Crypto, b: Block, difficulty: int, interruptAt: Option<int>, i: int)
    requires Missed(c, b, difficulty, i) && 0 <= i && Before(i, interruptAt) && !CanTry(c, b, difficulty, i)
    requires forall j :: i <= j ==> !Hit(c, b, difficulty, j)
    ensures MineVerdict(c, b, difficulty, interruptAt) == Some(Panic)
  {
  }

  lemma Found(c: Crypto, b: Block, difficulty: int, interruptAt: Option<int>, i: int)
    requires 0 <= i < VARINT_BOUND && Before(i, interruptAt) && Hit(c, b, difficulty, i)
    ensures MineVerdict(c, b, difficulty, interruptAt) == None
  {
  }

  /** The search finds the least nounce that meets the difficulty, exactly if one is below 2^55 and no command
      arrives first. Past 2^55 the encoding of the nounce overruns its buffer, so the search never ends by
      running out of nounces. */
  method Mine(c: Crypto, block: Block, difficulty: int, interruptAt: Option<int>)
    returns (mined: Block, err: Option<Error>)
    ensures err == MineVerdict(c, block, difficulty, interruptAt)
    ensures err.None? ==> Won(c, block, difficulty, interruptAt, mined)
  {
    mined := block;
    var i := 0;
    while i < MAX_INT
      invariant 0 <= i <= VARINT_BOUND
      invariant mined == block.(nounce := mined.nounce)
      invariant Missed(c, block, difficulty, i)
    {
      if interruptAt.Some? && interruptAt.value <= i {
        Interrupted(c, block, difficulty, interruptAt, i);
        return mined, Some(MiningInterrupted);
      }
      mined := mined.(nounce := i);
      var m := TryNounce(c, block, mined, difficulty);
      if m.Err? {
        Panicked(c, block, difficulty, interruptAt, i);
        return mined, Some(Panic);
      }
      if m.value.0 {
        Found(c, block, difficulty, interruptAt, i);
        mined := mined.(hash := m.value.1);
        return mined, None;
      }
      i := i + 1;
    }
    return mined, Some(NoNounceFound);
  }

  /** The search succeeds exactly if a nounce below 2^55 brings the digest below the target before a command. */
  lemma MineExactly(c: Crypto, b: Block, difficulty: int, interruptAt: Option<int>)
    requires 0 <= difficulty < 256
    ensures MineVerdict(c, b, difficulty, interruptAt) == None <==>
      exists i ::
        && 0 <= i < 0x80_0000_0000_0000
        && (interruptAt.Some? ==> i < interruptAt.value)
        && BlockBytes(c, b.(nounce := i)).Ok?
        && BigEndian(c.sha256(BlockBytes(c, b.(nounce := i)).value)) < Pow(2, 256 - difficulty)
  {
    if Winnable(c, b, difficulty, interruptAt) {
      var i :| 0 <= i < VARINT_BOUND && Before(i, interruptAt) && Hit(c, b, difficulty, i);
      MatchExactly(c, b.(nounce := i), difficulty);
    }
    if i :| && 0 <= i < VARINT_BOUND && (interruptAt.Some? ==> i < interruptAt.value)
            && BlockBytes(c, b.(nounce := i)).Ok?
            && BigEndian(c.sha256(BlockBytes(c, b.(nounce := i)).value)) < Pow(2, 256 - difficulty)
    {
      MatchExactly(c, b.(nounce := i), difficulty);
      assert Hit(c, b, difficulty, i);
    }
  }

  /** Otherwise it ends with the command, if no nounce before that overruns a buffer, or else with a panic. */
  lemma MineEndings(c: Crypto, b: Block, difficulty: int, interruptAt: Option<int>)
    requires 0 <= difficulty < 256 && MineVerdict(c, b, difficulty, interruptAt) != None
    ensures var reachesCommand := interruptAt.Some? &&
        forall j :: 0 <= j < interruptAt.value ==> BlockBytes(c, b.(nounce := j)) != Err(Panic);
      MineVerdict(c, b, difficulty, interruptAt) == if reachesCommand then Some(MiningInterrupted) else Some(Panic)
  {
    forall j: int
      ensures CanTry(c, b, difficulty, j) <==> BlockBytes(c, b.(nounce := j)) != Err(Panic)
    {
      MatchExactly(c, b.(nounce := j), difficulty);
    }
  }

  /** The block found is the given one with another nounce and its own digest, which is below the target. Every
      smaller nounce can be encoded too and gives a digest at or above it. */
  lemma WonExactly(c: Crypto, b: Block, difficulty: int, interruptAt: Option<int>, mined: Block)
    requires 0 <= difficulty < 256 && Won(c, b, difficulty, interruptAt, mined)
    ensures mined == b.(nounce := mined.nounce, hash := mined.hash)
    ensures 0 <= mined.nounce && (interruptAt.Some? ==> mined.nounce < interruptAt.value)
    ensures BlockBytes(c, mined).Ok? && mined.hash == BytesToHex(c.sha256(BlockBytes(c, mined).value))
    ensures BigEndian(c.sha256(BlockBytes(c, mined).value)) < Pow(2, 256 - difficulty)
    ensures forall i :: 0 <= i < mined.nounce ==>
      && BlockBytes(c, b.(nounce := i)).Ok?
      && Pow(2, 256 - difficulty) <= BigEndian(c.sha256(BlockBytes(c, b.(nounce := i)).value))
  {
    MatchExactly(c, mined, difficulty);
    VarintDefined(mined.nounce);
    forall i | 0 <= i < mined.nounce
      ensures BlockBytes(c, b.(nounce := i)).Ok? && !Hit(c, b, difficulty, i)
      ensures Pow(2, 256 - difficulty) <= BigEndian(c.sha256(BlockBytes(c, b.(nounce := i)).value))
    {
      VarintDefined(i);
      assert !Hit(c, b, difficulty, i);
      MatchExactly(c, b.(nounce := i), difficulty);
    }
  }

  /** One try of the search. */
  method TryNounce(c: Crypto, block: Block, mined: Block, difficulty: int) returns (m: Result<(bool, Hash)>)
    requires 0 <= mined.nounce && mined == block.(nounce := mined.nounce)
    ensures m.Ok? <==> CanTry(c, block, difficulty, mined.nounce)
    ensures m.Err? ==> forall j :: mined.nounce <= j ==> !Hit(c, block, difficulty, j)
    ensures m.Ok? ==> mined.nounce < VARINT_BOUND && (Hit(c, block, difficulty, mined.nounce) <==> m.value.0)
    ensures m.Ok? && m.value.0 ==>
      Match(c, mined.(hash := m.value.1), difficulty) == Ok((true, m.value.1))
  {
    m := MatchDifficulty(c, mined, difficulty);
    Tried(c, block, difficulty, mined.nounce);
    if m.Ok? {
      HashNotHashed(c, mined, m.value.1, difficulty);
    }
  }

  /** At a difficulty where the test can panic nothing ever meets it. */
  lemma PanicNeverHits(c: Crypto, b: Block, difficulty: int, bytes: seq<byte>)
    requires ZeroTest(c.sha256(bytes), difficulty).Err?
    ensures forall j :: !Hit(c, b, difficulty, j)
  {
    forall j
      ensures !Hit(c, b, difficulty, j)
    {
      var r := BlockBytes(c, b.(nounce := j));
      if r.Ok? && difficulty == 256 {
        NeverBelowOne(c.sha256(r.value));
      }
    }
  }

  lemma NeverBelowOne(bs: seq<byte>)
    ensures ZeroTest(bs, 8 * |bs|) != Ok(true)
  {
    if k: nat :| k < |bs| && bs[k] != 0 {
      EarlyByteFails(bs, k, 8 * |bs|);
    }
  }

  /** What one try tells about the later ones. */
  lemma Tried(c: Crypto, b: Block, difficulty: int, i: int)
    requires 0 <= i
    ensures VARINT_BOUND <= i ==> Match(c, b.(nounce := i), difficulty).Err?
    ensures Match(c, b.(nounce := i), difficulty).Err? ==> forall j :: i <= j ==> !Hit(c, b, difficulty, j)
    ensures Match(c, b.(nounce := i), difficulty).Ok? ==>
      (Hit(c, b, difficulty, i) <==> Match(c, b.(nounce := i), difficulty).value.0)
  {
    VarintDefined(i);
    var r := BlockBytes(c, b.(nounce := i));
    if r.Ok? && ZeroTest(c.sha256(r.value), difficulty).Err? {
      PanicNeverHits(c, b, difficulty, r.value);
    } else if r.Err? && r.error.Panic? {
      forall j | i <= j
        ensures !Hit(c, b, difficulty, j)
      {
        VarintDefined(j);
      }
    }
  }

  /** The hash of a block is not part of what is hashed. */
  lemma HashNotHashed(c: Crypto, b: Block, hash: Hash, difficulty: int)
    ensures Match(c, b.(hash := hash), difficulty) == Match(c, b, difficulty)
  {
    assert BlockBytes(c, b.(hash := hash)) == BlockBytes(c, b);
  }
}
