/** Values that travel between the parts of a node: the protobuf messages as datatypes, the
    application configuration, and the cryptographic library as a record of functions. */
module Types {
  newtype byte = x: int | 0 <= x < 256

  /** Hash of a block or of a transaction, in hex. */
  type Hash = string

  type Digest = d: seq<byte> | |d| == 32 witness seq(32, _ => 0)
  type Word64 = w: seq<byte> | |w| == 8 witness seq(8, _ => 0)

  datatype Option<+T> = None | Some(value: T)

  /** The error returns of the program. `Panic` is a Go run-time panic (an index out of range), `Fatal` a
      call that ends the process. */
  datatype Error =
    | Panic
    | BadHex
    | IndexOutOfRange
    | BadTxHash
    | InputSpent
    | BadPublicKey
    | BadSignature
    | DoubleSpend
    | NegativeOutput
    | OutputExceedsInput
    | BadCoinbaseShape
    | CoinbaseTooLarge
    | BatchInvalid
    | BlockExists
    | DifficultyMismatch
    | BadBlockHash
    | ParentNotFound
    | ParentTooDeep
    | TxExists
    | MiningInterrupted
    | NoNounceFound
    | Fatal

  datatype Result<+T> = Ok(value: T) | Err(error: Error) {
    predicate IsFailure() { Err? }

    function PropagateFailure<U>(): Result<U>
      requires Err?
    {
      Err(error)
    }

    function Extract(): T
      requires Ok?
    {
      value
    }
  }

  datatype UTXOLite = UTXOLite(prevTxHash: Hash, index: int)

  datatype Input = Input(prevTxHash: Hash, index: int, signature: seq<byte>)

  datatype Output = Output(value: real, publicKey: seq<byte>)

  datatype Transaction = Transaction(hash: Hash, inputs: seq<Input>, outputs: seq<Output>, height: int)

  datatype Block = Block(hash: Hash, prevHash: Hash, txs: seq<Transaction>, coinbase: Transaction, nounce: int)

  /** The library calls of the program. A public key is represented by the bytes it parses to. */
  datatype Crypto = Crypto(
    sha256: seq<byte> -> Digest,
    floatBits: real -> Word64,
    parseKey: seq<byte> -> Option<seq<byte>>,
    verify: (seq<byte>, seq<byte>, seq<byte>) -> bool)

  datatype Config = Config(difficulty: int, reward: real, confirmation: int) {
    ghost predicate Valid() {
      0.0 <= reward && 0 <= confirmation
    }
  }

  const GENESIS_HASH: Hash := "00"

  /** The genesis block has only a hash; its missing coinbase is an empty transaction here. */
  const GENESIS: Block := Block(GENESIS_HASH, "", [], Transaction("", [], [], 0), 0)

  /** The unspent-output map inside a ledger. */
  type Utxos = map<UTXOLite, Output>

  function Outpoint(input: Input): UTXOLite {
    UTXOLite(input.prevTxHash, input.index)
  }

  // Signatures are not part of any hashed content.

  function StripInput(input: Input): Input {
    input.(signature := [])
  }

  ghost function StripTx(tx: Transaction): Transaction {
    tx.(inputs := seq(|tx.inputs|, i requires 0 <= i < |tx.inputs| => StripInput(tx.inputs[i])))
  }

  ghost function StripTxs(txs: seq<Transaction>): seq<Transaction> {
    seq(|txs|, i requires 0 <= i < |txs| => StripTx(txs[i]))
  }

  ghost function StripBlock(b: Block): Block {
    b.(txs := StripTxs(b.txs), coinbase := StripTx(b.coinbase))
  }
}
