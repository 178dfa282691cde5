/** `create_rbatch` of utils.rs: reads one batch from a byte cursor and
    initializes a receive batch, first with the negotiated compression setting
    and then, if that fails, without compression on the same bytes.

    `RBatch::initialize` belongs to another crate; it is the parameter `init`,
    a pure function from a configuration and the batch bytes to a batch or an
    error. The model records every call made to it. */
module BatchReader {
  import opened Wrappers

  newtype byte = x: int | 0 <= x < 256

  /** `BatchSize::MAX`. Its value is fixed by the protocol crate and does not
      matter here, so it is left unspecified. */
  const BatchSizeMax: nat

  /** `BatchConfig`: maximum transport unit, streamed framing, compression. */
  datatype BatchConfig = BatchConfig(mtu: nat, isStreamed: bool, isCompression: bool)

  /** The configuration `create_rbatch` builds: the maximum batch size, no
      stream framing, and the given compression setting. */
  function ReadConfig(isCompression: bool): (c: BatchConfig)
    ensures c.mtu == BatchSizeMax && !c.isStreamed && c.isCompression == isCompression
  {
    BatchConfig(BatchSizeMax, false, isCompression)
  }

  /** One call to `RBatch::new` plus `initialize`: its configuration and bytes. */
  datatype Attempt = Attempt(config: BatchConfig, bytes: seq<byte>)

  /** The error `create_rbatch` returns: "Failed to initialize rbatch due to {e}". */
  datatype InitFailure<E> = InitFailure(cause: E)

  /** What `create_rbatch` yields: its result, the cursor after the read, and the
      initialization attempts made, in order. */
  datatype Outcome<B, E> = Outcome(result: Result<B, InitFailure<E>>, rest: seq<byte>, attempts: seq<Attempt>)

  /** The result of the last attempt, with a failure wrapped as `InitFailure`. */
  function Wrap<B, E>(r: Result<B, E>): Result<B, InitFailure<E>>
  {
    match r
    case Ok(b) => Ok(b)
    case Err(e) => Err(InitFailure(e))
  }

  /** `create_rbatch(reader, batch_size, is_compression)`. The slice reader's
      `read_exact` fails on a cursor holding fewer than `batch_size` bytes and
      on a read of zero bytes, and `.expect` turns that failure into a panic,
      so both cases are excluded. */
  function CreateRBatch<B, E>(reader: seq<byte>, batchSize: nat, isCompression: bool,
                              init: (BatchConfig, seq<byte>) -> Result<B, E>): (o: Outcome<B, E>)
    requires 0 < batchSize <= |reader|
    // exactly batch_size bytes are consumed
    ensures o.rest == reader[batchSize..]
    // every attempt sees exactly the bytes that were read
    ensures 1 <= |o.attempts| <= 2
    ensures forall a :: a in o.attempts ==> a.bytes == reader[..batchSize]
    // first the negotiated setting; a second attempt only after a failure, without compression
    ensures o.attempts[0].config == ReadConfig(isCompression)
    ensures |o.attempts| == 2 <==> init(ReadConfig(isCompression), reader[..batchSize]).Err?
    ensures |o.attempts| == 2 ==> o.attempts[1].config == ReadConfig(false)
    // the result is that of the last attempt
    ensures var last := o.attempts[|o.attempts| - 1];
            o.result == Wrap(init(last.config, last.bytes))
  {
    var batch := reader[..batchSize];
    var rest := reader[batchSize..];
    var first := Attempt(ReadConfig(isCompression), batch);
    match init(first.config, first.bytes)
    case Ok(b) => Outcome(Ok(b), rest, [first])
    case Err(_) =>
      var second := Attempt(ReadConfig(false), batch);
      Outcome(Wrap(init(second.config, second.bytes)), rest, [first, second])
  }

  /** Reference behaviour: try the configurations in order on the same bytes;
      the first success wins, otherwise the last error is reported. */
  function FirstSuccess<B, E>(configs: seq<BatchConfig>, bytes: seq<byte>,
                              init: (BatchConfig, seq<byte>) -> Result<B, E>): Result<B, E>
    requires |configs| > 0
    decreases |configs|
  {
    var r := init(configs[0], bytes);
    if r.Ok? || |configs| == 1 then r else FirstSuccess(configs[1..], bytes, init)
  }

  /** First success wins: the ordered search succeeds exactly when some
      configuration succeeds, and then with the batch of the first that does. */
  lemma {:induction false} FirstSuccessWins<B, E>(configs: seq<BatchConfig>, bytes: seq<byte>,
                                                  init: (BatchConfig, seq<byte>) -> Result<B, E>)
    requires |configs| > 0
    ensures FirstSuccess(configs, bytes, init).Ok? <==>
              exists i :: 0 <= i < |configs| && init(configs[i], bytes).Ok?
    ensures FirstSuccess(configs, bytes, init).Ok? ==>
              exists i :: 0 <= i < |configs| && FirstSuccess(configs, bytes, init) == init(configs[i], bytes)
                          && forall j :: 0 <= j < i ==> init(configs[j], bytes).Err?
    ensures FirstSuccess(configs, bytes, init).Err? ==>
              FirstSuccess(configs, bytes, init) == init(configs[|configs| - 1], bytes)
    decreases |configs|
  {
    var r := init(configs[0], bytes);
    if !r.Ok? && |configs| > 1 {
      FirstSuccessWins(configs[1..], bytes, init);
      var rest := configs[1..];
      if FirstSuccess(rest, bytes, init).Ok? {
        var i :| 0 <= i < |rest| && FirstSuccess(rest, bytes, init) == init(rest[i], bytes)
                 && forall j :: 0 <= j < i ==> init(rest[j], bytes).Err?;
        assert forall j :: 0 <= j < i + 1 ==> init(configs[j], bytes).Err? by {
          forall j | 0 <= j < i + 1
            ensures init(configs[j], bytes).Err?
          {
            if j > 0 { assert configs[j] == rest[j - 1]; }
          }
        }
        assert configs[i + 1] == rest[i];
      } else {
        forall i | 0 <= i < |configs|
          ensures init(configs[i], bytes).Err?
        {
          if i > 0 { assert configs[i] == rest[i - 1]; }
        }
      }
    }
  }

  /** `create_rbatch` is the ordered search over [negotiated, uncompressed]
      applied to the bytes read from the cursor. */
  lemma CreateRBatchIsFirstSuccess<B, E>(reader: seq<byte>, batchSize: nat, isCompression: bool,
                                         init: (BatchConfig, seq<byte>) -> Result<B, E>)
    requires 0 < batchSize <= |reader|
    ensures CreateRBatch(reader, batchSize, isCompression, init).result
              == Wrap(FirstSuccess([ReadConfig(isCompression), ReadConfig(false)], reader[..batchSize], init))
  {
    var configs := [ReadConfig(isCompression), ReadConfig(false)];
    assert configs[1..] == [ReadConfig(false)];
  }

  /** `create_rbatch` succeeds exactly when the negotiated or the uncompressed
      configuration initializes the bytes; it never succeeds when both fail. */
  lemma CreateRBatchSucceedsIff<B, E>(reader: seq<byte>, batchSize: nat, isCompression: bool,
                                      init: (BatchConfig, seq<byte>) -> Result<B, E>)
    requires 0 < batchSize <= |reader|
    ensures CreateRBatch(reader, batchSize, isCompression, init).result.Ok? <==>
              (init(ReadConfig(isCompression), reader[..batchSize]).Ok?
               || init(ReadConfig(false), reader[..batchSize]).Ok?)
  {
  }

  /** Without negotiated compression the unconditional retry repeats the first
      attempt with the same configuration and bytes, so the outcome is that of
      a single attempt. */
  lemma RetryWithoutCompressionIsRedundant<B, E>(reader: seq<byte>, batchSize: nat,
                                                 init: (BatchConfig, seq<byte>) -> Result<B, E>)
    requires 0 < batchSize <= |reader|
    ensures var o := CreateRBatch(reader, batchSize, false, init);
            && o.result == Wrap(init(ReadConfig(false), reader[..batchSize]))
            && forall a :: a in o.attempts ==> a == Attempt(ReadConfig(false), reader[..batchSize])
  {
  }

  /** The compression fallback: bytes that fail to initialize compressed but
      initialize uncompressed yield that uncompressed batch. */
  lemma CompressionFallback<B, E>(reader: seq<byte>, batchSize: nat,
                                  init: (BatchConfig, seq<byte>) -> Result<B, E>)
    requires 0 < batchSize <= |reader|
    requires init(ReadConfig(true), reader[..batchSize]).Err?
    requires init(ReadConfig(false), reader[..batchSize]).Ok?
    ensures CreateRBatch(reader, batchSize, true, init).result
              == Ok(init(ReadConfig(false), reader[..batchSize]).value)
  {
  }
}
