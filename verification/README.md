# zenoh-dissector utilities, modelled in Dafny

This project models the helper core of the zenoh packet dissector
(`zenoh-dissector/src/utils.rs`), the code that sits between the raw bytes of a
captured zenoh batch and the labels shown by the packet-inspection host:

- **`SizedSummary`** (module `SummaryCollector`): a bounded, lazy collector of
  summary strings. It keeps at most `limit` entries, calls the producer closure
  only when there is room, sets a sticky `is_full` flag on the first append that
  finds no room, and renders as `"Empty"`, as its single entry verbatim, or as
  `"[a, b, ...]"`.
- **`network_message_summary` / `transport_message_summary`** (module
  `MessageSummary`, over the datatypes of module `Protocol`): the tag name of a
  message body, and for a transport `Frame` the comma-joined summaries of its
  payload inside `"Frame[...]"`.
- **`create_rbatch`** (module `BatchReader`): reads `batch_size` bytes from a
  byte cursor, initializes a receive batch with the negotiated compression
  setting and, if that fails, once more without compression on the same bytes.

Supporting modules: `Wrappers` (`Option`, `Result`) and `Strings` (`join`, the
left fold behind `Iterator::reduce`, and a one-character split used to read
summaries back).

Modelling choices:

- The collector is an immutable record stepped by `Append`, which also returns
  whether the producer ran (`Step.produced`). A run of appends is `AppendAll`,
  which counts producer calls.
- `Vec::with_capacity(limit)` is modelled as a vector whose capacity is exactly
  `limit`. The check `len >= capacity` stops every push at that size, so the
  vector never grows.
- `RBatch::new` + `RBatch::initialize` come from another crate. They are the
  function-valued parameter `init(config, bytes)`. `CreateRBatch` records every
  call it makes to `init` (`Outcome.attempts`) so that the contracts can talk
  about the configurations and bytes each attempt saw.
- `BatchSize::MAX` is the constant `BatchSizeMax`, whose value is left
  unspecified.
- Message bodies keep only their discriminant; a `Frame` keeps its payload.
  The summary reader (`ParseTransportSummary`) is a specification device. It
  shows that a summary determines the message: its kind and, for a frame, the
  kinds of the payload in order.

Two behaviours of the code shape the model directly:

- A short read panics. The batch is read with `read_exact(...).expect(...)`,
  the `read_exact` of `zenoh_buffers::reader::Reader` (imported at utils.rs:4).
  On a byte slice it fails when it cannot copy `batch_size` bytes, and also when
  it copies zero bytes, so a zero `batch_size` panics too. No error value is
  returned in either case, so `CreateRBatch` *requires*
  `0 < batchSize <= |reader|`. The slice reader itself is not part of this model.
- The retry without compression is unconditional: it also happens when
  compression was not negotiated. `RetryWithoutCompressionIsRedundant` shows that
  this gives the same outcome as a single attempt, because `init` is
  deterministic.

## Model

| member | source | states |
|---|---|---|
| SummaryCollector.New | zenoh-dissector/src/utils.rs:32-37 | a new collector has no entries, is not full, has capacity `limit`, and satisfies the `len <= capacity` invariant |
| SummaryCollector.Len | zenoh-dissector/src/utils.rs:39-41 | `len()` is the number of committed entries and never exceeds the capacity of a valid collector |
| SummaryCollector.Append | zenoh-dissector/src/utils.rs:43-54 | the producer runs exactly when the collector is not full and has room; its string is appended at the end and existing entries are unchanged; `is_full` becomes true exactly on an append that finds no room and never reverts; a full collector is left unchanged; the invariant `len <= capacity` is preserved |
| SummaryCollector.AppendIgnoresUnusedProducer | zenoh-dissector/src/utils.rs:47-52 | laziness: when the producer is not run, the outcome does not depend on which producer was passed |
| SummaryCollector.AppendAllWhenFull | zenoh-dissector/src/utils.rs:47-53 | once `is_full` is set, any number of appends change nothing and run no producer |
| SummaryCollector.AppendAllOpen | zenoh-dissector/src/utils.rs:43-54 | `k` appends on an open collector with `room` free slots commit the strings of the first `min(k, room)` producers in order, run exactly that many producers, and leave the collector full exactly when `k > room` |
| SummaryCollector.AppendsToNew | zenoh-dissector/src/utils.rs:32-54 | after `k` appends to `new(c)`: `len() == min(k, c)`, the entries are the first `min(k, c)` producers' strings, exactly `min(k, c)` producers ran, and `is_full == (k > c)`; with `c == 0` the first append only sets `is_full` |
| SummaryCollector.Render | zenoh-dissector/src/utils.rs:57-71 | no entries render as `"Empty"`; one entry renders as itself, even when full; several entries render inside brackets, ending with `", ...]"` when full and with the last entry before `"]"` otherwise; the full content for several entries is stated by `RenderSeveral` |
| SummaryCollector.RenderSeveral | zenoh-dissector/src/utils.rs:59-63 | with several entries the rendering is `"[" + join(entries, ", ") + (is_full ? ", ..." : "") + "]"`, so every entry appears, in order |
| SummaryCollector.RenderAfterAppends | zenoh-dissector/src/utils.rs:32-70 | `k` appends to `new(c)` render as `"Empty"` when `min(k, c) == 0`, as the first producer's string alone when `min(k, c) == 1`, and otherwise as the first `min(k, c)` producers' strings joined by `", "` in brackets, with `", ..."` exactly when `k > c` |
| SummaryCollector.RenderAfterAppend | zenoh-dissector/src/utils.rs:43-70 | how one append changes the rendering: a new entry is inserted as `", " + entry` before the closing bracket (the second entry opens the brackets); the append that fills the collector adds `", ..."` before the bracket when there are several entries and leaves the rendering unchanged when there are at most one |
| SummaryCollector.RenderFrozenWhenFull | zenoh-dissector/src/utils.rs:47-68 | the rendering of a full collector never changes, whatever is appended |
| SummaryCollector.RenderExamples | zenoh-dissector/src/utils.rs:59-68 | `"Empty"`, `"A"`, `"A"` when full with one entry, `"[A, B]"`, and `"[A, B, ...]"` |
| Strings.ReduceIsJoin | zenoh-dissector/src/utils.rs:133-138 | `reduce(\|acc, s\| acc + sep + s).unwrap_or_default()` equals `join(sep)`: empty for no entries, with no leading or trailing separator |
| MessageSummary.NetworkMessageSummary | zenoh-dissector/src/utils.rs:108-119 | the summary is a non-empty tag without `,`, `[` or `]` that reads back as exactly the message's body kind, for each of the seven kinds |
| MessageSummary.PayloadSummaries | zenoh-dissector/src/utils.rs:133-136 | the payload summaries are one per network message, in payload order |
| MessageSummary.TransportMessageSummary | zenoh-dissector/src/utils.rs:121-144 | a frame summarizes as `"Frame["` + the payload summaries joined by `","` + `"]"` (so `"Frame[]"` when empty); every other kind summarizes as a non-empty tag without `,`, `[` or `]` |
| MessageSummary.ParsePayloadSummaries | zenoh-dissector/src/utils.rs:131-140 | the list of payload summaries reads back as the payload |
| MessageSummary.TransportSummaryRoundTrip | zenoh-dissector/src/utils.rs:121-144 | reading a transport summary back gives the message, so the summary is the exact tag name of each of the ten kinds and a frame's summary keeps every payload kind in order with no trailing comma |
| MessageSummary.TransportSummaryInjective | zenoh-dissector/src/utils.rs:121-144 | two transport messages have equal summaries exactly when they are equal (body contents aside) |
| MessageSummary.SummaryExamples | zenoh-dissector/src/utils.rs:121-144 | a frame of `[Push, Declare]` gives `"Frame[Push,Declare]"`, an empty frame gives `"Frame[]"`, and `KeepAlive` gives `"KeepAlive"` |
| BatchReader.ReadConfig | zenoh-dissector/src/utils.rs:84-88 | every configuration built uses `mtu = BatchSize::MAX`, no stream framing, and the requested compression setting |
| BatchReader.CreateRBatch | zenoh-dissector/src/utils.rs:73-106 | for `0 < batch_size <= len(reader)` (otherwise the read panics): consumes exactly `batch_size` bytes; makes one or two initialization attempts, all on exactly those bytes; the first uses the negotiated compression setting; a second, without compression, happens exactly when the first fails; the result is the last attempt's batch or its error wrapped as an initialization failure |
| BatchReader.FirstSuccessWins | zenoh-dissector/src/utils.rs:89-105 | the ordered search over configurations succeeds exactly when some configuration succeeds, with the batch of the first successful one after only failures; otherwise it reports the last configuration's error |
| BatchReader.CreateRBatchIsFirstSuccess | zenoh-dissector/src/utils.rs:84-105 | `create_rbatch`'s result is the ordered search over [negotiated, uncompressed] on the bytes read |
| BatchReader.CreateRBatchSucceedsIff | zenoh-dissector/src/utils.rs:89-105 | the result is `Ok` exactly when the negotiated or the uncompressed configuration initializes the bytes; it is never `Ok` when both fail |
| BatchReader.RetryWithoutCompressionIsRedundant | zenoh-dissector/src/utils.rs:90-104 | without negotiated compression, both attempts use the same configuration and bytes, and the result is that of a single attempt |
| BatchReader.CompressionFallback | zenoh-dissector/src/utils.rs:90-105 | bytes that fail compressed but initialize uncompressed yield the uncompressed batch and no error |

## Left out

- `nul_terminated_str` and `nul_terminated_str2` (utils.rs:11-24): C-string conversion and allocation in the host's memory scope, foreign calls with no logic to model.
- `epan-sys/build.rs`: build tooling (downloads, subprocesses, binding generation), not behaviour of the dissector.
- The internals of `RBatch::new` / `RBatch::initialize` (decompression, the scratch buffer of `mtu` bytes): foreign code, modelled only as the parameter `init`.
- The contents of message bodies and the protocol's wire grammar: the summaries depend only on the discriminants.
- The `std::fmt::Formatter` plumbing of `Display::fmt`: `Render` returns the content string that is written.
- The numeric value of `BatchSize::MAX`: defined in another crate and irrelevant to the properties.
- `Vec::with_capacity` may in general reserve more than `limit`; the model takes the capacity to be exactly `limit`.
- CreateRBatch: the panic on a short or zero-length read is a precondition, not an outcome; what happens after the panic is not modelled.
