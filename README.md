# ODD processing pipeline, modelled in Dafny

This project models the three pieces of logic in `process_odds.py` that
carry the pipeline's behaviour. Operational Design Domain (ODD) records are
loaded from YAML files, normalised and sent to a Kafka topic. They are then
consumed from that topic, routed by category into a Redis priority list, and
upserted into a Cassandra table.

- **Record normaliser** (`normalize.dfy`, module `Normalizer`).
  `convert_numpy_types` becomes `Normalize` over the value tree `Val` (in
  `values.dfy`). A `Val` is a dict with its entries in insertion order, a
  list, a numpy scalar (`Wrapped`, whose `item()` is the native value it
  carries) or a plain Python scalar. `Normalize` is specified by two
  predicates that do not mention it. `Clean` says no numpy scalar is left
  anywhere. `SameShape` says the result has the same dict keys in the same
  order, the same list lengths and the same leaf values. `NormalizeUnique`
  proves that these two determine the result. Idempotence and "clean values
  are exactly the fixpoints" follow from that.
- **Producer loop** (`producer.dfy`, module `Producer`). Class
  `OddProducer` holds the records sent to the log. `ReadAndProduceOdds`
  takes, in `glob` order, what the steps of each iteration's `try` before
  the send produce for its file. `None` stands for any exception raised
  there: opening, parsing, an `item()` that raises, or a value `json.dumps`
  rejects. It returns the per-file report, and the log grows by
  `Produced(files)`: the normalised records of the files that produced one,
  in file order.
- **Prioritising consumer** (`consumer.dfy`, module `Consumer`). Class
  `OddStores` holds the Redis list `high_priority_odds` (`priorityList`,
  head first) and the Cassandra table `odds` (`table`, a map from `odd_id`
  to `Row(category, rawData)`). `ConsumeAndPrioritizeOdds` runs the loop
  over a finite stream of decoded messages. Its inputs are:
  - whether a table session was obtained;
  - per message, whether its insert succeeds;
  - the serialiser `json.dumps`, passed as a function.

  The resulting stores are stated through the functions `Pushed` (records
  pushed, newest first) and `Commit` (the table after the upserts).

Behaviour of the code that the model keeps:

- An empty YAML document loads as Python's None. The send refuses a
  message with neither key nor value, so nothing is appended and the file is
  reported as failed (`Buffered` gives `None`).
- Every other loaded record is sent before its `ODD_ID` is printed
  (process_odds.py:86-87). Printing calls `get`, which only a dict has. So a
  YAML document that is not a mapping is sent to the log and then reported
  as an error. The model reports it as `Failed(appended := true)`.
- In the consumer, `odd_data.get` (process_odds.py:125) sits outside any
  handler. A message that is not a dict therefore ends the whole loop with
  an exception. Stores keep the writes of the earlier messages, and the
  model returns `Crashed(at)`.
- The routing test is Python's `category == "Corner Case"`. A numpy string
  compares by value, so `IsLabel` also accepts a wrapped string. After JSON
  decoding no wrapped values occur.
- A missing `ODD_ID` or `Category` reads as Python's `None` (`Plain(Null)`).
  The insert is still attempted with it.

- A message that fails to decode is not skipped: `json.loads` runs inside
  the Kafka iterator, where there is no handler. Decoding is outside this
  model (see below).
- The code only prints its counts. The model returns the per-file outcomes
  and the consumer's message count.

## Model

| member | source | states |
|---|---|---|
| `OddValues.LookupSpec` | process_odds.py:125-126 | dict lookup finds a key exactly when some entry has it, and returns the value of the first such entry |
| `OddValues.GetSpec` | process_odds.py:125-126 | `get` of an absent key yields None; of a present key, the value stored under it |
| `Normalizer.Normalize` | process_odds.py:36-44 | the result holds no numpy scalar anywhere, keeps every dict's keys in order and every list's length and order, and keeps each leaf's native value |
| `Normalizer.NormalizeUnique` | process_odds.py:36-44 | any clean tree with the input's shape and leaf values is the normalised input, so each dict value and list element is itself normalised |
| `Normalizer.NormalizeFixpoint` | process_odds.py:36-44 | normalisation leaves a value unchanged if and only if it holds no numpy scalar |
| `Normalizer.NormalizeIdempotent` | process_odds.py:36-44 | normalising twice gives the same result as normalising once |
| `Normalizer.NormalizeLookup` | process_odds.py:38-39 | looking a key up in a normalised dict gives the normalised value stored under that key in the original |
| `Normalizer.ScalarNormalize` | process_odds.py:42-44 | a numpy scalar becomes its native `item()` value, not normalised further; any other scalar is returned unchanged |
| `Producer.Produced` | process_odds.py:76-90 | the log records of a run number at most the files, are all free of numpy scalars, and none is an empty document |
| `Producer.OddProducer.ReadAndProduceOdds` | process_odds.py:69-90 | an empty file list returns early with nothing sent; otherwise there is one outcome per file, in order, and the log grows by exactly the normalised, non-empty records of the files whose record was buffered (`Buffered` gives `Some`), in file order |
| `Producer.ProducedAppend` | process_odds.py:76-90 | each file is handled on its own: the records of a batch are those of its first part followed by those of the rest |
| `Producer.FailedFileIsSkipped` | process_odds.py:76-90 | a file whose iteration raises in or before `producer.send` (load, `item()`, serialisation, empty document) leaves the log exactly as if the file were absent |
| `Producer.ProducedIff` | process_odds.py:76-86 | a record is sent if and only if some file loaded and normalised to it and it is not an empty document |
| `Producer.ProducedCount` | process_odds.py:76-86 | one record is appended per file whose record was buffered (`Buffered` gives `Some`) |
| `Producer.ReportAccountsForLog` | process_odds.py:86-90 | the outcomes marked as sent (including non-mapping documents reported as errors after the send) are exactly as many as the records appended |
| `Consumer.DictPrefix` | process_odds.py:122-126 | the loop gets through the messages up to, and not including, the first one that is not a dict |
| `Consumer.LastWrite` | process_odds.py:137-140 | finds the last message whose insert succeeded with a given key, or shows there is none |
| `Consumer.OddStores.HandleMessage` | process_odds.py:124-143 | one message: its serialisation goes onto the list head iff its category is exactly "Corner Case"; then one insert of (ODD_ID, Category, serialisation) is attempted, and a failed insert leaves the table unchanged and keeps the push |
| `Consumer.OddStores.ConsumeAndPrioritizeOdds` | process_odds.py:108-148 | without a session nothing is read or written; otherwise the count equals all messages consumed, failures included, the list gains the pushed records newest-first, and the table the committed upserts; a non-dict message stops the loop there |
| `Consumer.PushedIff` | process_odds.py:126-133 | a record is pushed if and only if it was consumed and its category is exactly "Corner Case" |
| `Consumer.PushedAppend` | process_odds.py:131-133 | the list is newest-first: a later batch's pushes sit before an earlier batch's |
| `Consumer.CommitLastWrite` | process_odds.py:117-140 | a key's row is the (category, data) of the last successful insert with that key; a key never written successfully keeps its old row or stays absent |
| `Consumer.FailedInsertIsSkipped` | process_odds.py:137-143 | a failed insert changes nothing: the table equals the one obtained with that message left out |
| `Consumer.CommitRedelivery` | process_odds.py:117-140 | consuming the same batch again, with the same insert outcomes, leaves the table as it was after the first time, because the insert is an upsert by `odd_id` |
| `Consumer.CommitSuffixRedelivery` | process_odds.py:117-140 | re-reading any tail of a consumed batch after a restart, with the same insert outcomes, leaves the table as the first pass left it |

## Left out

- Kafka, Redis and Cassandra client construction, `setup_cassandra_session` (process_odds.py:47-59), `cassandra_session.prepare` (process_odds.py:117-119), `flush`, `close` and `shutdown`: these are foreign library calls. The stores are in-memory fields, and whether a session was obtained is a parameter. A failing `prepare` has no handler and would end the consumer before it reads anything; the model assumes it succeeds.
- `glob`, opening files and `yaml.unsafe_load`: these are I/O and a foreign parser. Each file is given by what its iteration produces before the send, with `None` for any exception there.
- `json.dumps` and `json.loads`: these are foreign code. The serialiser is a function parameter, and the consumer receives decoded messages. A message that fails to decode is not represented.
- The ten-second `consumer_timeout_ms` idle stop and `time.sleep(5)`: these are wall-clock behaviour. The consumed stream is a finite sequence.
- Kafka offsets, at-least-once redelivery and concurrent producers and consumers: these belong to the brokers. Redelivery appears only in `CommitRedelivery` (the whole batch again) and `CommitSuffixRedelivery` (a tail re-read after a restart), both with the same insert outcomes as the first pass.
- Why an insert fails (a null `odd_id`, a broken connection): the model is given one success flag per message.
- A failing `lpush` (process_odds.py:133 is outside the `try`): the model assumes the push succeeds, and makes no claim that the loop survives a Redis failure.
- Why a file's iteration raises: `send` runs `json.dumps` in the caller, and values it rejects (a YAML timestamp loads as a `datetime.date`, for one) are not in `Native`; a file holding one, like a file whose `item()` raises, is given as `None`. Delivery errors reported by the broker after the record is buffered are not modelled.
- Numeric scalar values: floats are kept as reals, and their precision is not modelled.
- Mapping keys are strings. The source leaves keys untouched, including a numpy key, which would then survive normalisation.
- Tuples, sets and other containers: these are not represented. The source passes them through unchanged, together with any numpy scalar inside them. A numpy array has `item()`: for one element it is unwrapped like a numpy scalar, otherwise `item()` raises and the file is skipped, which the model covers as a `None` file.
- `print` logging, the import-time `warnings.warn` and configuration from environment variables (process_odds.py:15-33): these are side effects with no state.
