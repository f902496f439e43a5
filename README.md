# SIP validator stage — Dafny model

This project models the per-message decision procedure of the `sip-validator`
stage of a digital-preservation ingest pipeline. The stage consumes "bag
unzipped" events from `be.meemoo.sipin.bag.unzip`. For each one it checks
that the bag at the event's `destination` is a valid BagIt bag. It then
publishes a bag-validation event on `be.meemoo.sipin.bag.validate` and, for a
valid bag, a SIP-validation event on `be.meemoo.sipin.sip.validate`. Last, it
acknowledges the inbound message, or negatively acknowledges it when
processing raised an exception.

Modules:

- `Events` (events.dfy) covers the event envelope and data mapping, the
  stage's fixed names, `create_event` as `CreateEvent` (keeping its default
  parameters) and `get_path` as `GetPath`. A missing `destination` key is
  `None`; in the source it raises a KeyError.
- `Validation` (validation.dfy) holds the bag library's verdict for a path as
  the value `BagCheck` (`BagOk | BagError(msg) | ValidationError(details)`).
  `BagEvent` is the event each of `validate_bag`'s three exits builds. It also
  holds the AIP eligibility seam `ValidateAipCreation`, which is always true,
  and `SipEvent`, the event of each of the two SIP branches.
- `Dispatcher` (dispatcher.dfy) models the loop body.
  - `Respond` gives the ordered broker actions one message causes: sends
    through the bag or SIP producer, then one acknowledge or negative
    acknowledge. `RunSpec` gives those of a finite sequence of messages.
  - The `Stage` class holds the trace of actions issued so far. Its views
    `BagSent`, `SipSent` and `AckLog` are the bag-topic events, the SIP-topic
    events and the ack/nack log.
  - `Stage.ValidateBag`, `Stage.ProcessMessage` and `Stage.Run` carry out
    `validate_bag`, one loop iteration and a finite run step by step. They
    are proved to produce exactly the traces `Respond` and `RunSpec` specify.

The inputs of the model:

- The bag library is an oracle `inspect: string -> BagCheck`, a pure function
  of the path. `Stage.ProcessMessage` takes a fresh oracle for each message.
  `RunSpec` and `Stage.Run` use one oracle for the whole run, so a run models
  bags whose contents do not change between messages.
- Decoding the wire message is a value `Decoded(event) | DecodeError(reason)`
  carried by each `Message`, together with the broker's message id.
- The inbound data is a `map<string, string>`.

Notes on interpretation:

- The inbound outcome gate is `event.has_successful_outcome()`, which belongs
  to the event library and is not part of this model. It is modelled as "the
  envelope outcome is SUCCESS".
- `EventOutcome.to_str()` is not part of this model either. It is modelled as
  the strings `"success"` and `"fail"`. What the proofs use is the contract
  of `Outcome.ToStr`: the two strings differ, and only SUCCESS gives
  `"success"`. `OutcomeStrInjective` states that distinctness on its own.
- The bag-validation event's subject is the bag path (main.py:82, 95, 105),
  not the inbound event's subject.
- The unreachable SIP FAIL branch (main.py:152-164) is modelled inside
  `SipEvent`. There it sends a FAIL data outcome with the same "is a valid SIP"
  message as the success branch, exactly as written. With the fixed policy it
  is never taken (`ValidBagEmitsBagThenSip`).

## Model

| member | source | states |
|---|---|---|
| `Events.CreateEvent` | main.py:47-63 | Type, subject, correlation id and the envelope outcome (SUCCESS unless overridden) go into the attributes unchanged. The source is always `sip-validator`. The data keys are the supplied fields plus `outcome`. Every supplied field keeps its value. `outcome` holds the data outcome's string unless a field of that name overrides it. |
| `Events.GetPath` | main.py:118-120 | A path is found exactly when `destination` is a key of the data, and the path is that key's value; the missing-key case is the `None` result. |
| `Events.Outcome.ToStr` | main.py:55 | The data outcome string (the library's `EventOutcome.to_str`, not part of this model) is `"success"` or `"fail"`, and it is `"success"` exactly for SUCCESS. |
| `Events.Event.HasSuccessfulOutcome` | main.py:129 | The inbound gate (the library's `has_successful_outcome`, not part of this model) holds exactly when the envelope outcome is SUCCESS; the data outcome is not consulted. `UpstreamFailureShortCircuits` rests on this choice. |
| `Events.OutcomeStrInjective` | main.py:55 | Two outcomes give the same data string exactly when they are the same outcome. |
| `Events.GetPathOfCreatedEvent` | main.py:47-63 | Reading the path back from an event built with a `destination` field returns that field; without one there is no path. |
| `Validation.BagEvent` | main.py:75-111 | The event each exit of `validate_bag` builds always has type = bag topic, subject = path, the given correlation id and a SUCCESS envelope. It has data outcome `success` exactly for a valid bag and `fail` exactly otherwise. It has a `destination` (= path) exactly for a valid bag. The message is `Path '<path>' is a valid bag` on success. On failure it is `Path '<path>' is not a valid bag: ` followed by the library's text, and there are no other keys. |
| `Validation.ValidateAipCreation` | main.py:114-115 | Every path is eligible for AIP creation. |
| `Validation.SipEvent` | main.py:140-164 | The SIP event has type = SIP topic, subject = destination = path, the given correlation id, a SUCCESS envelope and the "is a valid SIP" message. Its data outcome is `success` exactly when eligible, and `fail` when not. |
| `Validation.BagEventDestinationReadBack` | main.py:101-110 | A downstream `get_path` on the success event reads the bag path back; on both failure events it finds no path. |
| `Dispatcher.Respond` | main.py:125-171 | The actions one loop iteration causes, in order. Its own contract says there are one to three of them, the last being the single acknowledge or negative acknowledge for the message's id, and more than one exactly when the message reaches `validate_bag`. The `Respond*` lemmas and the per-branch lemmas below state the rest of its behaviour. |
| `Dispatcher.RunSpec` | main.py:124-171 | The actions of a finite run: each message's `Respond` actions, concatenated in order. It has no contract of its own; `RunVerdicts`, `RunPropagatesCorrelation` and `RunSipMatchesValidBags` state its properties, and `Stage.Run` is proved to produce it. |
| `Dispatcher.DecodeFailureIsNacked` | main.py:126-171 | An undecodable message causes one negative acknowledgement and no send. |
| `Dispatcher.UpstreamFailureShortCircuits` | main.py:129-167 | An inbound event without a successful outcome is acknowledged and nothing is sent on either topic. |
| `Dispatcher.MissingDestinationIsNacked` | main.py:130-171 | A successful inbound event with no `destination` causes one negative acknowledgement and no send. |
| `Dispatcher.InvalidBagEmitsOneFailEvent` | main.py:134-167 | An invalid bag causes exactly one bag-topic send, then the acknowledgement. That event has a FAIL data outcome, subject = path, the inbound correlation id, a message starting with `Path '<path>' is not a valid bag: ` and no destination. Nothing is sent on the SIP topic. |
| `Dispatcher.ValidBagEmitsBagThenSip` | main.py:134-167 | A valid bag causes, in this order: a bag-topic SUCCESS event with destination = path and the "is a valid bag" message; one SIP-topic SUCCESS event with subject = destination = path; the acknowledgement. Both events carry the inbound correlation id. |
| `Dispatcher.RespondEndsInOneVerdict` | main.py:125-171 | Every message gets exactly one acknowledge or negative acknowledge, for that message's id. It is the last action for the message, and every earlier action is a send. |
| `Dispatcher.RespondPropagatesCorrelation` | main.py:134-159 | Every event sent for a message comes from a decoded message with a `destination`. It carries that message's correlation id unchanged and its subject is that destination. |
| `Dispatcher.RespondSipIffValidBag` | main.py:137-164 | One bag event is sent for a message that decodes, succeeds and has a `destination`, and none for any other message. One SIP event is sent exactly when that bag event is a SUCCESS. |
| `Dispatcher.RedeliveryIsIdempotent` | main.py:124-171 | Redelivering a message with the same payload against unchanged bags sends the same events on each topic, apart from their creation time (timestamps are not modelled), and reaches the same ack/nack verdict. |
| `Dispatcher.RunVerdicts` | main.py:124-171 | Over a finite run, the ack/nack log has one entry per message, and entry i is for message i. |
| `Dispatcher.RunPropagatesCorrelation` | main.py:124-171 | Over a finite run, every event sent was sent for one particular message of the run. That message was decoded, and the event carries its correlation id unchanged. |
| `Dispatcher.RunSipMatchesValidBags` | main.py:124-171 | Over a finite run, the number of bag events equals the number of messages that reach `validate_bag` (decoded, successful, with a `destination`). The number of SIP events equals the number of SUCCESS bag events. |
| `Dispatcher.Stage.constructor` | main.py:42-44 | A freshly connected stage has sent nothing and acknowledged nothing. |
| `Dispatcher.Stage.SendEvent` | main.py:66-72 | Sending appends exactly that event, through that producer, to the trace. |
| `Dispatcher.Stage.ValidateBag` | main.py:75-111 | Appends exactly one bag-topic send of `BagEvent` for the path's verdict. It sends nothing on the SIP topic and issues no ack. It returns true exactly for a valid bag, that is, false exactly when the event's data outcome is FAIL. |
| `Dispatcher.Stage.ProcessMessage` | main.py:125-171 | Appends to the trace exactly the actions `Respond` gives for the message. The bag-topic sequence, SIP-topic sequence and ack log each grow by their part of those actions. |
| `Dispatcher.Stage.Run` | main.py:124-171 | Handling a finite sequence of messages appends exactly `RunSpec`'s actions. The ack log grows by one entry per message. |

## Left out

- The broker client, the construction of the producers and the consumer, and
  the `retry` wrappers with their backoff (main.py:29-44). These are network
  I/O, and the retry semantics live in a library that is not part of this
  model. `Stage`'s constructor stands for already-connected handles.
- The bag library's internals, that is, opening a bag and verifying manifests
  and checksums (main.py:77, 90). They are the oracle `inspect`, and
  `str(e)` / `str(e.details)` are the strings it reports.
- The wire encoding and decoding (`PulsarBinding.to_protocol` /
  `from_protocol`) and event timestamps (main.py:67-72, 127). These are
  library code and clock values. Decoding is the value carried by a
  `Message`, and sending appends the event to the trace.
- Logging and configuration (main.py:19-20, 131, 135, 138, 151, 164, 170),
  since they have no effect on what is sent or acknowledged.
- The non-terminating `while True` and the unreachable `client.close()`
  (main.py:124, 173). The model has one step (`ProcessMessage`) and a loop over
  a finite sequence of messages (`Run`).
- Any exception in the loop body's `try` block other than a decode failure
  and a missing `destination`. This covers:
  - a failing `send`, `to_protocol` or `get_event_time_as_int`
    (main.py:67-72);
  - a failing `has_successful_outcome` or `get_data` (main.py:129-130);
  - an error of the bag library other than the two it reports;
  - a failing `consumer.acknowledge` (main.py:167).

  In the source each of these leads to a negative acknowledge
  (main.py:168-171). This can happen after an event has already been sent.
  After a failing acknowledge, the same message gets an acknowledge followed
  by a negative acknowledge. The model's only exceptions happen before
  anything is sent or acknowledged. `RespondEndsInOneVerdict`, `RunVerdicts`
  and the other per-message lemmas describe this failure-free processing.
- producer.py, a one-shot script that sends a path string to the broker. It
  is pure I/O with no logic.
