/**
 * The dispatcher loop of the validator stage: one inbound message at a time
 * is decoded, gated on its outcome, its bag is validated, the outcome events
 * are sent and the message is acknowledged or negatively acknowledged.
 *
 * What the broker sees is one ordered trace of actions. `Respond` gives the
 * actions one message causes, `RunSpec` those of a finite run of messages;
 * the `Stage` class performs them step by step and is proved against both.
 */
module Dispatcher {
  import opened Events
  import opened Validation

  /** Result of decoding an inbound wire message into an event. */
  datatype Decoded = Decoded(event: Event) | DecodeError(reason: string)

  /** An inbound message as received: its broker id and what decoding it yields. */
  datatype Message = Message(id: nat, payload: Decoded)

  /** The two outbound publishers. */
  datatype Producer = BagProducer | SipProducer

  /** What the stage does towards the broker. */
  datatype Action =
    | Send(producer: Producer, event: Event)
    | Acknowledge(msgId: nat)
    | NegativeAcknowledge(msgId: nat)
  {
    predicate IsVerdict() {
      Acknowledge? || NegativeAcknowledge?
    }
  }

  /** The events of a trace sent through producer `p`, in order. */
  function Sent(t: seq<Action>, p: Producer): (r: seq<Event>)
    ensures |r| <= |t|
  {
    if t == [] then []
    else (if t[0].Send? && t[0].producer == p then [t[0].event] else []) + Sent(t[1..], p)
  }

  /** The acknowledgements and negative acknowledgements of a trace, in order. */
  function Verdicts(t: seq<Action>): (r: seq<Action>)
    ensures |r| <= |t|
    ensures forall i :: 0 <= i < |r| ==> r[i].IsVerdict()
  {
    if t == [] then []
    else (if t[0].IsVerdict() then [t[0]] else []) + Verdicts(t[1..])
  }

  predicate IsSuccessEvent(e: Event) {
    "outcome" in e.data && e.data["outcome"] == Success.ToStr()
  }

  /** How many of the events have data outcome SUCCESS. */
  function CountSuccess(es: seq<Event>): (n: nat)
    ensures n <= |es|
  {
    if es == [] then 0
    else (if IsSuccessEvent(es[0]) then 1 else 0) + CountSuccess(es[1..])
  }

  /**
   * The actions one message causes, given what the bag library reports for
   * each path: a decode failure or a missing "destination" is negatively
   * acknowledged with nothing sent; an inbound failure is acknowledged with
   * nothing sent; otherwise the bag event is sent, then, for a valid bag
   * only, the SIP event, and the message is acknowledged.
   */
  function Respond(m: Message, inspect: string -> BagCheck): (r: seq<Action>)
    ensures 1 <= |r| <= 3
    ensures r[|r| - 1].IsVerdict() && r[|r| - 1].msgId == m.id
    ensures ReachesValidation(m) <==> |r| > 1
  {
    match m.payload
    case DecodeError(_) => [NegativeAcknowledge(m.id)]
    case Decoded(event) =>
      if !event.HasSuccessfulOutcome() then [Acknowledge(m.id)]
      else
        match GetPath(event.data)
        case None => [NegativeAcknowledge(m.id)]
        case Some(path) =>
          var correlationId := event.attributes.correlationId;
          var sendBag := Send(BagProducer, BagEvent(path, correlationId, inspect(path)));
          if inspect(path).BagOk? then
            [sendBag, Send(SipProducer, SipEvent(path, correlationId, ValidateAipCreation(path))),
             Acknowledge(m.id)]
          else
            [sendBag, Acknowledge(m.id)]
  }

  /** The actions a finite run of messages causes, handled one after the other. */
  function RunSpec(msgs: seq<Message>, inspect: string -> BagCheck): seq<Action> {
    if msgs == [] then []
    else RunSpec(msgs[..|msgs| - 1], inspect) + Respond(msgs[|msgs| - 1], inspect)
  }

  /** A message reaches validate_bag: it decodes, its outcome is SUCCESS and its data has a "destination". */
  predicate ReachesValidation(m: Message) {
    m.payload.Decoded? && m.payload.event.HasSuccessfulOutcome() && "destination" in m.payload.event.data
  }

  /** How many messages of a run reach validate_bag. */
  function CountReaching(msgs: seq<Message>): (n: nat)
    ensures n <= |msgs|
  {
    if msgs == [] then 0
    else CountReaching(msgs[..|msgs| - 1]) + (if ReachesValidation(msgs[|msgs| - 1]) then 1 else 0)
  }

  // ---------------------------------------------------------------------
  // Trace algebra

  lemma {:induction false} SentAppend(a: seq<Action>, b: seq<Action>, p: Producer)
    ensures Sent(a + b, p) == Sent(a, p) + Sent(b, p)
  {
    if a == [] {
      assert a + b == b;
    } else {
      assert (a + b)[0] == a[0];
      assert (a + b)[1..] == a[1..] + b;
      SentAppend(a[1..], b, p);
    }
  }

  lemma {:induction false} VerdictsAppend(a: seq<Action>, b: seq<Action>)
    ensures Verdicts(a + b) == Verdicts(a) + Verdicts(b)
  {
    if a == [] {
      assert a + b == b;
    } else {
      assert (a + b)[0] == a[0];
      assert (a + b)[1..] == a[1..] + b;
      VerdictsAppend(a[1..], b);
    }
  }

  lemma {:induction false} CountSuccessAppend(a: seq<Event>, b: seq<Event>)
    ensures CountSuccess(a + b) == CountSuccess(a) + CountSuccess(b)
  {
    if a == [] {
      assert a + b == b;
    } else {
      assert (a + b)[0] == a[0];
      assert (a + b)[1..] == a[1..] + b;
      CountSuccessAppend(a[1..], b);
    }
  }

  /** Every event in `Sent(t, p)` is the event of a send through `p` in `t`. */
  lemma {:induction false} SentFrom(t: seq<Action>, p: Producer)
    ensures forall e :: e in Sent(t, p) ==> exists i :: 0 <= i < |t| && t[i] == Send(p, e)
  {
    if t != [] {
      SentFrom(t[1..], p);
      forall e | e in Sent(t, p) ensures exists i :: 0 <= i < |t| && t[i] == Send(p, e) {
        if e in Sent(t[1..], p) {
          var i :| 0 <= i < |t[1..]| && t[1..][i] == Send(p, e);
          assert t[i + 1] == Send(p, e);
        } else {
          assert t[0] == Send(p, e);
        }
      }
    }
  }

  // ---------------------------------------------------------------------
  // One message

  /** An undecodable message is negatively acknowledged and nothing is sent. */
  lemma DecodeFailureIsNacked(m: Message, inspect: string -> BagCheck)
    requires m.payload.DecodeError?
    ensures Respond(m, inspect) == [NegativeAcknowledge(m.id)]
  {
  }

  /** An inbound event whose outcome is not SUCCESS is acknowledged and nothing is sent. */
  lemma UpstreamFailureShortCircuits(m: Message, inspect: string -> BagCheck)
    requires m.payload.Decoded? && !m.payload.event.HasSuccessfulOutcome()
    ensures Respond(m, inspect) == [Acknowledge(m.id)]
  {
  }

  /** A successful inbound event without a "destination" is negatively acknowledged and nothing is sent. */
  lemma MissingDestinationIsNacked(m: Message, inspect: string -> BagCheck)
    requires m.payload.Decoded? && m.payload.event.HasSuccessfulOutcome()
    requires "destination" !in m.payload.event.data
    ensures Respond(m, inspect) == [NegativeAcknowledge(m.id)]
  {
  }

  /**
   * An invalid bag: exactly one FAIL event on the bag topic, with the bag
   * path as subject, the inbound correlation id, a message that starts with
   * the "not a valid bag" phrase and no destination; nothing on the SIP
   * topic; then the message is acknowledged.
   */
  lemma InvalidBagEmitsOneFailEvent(m: Message, inspect: string -> BagCheck)
    requires m.payload.Decoded? && m.payload.event.HasSuccessfulOutcome()
    requires "destination" in m.payload.event.data
    requires !inspect(m.payload.event.data["destination"]).BagOk?
    ensures var path := m.payload.event.data["destination"];
            var r := Respond(m, inspect);
            && |r| == 2 && r[0].Send? && r[0].producer == BagProducer && r[1] == Acknowledge(m.id)
            && r[0].event.data["outcome"] == Fail.ToStr()
            && r[0].event.attributes.subject == path
            && r[0].event.attributes.correlationId == m.payload.event.attributes.correlationId
            && InvalidBagPrefix(path) <= r[0].event.data["message"]
            && "destination" !in r[0].event.data
            && Sent(r, SipProducer) == []
  {
  }

  /**
   * A valid bag: a SUCCESS event on the bag topic, then exactly one SUCCESS
   * event on the SIP topic whose subject and destination are the bag path,
   * then the acknowledgement. The SIP FAIL branch is never taken.
   */
  lemma ValidBagEmitsBagThenSip(m: Message, inspect: string -> BagCheck)
    requires m.payload.Decoded? && m.payload.event.HasSuccessfulOutcome()
    requires "destination" in m.payload.event.data
    requires inspect(m.payload.event.data["destination"]).BagOk?
    ensures var path := m.payload.event.data["destination"];
            var cid := m.payload.event.attributes.correlationId;
            var r := Respond(m, inspect);
            && |r| == 3 && r[2] == Acknowledge(m.id)
            && r[0].Send? && r[0].producer == BagProducer && r[1].Send? && r[1].producer == SipProducer
            && r[0].event.data["outcome"] == Success.ToStr()
            && r[0].event.data["destination"] == path && r[0].event.data["message"] == ValidBagMessage(path)
            && r[1].event.data["outcome"] == Success.ToStr()
            && r[1].event.attributes.subject == path && r[1].event.data["destination"] == path
            && r[0].event.attributes.correlationId == cid && r[1].event.attributes.correlationId == cid
  {
  }

  /** Every message gets exactly one verdict, as its last action, and every earlier action is a send. */
  lemma RespondEndsInOneVerdict(m: Message, inspect: string -> BagCheck)
    ensures var r := Respond(m, inspect);
            && |r| >= 1 && r[|r| - 1].IsVerdict() && r[|r| - 1].msgId == m.id
            && (forall i :: 0 <= i < |r| - 1 ==> r[i].Send?)
            && Verdicts(r) == [r[|r| - 1]]
  {
    var r := Respond(m, inspect);
    if |r| == 1 {
      assert Verdicts(r) == [r[0]] + Verdicts(r[1..]);
    } else if |r| == 2 {
      assert Verdicts(r) == Verdicts(r[1..]);
      assert Verdicts(r[1..]) == [r[1]] + Verdicts(r[2..]);
    } else {
      assert Verdicts(r) == Verdicts(r[1..]);
      assert Verdicts(r[1..]) == Verdicts(r[2..]);
      assert Verdicts(r[2..]) == [r[2]] + Verdicts(r[3..]);
    }
  }

  /**
   * Every event sent for a message was sent for a decoded one, carries its
   * correlation id unchanged, and has that message's destination as subject.
   */
  lemma RespondPropagatesCorrelation(m: Message, inspect: string -> BagCheck, p: Producer)
    ensures forall e :: e in Sent(Respond(m, inspect), p) ==>
              && m.payload.Decoded?
              && e.attributes.correlationId == m.payload.event.attributes.correlationId
              && "destination" in m.payload.event.data
              && e.attributes.subject == m.payload.event.data["destination"]
  {
    var r := Respond(m, inspect);
    SentFrom(r, p);
  }

  /**
   * One bag event is sent for a message that reaches validate_bag and none
   * for any other, and a SIP event exactly when that bag event is a SUCCESS.
   */
  lemma RespondSipIffValidBag(m: Message, inspect: string -> BagCheck)
    ensures var r := Respond(m, inspect);
            && |Sent(r, BagProducer)| == (if ReachesValidation(m) then 1 else 0)
            && |Sent(r, SipProducer)| == CountSuccess(Sent(r, BagProducer))
  {
    var r := Respond(m, inspect);
    if |r| == 2 {
      assert Sent(r, BagProducer) == [r[0].event] + Sent(r[1..], BagProducer);
      assert r[0].event.data["outcome"] == "fail";
      assert CountSuccess([r[0].event]) == 0;
    } else if |r| == 3 {
      assert Sent(r, BagProducer) == [r[0].event] + Sent(r[1..], BagProducer);
      assert Sent(r[1..], BagProducer) == Sent(r[2..], BagProducer);
      assert Sent(r[1..], SipProducer) == [r[1].event] + Sent(r[2..], SipProducer);
      assert CountSuccess([r[0].event]) == 1;
    }
  }

  /**
   * Redelivering a message with the same payload against unchanged bags
   * sends the same events and reaches the same verdict.
   */
  lemma RedeliveryIsIdempotent(m: Message, m': Message, inspect: string -> BagCheck, p: Producer)
    requires m.payload == m'.payload
    ensures Sent(Respond(m, inspect), p) == Sent(Respond(m', inspect), p)
    ensures |Respond(m, inspect)| == |Respond(m', inspect)|
    ensures Respond(m, inspect)[|Respond(m, inspect)| - 1].Acknowledge?
        <==> Respond(m', inspect)[|Respond(m', inspect)| - 1].Acknowledge?
  {
    var r, r' := Respond(m, inspect), Respond(m', inspect);
    if |r| == 1 {
      assert Sent(r, p) == Sent(r[1..], p) && Sent(r', p) == Sent(r'[1..], p);
    } else if |r| == 2 {
      assert r[..1] == r'[..1];
      assert Sent(r, p) == Sent(r[..1], p) + Sent(r[1..], p) by { assert r == r[..1] + r[1..]; SentAppend(r[..1], r[1..], p); }
      assert Sent(r', p) == Sent(r'[..1], p) + Sent(r'[1..], p) by { assert r' == r'[..1] + r'[1..]; SentAppend(r'[..1], r'[1..], p); }
      assert Sent(r[1..], p) == Sent(r[2..], p) && Sent(r'[1..], p) == Sent(r'[2..], p);
    } else {
      assert r[..2] == r'[..2];
      assert Sent(r, p) == Sent(r[..2], p) + Sent(r[2..], p) by { assert r == r[..2] + r[2..]; SentAppend(r[..2], r[2..], p); }
      assert Sent(r', p) == Sent(r'[..2], p) + Sent(r'[2..], p) by { assert r' == r'[..2] + r'[2..]; SentAppend(r'[..2], r'[2..], p); }
      assert Sent(r[2..], p) == Sent(r[3..], p) && Sent(r'[2..], p) == Sent(r'[3..], p);
    }
  }

  // ---------------------------------------------------------------------
  // A finite run of messages

  /** Message i of a run receives verdict i: exactly one acknowledgement or negative acknowledgement each, in order. */
  lemma {:induction false} RunVerdicts(msgs: seq<Message>, inspect: string -> BagCheck)
    ensures |Verdicts(RunSpec(msgs, inspect))| == |msgs|
    ensures forall i :: 0 <= i < |msgs| ==> Verdicts(RunSpec(msgs, inspect))[i].msgId == msgs[i].id
  {
    if msgs != [] {
      var init, last := msgs[..|msgs| - 1], msgs[|msgs| - 1];
      RunVerdicts(init, inspect);
      VerdictsAppend(RunSpec(init, inspect), Respond(last, inspect));
      RespondEndsInOneVerdict(last, inspect);
    }
  }

  /**
   * Every event a run sends was sent for one particular message of the run,
   * which was decoded, and carries that message's correlation id unchanged.
   */
  lemma {:induction false} RunPropagatesCorrelation(msgs: seq<Message>, inspect: string -> BagCheck, p: Producer)
    ensures forall e :: e in Sent(RunSpec(msgs, inspect), p) ==>
              exists k :: 0 <= k < |msgs| && e in Sent(Respond(msgs[k], inspect), p)
                          && msgs[k].payload.Decoded?
                          && e.attributes.correlationId == msgs[k].payload.event.attributes.correlationId
  {
    if msgs != [] {
      var init, last := msgs[..|msgs| - 1], msgs[|msgs| - 1];
      RunPropagatesCorrelation(init, inspect, p);
      SentAppend(RunSpec(init, inspect), Respond(last, inspect), p);
      RespondPropagatesCorrelation(last, inspect, p);
      forall e | e in Sent(RunSpec(msgs, inspect), p)
        ensures exists k :: 0 <= k < |msgs| && e in Sent(Respond(msgs[k], inspect), p)
                            && msgs[k].payload.Decoded?
                            && e.attributes.correlationId == msgs[k].payload.event.attributes.correlationId
      {
        if e in Sent(RunSpec(init, inspect), p) {
          var k :| 0 <= k < |init| && e in Sent(Respond(init[k], inspect), p)
                   && init[k].payload.Decoded?
                   && e.attributes.correlationId == init[k].payload.event.attributes.correlationId;
          assert msgs[k] == init[k];
        } else {
          assert msgs[|msgs| - 1] == last;
        }
      }
    }
  }

  /**
   * Over a run, exactly one bag event is sent per message that reaches
   * validate_bag, and exactly as many SIP events as there were SUCCESS bag
   * events.
   */
  lemma {:induction false} RunSipMatchesValidBags(msgs: seq<Message>, inspect: string -> BagCheck)
    ensures |Sent(RunSpec(msgs, inspect), BagProducer)| == CountReaching(msgs)
    ensures |Sent(RunSpec(msgs, inspect), SipProducer)| == CountSuccess(Sent(RunSpec(msgs, inspect), BagProducer))
  {
    if msgs != [] {
      var init, last := msgs[..|msgs| - 1], msgs[|msgs| - 1];
      RunSipMatchesValidBags(init, inspect);
      SentAppend(RunSpec(init, inspect), Respond(last, inspect), BagProducer);
      SentAppend(RunSpec(init, inspect), Respond(last, inspect), SipProducer);
      CountSuccessAppend(Sent(RunSpec(init, inspect), BagProducer), Sent(Respond(last, inspect), BagProducer));
      RespondSipIffValidBag(last, inspect);
    }
  }

  /** A run one message longer adds that message's actions at the end. */
  lemma RunSpecExtend(msgs: seq<Message>, i: nat, inspect: string -> BagCheck)
    requires i < |msgs|
    ensures RunSpec(msgs[..i + 1], inspect) == RunSpec(msgs[..i], inspect) + Respond(msgs[i], inspect)
  {
    assert msgs[..i + 1][..i] == msgs[..i];
  }

  /** Appending a run to any trace adds exactly one verdict per message of the run. */
  lemma RunAddsOneVerdictPerMessage(before: seq<Action>, msgs: seq<Message>, inspect: string -> BagCheck)
    ensures |Verdicts(before + RunSpec(msgs, inspect))| == |Verdicts(before)| + |msgs|
  {
    VerdictsAppend(before, RunSpec(msgs, inspect));
    RunVerdicts(msgs, inspect);
  }

  // ---------------------------------------------------------------------
  // The stage and its broker handles

  /**
   * The validator stage with its bag producer, SIP producer and subscription.
   * `trace` is everything it has done towards the broker, in order.
   */
  class Stage {
    var trace: seq<Action>

    constructor ()
      ensures trace == []
    {
      trace := [];
    }

    /** Events sent to the bag-validation topic. */
    function BagSent(): seq<Event>
      reads this
    {
      Sent(trace, BagProducer)
    }

    /** Events sent to the SIP-validation topic. */
    function SipSent(): seq<Event>
      reads this
    {
      Sent(trace, SipProducer)
    }

    /** Acknowledgements and negative acknowledgements issued. */
    function AckLog(): seq<Action>
      reads this
    {
      Verdicts(trace)
    }

    /** Sends one event through a producer. */
    method SendEvent(producer: Producer, event: Event)
      modifies this
      ensures trace == old(trace) + [Send(producer, event)]
    {
      trace := trace + [Send(producer, event)];
    }

    /**
     * Validates the bag at `path` and sends exactly one event on the bag
     * topic; the result is false exactly when that event's data outcome is
     * FAIL.
     */
    method ValidateBag(path: string, correlationId: string, inspect: string -> BagCheck) returns (valid: bool)
      modifies this
      ensures trace == old(trace) + [Send(BagProducer, BagEvent(path, correlationId, inspect(path)))]
      ensures BagSent() == old(BagSent()) + [BagEvent(path, correlationId, inspect(path))]
      ensures SipSent() == old(SipSent()) && AckLog() == old(AckLog())
      ensures valid == inspect(path).BagOk?
      ensures !valid <==> BagEvent(path, correlationId, inspect(path)).data["outcome"] == Fail.ToStr()
    {
      ghost var before := trace;
      match inspect(path) {
      case BagError(msg) =>
        var event := CreateEvent(BagTopic, dataOutcome := Fail, subject := path, correlationId := correlationId,
                                 dataFields := map["message" := InvalidBagPrefix(path) + msg]);
        SendEvent(BagProducer, event);
        valid := false;
      case ValidationError(details) =>
        var event := CreateEvent(BagTopic, dataOutcome := Fail, subject := path, correlationId := correlationId,
                                 dataFields := map["message" := InvalidBagPrefix(path) + details]);
        SendEvent(BagProducer, event);
        valid := false;
      case BagOk =>
        SendEvent(BagProducer,
                  CreateEvent(BagTopic, subject := path, correlationId := correlationId,
                              dataFields := map["destination" := path, "message" := ValidBagMessage(path)]));
        valid := true;
      }
      var sent := [Send(BagProducer, BagEvent(path, correlationId, inspect(path)))];
      SentAppend(before, sent, BagProducer);
      SentAppend(before, sent, SipProducer);
      VerdictsAppend(before, sent);
    }

    /** Handles one inbound message: the actions `Respond` gives, in order. */
    method ProcessMessage(msg: Message, inspect: string -> BagCheck)
      modifies this
      ensures trace == old(trace) + Respond(msg, inspect)
      ensures BagSent() == old(BagSent()) + Sent(Respond(msg, inspect), BagProducer)
      ensures SipSent() == old(SipSent()) + Sent(Respond(msg, inspect), SipProducer)
      ensures AckLog() == old(AckLog()) + Verdicts(Respond(msg, inspect))
    {
      ghost var before := trace;
      match msg.payload {
      case DecodeError(_) =>
        trace := trace + [NegativeAcknowledge(msg.id)];
      case Decoded(event) =>
        if event.HasSuccessfulOutcome() {
          var data := event.data;
          var pathDirectoryBag := GetPath(data);
          if pathDirectoryBag.None? {
            trace := trace + [NegativeAcknowledge(msg.id)];
          } else {
            var path := pathDirectoryBag.value;
            var valid := ValidateBag(path, event.attributes.correlationId, inspect);
            if valid {
              var eligible := ValidateAipCreation(path);
              SendEvent(SipProducer, SipEvent(path, event.attributes.correlationId, eligible));
            }
            trace := trace + [Acknowledge(msg.id)];
          }
        } else {
          trace := trace + [Acknowledge(msg.id)];
        }
      }
      SentAppend(before, Respond(msg, inspect), BagProducer);
      SentAppend(before, Respond(msg, inspect), SipProducer);
      VerdictsAppend(before, Respond(msg, inspect));
    }

    /** Handles a finite sequence of inbound messages one after the other. */
    method Run(msgs: seq<Message>, inspect: string -> BagCheck)
      modifies this
      ensures trace == old(trace) + RunSpec(msgs, inspect)
      ensures |AckLog()| == |old(AckLog())| + |msgs|
    {
      for i := 0 to |msgs|
        invariant trace == old(trace) + RunSpec(msgs[..i], inspect)
      {
        ProcessMessage(msgs[i], inspect);
        RunSpecExtend(msgs, i, inspect);
      }
      assert msgs[..|msgs|] == msgs;
      RunAddsOneVerdictPerMessage(old(trace), msgs, inspect);
    }
  }
}
