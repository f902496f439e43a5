/**
 * Events that the validator stage reads and writes: the envelope attributes,
 * the data mapping, the stage's fixed names, and the two pure helpers of
 * main.py that build an event (create_event) and read the bag path out of
 * an inbound event's data (get_path).
 */
module Events {

  /** Name this stage stamps as the `source` of every event it builds. */
  const AppName: string := "sip-validator"
  /** Topic the stage subscribes to (bag unzipped notifications). */
  const ConsumerTopic: string := "be.meemoo.sipin.bag.unzip"
  /** Topic, and event type, of the bag validation outcome. */
  const BagTopic: string := "be.meemoo.sipin.bag.validate"
  /** Topic, and event type, of the SIP validation outcome. */
  const SipTopic: string := "be.meemoo.sipin.sip.validate"

  datatype Option<T> = None | Some(value: T)

  /** Binary outcome, used both on the envelope and inside the data. */
  datatype Outcome = Success | Fail {
    /** The string written into an event's data under "outcome". */
    function ToStr(): (s: string)
      ensures s == "success" || s == "fail"
      ensures Success? <==> s == "success"
    {
      match this
      case Success => "success"
      case Fail => "fail"
    }
  }

  /** The envelope attributes of an event. */
  datatype Attributes = Attributes(
    eventType: string,
    source: string,
    subject: string,
    outcome: Outcome,
    correlationId: string)

  datatype Event = Event(attributes: Attributes, data: map<string, string>) {
    /** An inbound event counts as successful when its envelope outcome is SUCCESS. */
    predicate HasSuccessfulOutcome() {
      attributes.outcome == Success
    }
  }

  /**
   * Builds an event. The envelope outcome defaults to SUCCESS and is
   * independent of the data outcome; the data holds the data outcome under
   * "outcome" together with every extra field the caller supplies (an extra
   * field named "outcome" would win, as a later key does in a dict display).
   */
  function CreateEvent(
    eventType: string,
    attrOutcome: Outcome := Success,
    subject: string := "",
    correlationId: string := "",
    dataOutcome: Outcome := Success,
    dataFields: map<string, string> := map[]): (e: Event)
    ensures e.attributes.eventType == eventType
    ensures e.attributes.source == AppName
    ensures e.attributes.subject == subject
    ensures e.attributes.outcome == attrOutcome
    ensures e.attributes.correlationId == correlationId
    ensures e.data.Keys == dataFields.Keys + {"outcome"}
    ensures forall k :: k in dataFields ==> e.data[k] == dataFields[k]
    ensures "outcome" !in dataFields ==> e.data["outcome"] == dataOutcome.ToStr()
  {
    var data := map["outcome" := dataOutcome.ToStr()] + dataFields;
    var attributes := Attributes(
      eventType := eventType,
      source := AppName,
      subject := subject,
      outcome := attrOutcome,
      correlationId := correlationId);
    Event(attributes, data)
  }

  /** The bag path of an inbound event's data; None stands for the KeyError a missing "destination" raises. */
  function GetPath(data: map<string, string>): (r: Option<string>)
    ensures r.Some? <==> "destination" in data
    ensures r.Some? ==> r.value == data["destination"]
  {
    if "destination" in data then Some(data["destination"]) else None
  }

  /** The two data outcome strings differ, so the data outcome of an event determines the Outcome. */
  lemma OutcomeStrInjective(a: Outcome, b: Outcome)
    ensures a.ToStr() == b.ToStr() <==> a == b
  {
  }

  /** Whatever is passed as `destination` is what get_path reads back from the built event. */
  lemma GetPathOfCreatedEvent(eventType: string, attrOutcome: Outcome, subject: string,
                              correlationId: string, dataOutcome: Outcome,
                              dataFields: map<string, string>)
    ensures GetPath(CreateEvent(eventType, attrOutcome, subject, correlationId, dataOutcome, dataFields).data)
         == if "destination" in dataFields then Some(dataFields["destination"]) else None
  {
  }
}
