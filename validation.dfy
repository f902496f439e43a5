/**
 * The events validate_bag and the dispatcher publish, as functions of the
 * bag path, the correlation id and what the bag library reported, and the
 * AIP eligibility policy seam.
 */
module Validation {
  import opened Events

  /**
   * What the bag library reports for a path: the bag opens and validates,
   * opening it raised a BagError (its text), or validating it raised a
   * BagValidationError (the text of its details).
   */
  datatype BagCheck = BagOk | BagError(msg: string) | ValidationError(details: string) {
    /** The text appended to the failure message. */
    function Reason(): string
      requires !BagOk?
    {
      match this
      case BagError(msg) => msg
      case ValidationError(details) => details
    }
  }

  function InvalidBagPrefix(path: string): string {
    "Path '" + path + "' is not a valid bag: "
  }

  function ValidBagMessage(path: string): string {
    "Path '" + path + "' is a valid bag"
  }

  function ValidSipMessage(path: string): string {
    "Path '" + path + "' is a valid SIP"
  }

  /**
   * The one event validate_bag sends on the bag topic for a path, by the
   * branch it leaves through.
   */
  function BagEvent(path: string, correlationId: string, check: BagCheck): (e: Event)
    ensures e.attributes == Attributes(BagTopic, AppName, path, Success, correlationId)
    ensures "outcome" in e.data && "message" in e.data
    ensures e.data["outcome"] == "success" <==> check.BagOk?
    ensures e.data["outcome"] == "fail" <==> !check.BagOk?
    ensures "destination" in e.data <==> check.BagOk?
    ensures check.BagOk? ==> e.data["destination"] == path && e.data["message"] == ValidBagMessage(path)
    ensures check.BagOk? ==> e.data.Keys == {"outcome", "destination", "message"}
    ensures !check.BagOk? ==> e.data.Keys == {"outcome", "message"}
    ensures !check.BagOk? ==> InvalidBagPrefix(path) <= e.data["message"]
    ensures !check.BagOk? ==> e.data["message"] == InvalidBagPrefix(path) + check.Reason()
  {
    match check
    case BagError(msg) =>
      CreateEvent(BagTopic, dataOutcome := Fail, subject := path, correlationId := correlationId,
                  dataFields := map["message" := InvalidBagPrefix(path) + msg])
    case ValidationError(details) =>
      CreateEvent(BagTopic, dataOutcome := Fail, subject := path, correlationId := correlationId,
                  dataFields := map["message" := InvalidBagPrefix(path) + details])
    case BagOk =>
      CreateEvent(BagTopic, subject := path, correlationId := correlationId,
                  dataFields := map["destination" := path, "message" := ValidBagMessage(path)])
  }

  /** The AIP eligibility policy seam: every validated bag is eligible. */
  function ValidateAipCreation(path: string): (eligible: bool)
    ensures eligible
  {
    true
  }

  /**
   * The event sent on the SIP topic for a valid bag, by the eligibility
   * verdict. Both branches carry the bag path as subject and destination and
   * the same "is a valid SIP" message; only the data outcome differs.
   */
  function SipEvent(path: string, correlationId: string, eligible: bool): (e: Event)
    ensures e.attributes == Attributes(SipTopic, AppName, path, Success, correlationId)
    ensures e.data.Keys == {"outcome", "destination", "message"}
    ensures e.data["outcome"] == "success" <==> eligible
    ensures !eligible ==> e.data["outcome"] == Fail.ToStr()
    ensures e.data["destination"] == path && e.data["message"] == ValidSipMessage(path)
  {
    if eligible then
      CreateEvent(SipTopic, subject := path, correlationId := correlationId,
                  dataFields := map["destination" := path, "message" := ValidSipMessage(path)])
    else
      CreateEvent(SipTopic, dataOutcome := Fail, subject := path, correlationId := correlationId,
                  dataFields := map["destination" := path, "message" := ValidSipMessage(path)])
  }

  /** A downstream reader of a successful bag event gets the bag path back; a failed one has none to give. */
  lemma BagEventDestinationReadBack(path: string, correlationId: string, check: BagCheck)
    ensures GetPath(BagEvent(path, correlationId, check).data) == if check.BagOk? then Some(path) else None
  {
  }
}
