/** The log event record (`MaillogEvent` in src/maillog/event/event.py). */
module Events {

  /** One log occurrence. Process identity and timestamp are captured by the
      client when the event is created; the daemon never changes an event. */
  datatype MaillogEvent = MaillogEvent(
    message: string,
    logLevel: string,
    processName: string,
    processId: int,
    timestamp: string)
}
