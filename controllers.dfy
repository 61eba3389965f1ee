/**
 * The data controller the detectors report to (app/controllers.py), reduced to an
 * append-only log of the events of the current session.
 */
module Controllers {

  /** One event of the session: its type and the measured duration in seconds. */
  datatype Event = Event(eventType: string, duration: real)

  /** Event type of a long blink. */
  const FatigueEventType: string := "fatiga"

  /** Event type of a yawn. */
  const YawnEventType: string := "bostezo"

  class DataController {
    /** The events added to the current session, oldest first. */
    var events: seq<Event>

    constructor ()
      ensures events == []
    {
      events := [];
    }

    /** Adds one event to the current session. */
    method AddEventToSession(eventType: string, duration: real)
      modifies this
      ensures events == old(events) + [Event(eventType, duration)]
    {
      events := events + [Event(eventType, duration)];
    }
  }
}
