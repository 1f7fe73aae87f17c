/**
 * The one-shot response latch of a broadcast connection (`RSCfactory` and
 * `RSCconnection`): the first line received, or `None` when the connection is
 * lost or fails, fires the factory's deferred; every later event is ignored.
 */
module Latch {
  import opened Wrappers

  /** What a connection reports to its factory. */
  datatype Event = LineReceived(line: string) | ConnectionLost | ConnectionFailed

  /** The value an event hands to `add_to_buffer`: the line, or `None`. */
  function Payload(e: Event): Option<string>
  {
    if e.LineReceived? then Some(e.line) else None
  }

  /** The deferred: not yet called, or called once with its result. */
  datatype State = Pending | Fired(result: Option<string>)

  /** `add_to_buffer`: fire a pending deferred, leave a fired one alone. */
  function Step(s: State, payload: Option<string>): State
  {
    if s.Pending? then Fired(payload) else s
  }

  /** The state after a sequence of events. */
  function Run(s: State, events: seq<Event>): State
    decreases |events|
  {
    if events == [] then s else Run(Step(s, Payload(events[0])), events[1..])
  }

  /** Once fired, the deferred keeps its result whatever happens later. */
  lemma {:induction false} FiredIsFinal(result: Option<string>, events: seq<Event>)
    ensures Run(Fired(result), events) == Fired(result)
  {
    if events != [] {
      FiredIsFinal(result, events[1..]);
    }
  }

  /** The deferred fires exactly once, with the payload of the first event. */
  lemma FirstEventDecides(events: seq<Event>)
    requires events != []
    ensures Run(Pending, events) == Fired(Payload(events[0]))
  {
    FiredIsFinal(Payload(events[0]), events[1..]);
  }

  /** The deferred stays pending only while no event has arrived. */
  lemma PendingUntilFirstEvent(events: seq<Event>)
    ensures Run(Pending, events).Pending? <==> events == []
  {
    if events != [] {
      FirstEventDecides(events);
    }
  }

  class ResponseFactory {
    /** `d.called` */
    var called: bool
    /** The value `d` was called with, once it has been. */
    var result: Option<string>

    function State(): State
      reads this
    {
      if called then Fired(result) else Pending
    }

    constructor ()
      ensures State() == Pending
    {
      called := false;
      result := None;
    }

    /** `add_to_buffer`: the first call fires the deferred with `line`. */
    method AddToBuffer(line: Option<string>)
      modifies this
      ensures State() == Step(old(State()), line)
    {
      if !called {
        called, result := true, line;
      }
    }

    /** `clientConnectionLost`: delivers `None` unless already fired. */
    method ClientConnectionLost()
      modifies this
      ensures State() == Step(old(State()), None)
    {
      AddToBuffer(None);
    }

    /** `clientConnectionFailed`: delivers `None` unless already fired. */
    method ClientConnectionFailed()
      modifies this
      ensures State() == Step(old(State()), None)
    {
      AddToBuffer(None);
    }
  }

  /** The line receiver built for one connection; it forwards each line to its factory. */
  class Connection {
    const factory: ResponseFactory

    constructor (f: ResponseFactory)
      ensures factory == f
    {
      factory := f;
    }

    /** `lineReceived` */
    method LineReceived(line: string)
      modifies factory
      ensures factory.State() == Step(old(factory.State()), Some(line))
    {
      factory.AddToBuffer(Some(line));
    }
  }
}
