/**
 * The sensor handle, the status codes the driver returns, and the parameter
 * check every driver entry point performs before touching the bus.
 */
module Device {
  import opened Wrappers
  import opened Transport

  /** The part of the sensor handle the driver consults: its initialisation flag. */
  datatype Handle = Handle(initialized: bool)

  /**
   * Driver status codes. `NoReturn` marks a path on which the C function
   * reaches its closing brace without a return statement, so the caller
   * receives an unspecified value.
   */
  datatype Status = Ok | InvalidParam | InitError | ReadError | WriteError | NoReturn

  /**
   * The entry check: a NULL handle or argument is an invalid
   * parameter, an uninitialised handle an initialisation error. `None` lets
   * the operation go ahead.
   */
  function Guard(h: Option<Handle>, argsPresent: bool): (r: Option<Status>)
    ensures r == Some(InvalidParam) <==> h.None? || !argsPresent
    ensures r == Some(InitError) <==> h.Some? && argsPresent && !h.value.initialized
    ensures r.None? <==> h.Some? && argsPresent && h.value.initialized
    ensures r.Some? ==> r.value != Ok
  {
    if h.None? || !argsPresent then Some(InvalidParam)
    else if !h.value.initialized then Some(InitError)
    else None
  }

  /** A write operation's status and the bus after it. */
  datatype Outcome = Outcome(status: Status, bus: Bus)

  /** The status of a single-transaction write. */
  function WriteStatus(s: Step): (r: Status)
    ensures r == Ok <==> s.ok
    ensures r == WriteError <==> !s.ok
  {
    if s.ok then Ok else WriteError
  }

  /** Initialisation of a handle over a bus descriptor. */
  function Initialize(h: Option<Handle>, busPresent: bool): (r: (Status, Option<Handle>))
    ensures r.0 == Ok <==> h.Some? && busPresent
    ensures r.0 == Ok ==> r.1 == Some(Handle(true))
    ensures r.0 != Ok ==> r.0 == InvalidParam && r.1 == h
  {
    if h.None? || !busPresent then (InvalidParam, h)
    else (Ok, Some(Handle(true)))
  }

  /** After a successful initialisation every entry check passes when its arguments are present. */
  lemma InitializeEnables(h: Option<Handle>)
    requires h.Some?
    ensures Guard(Initialize(h, true).1, true).None?
    ensures Guard(Initialize(h, false).1, true) == Guard(h, true)
  {
  }
}
