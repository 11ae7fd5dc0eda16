/** What the two plugins see of the HexChat host: the decision a print hook
    returns, optional values handed back by the preference store, and an event
    re-emitted through the host's formatted-print path. */
module Host {

  /** The two return values of a print hook that these plugins use:
      EAT_NONE lets the host (and later hooks) render the event, EAT_ALL
      suppresses it. */
  datatype Eat = EatNone | EatAll

  datatype Option<+T> = None | Some(value: T)

  /** An event handed back to the host with `emit_print`: the event name, its
      positional arguments and the timestamp of the original event. */
  datatype Emission = Emission(event: string, args: seq<string>, time: int)

  /** A lookup in the preference store: a missing key reads as `None`. */
  function Get(store: map<string, string>, key: string): (r: Option<string>)
    ensures r.Some? <==> key in store
    ensures r.Some? ==> r.value == store[key]
  {
    if key in store then Some(store[key]) else None
  }
}
