/** Choosing the local port for the OAuth redirect listener: ports are tried
    one after another from a start port, each bound and released at once. */
module PortProbe {
  import opened Wrappers

  /** How many ports beyond the start port are tried after the start port. */
  const MaxExtraPorts: nat := 100

  /** The port every new authorization starts probing at. */
  const BasePort: int := 5000

  const NoPortMessage: string := "No available port found"

  /** `tryPort(port)`: when `port` binds the probe succeeds with it; when it
      fails and `port < start + 100` the next port is tried; otherwise the
      probe rejects. `bindFails` says which ports cannot be bound. */
  function TryPort(start: int, port: int, bindFails: int -> bool): (r: Result<int, string>)
    requires start <= port <= start + MaxExtraPorts
    ensures r.Ok? ==> port <= r.value <= start + MaxExtraPorts && !bindFails(r.value)
    ensures r.Ok? ==> forall q :: port <= q < r.value ==> bindFails(q)
    ensures r.Err? ==> r.error == NoPortMessage && forall q :: port <= q <= start + MaxExtraPorts ==> bindFails(q)
    decreases start + MaxExtraPorts - port
  {
    if !bindFails(port) then Ok(port)
    else if port < start + MaxExtraPorts then TryPort(start, port + 1, bindFails)
    else Err(NoPortMessage)
  }

  /** `findAvailablePort(start)`: the first port from `start` on that binds,
      trying at most `start .. start + 100` (101 ports). */
  function FindAvailablePort(start: int, bindFails: int -> bool): (r: Result<int, string>)
    ensures r.Ok? ==> start <= r.value <= start + MaxExtraPorts && !bindFails(r.value)
    ensures r.Ok? ==> forall q :: start <= q < r.value ==> bindFails(q)
    ensures r.Err? <==> forall q :: start <= q <= start + MaxExtraPorts ==> bindFails(q)
    ensures r.Err? ==> r.error == NoPortMessage
  {
    TryPort(start, start, bindFails)
  }

  /** The probe depends only on the ports it tries: two bind oracles that
      agree on `start .. start + 100` give the same answer. */
  lemma {:induction false} ProbeIsLocal(start: int, f: int -> bool, g: int -> bool)
    requires forall q :: start <= q <= start + MaxExtraPorts ==> f(q) == g(q)
    ensures FindAvailablePort(start, f) == FindAvailablePort(start, g)
  {
    TryPortIsLocal(start, start, f, g);
  }

  lemma {:induction false} TryPortIsLocal(start: int, port: int, f: int -> bool, g: int -> bool)
    requires start <= port <= start + MaxExtraPorts
    requires forall q :: port <= q <= start + MaxExtraPorts ==> f(q) == g(q)
    ensures TryPort(start, port, f) == TryPort(start, port, g)
    decreases start + MaxExtraPorts - port
  {
    if f(port) && port < start + MaxExtraPorts {
      TryPortIsLocal(start, port + 1, f, g);
    }
  }
}
