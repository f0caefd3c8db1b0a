/** The bidirectional search for a free TCP port. */
module ProtocolHelpers {
  import opened Wrappers

  const MIN_PORT := 49152
  const MAX_PORT := 65535

  /** What one probe of a port reports. `Throws` stands for a probe whose promise rejects. */
  datatype Probe = Free | Busy | Throws

  /** How the search ends: a port, the "could not secure a port" rejection, or the rejection of a probe. */
  datatype Outcome = Resolved(port: int) | NoPort | Failed(port: int)

  /** A missing start and a start of 0 are both falsy: the search then starts from a random draw. */
  function EffectiveStart(startFrom: Option<int>, draw: int): int {
    if startFrom.None? || startFrom.value == 0 then draw else startFrom.value
  }

  ghost predicate AllBusy(probe: int -> Probe, lo: int, hi: int) {
    forall p :: lo <= p < hi ==> probe(p) == Busy
  }

  /** The search gets as far as `p`: every port that comes before `p` in its order is busy. */
  ghost predicate Reaches(probe: int -> Probe, start: int, p: int) {
    if start <= p
    then p <= MAX_PORT && AllBusy(probe, start, p)
    else MIN_PORT <= p && AllBusy(probe, start, MAX_PORT + 1) && AllBusy(probe, p + 1, start)
  }

  ghost predicate Answers(probe: int -> Probe, start: int, outcome: Outcome) {
    match outcome
    case Resolved(p) => probe(p) == Free && Reaches(probe, start, p)
    case Failed(p) => probe(p) == Throws && Reaches(probe, start, p)
    case NoPort => AllBusy(probe, start, MAX_PORT + 1) && AllBusy(probe, MIN_PORT, start)
  }

  /** JavaScript's truth value of a port that may still be null. */
  predicate Truthy(port: Option<int>) {
    port.Some? && port.value != 0
  }

  /**
   * Upwards from the start to the last port, then downwards to the first dynamic port. No port is
   * probed twice, so `probe` may be read as the answer given at the moment of the probe.
   */
  method GetTCPOpenPort(startFrom: Option<int>, draw: int, probe: int -> Probe) returns (outcome: Outcome)
    requires MIN_PORT <= draw <= MAX_PORT
    ensures Answers(probe, EffectiveStart(startFrom, draw), outcome)
  {
    var start := if startFrom.None? || startFrom.value == 0 then draw else startFrom.value;
    var i := start;
    var openPort: Option<int> := None;
    while i <= MAX_PORT || Truthy(openPort)
      invariant openPort == None
      invariant start <= i && (i <= MAX_PORT + 1 || i == start)
      invariant AllBusy(probe, start, i)
      decreases MAX_PORT - i
    {
      match probe(i) {
        case Throws => return Failed(i);
        case Free => openPort := Some(i); break;
        case Busy =>
      }
      i := i + 1;
    }
    if openPort == None {
      i := start - 1;
      while i >= MIN_PORT || Truthy(openPort)
        invariant openPort == None
        invariant i < start && (MIN_PORT - 1 <= i || i == start - 1)
        invariant AllBusy(probe, start, MAX_PORT + 1)
        invariant AllBusy(probe, i + 1, start)
        decreases i - MIN_PORT
      {
        match probe(i) {
          case Throws => return Failed(i);
          case Free => openPort := Some(i); break;
          case Busy =>
        }
        i := i - 1;
      }
    }
    return if openPort == None then NoPort else Resolved(openPort.value);
  }

  /** The ports of the search: from the start to the last port, and the dynamic ports below the start. */
  ghost predicate Searched(start: int, p: int) {
    start <= p <= 65535 || 49152 <= p < start
  }

  /** `p` is probed before `q`: upwards from the start first, then downwards from below it. */
  predicate Before(start: int, p: int, q: int) {
    if start <= q then start <= p < q else start <= p || q < p
  }

  /** The least free port from the start upwards or, when there is none, the greatest free one below the start. */
  ghost predicate Nearest(probe: int -> Probe, start: int, p: int) {
    && Searched(start, p) && probe(p) == Free
    && forall q :: Searched(start, q) && probe(q) == Free ==> if start <= p then q < start || p <= q else q <= p
  }

  /**
   * When no probe throws: the search rejects exactly when no searched port is free, and finds `p`
   * exactly when `p` is the least free port at or above the start or, if there is none, the greatest
   * below it.
   */
  lemma NearestFreePort(probe: int -> Probe, start: int, o: Outcome)
    requires Answers(probe, start, o)
    requires forall p :: Searched(start, p) ==> probe(p) != Throws
    ensures o == NoPort <==> forall p :: Searched(start, p) ==> probe(p) != Free
    ensures forall p :: o == Resolved(p) <==> Nearest(probe, start, p)
  {
    if !o.NoPort? {
      assert Searched(start, o.port);
    }
  }

  /** With throwing probes too: the first searched port that is not busy decides, and by what its probe does. */
  lemma FirstNotBusyDecides(probe: int -> Probe, start: int, o: Outcome)
    requires Answers(probe, start, o)
    ensures o == NoPort <==> forall q :: Searched(start, q) ==> probe(q) == Busy
    ensures o != NoPort ==>
              && Searched(start, o.port)
              && (forall q :: Searched(start, q) && Before(start, q, o.port) ==> probe(q) == Busy)
              && (o.Resolved? <==> probe(o.port) == Free) && (o.Failed? <==> probe(o.port) == Throws)
  {
    if !o.NoPort? {
      assert Searched(start, o.port);
    }
  }

  /** The search starts where it is told to, and at a random dynamic port if it is told nothing, or 0. */
  lemma StartsWhereTold(startFrom: Option<int>, draw: int)
    ensures EffectiveStart(startFrom, draw) ==
            match startFrom
            case None => draw
            case Some(0) => draw
            case Some(port) => port
  {
  }
}
