/** The event loop of src/runtime.rs. */
module Runtime {
  import opened Prelude
  import opened Ids
  import opened Model

  datatype ControlEvent =
    | SessionStarted(w: Id, session: Id)
    | SessionExited(w: Id, session: Id, code: int)
    | Tick
    | Shutdown

  /** What `recv_timeout` returns; past the end of a stream the sender is gone. */
  datatype Received = Event(event: ControlEvent) | TimedOut

  datatype State = State(active: set<(Id, Id)>, exited: U64, ticks: U64)

  const IDLE := State({}, 0, 0)

  datatype Stats = Stats(activeSessions: nat, exitedSessions: U64, ticks: U64)

  /** The counters wrap. */
  function Apply(s: State, e: ControlEvent): State {
    match e
    case SessionStarted(w, id) => s.(active := s.active + {(w, id)})
    case SessionExited(w, id, _) => s.(active := s.active - {(w, id)}, exited := (s.exited + 1) % WRAP)
    case Tick => s.(ticks := (s.ticks + 1) % WRAP)
    case Shutdown => s
  }

  function After(s: State, events: seq<ControlEvent>, n: nat): State
    requires n <= |events|
  {
    if n == 0 then s else Apply(After(s, events, n - 1), events[n - 1])
  }

  /** The events of a stream, a timeout being a tick. */
  function Heard(stream: seq<Received>): (events: seq<ControlEvent>)
    ensures |events| == |stream|
    ensures forall i | 0 <= i < |stream| :: events[i] == if stream[i].TimedOut? then Tick else stream[i].event
  {
    seq(|stream|, i requires 0 <= i < |stream| => if stream[i].TimedOut? then Tick else stream[i].event)
  }

  /** `n` is where the loop leaves the stream: at the first shutdown, or at its end. */
  ghost predicate LeavesAt(stream: seq<Received>, n: nat) {
    && n <= |stream|
    && (forall i | 0 <= i < n :: stream[i] != Event(Shutdown))
    && (n < |stream| ==> stream[n] == Event(Shutdown))
  }

  class SessionRuntime {
    var active: set<(Id, Id)>
    var exited: U64
    var ticks: U64

    ghost function View(): State
      reads this
    {
      State(active, exited, ticks)
    }

    constructor ()
      ensures View() == IDLE
    {
      active, exited, ticks := {}, 0, 0;
    }

    method GetStats() returns (stats: Stats)
      ensures stats == Stats(|active|, exited, ticks)
    {
      stats := Stats(|active|, exited, ticks);
    }

    method ApplyEvent(e: ControlEvent) returns (more: bool)
      modifies this
      ensures View() == Apply(old(View()), e)
      ensures more <==> e != Shutdown
    {
      match e {
        case SessionStarted(w, id) =>
          active := active + {(w, id)};
          more := true;
        case SessionExited(w, id, _) =>
          active := active - {(w, id)};
          exited := (exited + 1) % WRAP;
          more := true;
        case Tick =>
          ticks := (ticks + 1) % WRAP;
          more := true;
        case Shutdown =>
          more := false;
      }
    }

    /** The loop, and the number of receives it served before leaving. */
    method RunBlocking(stream: seq<Received>) returns (stats: Stats, served: nat)
      modifies this
      ensures LeavesAt(stream, served)
      ensures View() == After(old(View()), Heard(stream), served)
      ensures stats == Stats(|active|, exited, ticks)
    {
      served := 0;
      while served < |stream|
        invariant served <= |stream| && forall i | 0 <= i < served :: stream[i] != Event(Shutdown)
        invariant View() == After(old(View()), Heard(stream), served)
      {
        match stream[served] {
          case Event(e) =>
            var more := ApplyEvent(e);
            if !more {
              break;
            }
          case TimedOut =>
            var _ := ApplyEvent(Tick);
        }
        served := served + 1;
      }
      stats := GetStats();
    }
  }

  // ---- What the state means for the trace ----

  predicate Concerns(e: ControlEvent, pair: (Id, Id)) {
    (e.SessionStarted? || e.SessionExited?) && (e.w, e.session) == pair
  }

  /** The last of the first `n` events about the pair is a start. */
  ghost predicate LastIsStart(events: seq<ControlEvent>, n: nat, pair: (Id, Id))
    requires n <= |events|
  {
    exists i | 0 <= i < n :: Concerns(events[i], pair) && events[i].SessionStarted?
      && forall j | i < j < n :: !Concerns(events[j], pair)
  }

  /** From an idle runtime, a session is active exactly when its last start or exit is a start. */
  lemma {:induction false} ActiveMeaning(events: seq<ControlEvent>, n: nat, pair: (Id, Id))
    requires n <= |events|
    ensures pair in After(IDLE, events, n).active <==> LastIsStart(events, n, pair)
  {
    if n > 0 {
      ActiveMeaning(events, n - 1, pair);
      var e := events[n - 1];
      if Concerns(e, pair) {
        if LastIsStart(events, n, pair) {
          var i :| 0 <= i < n && Concerns(events[i], pair) && events[i].SessionStarted? && forall j | i < j < n :: !Concerns(events[j], pair);
          assert i == n - 1;
        }
      } else {
        if LastIsStart(events, n - 1, pair) {
          var i :| 0 <= i < n - 1 && Concerns(events[i], pair) && events[i].SessionStarted? && forall j | i < j < n - 1 :: !Concerns(events[j], pair);
          assert Concerns(events[i], pair) && forall j | i < j < n :: !Concerns(events[j], pair);
        }
        if LastIsStart(events, n, pair) {
          var i :| 0 <= i < n && Concerns(events[i], pair) && events[i].SessionStarted? && forall j | i < j < n :: !Concerns(events[j], pair);
          assert i < n - 1;
        }
      }
    }
  }

  /** Starts, exits and ticks of a trace, and those starts and exits that change nothing. */
  datatype Tally = Tally(starts: nat, exits: nat, ticks: nat, restarts: nat, strays: nat)

  ghost function Count(events: seq<ControlEvent>, n: nat): Tally
    requires n <= |events|
  {
    if n == 0 then Tally(0, 0, 0, 0, 0)
    else
      var t, before, e := Count(events, n - 1), After(IDLE, events, n - 1), events[n - 1];
      match e
      case SessionStarted(w, id) => t.(starts := t.starts + 1, restarts := t.restarts + if (w, id) in before.active then 1 else 0)
      case SessionExited(w, id, _) => t.(exits := t.exits + 1, strays := t.strays + if (w, id) in before.active then 0 else 1)
      case Tick => t.(ticks := t.ticks + 1)
      case Shutdown => t
  }

  /** The counters are the exits and ticks of the trace, modulo 2^64. */
  lemma {:induction false} CountersMeaning(events: seq<ControlEvent>, n: nat)
    requires n <= |events|
    ensures After(IDLE, events, n).exited == Count(events, n).exits % WRAP
    ensures After(IDLE, events, n).ticks == Count(events, n).ticks % WRAP
  {
    if n > 0 {
      CountersMeaning(events, n - 1);
      ModuloAdds(Count(events, n - 1).exits, 1);
      ModuloAdds(Count(events, n - 1).ticks, 1);
    }
  }

  /**
   * Conservation over every trace: starts that took effect are active or have exited. So starts are
   * active plus exited sessions exactly when repeated starts and stray exits are as many.
   */
  lemma {:induction false} Conservation(events: seq<ControlEvent>, n: nat)
    requires n <= |events|
    ensures var s, t := After(IDLE, events, n), Count(events, n);
      && t.starts - t.restarts == |s.active| + t.exits - t.strays
      && (t.starts == |s.active| + t.exits <==> t.restarts == t.strays)
  {
    hide Apply;
    if n > 0 {
      Conservation(events, n - 1);
      ActiveCount(After(IDLE, events, n - 1), events[n - 1]);
    }
  }

  lemma ActiveCount(s: State, e: ControlEvent)
    ensures |Apply(s, e).active| == |s.active|
      + (if e.SessionStarted? && (e.w, e.session) !in s.active then 1 else 0)
      - (if e.SessionExited? && (e.w, e.session) in s.active then 1 else 0)
  {
    match e
    case SessionStarted(w, id) => assert (w, id) in s.active ==> s.active + {(w, id)} == s.active;
    case SessionExited(w, id, _) => assert (w, id) !in s.active ==> s.active - {(w, id)} == s.active;
    case _ =>
  }
}
