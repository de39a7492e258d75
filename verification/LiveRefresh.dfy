/** The debounce with a maximum wait of apps/web/lib/live-refresh.ts, as a timed
    automaton with one timer. */
module LiveRefresh {
  import opened Outcomes

  function Min(a: int, b: int): int {
    if a < b then a else b
  }

  function Max(a: int, b: int): int {
    if a < b then b else a
  }

  /** Milliseconds. */
  datatype Waits = Waits(settleMs: int, maxWaitMs: int)

  /** When the timer set at `now` is due, with a nudge pending since `since`. */
  function Deadline(waits: Waits, since: int, now: int): int {
    now + Max(0, Min(waits.settleMs, waits.maxWaitMs - (now - since)))
  }

  // ---- Runs ----------------------------------------------------------------------------------

  datatype Mark = Nudged(at: int) | Refreshed(at: int)

  datatype World = World(pendingSince: Option<int>, settle: Option<int>, clock: int, log: seq<Mark>)

  datatype Event = Nudge(at: int) | Fire(at: int) | Tick(at: int)

  const START := World(None, None, 0, [])

  /** Time goes forward, a timer fires when due and at most `late` after that. */
  predicate Enabled(w: World, e: Event, late: nat) {
    && w.clock <= e.at
    && (w.settle.Some? ==> e.at <= w.settle.value + late)
    && (e.Fire? ==> w.settle.Some? && w.settle.value <= e.at)
  }

  function Step(waits: Waits, w: World, e: Event): World {
    match e
    case Nudge(at) =>
      var since := if w.pendingSince.Some? then w.pendingSince.value else at;
      World(Some(since), Some(Deadline(waits, since, at)), at, w.log + [Nudged(at)])
    case Fire(at) => World(None, None, at, w.log + [Refreshed(at)])
    case Tick(at) => w.(clock := at)
  }

  function Run(waits: Waits, w: World, events: seq<Event>): World
    decreases |events|
  {
    if events == [] then w else Run(waits, Step(waits, w, events[0]), events[1..])
  }

  predicate Possible(waits: Waits, w: World, events: seq<Event>, late: nat)
    decreases |events|
  {
    events == [] || (Enabled(w, events[0], late) && Possible(waits, Step(waits, w, events[0]), events[1..], late))
  }

  /** Nudges come at least `gap` apart; `last` is the latest one before. */
  predicate Spaced(last: Option<int>, events: seq<Event>, gap: nat)
    decreases |events|
  {
    events == []
    || (if events[0].Nudge?
        then (last.Some? ==> last.value + gap <= events[0].at) && Spaced(Some(events[0].at), events[1..], gap)
        else Spaced(last, events[1..], gap))
  }

  // ---- The closure -----------------------------------------------------------------------------

  /** The closure: its timer, as the time it is due, and the first unanswered
      nudge; `world` follows along. */
  class RefreshScheduler {
    const waits: Waits
    var settle: Option<int>
    var pendingSince: Option<int>
    ghost var world: World

    ghost predicate Valid()
      reads this
    {
      world.pendingSince == pendingSince && world.settle == settle
    }

    constructor (waits: Waits)
      ensures Valid() && world == START && this.waits == waits
    {
      this.waits := waits;
      settle := None;
      pendingSince := None;
      world := START;
    }

    method Nudge(now: int)
      requires Valid()
      modifies this
      ensures Valid() && world == Step(waits, old(world), Event.Nudge(now))
      ensures pendingSince == (if old(pendingSince).Some? then old(pendingSince) else Some(now))
      ensures settle == Some(Deadline(waits, pendingSince.value, now))
    {
      if pendingSince.None? {
        pendingSince := Some(now);
      }
      var left := waits.maxWaitMs - (now - pendingSince.value);
      settle := Some(now + Max(0, Min(waits.settleMs, left)));
      world := Step(waits, world, Event.Nudge(now));
    }

    /** The timer's callback, at time `now`: the page refreshes. */
    method Flush(ghost now: int)
      requires Valid()
      modifies this
      ensures Valid() && world == Step(waits, old(world), Fire(now))
      ensures pendingSince == None && settle == None
    {
      pendingSince := None;
      settle := None;
      world := Step(waits, world, Fire(now));
    }
  }

  // ---- The invariant -----------------------------------------------------------------------------

  /** The last mark of each kind, and how many there are. */
  function LastNudge(log: seq<Mark>): Option<int>
    decreases |log|
  {
    if log == [] then None
    else if log[|log| - 1].Nudged? then Some(log[|log| - 1].at)
    else LastNudge(log[..|log| - 1])
  }

  function Count(log: seq<Mark>, nudges: bool): nat
    decreases |log|
  {
    if log == [] then 0 else Count(log[..|log| - 1], nudges) + if log[|log| - 1].Nudged? == nudges then 1 else 0
  }

  /** The timer is armed exactly while a nudge is pending, and is due when the
      nudges settle or the first has waited long enough, whichever is first. */
  predicate Armed(waits: Waits, w: World, late: nat) {
    && (w.settle.Some? <==> w.pendingSince.Some?)
    && (w.settle.Some? ==>
          var last := LastNudge(w.log);
          && last.Some? && w.pendingSince.value <= last.value <= w.clock
          && w.settle.value
             == Max(last.value, Min(last.value + waits.settleMs, w.pendingSince.value + waits.maxWaitMs))
          && w.clock <= w.settle.value + late)
    && Count(w.log, false) + (if w.pendingSince.Some? then 1 else 0) <= Count(w.log, true)
  }

  lemma LastNudgeSnoc(log: seq<Mark>, m: Mark)
    ensures LastNudge(log + [m]) == if m.Nudged? then Some(m.at) else LastNudge(log)
    ensures forall nudges :: Count(log + [m], nudges) == Count(log, nudges) + if m.Nudged? == nudges then 1 else 0
  {
    assert (log + [m])[..|log|] == log;
  }

  lemma StepStaysArmed(waits: Waits, w: World, e: Event, late: nat)
    requires Armed(waits, w, late) && Enabled(w, e, late)
    ensures Armed(waits, Step(waits, w, e), late)
  {
    hide LastNudge, Count;
    match e {
      case Nudge(at) => LastNudgeSnoc(w.log, Nudged(at));
      case Fire(at) => LastNudgeSnoc(w.log, Refreshed(at));
      case Tick(at) =>
    }
  }

  /** The nudge at position `i` was answered by a refresh within the bound. */
  predicate Answered(log: seq<Mark>, i: nat, within: int)
    requires i < |log|
  {
    exists j :: i < j < |log| && log[j].Refreshed? && log[i].at <= log[j].at <= log[i].at + within
  }

  /** Every nudge was answered in time, or is pending and still in time. */
  predicate InTime(w: World, within: int) {
    forall i :: 0 <= i < |w.log| && w.log[i].Nudged? ==>
      w.log[i].at <= w.clock
      && (Answered(w.log, i, within) || (w.pendingSince.Some? && w.pendingSince.value <= w.log[i].at))
  }

  lemma AnsweredStays(log: seq<Mark>, m: Mark, i: nat, within: int)
    requires i < |log| && Answered(log, i, within)
    ensures Answered(log + [m], i, within)
  {
    var j :| i < j < |log| && log[j].Refreshed? && log[i].at <= log[j].at <= log[i].at + within;
    assert (log + [m])[j] == log[j] && (log + [m])[i] == log[i];
  }

  /** The bound on a wait: the maximum, or at once if that is negative, and what
      lateness can add: once for a nudge that slips in behind a due timer, and once
      for the timer that nudge sets. */
  function Bound(waits: Waits, late: nat): int {
    Max(0, waits.maxWaitMs) + 2 * late
  }

  /** Timers that are never late, or nudges too far apart to keep putting a late one off. */
  predicate Steady(late: nat, gap: nat) {
    late == 0 || late < gap
  }

  /** The timer is due by the maximum wait, or a nudge slipped in behind a late
      timer, set it to fire at once, and no other can before it fires. */
  predicate Prompt(waits: Waits, w: World, late: nat) {
    w.pendingSince.Some? ==>
      && w.settle.Some? && LastNudge(w.log).Some?
      && w.settle.value <= w.pendingSince.value + Max(0, waits.maxWaitMs) + late
      && (w.settle.value > w.pendingSince.value + Max(0, waits.maxWaitMs) ==> w.settle == LastNudge(w.log))
  }

  lemma StepStaysPrompt(waits: Waits, w: World, e: Event, late: nat, gap: nat)
    requires Armed(waits, w, late) && Prompt(waits, w, late) && Enabled(w, e, late) && Steady(late, gap)
    requires e.Nudge? && LastNudge(w.log).Some? ==> LastNudge(w.log).value + gap <= e.at
    ensures Prompt(waits, Step(waits, w, e), late)
  {
    hide LastNudge, Count;
    match e {
      case Nudge(at) => LastNudgeSnoc(w.log, Nudged(at));
      case Fire(at) => LastNudgeSnoc(w.log, Refreshed(at));
      case Tick(_) =>
    }
  }

  lemma StepStaysInTime(waits: Waits, w: World, e: Event, late: nat)
    requires Armed(waits, w, late) && Prompt(waits, w, late) && Enabled(w, e, late)
    requires InTime(w, Bound(waits, late))
    ensures InTime(Step(waits, w, e), Bound(waits, late))
  {
    hide Answered, LastNudge, Count;
    var within := Bound(waits, late);
    var w' := Step(waits, w, e);
    forall i | 0 <= i < |w'.log| && w'.log[i].Nudged?
      ensures w'.log[i].at <= w'.clock
      ensures Answered(w'.log, i, within) || (w'.pendingSince.Some? && w'.pendingSince.value <= w'.log[i].at)
    {
      if i < |w.log| {
        assert w'.log[i] == w.log[i];
        if Answered(w.log, i, within) {
          if e.Nudge? {
            AnsweredStays(w.log, Nudged(e.at), i, within);
          } else if e.Fire? {
            AnsweredStays(w.log, Refreshed(e.at), i, within);
          }
        } else if e.Fire? {
          FireAnswers(w'.log, i, within);
        }
      }
    }
  }

  lemma FireAnswers(log: seq<Mark>, i: nat, within: int)
    requires i < |log| - 1 && log[|log| - 1].Refreshed?
    requires log[i].at <= log[|log| - 1].at <= log[i].at + within
    ensures Answered(log, i, within)
  {
  }

  lemma {:induction false} RunStaysArmed(waits: Waits, w: World, events: seq<Event>, late: nat)
    requires Armed(waits, w, late) && Possible(waits, w, events, late)
    ensures Armed(waits, Run(waits, w, events), late)
    decreases |events|
  {
    hide Armed, Step, Enabled;
    if events != [] {
      StepStaysArmed(waits, w, events[0], late);
      RunStaysArmed(waits, Step(waits, w, events[0]), events[1..], late);
    }
  }

  lemma {:induction false} RunStaysInTime(waits: Waits, w: World, events: seq<Event>, late: nat, gap: nat)
    requires Armed(waits, w, late) && Prompt(waits, w, late) && InTime(w, Bound(waits, late))
    requires Possible(waits, w, events, late) && Steady(late, gap) && Spaced(LastNudge(w.log), events, gap)
    ensures var w' := Run(waits, w, events);
            Armed(waits, w', late) && Prompt(waits, w', late) && InTime(w', Bound(waits, late))
    decreases |events|
  {
    hide Armed, Prompt, InTime, Enabled, Bound, LastNudge, Count;
    if events != [] {
      LastNudgeAfter(waits, w, events[0]);
      StepStaysArmed(waits, w, events[0], late);
      StepStaysPrompt(waits, w, events[0], late, gap);
      StepStaysInTime(waits, w, events[0], late);
      RunStaysInTime(waits, Step(waits, w, events[0]), events[1..], late, gap);
    }
  }

  lemma LastNudgeAfter(waits: Waits, w: World, e: Event)
    ensures LastNudge(Step(waits, w, e).log) == if e.Nudge? then Some(e.at) else LastNudge(w.log)
  {
    hide LastNudge, Count;
    match e {
      case Nudge(at) => LastNudgeSnoc(w.log, Nudged(at));
      case Fire(at) => LastNudgeSnoc(w.log, Refreshed(at));
      case Tick(_) =>
    }
  }

  // ---- Main results --------------------------------------------------------------------------------

  /** In every run with steady timers each nudge is answered by a refresh within
      the bound, or is pending and has not waited longer than that. */
  lemma EveryNudgeIsAnswered(waits: Waits, events: seq<Event>, late: nat, gap: nat, i: nat)
    requires Possible(waits, START, events, late) && Steady(late, gap) && Spaced(None, events, gap)
    requires var w := Run(waits, START, events); i < |w.log| && w.log[i].Nudged?
    ensures var w := Run(waits, START, events);
            Answered(w.log, i, Bound(waits, late))
            || (&& w.pendingSince.Some? && w.pendingSince.value <= w.log[i].at
                && w.clock <= w.log[i].at + Bound(waits, late))
  {
    hide Answered, Count, LastNudge;
    NothingYet(waits, late);
    RunStaysInTime(waits, START, events, late, gap);
  }

  /** With timers on time any run will do: that is the code's promise that a
      stream which never settles still refreshes every maximum wait. */
  lemma OnTimeEveryNudgeIsAnswered(waits: Waits, events: seq<Event>, i: nat)
    requires Possible(waits, START, events, 0)
    requires var w := Run(waits, START, events); i < |w.log| && w.log[i].Nudged?
    ensures var w := Run(waits, START, events);
            Answered(w.log, i, Max(0, waits.maxWaitMs))
            || (w.pendingSince.Some? && w.clock <= w.log[i].at + Max(0, waits.maxWaitMs))
  {
    hide Answered, Count, LastNudge;
    assert LastNudge(START.log) == None by {
      NothingYet(waits, 0);
    }
    TimeSpaces(waits, START, events);
    EveryNudgeIsAnswered(waits, events, 0, 0, i);
  }

  /** Time going forward is spacing enough for a gap of nothing. */
  lemma {:induction false} TimeSpaces(waits: Waits, w: World, events: seq<Event>)
    requires Possible(waits, w, events, 0) && (LastNudge(w.log).Some? ==> LastNudge(w.log).value <= w.clock)
    ensures Spaced(LastNudge(w.log), events, 0)
    decreases |events|
  {
    hide LastNudge;
    if events != [] {
      LastNudgeAfter(waits, w, events[0]);
      TimeSpaces(waits, Step(waits, w, events[0]), events[1..]);
    }
  }

  lemma NothingYet(waits: Waits, late: nat)
    ensures Armed(waits, START, late) && LastNudge(START.log) == None
  {
  }

  /** In every run, however late timers fire, the timer is armed exactly while a
      nudge is pending, is due when the last nudge settles or the first has waited
      the maximum, and refreshes never outnumber nudges. */
  lemma TimerFollowsNudges(waits: Waits, events: seq<Event>, late: nat)
    requires Possible(waits, START, events, late)
    ensures var w := Run(waits, START, events);
            && (w.settle.Some? <==> w.pendingSince.Some?)
            && Count(w.log, false) <= Count(w.log, true)
            && (w.settle.Some? && waits.settleMs >= 0 ==>
                  LastNudge(w.log).Some? && w.settle.value <= LastNudge(w.log).value + waits.settleMs)
            && (w.settle.Some? ==>
                  var last := LastNudge(w.log);
                  && last.Some?
                  && w.settle.value
                     == Max(last.value, Min(last.value + waits.settleMs, w.pendingSince.value + waits.maxWaitMs)))
  {
    hide Count, LastNudge;
    assert Armed(waits, START, late) by {
      NothingYet(waits, late);
    }
    RunStaysArmed(waits, START, events, late);
  }

  // ---- Late timers -----------------------------------------------------------------------------------

  /** A nudge every `pace` milliseconds. */
  function Paced(from: int, pace: nat, n: nat): seq<Event> {
    seq(n, i => Nudge(from + pace * i))
  }

  lemma PacedCons(from: int, pace: nat, n: nat)
    requires 0 < n
    ensures Paced(from, pace, n) == [Nudge(from)] + Paced(from + pace, pace, n - 1)
  {
    var rest := Paced(from + pace, pace, n - 1);
    forall i | 0 < i < n ensures Paced(from, pace, n)[i] == rest[i - 1] {
      assert pace + pace * (i - 1) == pace * i;
    }
  }

  /** Nudges no further apart than timers are late keep putting a late timer off. */
  lemma {:induction false} NudgesPostpone(waits: Waits, w: World, pace: nat, n: nat, late: nat)
    requires pace <= late && w.pendingSince.Some? && w.settle.Some? && w.clock <= w.settle.value
    ensures Possible(waits, w, Paced(w.clock + pace, pace, n), late)
    ensures Spaced(Some(w.clock), Paced(w.clock + pace, pace, n), pace)
    ensures var w' := Run(waits, w, Paced(w.clock + pace, pace, n));
            w'.pendingSince == w.pendingSince && w'.clock == w.clock + pace * n
    decreases n
  {
    var events := Paced(w.clock + pace, pace, n);
    if n == 0 {
      assert events == [];
    } else {
      PacedCons(w.clock + pace, pace, n);
      assert events[1..] == Paced(w.clock + pace + pace, pace, n - 1);
      NudgesPostpone(waits, Step(waits, w, events[0]), pace, n - 1, late);
      assert pace + pace * (n - 1) == pace * n;
    }
  }

  lemma {:induction false} WiderIsSpaced(last: Option<int>, events: seq<Event>, gap: nat, wider: nat)
    requires gap <= wider && Spaced(last, events, wider)
    ensures Spaced(last, events, gap)
    decreases |events|
  {
    if events != [] {
      WiderIsSpaced(if events[0].Nudge? then Some(events[0].at) else last, events[1..], gap, wider);
    }
  }

  /** No run with nudges `gap` apart leaves one pending for longer. */
  ghost predicate BoundedWait(waits: Waits, late: nat, gap: nat, bound: nat) {
    forall events: seq<Event> ::
      Possible(waits, START, events, late) && Spaced(None, events, gap) ==> WaitedAtMost(waits, events, bound)
  }

  predicate WaitedAtMost(waits: Waits, events: seq<Event>, bound: nat) {
    var w := Run(waits, START, events);
    w.pendingSince.Some? ==> w.clock <= w.pendingSince.value + bound
  }

  /** Whatever the waits, a pending nudge's wait has a bound exactly when timers
      are never late or nudges come further apart than timers are late; otherwise a
      stream of nudges can put a late timer off forever. */
  lemma BoundedExactlyWhenSteady(waits: Waits, late: nat, gap: nat)
    ensures (exists bound: nat :: BoundedWait(waits, late, gap, bound)) <==> Steady(late, gap)
    ensures Steady(late, gap) ==> BoundedWait(waits, late, gap, Bound(waits, late))
  {
    if Steady(late, gap) {
      SteadyIsBounded(waits, late, gap);
    } else {
      forall bound: nat ensures !BoundedWait(waits, late, gap, bound) {
        LateIsUnbounded(waits, late, gap, bound);
      }
    }
  }

  lemma SteadyIsBounded(waits: Waits, late: nat, gap: nat)
    requires Steady(late, gap)
    ensures BoundedWait(waits, late, gap, Bound(waits, late))
  {
    hide Possible, Run, Count, LastNudge;
    forall events: seq<Event> | Possible(waits, START, events, late) && Spaced(None, events, gap)
      ensures WaitedAtMost(waits, events, Bound(waits, late))
    {
      NothingYet(waits, late);
      RunStaysInTime(waits, START, events, late, gap);
    }
  }

  lemma LateIsUnbounded(waits: Waits, late: nat, gap: nat, bound: nat)
    requires !Steady(late, gap)
    ensures !BoundedWait(waits, late, gap, bound)
  {
    var pace := if gap == 0 then 1 else gap;
    var first := Step(waits, START, Nudge(0));
    var rest := Paced(pace, pace, bound + 1);
    var events := [Nudge(0)] + rest;
    assert events[1..] == rest;
    NudgesPostpone(waits, first, pace, bound + 1, late);
    WiderIsSpaced(Some(0), rest, gap, pace);
    assert bound + 1 <= pace * (bound + 1);
    assert Possible(waits, START, events, late) && Spaced(None, events, gap);
    assert !WaitedAtMost(waits, events, bound);
  }
}
