/** The state of the Hyperlocal Swarm screen: whether the swarm is active, the seconds
    left in the session, and the developer whose detail card is open.

    The screen's handlers are modelled twice, once as a pure transition function on a
    `Session` value (the reducer view, about which the lemmas speak) and once as the
    methods of the mutable `SwarmSession` object, each of which is proved to perform
    exactly that transition. */
module Swarm {
  import opened Base
  import opened Developers
  import TimeFormat

  /** Length of a swarm session in seconds (30 minutes). */
  const SessionLength: nat := 30 * 60

  datatype Session = Session(swarmActive: bool, timeLeft: int, selectedDev: Option<Developer>)

  /** The state when the screen mounts. */
  const InitialSession: Session := Session(false, SessionLength, None)

  /** Everything that changes the session: the activation and deactivation buttons,
      one firing of the one-second interval, a click on a developer card, and a click
      on the modal's backdrop or its close button. */
  datatype Event = Activate | Deactivate | Tick | Select(dev: Developer) | Dismiss

  /** The interval's updater, `prev > 0 ? prev - 1 : 0`. */
  function TickUpdate(prev: int): (r: int)
    ensures r >= 0
    ensures prev > 0 ==> r == prev - 1
    ensures prev <= 0 ==> r == 0
  {
    if prev > 0 then prev - 1 else 0
  }

  /** The effect of one event. The interval is registered only while the swarm is
      active, so a tick changes nothing otherwise. */
  function Step(s: Session, e: Event): (t: Session)
    ensures t.timeLeft != s.timeLeft ==> e.Tick? && s.swarmActive
    ensures t.swarmActive != s.swarmActive ==> e.Activate? || e.Deactivate?
    ensures t.selectedDev != s.selectedDev ==> e.Select? || e.Dismiss?
  {
    match e
    case Activate => s.(swarmActive := true)
    case Deactivate => s.(swarmActive := false)
    case Tick => if s.swarmActive then s.(timeLeft := TickUpdate(s.timeLeft)) else s
    case Select(d) => s.(selectedDev := Some(d))
    case Dismiss => s.(selectedDev := None)
  }

  /** The effect of a sequence of events, first to last. The countdown never goes
      up and never goes below zero. */
  function Run(s: Session, es: seq<Event>): (t: Session)
    ensures s.timeLeft >= 0 ==> 0 <= t.timeLeft <= s.timeLeft
    decreases |es|
  {
    if es == [] then s else Run(Step(s, es[0]), es[1..])
  }

  /** `k` consecutive interval firings. */
  function Ticks(k: nat): (es: seq<Event>)
    ensures |es| == k && forall i :: 0 <= i < k ==> es[i] == Tick
  {
    seq(k, _ => Tick)
  }

  /** The time left always lies between zero and the full session length. */
  ghost predicate ValidSession(s: Session) {
    0 <= s.timeLeft <= SessionLength
  }

  /** The detail modal is on screen: it belongs to the active view, which is the only
      one rendered while the swarm is active, and it shows while a developer is
      selected. */
  predicate ModalOpen(s: Session) {
    s.swarmActive && s.selectedDev.Some?
  }

  lemma StepPreservesValid(s: Session, e: Event)
    requires ValidSession(s)
    ensures ValidSession(Step(s, e))
  {
  }

  /** Every state the screen can reach from mounting keeps the time left in bounds. */
  lemma {:induction false} ReachableSessionsValid(s: Session, es: seq<Event>)
    requires ValidSession(s)
    ensures ValidSession(Run(s, es))
    decreases |es|
  {
    if es != [] {
      StepPreservesValid(s, es[0]);
      ReachableSessionsValid(Step(s, es[0]), es[1..]);
    }
  }

  lemma InitialSessionValid()
    ensures ValidSession(InitialSession) && !InitialSession.swarmActive
    ensures InitialSession.timeLeft == 1800 && InitialSession.selectedDev == None
  {
  }

  /** Running two event sequences one after the other. */
  lemma {:induction false} RunAppend(s: Session, es: seq<Event>, fs: seq<Event>)
    ensures Run(s, es + fs) == Run(Run(s, es), fs)
    decreases |es|
  {
    if es != [] {
      assert (es + fs)[0] == es[0] && (es + fs)[1..] == es[1..] + fs;
      RunAppend(Step(s, es[0]), es[1..], fs);
    } else {
      assert es + fs == fs;
    }
  }

  /** While active, `k` ticks lower the time left by `k`, clamped at zero, and change
      nothing else. */
  lemma {:induction false} TicksCountDown(s: Session, k: nat)
    requires s.swarmActive && s.timeLeft >= 0
    ensures Run(s, Ticks(k)) == s.(timeLeft := if s.timeLeft >= k then s.timeLeft - k else 0)
    decreases k
  {
    if k > 0 {
      assert Ticks(k)[1..] == Ticks(k - 1);
      TicksCountDown(Step(s, Tick), k - 1);
    }
  }

  /** Starting from `n` seconds, the countdown is at zero after exactly `n` ticks and
      stays at zero however many more ticks follow. */
  lemma CountdownReachesZero(s: Session, extra: nat)
    requires s.swarmActive && s.timeLeft >= 0
    ensures Run(s, Ticks(s.timeLeft)).timeLeft == 0
    ensures Run(s, Ticks(s.timeLeft + extra)).timeLeft == 0
    ensures Run(s, Ticks(s.timeLeft + extra)).swarmActive
    ensures forall k: nat :: k < s.timeLeft ==> Run(s, Ticks(k)).timeLeft > 0
  {
    TicksCountDown(s, s.timeLeft);
    TicksCountDown(s, s.timeLeft + extra);
    forall k: nat | k < s.timeLeft ensures Run(s, Ticks(k)).timeLeft > 0 {
      TicksCountDown(s, k);
    }
  }

  /** While inactive, ticks change nothing: the countdown is paused. */
  lemma {:induction false} TicksWhileInactive(s: Session, k: nat)
    requires !s.swarmActive
    ensures Run(s, Ticks(k)) == s
    decreases k
  {
    if k > 0 {
      assert Ticks(k)[1..] == Ticks(k - 1);
      TicksWhileInactive(s, k - 1);
    }
  }

  /** Activation sets the flag and deactivation clears it, and neither changes
      anything else: deactivating does not reset the time left, and activating again
      resumes from where the countdown stopped. */
  lemma ActivationKeepsTime(s: Session)
    ensures Step(s, Activate) == s.(swarmActive := true)
    ensures Step(s, Deactivate) == s.(swarmActive := false)
    ensures Run(s, [Activate, Deactivate]) == s.(swarmActive := false)
    ensures Step(s, Activate).timeLeft == s.timeLeft && Step(s, Deactivate).timeLeft == s.timeLeft
    ensures Step(s, Activate).selectedDev == s.selectedDev && Step(s, Deactivate).selectedDev == s.selectedDev
  {
  }

  /** Activating twice is activating once, so five ticks after a double activation
      take exactly five seconds off. */
  lemma DoubleActivation(s: Session)
    requires s.timeLeft >= 5
    ensures Run(s, [Activate, Activate]) == Step(s, Activate)
    ensures Run(s, [Activate, Activate] + Ticks(5)).timeLeft == s.timeLeft - 5
  {
    RunAppend(s, [Activate, Activate], Ticks(5));
    TicksCountDown(Step(s, Activate), 5);
  }

  /** Selecting shows exactly the clicked record; either dismissal closes it, twice is
      the same as once, and neither touches the swarm flag or the countdown. */
  lemma SelectionEvents(s: Session, d: Developer)
    ensures Step(s, Select(d)) == s.(selectedDev := Some(d))
    ensures Step(s, Dismiss) == s.(selectedDev := None)
    ensures Step(Step(s, Dismiss), Dismiss) == Step(s, Dismiss)
    ensures Step(Step(s, Select(d)), Dismiss) == Step(s, Dismiss)
    ensures ModalOpen(Step(s, Select(d))) <==> s.swarmActive
    ensures !ModalOpen(Step(s, Dismiss))
  {
  }

  /** The Hyperlocal Swarm screen's state, updated in place by its handlers. */
  class SwarmSession {
    var swarmActive: bool
    var timeLeft: int
    var selectedDev: Option<Developer>

    function State(): Session
      reads this
    {
      Session(swarmActive, timeLeft, selectedDev)
    }

    ghost predicate Valid()
      reads this
    {
      ValidSession(State())
    }

    constructor ()
      ensures Valid() && State() == InitialSession
    {
      swarmActive := false;
      timeLeft := 30 * 60;
      selectedDev := None;
    }

    /** "Trigger Swarm Activation". */
    method Activate()
      requires Valid()
      modifies this
      ensures Valid() && State() == Step(old(State()), Event.Activate)
    {
      swarmActive := true;
    }

    /** "Deactivate (M:SS)". */
    method Deactivate()
      requires Valid()
      modifies this
      ensures Valid() && State() == Step(old(State()), Event.Deactivate)
    {
      swarmActive := false;
    }

    /** One firing of the one-second interval, which exists only while active. */
    method Tick()
      requires Valid()
      modifies this
      ensures Valid() && State() == Step(old(State()), Event.Tick)
    {
      if swarmActive {
        timeLeft := TickUpdate(timeLeft);
      }
    }

    /** A click on a developer card. */
    method Select(dev: Developer)
      requires Valid()
      modifies this
      ensures Valid() && State() == Step(old(State()), Event.Select(dev))
    {
      selectedDev := Some(dev);
    }

    /** A click on the modal's backdrop or on its close button. */
    method Dismiss()
      requires Valid()
      modifies this
      ensures Valid() && State() == Step(old(State()), Event.Dismiss)
    {
      selectedDev := None;
    }

    /** The label on the deactivation button. */
    method Remaining() returns (caption: string)
      requires Valid()
      ensures TimeFormat.ParseTime(caption) == Some(timeLeft)
      ensures caption == TimeFormat.FormatTime(timeLeft)
    {
      caption := TimeFormat.FormatTime(timeLeft);
      TimeFormat.FormatTimeRoundTrip(timeLeft);
    }
  }
}
