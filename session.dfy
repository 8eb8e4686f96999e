/** The page's session state: the timer value and the three flags
    `showCompletion`, `hasSeenPopup` and `isEnding`, changed by the periodic
    tick, by the "time's up" end sequence and by closing the completion popup.

    The flag transitions are first given as functions on a `Flags` value, so
    that whole runs can be reasoned about; the `App` class holds the state
    the component mutates, and each of its methods is specified by one of
    these functions. */
module Session {
  import opened Countdown

  datatype Flags = Flags(showCompletion: bool, hasSeenPopup: bool, isEnding: bool)

  /** The state at page load: nothing shown, nothing seen, no sequence running. */
  const Initial: Flags := Flags(false, false, false)

  /** The guard a tick uses to fire the end sequence (strictly after the end). */
  predicate ShouldTrigger(f: Flags, now: int) {
    now > EndDate && !f.hasSeenPopup && !f.isEnding
  }

  /** Entry of `triggerEndSequence`: a no-op while a sequence runs, otherwise marks one as running. */
  function StartEnding(f: Flags): Flags {
    if f.isEnding then f else f.(isEnding := true)
  }

  /** The flag effect of one `updateTimer` call. */
  function TickFlags(f: Flags, now: int): Flags {
    if ShouldTrigger(f, now) then StartEnding(f) else f
  }

  /** The end of the dismissal animation: the popup is shown and the sequence is over. */
  function DismissFlags(f: Flags): Flags {
    f.(showCompletion := true, isEnding := false)
  }

  /** `handleClosePopup`: the popup is hidden and remembered as seen. */
  function CloseFlags(f: Flags): Flags {
    f.(showCompletion := false, hasSeenPopup := true)
  }

  /** What can happen to the session: a tick at an instant, the end of a
      dismissal, or a click on the popup's close button. */
  datatype Event = Tick(now: int) | Dismissed | Closed

  function Step(f: Flags, e: Event): Flags {
    match e
    case Tick(now) => TickFlags(f, now)
    case Dismissed => DismissFlags(f)
    case Closed => CloseFlags(f)
  }

  /** The flags after a run of events. */
  function Run(f: Flags, events: seq<Event>): Flags
    decreases |events|
  {
    if events == [] then f else Run(Step(f, events[0]), events[1..])
  }

  /** How many ticks of a run fire the end sequence. */
  function Triggers(f: Flags, events: seq<Event>): nat
    decreases |events|
  {
    if events == [] then 0
    else
      (if events[0].Tick? && ShouldTrigger(f, events[0].now) then 1 else 0)
      + Triggers(Step(f, events[0]), events[1..])
  }

  /** How many dismissals a run contains. */
  function Dismissals(events: seq<Event>): nat
    decreases |events|
  {
    if events == [] then 0 else (if events[0].Dismissed? then 1 else 0) + Dismissals(events[1..])
  }

  /** A tick changes the flags exactly when its guard holds, and then it only
      marks the sequence as running. */
  lemma TickChangesOnlyWhenTriggered(f: Flags, now: int)
    ensures TickFlags(f, now) != f <==> ShouldTrigger(f, now)
    ensures ShouldTrigger(f, now) ==> TickFlags(f, now) == f.(isEnding := true)
  {
  }

  /** At the end instant itself the display is all zero, but nothing is triggered. */
  lemma AtEndNothingTriggers(f: Flags)
    ensures UpdateTimer(EndDate) == TimeLeft(0, 0, 0, 0)
    ensures !ShouldTrigger(f, EndDate) && TickFlags(f, EndDate) == f
  {
  }

  /** A page loaded after the end fires the sequence on its first tick. */
  lemma LoadAfterEndTriggers(now: int)
    requires now > EndDate
    ensures Triggers(Initial, [Tick(now)]) == 1
  {
    assert [Tick(now)][1..] == [];
  }

  /** A finished dismissal re-opens the tick guard unless the popup was already
      closed: the guard then depends only on the instant and `hasSeenPopup`. */
  lemma DismissReopensGuard(f: Flags, now: int)
    ensures ShouldTrigger(DismissFlags(f), now) <==> now > EndDate && !f.hasSeenPopup
  {
  }

  /** Starting the sequence sets `isEnding`; a second start does nothing. */
  lemma StartEndingOnce(f: Flags)
    ensures StartEnding(f).isEnding
    ensures StartEnding(StartEnding(f)) == StartEnding(f)
    ensures f.isEnding ==> StartEnding(f) == f
  {
  }

  /** Closing the popup hides it, marks it seen, and a second close changes nothing. */
  lemma CloseIdempotent(f: Flags)
    ensures !CloseFlags(f).showCompletion && CloseFlags(f).hasSeenPopup
    ensures CloseFlags(CloseFlags(f)) == CloseFlags(f)
  {
  }

  /** Nothing resets `hasSeenPopup`: once seen, it stays seen for any run. */
  lemma {:induction false} SeenIsPermanent(f: Flags, events: seq<Event>)
    requires f.hasSeenPopup
    ensures Run(f, events).hasSeenPopup
    decreases |events|
  {
    if events != [] {
      SeenIsPermanent(Step(f, events[0]), events[1..]);
    }
  }

  /** Once the popup has been closed, no later tick fires the end sequence. */
  lemma {:induction false} NoTriggerAfterClose(f: Flags, events: seq<Event>)
    requires f.hasSeenPopup
    ensures Triggers(f, events) == 0
    decreases |events|
  {
    if events != [] {
      assert Step(f, events[0]).hasSeenPopup;
      NoTriggerAfterClose(Step(f, events[0]), events[1..]);
    }
  }

  /** How many more times the sequence may still fire without a dismissal. */
  function Budget(f: Flags): nat {
    if f.isEnding || f.hasSeenPopup then 0 else 1
  }

  /** The end sequence fires at most once, plus once more per completed
      dismissal: each dismissal clears `isEnding` and re-opens the guard. */
  lemma {:induction false} TriggersBoundedByDismissals(f: Flags, events: seq<Event>)
    ensures Triggers(f, events) <= Budget(f) + Dismissals(events)
    decreases |events|
  {
    if events != [] {
      TriggersBoundedByDismissals(Step(f, events[0]), events[1..]);
    }
  }

  /** Without a dismissal the sequence fires at most once in any run, however
      many ticks past the end there are. */
  lemma AtMostOnceWithoutDismissal(events: seq<Event>)
    requires Dismissals(events) == 0
    ensures Triggers(Initial, events) <= 1
  {
    TriggersBoundedByDismissals(Initial, events);
  }

  /** As written, a dismissal before the popup is closed lets the next tick past
      the end fire the sequence again. */
  lemma RetriggerAfterDismissal(t1: int, t2: int)
    requires t1 > EndDate && t2 > EndDate
    ensures Triggers(Initial, [Tick(t1), Dismissed, Tick(t2)]) == 2
  {
    var f1 := Step(Initial, Tick(t1));
    var f2 := Step(f1, Dismissed);
    assert f1 == Flags(false, false, true) && f2 == Flags(true, false, false);
    assert [Tick(t2)][1..] == [];
    assert Triggers(f2, [Tick(t2)]) == 1;
    assert [Dismissed, Tick(t2)][1..] == [Tick(t2)];
    assert Triggers(f1, [Dismissed, Tick(t2)]) == 1;
    assert [Tick(t1), Dismissed, Tick(t2)][1..] == [Dismissed, Tick(t2)];
  }

  /** Splitting a run: the flags and the fires of `a + b` are those of `a`
      followed by those of `b` from where `a` left off. */
  lemma {:induction false} TriggersAppend(f: Flags, a: seq<Event>, b: seq<Event>)
    ensures Run(f, a + b) == Run(Run(f, a), b)
    ensures Triggers(f, a + b) == Triggers(f, a) + Triggers(Run(f, a), b)
    decreases |a|
  {
    if a == [] {
      assert a + b == b;
    } else {
      assert (a + b)[0] == a[0] && (a + b)[1..] == a[1..] + b;
      TriggersAppend(Step(f, a[0]), a[1..], b);
    }
  }

  /** The popup is shown after the first dismissal, so it can be closed while
      the second sequence (fired by the re-opened guard) still runs; finishing
      that dismissal then shows the popup again, but whatever follows, no later
      tick fires: two fires in all. */
  lemma ReopenedPopupNeverRetriggers(t: int)
    requires t > EndDate
    ensures Run(Initial, [Tick(t), Dismissed, Tick(t), Closed, Dismissed]).showCompletion
    ensures forall rest :: Triggers(Initial, [Tick(t), Dismissed, Tick(t), Closed, Dismissed] + rest) == 2
  {
    var f1 := Step(Initial, Tick(t));
    var f2 := Step(f1, Dismissed);
    var f3 := Step(f2, Tick(t));
    var f4 := Step(f3, Closed);
    var f5 := Step(f4, Dismissed);
    assert f2 == Flags(true, false, false) && f3 == Flags(true, false, true);
    assert f4 == Flags(false, true, true) && f5 == Flags(true, true, false);
    var es := [Tick(t), Dismissed, Tick(t), Closed, Dismissed];
    assert es[1..] == [Dismissed, Tick(t), Closed, Dismissed];
    assert es[2..] == [Tick(t), Closed, Dismissed] == es[1..][1..];
    assert es[3..] == [Closed, Dismissed] == es[2..][1..];
    assert es[4..] == [Dismissed] == es[3..][1..];
    assert es[4..][1..] == [];
    NoTriggerAfterClose(f4, es[4..]);
    assert Run(f4, es[4..]) == f5;
    assert Run(f3, es[3..]) == f5 && Triggers(f3, es[3..]) == 0;
    assert Run(f2, es[2..]) == f5 && Triggers(f2, es[2..]) == 1;
    assert Run(f1, es[1..]) == f5 && Triggers(f1, es[1..]) == 1;
    assert Run(Initial, es) == f5 && Triggers(Initial, es) == 2;
    forall rest: seq<Event>
      ensures Triggers(Initial, es + rest) == 2
    {
      TriggersAppend(Initial, es, rest);
      NoTriggerAfterClose(f5, rest);
    }
  }

  /** The run consists of ticks only: no dismissal and no close. */
  predicate TicksOnly(events: seq<Event>) {
    forall i :: 0 <= i < |events| ==> events[i].Tick?
  }

  /** Some tick of the run comes strictly after the end. */
  predicate CrossesEnd(events: seq<Event>)
    requires TicksOnly(events)
  {
    exists i :: 0 <= i < |events| && events[i].now > EndDate
  }

  /** While a sequence is running, ticks fire nothing. */
  lemma {:induction false} NoTriggerWhileEnding(f: Flags, events: seq<Event>)
    requires f.isEnding && TicksOnly(events)
    ensures Triggers(f, events) == 0
    decreases |events|
  {
    if events != [] {
      assert events[0].Tick?;
      assert Step(f, events[0]) == f;
      NoTriggerWhileEnding(f, events[1..]);
    }
  }

  /** From flags that let the guard through, a run of ticks fires exactly once
      if one of its ticks comes after the end, and never otherwise. */
  lemma {:induction false} TickRunFiresOnce(f: Flags, events: seq<Event>)
    requires !f.isEnding && !f.hasSeenPopup && TicksOnly(events)
    ensures Triggers(f, events) == if CrossesEnd(events) then 1 else 0
    decreases |events|
  {
    if events != [] {
      var e, tail := events[0], events[1..];
      assert e.Tick?;
      assert TicksOnly(tail);
      if e.now > EndDate {
        assert events[0].now > EndDate;
        NoTriggerWhileEnding(Step(f, e), tail);
      } else {
        assert Step(f, e) == f;
        TickRunFiresOnce(f, tail);
        if CrossesEnd(tail) {
          var k :| 0 <= k < |tail| && tail[k].now > EndDate;
          assert events[k + 1] == tail[k];
        }
        if CrossesEnd(events) {
          var k :| 0 <= k < |events| && events[k].now > EndDate;
          assert k != 0 && tail[k - 1] == events[k];
        }
      }
    }
  }

  /** Without dismissals or closes, the page fires the end sequence exactly once
      when its ticks cross the end, however many ticks come after, and never
      if they do not. */
  lemma CrossingFiresOnce(events: seq<Event>)
    requires TicksOnly(events)
    ensures Triggers(Initial, events) == if CrossesEnd(events) then 1 else 0
  {
    TickRunFiresOnce(Initial, events);
  }

  /** Ticks two and one seconds before the end fire nothing; the first tick
      after the end fires the sequence, and the next one does not fire again. */
  lemma CrossingExample()
    ensures Triggers(Initial, [Tick(EndDate - 2000), Tick(EndDate - 1000)]) == 0
    ensures Triggers(Initial, [Tick(EndDate - 2000), Tick(EndDate - 1000), Tick(EndDate + 5000)]) == 1
    ensures Triggers(Initial, [Tick(EndDate - 2000), Tick(EndDate - 1000), Tick(EndDate + 5000), Tick(EndDate + 6000)]) == 1
  {
    var before := [Tick(EndDate - 2000), Tick(EndDate - 1000)];
    var third := before + [Tick(EndDate + 5000)];
    var all := third + [Tick(EndDate + 6000)];
    CrossingFiresOnce(before);
    CrossingFiresOnce(third);
    CrossingFiresOnce(all);
    assert third[2].now > EndDate && all[2].now > EndDate;
    assert before == [Tick(EndDate - 2000), Tick(EndDate - 1000)];
    assert third == [Tick(EndDate - 2000), Tick(EndDate - 1000), Tick(EndDate + 5000)];
    assert all == [Tick(EndDate - 2000), Tick(EndDate - 1000), Tick(EndDate + 5000), Tick(EndDate + 6000)];
  }

  /** The state the component holds and mutates. */
  class App {
    var timeLeft: TimeLeft
    var showCompletion: bool
    var hasSeenPopup: bool
    var isEnding: bool

    function State(): Flags
      reads this
    {
      Flags(showCompletion, hasSeenPopup, isEnding)
    }

    /** The initial `useState` values: 24:00:00 and all flags false. */
    constructor ()
      ensures timeLeft == TimeLeft(0, 24, 0, 0)
      ensures State() == Initial
    {
      timeLeft := TimeLeft(0, 24, 0, 0);
      showCompletion, hasSeenPopup, isEnding := false, false, false;
    }

    /** Entry of `triggerEndSequence`; `started` says whether it went past its guard. */
    method TriggerEndSequence() returns (started: bool)
      modifies this
      ensures started == !old(isEnding)
      ensures State() == StartEnding(old(State()))
      ensures timeLeft == old(timeLeft)
    {
      if isEnding {
        return false;
      }
      isEnding := true;
      started := true;
    }

    /** `updateTimer` at instant `now`; `triggered` says whether it fired the end sequence.
        The before-start branch never triggers, since StartDate < EndDate. */
    method Tick(now: int) returns (triggered: bool)
      modifies this
      ensures timeLeft == UpdateTimer(now)
      ensures triggered == ShouldTrigger(old(State()), now)
      ensures State() == TickFlags(old(State()), now)
    {
      // each of the three branches of updateTimer sets the display to this value
      timeLeft := UpdateTimer(now);
      triggered := false;
      if now > EndDate && !hasSeenPopup && !isEnding {
        var _ := TriggerEndSequence();
        triggered := true;
      }
    }

    /** The last step of the dismissal handler, once the exit animations are done. */
    method FinishDismiss()
      modifies this
      ensures State() == DismissFlags(old(State()))
      ensures timeLeft == old(timeLeft)
    {
      showCompletion := true;
      isEnding := false;
    }

    /** `handleClosePopup`. */
    method HandleClosePopup()
      modifies this
      ensures State() == CloseFlags(old(State()))
      ensures timeLeft == old(timeLeft)
    {
      showCompletion := false;
      hasSeenPopup := true;
    }
  }
}
