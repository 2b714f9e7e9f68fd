/** A round of the informer reaches every client that is ready. */
module WebSocketRounds {
  import opened Pointers
  import opened WebSocketSlots

  /** One write for each slot that is ready, in the order of the slots, to the connection it holds. */
  function Due(slots: seq<Slot>): seq<Write> {
    if slots == [] then []
    else (if slots[0].state == 2 then [Write(slots[0].conn, slots[0].conn)] else []) + Due(slots[1..])
  }

  /** What the informer does for the slot it looks at, if nothing else happens. */
  function Visit(slot: Slot): seq<Event> {
    if slot.state == 2 then [InformLook, InformWrite, InformRelease] else [InformLook]
  }

  /** All that it does from a slot on. */
  function Visits(slots: seq<Slot>): seq<Event> {
    if slots == [] then [] else Visit(slots[0]) + Visits(slots[1..])
  }

  lemma {:induction false} RunOn(s: State, first: seq<Event>, rest: seq<Event>)
    requires CanHappen(s, first) && CanHappen(After(s, first), rest)
    ensures CanHappen(s, first + rest) && After(s, first + rest) == After(After(s, first), rest)
    decreases |first|
  {
    if first == [] {
      assert first + rest == rest;
    } else {
      assert (first + rest)[1..] == first[1..] + rest;
      RunOn(Next(s, first[0]), first[1..], rest);
    }
  }

  lemma One(s: State, e: Event)
    requires Enabled(s, e)
    ensures CanHappen(s, [e]) && After(s, [e]) == Next(s, e)
  {
    Then(s, e, []);
    assert [e] + [] == [e];
  }

  lemma OneVisit(s: State, i: nat)
    requires i < |s.slots| == MAX_WS_CLIENTS && s.informer == Looking(i)
    ensures CanHappen(s, Visit(s.slots[i]))
    ensures After(s, Visit(s.slots[i])) == s.(writes := s.writes + Due([s.slots[i]]), informer := NextSlot(i))
  {
    var slot := s.slots[i];
    var looked := Next(s, InformLook);
    assert Due([slot]) == if slot.state == 2 then [Write(slot.conn, slot.conn)] else [];
    if slot.state == 2 {
      var written := Next(looked, InformWrite);
      var released := Next(written, InformRelease);
      assert released.slots == s.slots;
      One(written, InformRelease);
      Then(looked, InformWrite, [InformRelease]);
      Then(s, InformLook, [InformWrite] + [InformRelease]);
      assert Visit(slot) == [InformLook] + ([InformWrite] + [InformRelease]);
    } else {
      One(s, InformLook);
      assert s.writes + [] == s.writes;
    }
  }

  lemma {:induction false} RoundFrom(s: State, i: nat)
    requires i < |s.slots| == MAX_WS_CLIENTS && s.informer == Looking(i)
    ensures CanHappen(s, Visits(s.slots[i..]))
    ensures After(s, Visits(s.slots[i..])) == s.(writes := s.writes + Due(s.slots[i..]), informer := Resting)
    decreases MAX_WS_CLIENTS - i
  {
    var slot, rest := s.slots[i], s.slots[i + 1..];
    assert s.slots[i..][1..] == rest;
    OneVisit(s, i);
    var t := After(s, Visit(slot));
    assert Due(s.slots[i..]) == Due([slot]) + Due(rest);
    assert s.writes + (Due([slot]) + Due(rest)) == (s.writes + Due([slot])) + Due(rest);
    if i + 1 < MAX_WS_CLIENTS {
      RoundFrom(t, i + 1);
    } else {
      assert rest == [] && t.writes + [] == t.writes;
    }
    RunOn(s, Visit(slot), Visits(rest));
  }

  /** A round of which nothing else is part: its own steps can all be made, they end at rest, exactly one write has been
      added for each ready slot in the order of the slots, and all else is as before. */
  lemma RoundAlone(s: State)
    requires Safe(s) && s.informer.Resting?
    ensures var steps := [InformStart] + Visits(s.slots);
      CanHappen(s, steps) && After(s, steps) == s.(writes := s.writes + Due(s.slots))
  {
    assert s.slots[0..] == s.slots;
    RoundFrom(Next(s, InformStart), 0);
    Then(s, InformStart, Visits(s.slots));
  }

  /** The steps of a round on its own are the only ones the informer can make. */
  lemma OneWayOn(s: State, e: Event, f: Event)
    requires Enabled(s, e) && Enabled(s, f)
    requires !(e.Connect? || e.Ready? || e.Close?) && !(f.Connect? || f.Ready? || f.Close?)
    ensures e == f
  {
  }

  // ----- with everything else that can happen in between -----

  /** The informer has not yet got to a slot in its round. */
  predicate NotYetAt(informer: Informer, i: nat) {
    match informer
    case Resting => false
    case Looking(j) => j <= i
    case Writing(j, _) => j < i
    case Releasing(j) => j < i
  }

  /** A connection is closed in a run before the informer looks at the slot. */
  ghost predicate ClosedBefore(s: State, events: seq<Event>, c: int, i: nat)
    requires CanHappen(s, events)
    decreases |events|
  {
    && events != []
    && ((events[0] == Close(c) && NotYetAt(s.informer, i)) || ClosedBefore(Next(s, events[0]), events[1..], c, i))
  }

  lemma {:induction false} WritesStay(s: State, events: seq<Event>)
    requires CanHappen(s, events)
    ensures s.writes <= After(s, events).writes
    decreases |events|
  {
    if events != [] {
      WritesStay(Next(s, events[0]), events[1..]);
    }
  }

  /** The connection a ready slot holds is written to between two states of a run. */
  ghost predicate Reached(s: State, t: State, c: int) {
    s.writes <= t.writes && Write(Some(c), Some(c)) in t.writes[|s.writes|..]
  }

  lemma ReachedLater(s: State, t: State, u: State, c: int)
    requires s.writes <= t.writes && Reached(t, u, c)
    ensures Reached(s, u, c)
  {
    var k :| |t.writes| <= k < |u.writes| && u.writes[k] == Write(Some(c), Some(c));
    assert u.writes[|s.writes|..][k - |s.writes|] == u.writes[k];
  }

  /** Once a slot is locked in for a write, the informer cannot come to rest without having made it. */
  lemma {:induction false} LockedInIsReached(s: State, events: seq<Event>, c: int)
    requires Safe(s) && CanHappen(s, events) && After(s, events).informer.Resting?
    requires s.informer.Writing? && s.informer.conn == Some(c)
    ensures Reached(s, After(s, events), c)
    decreases |events|
  {
    var e, t := events[0], Next(s, events[0]);
    StepIsSafe(s, e);
    WritesStay(t, events[1..]);
    if e == InformWrite {
      assert t.writes[|s.writes|] == Write(Some(c), Some(c));
      assert After(s, events).writes[|s.writes|..][0] == t.writes[|s.writes|];
    } else {
      LockedInIsReached(t, events[1..], c);
      ReachedLater(s, t, After(s, events), c);
    }
  }

  /** A ready slot stays as it is until the informer gets to it, unless its connection is closed. */
  lemma ReadyStays(s: State, e: Event, c: int, i: nat)
    requires Safe(s) && Enabled(s, e) && e != Close(c)
    requires i < MAX_WS_CLIENTS && s.slots[i] == Slot(Some(c), 2) && NotYetAt(s.informer, i)
    ensures var t := Next(s, e);
      if e == InformLook && s.informer == Looking(i) then t.informer == Writing(i, Some(c))
      else t.slots[i] == s.slots[i] && NotYetAt(t.informer, i)
  {
    assert SlotFits(s, i);
    if e.Ready? || e.Close? {
      HandlersAssertions(s, e.c);
    }
  }

  lemma {:induction false} ReadyIsReached(s: State, events: seq<Event>, c: int, i: nat)
    requires Safe(s) && CanHappen(s, events) && After(s, events).informer.Resting?
    requires i < MAX_WS_CLIENTS && s.slots[i] == Slot(Some(c), 2) && NotYetAt(s.informer, i)
    requires !ClosedBefore(s, events, c, i)
    ensures Reached(s, After(s, events), c)
    decreases |events|
  {
    var e, t := events[0], Next(s, events[0]);
    StepIsSafe(s, e);
    ReadyStays(s, e, c, i);
    if e == InformLook && s.informer == Looking(i) {
      LockedInIsReached(t, events[1..], c);
    } else {
      ReadyIsReached(t, events[1..], c, i);
    }
    ReachedLater(s, t, After(s, events), c);
  }

  /** A round with anything else in between: whoever is ready when it starts and is not closed before the informer looks
      at that slot has been written to when the informer is at rest again. */
  lemma {:induction false} RoundReaches(s: State, events: seq<Event>, c: int, i: nat)
    requires Safe(s) && s.informer.Resting? && i < MAX_WS_CLIENTS && s.slots[i] == Slot(Some(c), 2)
    requires events != [] && events[0] == InformStart && CanHappen(s, events) && After(s, events).informer.Resting?
    requires !ClosedBefore(s, events, c, i)
    ensures Reached(s, After(s, events), c)
  {
    StepIsSafe(s, InformStart);
    ReadyIsReached(Next(s, InformStart), events[1..], c, i);
  }
}
