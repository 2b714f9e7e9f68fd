/** The slots of the WebSocket example as a state machine. */
module WebSocketSlots {
  // Connect, ready and close callbacks and the informer that writes to every ready client are interleaved at the points
  // where they lock and unlock. Connections are numbers.

  import opened Pointers

  const MAX_WS_CLIENTS: nat := 5

  /** State 0 is free, 1 connected, 2 ready, 3 being written to by the informer. */
  datatype Slot = Slot(conn: Option<int>, state: int)

  /** What the server has called for a connection. */
  datatype Phase = Rejected | Accepted | Readied | Closed

  /** Where the informer is: about to look at a slot, about to write to the connection it locked in there, or
      about to release the slot. */
  datatype Informer = Resting | Looking(i: nat) | Writing(i: nat, conn: Option<int>) | Releasing(i: nat)

  /** A write: the connection meant, and the one the slot held when it was made. */
  datatype Write = Write(meant: Option<int>, made: Option<int>)

  datatype State = State(slots: seq<Slot>, data: map<int, nat>, phase: map<int, Phase>, informer: Informer,
      writes: seq<Write>)

  datatype Event =
    | Connect(c: int)
    | Ready(c: int)
    | Close(c: int)
    | InformStart
    | InformLook
    | InformWrite
    | InformRelease

  const Start: State := State(seq(MAX_WS_CLIENTS, _ => Slot(None, 0)), map[], map[], Resting, [])

  /** What the server may do next: it accepts each connection once, then calls ready once and close once. */
  predicate Enabled(s: State, e: Event) {
    match e
    case Connect(c) => c !in s.phase
    case Ready(c) => c in s.phase && s.phase[c] == Accepted
    case Close(c) => c in s.phase && (s.phase[c] == Accepted || s.phase[c] == Readied)
    case InformStart => s.informer.Resting?
    case InformLook => s.informer.Looking?
    case InformWrite => s.informer.Writing?
    case InformRelease => s.informer.Releasing?
  }

  /** The first slot without a connection, the number of slots if there is none. */
  function FreeSlot(slots: seq<Slot>): (i: nat)
    ensures i <= |slots| && (i < |slots| ==> slots[i].conn.None?)
    ensures forall j :: 0 <= j < i ==> slots[j].conn.Some?
  {
    if slots == [] || slots[0].conn.None? then 0 else 1 + FreeSlot(slots[1..])
  }

  function SlotAt(s: State, i: nat): Slot {
    if i < |s.slots| then s.slots[i] else Slot(None, 0)
  }

  function WithSlot(s: State, i: nat, slot: Slot): State {
    if i < |s.slots| then s.(slots := s.slots[i := slot]) else s
  }

  function WithState(s: State, i: nat, state: int): State {
    WithSlot(s, i, SlotAt(s, i).(state := state))
  }

  function NextSlot(i: nat): Informer {
    if i + 1 < MAX_WS_CLIENTS then Looking(i + 1) else Resting
  }

  /** The slot a connection's user data points to. */
  function SlotOf(s: State, c: int): nat {
    if c in s.data then s.data[c] else 0
  }

  /** One step, from any state the event is possible in. Closing a slot the informer is writing to changes
      nothing: the handler waits and tries again. */
  function Next(s: State, e: Event): State
    requires Enabled(s, e)
  {
    match e
    case Connect(c) =>
      var i := FreeSlot(s.slots);
      if i == |s.slots| then s.(phase := s.phase[c := Rejected])
      else WithSlot(s, i, Slot(Some(c), 1)).(data := s.data[c := i], phase := s.phase[c := Accepted])
    case Ready(c) => WithState(s, SlotOf(s, c), 2).(phase := s.phase[c := Readied])
    case Close(c) =>
      var i := SlotOf(s, c);
      if SlotAt(s, i).state == 3 then s else WithSlot(s, i, Slot(None, 0)).(phase := s.phase[c := Closed])
    case InformStart => s.(informer := Looking(0))
    case InformLook =>
      var i := s.informer.i;
      if SlotAt(s, i).state == 2 then WithState(s, i, 3).(informer := Writing(i, SlotAt(s, i).conn))
      else s.(informer := NextSlot(i))
    case InformWrite =>
      var i := s.informer.i;
      s.(writes := s.writes + [Write(s.informer.conn, SlotAt(s, i).conn)], informer := Releasing(i))
    case InformRelease => WithState(s, s.informer.i, 2).(informer := NextSlot(s.informer.i))
  }

  predicate Open(s: State, c: int) {
    c in s.phase && (s.phase[c] == Accepted || s.phase[c] == Readied)
  }

  /** A slot is free exactly when it has no connection; the one in state 3 is the informer's. */
  predicate SlotFits(s: State, i: nat)
    requires i < |s.slots|
  {
    var slot := s.slots[i];
    && 0 <= slot.state <= 3 && (slot.conn.None? <==> slot.state == 0)
    && (slot.state == 3 <==> s.informer == Releasing(i) || (s.informer.Writing? && s.informer.i == i))
    && (slot.conn.Some? ==> Open(s, slot.conn.value) && SlotOf(s, slot.conn.value) == i
                            && (slot.state == 1 <==> s.phase[slot.conn.value] == Accepted))
  }

  /** What every step keeps. */
  ghost predicate Safe(s: State) {
    && |s.slots| == MAX_WS_CLIENTS
    && (forall i :: 0 <= i < |s.slots| ==> SlotFits(s, i))
    && (forall c :: Open(s, c) ==> c in s.data && s.data[c] < MAX_WS_CLIENTS && s.slots[s.data[c]].conn == Some(c))
    && (s.informer.Looking? || s.informer.Writing? || s.informer.Releasing? ==> s.informer.i < MAX_WS_CLIENTS)
    && (s.informer.Writing? ==> s.informer.conn.Some? && s.slots[s.informer.i].conn == s.informer.conn)
    && (forall w :: w in s.writes ==> w.meant.Some? && w.made == w.meant)
  }

  lemma StartIsSafe()
    ensures Safe(Start)
  {
  }

  /** The handlers' own assertions: a connection's user data points to its slot, in state 1 when it becomes
      ready and in some state above 0 as long as it is open. */
  lemma HandlersAssertions(s: State, c: int)
    requires Safe(s) && Open(s, c)
    ensures SlotOf(s, c) < MAX_WS_CLIENTS && s.slots[SlotOf(s, c)].conn == Some(c) && s.slots[SlotOf(s, c)].state >= 1
    ensures s.phase[c] == Accepted ==> s.slots[SlotOf(s, c)].state == 1
  {
    assert SlotFits(s, SlotOf(s, c));
  }

  lemma ConnectIsSafe(s: State, c: int)
    requires Safe(s) && Enabled(s, Connect(c))
    ensures Safe(Next(s, Connect(c)))
  {
    var t := Next(s, Connect(c));
    forall i | 0 <= i < |t.slots|
      ensures SlotFits(t, i)
    {
      assert SlotFits(s, i);
    }
  }

  lemma ReadyIsSafe(s: State, c: int)
    requires Safe(s) && Enabled(s, Ready(c))
    ensures Safe(Next(s, Ready(c)))
  {
    HandlersAssertions(s, c);
    var t := Next(s, Ready(c));
    forall i | 0 <= i < |t.slots|
      ensures SlotFits(t, i)
    {
      assert SlotFits(s, i);
    }
  }

  lemma CloseIsSafe(s: State, c: int)
    requires Safe(s) && Enabled(s, Close(c))
    ensures Safe(Next(s, Close(c)))
  {
    HandlersAssertions(s, c);
    if s.informer.Writing? {
      assert SlotFits(s, s.informer.i);
    }
    var t := Next(s, Close(c));
    forall i | 0 <= i < |t.slots|
      ensures SlotFits(t, i)
    {
      assert SlotFits(s, i);
    }
  }

  lemma LookIsSafe(s: State)
    requires Safe(s) && Enabled(s, InformLook)
    ensures Safe(Next(s, InformLook))
  {
    assert SlotFits(s, s.informer.i);
    var t := Next(s, InformLook);
    forall i | 0 <= i < |t.slots|
      ensures SlotFits(t, i)
    {
      assert SlotFits(s, i);
    }
  }

  lemma WriteIsSafe(s: State)
    requires Safe(s) && Enabled(s, InformWrite)
    ensures Safe(Next(s, InformWrite))
  {
    var t := Next(s, InformWrite);
    forall i | 0 <= i < |t.slots|
      ensures SlotFits(t, i)
    {
      assert SlotFits(s, i);
    }
  }

  lemma ReleaseIsSafe(s: State)
    requires Safe(s) && Enabled(s, InformRelease)
    ensures Safe(Next(s, InformRelease))
  {
    assert SlotFits(s, s.informer.i);
    var t := Next(s, InformRelease);
    forall i | 0 <= i < |t.slots|
      ensures SlotFits(t, i)
    {
      assert SlotFits(s, i);
    }
  }

  lemma StepIsSafe(s: State, e: Event)
    requires Safe(s) && Enabled(s, e)
    ensures Safe(Next(s, e))
  {
    match e {
      case Connect(c) => ConnectIsSafe(s, c);
      case Ready(c) => ReadyIsSafe(s, c);
      case Close(c) => CloseIsSafe(s, c);
      case InformLook => LookIsSafe(s);
      case InformWrite => WriteIsSafe(s);
      case InformRelease => ReleaseIsSafe(s);
      case InformStart =>
        assert forall i :: 0 <= i < |s.slots| ==> SlotFits(s, i) && SlotFits(Next(s, e), i);
    }
  }

  // ----- runs -----

  /** Every event can happen when its turn comes. */
  ghost predicate CanHappen(s: State, events: seq<Event>)
    decreases |events|
  {
    events != [] ==> Enabled(s, events[0]) && CanHappen(Next(s, events[0]), events[1..])
  }

  ghost function After(s: State, events: seq<Event>): State
    requires CanHappen(s, events)
    decreases |events|
  {
    if events == [] then s else After(Next(s, events[0]), events[1..])
  }

  lemma {:induction false} RunKeepsSafe(s: State, events: seq<Event>)
    requires Safe(s) && CanHappen(s, events)
    ensures Safe(After(s, events))
    decreases |events|
  {
    if events != [] {
      StepIsSafe(s, events[0]);
      RunKeepsSafe(Next(s, events[0]), events[1..]);
    }
  }

  /** In every interleaving from the start: the invariant holds, connections and states go together, no
      connection has two slots, and every write so far went to the connection that was locked in. */
  lemma EveryRunIsSafe(events: seq<Event>)
    requires CanHappen(Start, events)
    ensures var t := After(Start, events);
            && Safe(t)
            && (forall i :: 0 <= i < MAX_WS_CLIENTS ==> (t.slots[i].conn.None? <==> t.slots[i].state == 0))
            && (forall i, j :: 0 <= i < j < MAX_WS_CLIENTS && t.slots[i].conn.Some? ==>
              t.slots[i].conn != t.slots[j].conn)
            && (forall w :: w in t.writes ==> w.made == w.meant && w.made.Some?)
  {
    StartIsSafe();
    RunKeepsSafe(Start, events);
    NoTwoSlots(After(Start, events));
  }

  lemma NoTwoSlots(s: State)
    requires Safe(s)
    ensures forall i :: 0 <= i < MAX_WS_CLIENTS ==> (s.slots[i].conn.None? <==> s.slots[i].state == 0)
    ensures forall i, j :: 0 <= i < j < MAX_WS_CLIENTS && s.slots[i].conn.Some? ==> s.slots[i].conn != s.slots[j].conn
  {
    forall i, j | 0 <= i < j < MAX_WS_CLIENTS && s.slots[i].conn.Some?
      ensures s.slots[i].conn != s.slots[j].conn
    {
      assert SlotFits(s, i) && SlotFits(s, j);
    }
    forall i | 0 <= i < MAX_WS_CLIENTS
      ensures s.slots[i].conn.None? <==> s.slots[i].state == 0
    {
      assert SlotFits(s, i);
    }
  }

  /** A slot in state 3 keeps its connection and its state whatever happens, until the informer releases it. */
  lemma LockedInStays(s: State, e: Event, i: nat)
    requires Safe(s) && Enabled(s, e) && i < MAX_WS_CLIENTS && s.slots[i].state == 3
    ensures Next(s, e).slots[i].conn == s.slots[i].conn
    ensures Next(s, e).slots[i].state == if e == InformRelease then 2 else 3
  {
    assert SlotFits(s, i);
    if e.Ready? || e.Close? {
      HandlersAssertions(s, e.c);
    }
  }

  /** So over any run in which the informer does not release it. */
  lemma {:induction false} LockedInThroughRun(s: State, events: seq<Event>, i: nat)
    requires Safe(s) && CanHappen(s, events) && i < MAX_WS_CLIENTS && s.slots[i].state == 3
    requires InformRelease !in events
    ensures Safe(After(s, events)) && After(s, events).slots[i] == s.slots[i]
    decreases |events|
  {
    if events != [] {
      LockedInStays(s, events[0], i);
      StepIsSafe(s, events[0]);
      LockedInThroughRun(Next(s, events[0]), events[1..], i);
    }
  }

  /** A connection is turned away exactly when every slot has one. */
  lemma RejectedWhenFull(s: State, c: int)
    requires Safe(s) && Enabled(s, Connect(c))
    ensures Next(s, Connect(c)).phase[c] == Rejected <==> forall i :: 0 <= i < MAX_WS_CLIENTS ==> s.slots[i].conn.Some?
  {
  }

  predicate ClosedIn(s: State, c: int) {
    c in s.phase && s.phase[c] == Closed
  }

  /** Closing waits only for the informer, and no longer than the write in progress: once that slot is
      released the connection can be dropped. */
  lemma CloseWaits(s: State, c: int)
    requires Safe(s) && Enabled(s, Close(c))
    ensures Next(s, Close(c)) == s <==>
            s.informer == Releasing(SlotOf(s, c)) || s.informer == Writing(SlotOf(s, c), Some(c))
    ensures Next(s, Close(c)) == s ==>
      var rest := if s.informer.Writing? then [InformWrite] + ([InformRelease] + [Close(c)])
          else [InformRelease] + [Close(c)];
      CanHappen(s, rest) && ClosedIn(After(s, rest), c)
  {
    HandlersAssertions(s, c);
    var i := SlotOf(s, c);
    assert SlotFits(s, i);
    if s.slots[i].state == 3 {
      var t := if s.informer.Writing? then Next(s, InformWrite) else s;
      if s.informer.Writing? {
        StepIsSafe(s, InformWrite);
      }
      var u := Next(t, InformRelease);
      StepIsSafe(t, InformRelease);
      StepIsSafe(u, Close(c));
      Then(u, Close(c), []);
      assert [Close(c)] + [] == [Close(c)];
      Then(t, InformRelease, [Close(c)]);
      if s.informer.Writing? {
        Then(s, InformWrite, [InformRelease] + [Close(c)]);
      }
    }
  }

  lemma Then(s: State, e: Event, rest: seq<Event>)
    requires Enabled(s, e) && CanHappen(Next(s, e), rest)
    ensures CanHappen(s, [e] + rest) && After(s, [e] + rest) == After(Next(s, e), rest)
  {
    assert ([e] + rest)[1..] == rest;
  }
}
