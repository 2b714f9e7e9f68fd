/** The handlers over the table of clients. Each method is what runs between taking and giving up the lock, or
    one access made without it. What the server has called so far and what has been written are kept as ghost fields, so
    that a method can be proved to make the step the protocol makes. */
module WebSocketClients {
  import opened Pointers
  import opened WebSocketSlots

  class Clients {
    const table: array<Slot>
    var data: map<int, nat>
    var informer: Informer
    ghost var phase: map<int, Phase>
    ghost var writes: seq<Write>

    constructor ()
      ensures Valid() && View() == Start
    {
      table := new Slot[MAX_WS_CLIENTS](_ => Slot(None, 0));
      data, informer, phase, writes := map[], Resting, map[], [];
      new;
      assert table[..] == Start.slots;
      StartIsSafe();
    }

    ghost function View(): State
      reads this, table
    {
      State(table[..], data, phase, informer, writes)
    }

    ghost predicate Valid()
      reads this, table
    {
      Safe(View())
    }

    /** WebSocketConnectHandler: zero accepts the connection, one rejects it. */
    method ConnectHandler(c: int) returns (reject: int)
      requires Valid() && Enabled(View(), Connect(c))
      modifies this`data, this`phase, table
      ensures Valid() && View() == Next(old(View()), Connect(c))
      ensures reject == 1 || reject == 0
      ensures reject == 1 <==> forall i :: 0 <= i < MAX_WS_CLIENTS ==> old(table[..])[i].conn.Some?
    {
      hide Safe;
      StepIsSafe(View(), Connect(c));
      TableLength();
      ghost var was, free := table[..], FreeSlot(table[..]);
      reject := 1;
      var i := 0;
      while i < MAX_WS_CLIENTS && table[i].conn.Some?
        invariant 0 <= i <= MAX_WS_CLIENTS && table[..] == was
        invariant forall k :: 0 <= k < i ==> was[k].conn.Some?
      {
        i := i + 1;
      }
      assert i == free;
      if i < MAX_WS_CLIENTS {
        table[i] := Slot(Some(c), 1);
        data := data[c := i];
        phase := phase[c := Accepted];
        reject := 0;
        assert table[..] == was[i := Slot(Some(c), 1)];
      } else {
        phase := phase[c := Rejected];
      }
    }

    lemma TableLength()
      requires Valid()
      ensures table.Length == MAX_WS_CLIENTS
    {
      assert |table[..]| == MAX_WS_CLIENTS;
    }

    /** WebSocketReadyHandler; it does not take the lock. Its assertions hold. */
    method ReadyHandler(c: int) returns (asserted: bool)
      requires Valid() && Enabled(View(), Ready(c))
      modifies this`phase, table
      ensures Valid() && View() == Next(old(View()), Ready(c)) && asserted
    {
      HandlersAssertions(View(), c);
      StepIsSafe(View(), Ready(c));
      var i := data[c];
      asserted := table[i].conn == Some(c) && table[i].state == 1;
      table[i] := table[i].(state := 2);
      phase := phase[c := Readied];
    }

    /** One pass of the loop in WebSocketCloseHandler: wait, or drop the client. */
    method CloseHandlerPass(c: int) returns (asserted: bool, dropped: bool)
      requires Valid() && Enabled(View(), Close(c))
      modifies this`phase, table
      ensures Valid() && View() == Next(old(View()), Close(c)) && asserted
      ensures dropped <==> old(table[..])[data[c]].state != 3
    {
      HandlersAssertions(View(), c);
      StepIsSafe(View(), Close(c));
      var i := data[c];
      asserted := table[i].conn == Some(c) && table[i].state >= 1;
      if table[i].state == 3 {
        return asserted, false;
      }
      table[i] := Slot(None, 0);
      phase := phase[c := Closed];
      return asserted, true;
    }

    /** The informer starts a round. */
    method InformStartStep()
      requires Valid() && Enabled(View(), InformStart)
      modifies this`informer
      ensures Valid() && View() == Next(old(View()), InformStart)
    {
      StepIsSafe(View(), InformStart);
      informer := Looking(0);
    }

    /** First locked part of InformWebsockets for a slot. */
    method InformLookStep()
      requires Valid() && Enabled(View(), InformLook)
      modifies this`informer, table
      ensures Valid() && View() == Next(old(View()), InformLook)
    {
      StepIsSafe(View(), InformLook);
      var i := informer.i;
      if table[i].state == 2 {
        informer := Writing(i, table[i].conn);
        table[i] := table[i].(state := 3);
      } else {
        informer := NextSlot(i);
      }
    }

    /** The write, without the lock: it goes to the connection that was locked in, which is still open. */
    method InformWriteStep() returns (target: Option<int>)
      requires Valid() && Enabled(View(), InformWrite)
      modifies this`informer, this`writes
      ensures Valid() && View() == Next(old(View()), InformWrite)
      ensures target.Some? && target == old(informer).conn && Open(old(View()), target.value)
    {
      StepIsSafe(View(), InformWrite);
      var i := informer.i;
      assert SlotFits(View(), i);
      target := table[i].conn;
      writes := writes + [Write(informer.conn, target)];
      informer := Releasing(i);
    }

    /** Second locked part. */
    method InformReleaseStep()
      requires Valid() && Enabled(View(), InformRelease)
      modifies this`informer, table
      ensures Valid() && View() == Next(old(View()), InformRelease)
    {
      StepIsSafe(View(), InformRelease);
      var i := informer.i;
      table[i] := table[i].(state := 2);
      informer := NextSlot(i);
    }
  }
}
