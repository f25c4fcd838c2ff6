/** What makes the calculator run for a player: the packet handlers that move it, the teleport listener, and the
    `ChunkCalc` messages they write. */
module Movements {
  import opened Options
  import opened ChunkGrid
  import opened PlayerChunks

  /** Where a player is, whether it still has to confirm a teleport, how many of its messages the calculator has not
      read, and where it was when the calculator last read any. */
  datatype Player = Player(at: Place, confirming: bool, messages: nat, last: Option<Place>)

  datatype Step =
    | SetPosition(to: Place)
    | Teleport(to: Place)
    | Confirm
    | Calculate

  function After(p: Player, step: Step): Player {
    match step
    case SetPosition(to) =>
      if p.confirming then p
      else p.(at := to, messages := p.messages + if TriggerChunk(p.at) != TriggerChunk(to) then 1 else 0)
    case Teleport(to) => p.(at := to, confirming := true, messages := p.messages + 1)
    case Confirm => p.(confirming := false)
    case Calculate => if p.messages == 0 then p else p.(messages := 0, last := Some(p.at))
  }

  datatype Run = Start | Then(before: Run, last: Step)

  function Joined(at: Place): Player {
    Player(at, false, 0, None)
  }

  function Exec(start: Place, run: Run): Player {
    match run
    case Start => Joined(start)
    case Then(before, step) => After(Exec(start, before), step)
  }

  /** Where the server last centred the player's chunks: the calculator, or before its first batch the login. */
  function Centred(start: Place, p: Player): Place {
    if p.last.Some? then p.last.value else start
  }

  lemma {:induction false} TriggersAccumulate(start: Place, run: Run)
    ensures var p := Exec(start, run); p.messages == 0 ==> TriggerChunk(p.at) == TriggerChunk(Centred(start, p))
  {
    hide TriggerChunk;
    if run.Then? {
      TriggersAccumulate(start, run.before);
    }
  }

  predicate SameStrips(p: Place, q: Place) {
    (InStrip(p.x) <==> InStrip(q.x)) && (InStrip(p.z) <==> InStrip(q.z))
  }

  /** Places the trigger does not tell apart are at most one chunk apart for the sender, and in the same chunk exactly
      when they are in strips alike. */
  lemma SameTrigger(p: Place, q: Place)
    requires TriggerChunk(p) == TriggerChunk(q)
    ensures Distance(SenderChunk(p), SenderChunk(q)) <= 1
    ensures SenderChunk(p) == SenderChunk(q) <==> SameStrips(p, q)
  {
    TriggerExactly(p.x);
    TriggerExactly(p.z);
    TriggerExactly(q.x);
    TriggerExactly(q.z);
    hide TriggerAxis, SenderAxis, InStrip;
  }

  /** MOVING, exactly.  After any packets and teleports, with no message unread, the sender's chunk is at most one away
      from that of the place the calculator last saw (the login's place before its first batch), and the same exactly
      when the player is inside or outside the strips as it was there. */
  lemma {:induction false} SenderFollowsCalculator(start: Place, run: Run)
    requires Exec(start, run).messages == 0
    ensures var p := Exec(start, run);
            && Distance(SenderChunk(p.at), SenderChunk(Centred(start, p))) <= 1
            && (SenderChunk(p.at) == SenderChunk(Centred(start, p)) <==> SameStrips(p.at, Centred(start, p)))
  {
    hide TriggerChunk, SenderChunk, SameStrips;
    TriggersAccumulate(start, run);
    var p := Exec(start, run);
    SameTrigger(p.at, Centred(start, p));
  }

  /** After a teleport nothing the client sends moves the player until it confirms, the calculator still has a message
      to read, and what it then reads is the place teleported to. */
  lemma TeleportHolds(p: Player, to: Place, steps: seq<Step>)
    requires forall s :: s in steps ==> s.SetPosition?
    ensures var held := AfterAll(After(p, Teleport(to)), steps);
            && held.at == to && held.messages > 0
            && After(held, Calculate).last == Some(to) && After(held, Calculate).messages == 0
            && forall next :: After(After(held, Confirm), SetPosition(next)).at == next
  {
    HeldStays(p, to, steps);
  }

  lemma {:induction false} HeldStays(p: Player, to: Place, steps: seq<Step>)
    requires forall s :: s in steps ==> s.SetPosition?
    ensures AfterAll(After(p, Teleport(to)), steps) == After(p, Teleport(to))
  {
    if steps != [] {
      assert steps[|steps| - 1] in steps;
      HeldStays(p, to, steps[..|steps| - 1]);
    }
  }

  function AfterAll(p: Player, steps: seq<Step>): Player {
    if steps == [] then p else After(AfterAll(p, steps[..|steps| - 1]), steps[|steps| - 1])
  }

  /** A step from chunk -1 to chunk -2 that writes no message: both places truncate into the same chunk. */
  lemma MissedCrossing()
    ensures var p, q := Place(-15.5, 0.0), Place(-16.5, 0.0);
            && After(Joined(p), SetPosition(q)) == Joined(q) == After(Joined(q), Calculate)
            && SenderChunk(p) == Coord(-1, 0) && SenderChunk(q) == Coord(-2, 0)
  {
    TriggerExactly(-15.5);
    TriggerExactly(-16.5);
    assert (-15.5).Floor == -16 && (-16.5).Floor == -17;
  }

  /** The position and the teleport tracker of a player, with its unread messages. */
  class Mover {
    var at: Place
    var waitingForConfirm: bool
    var messages: nat
    ghost var last: Option<Place>
    ghost const start: Place
    ghost var run: Run

    ghost function Snapshot(): Player
      reads this
    {
      Player(at, waitingForConfirm, messages, last)
    }

    ghost predicate Valid()
      reads this
    {
      Snapshot() == Exec(start, run)
    }

    constructor (at: Place)
      ensures Valid() && Snapshot() == Joined(at) && start == at
    {
      this.at, waitingForConfirm, messages, last := at, false, 0, None;
      start, run := at, Start;
    }

    /** A position packet of the client. */
    method SetPlayerPosition(to: Place)
      requires Valid()
      modifies this
      ensures Valid() && run == Then(old(run), SetPosition(to))
      ensures Snapshot() == After(old(Snapshot()), SetPosition(to))
    {
      run := Then(run, SetPosition(to));
      if waitingForConfirm {
        return;
      }
      var oldChunk, newChunk := TriggerChunk(at), TriggerChunk(to);
      if oldChunk != newChunk {
        messages := messages + 1;
      }
      at := to;
    }

    method TeleportPlayer(to: Place)
      requires Valid()
      modifies this
      ensures Valid() && run == Then(old(run), Teleport(to))
      ensures Snapshot() == After(old(Snapshot()), Teleport(to))
    {
      run := Then(run, Teleport(to));
      waitingForConfirm := true;
      at := to;
      messages := messages + 1;
    }

    method ConfirmTeleport()
      requires Valid()
      modifies this
      ensures Valid() && run == Then(old(run), Confirm)
      ensures Snapshot() == After(old(Snapshot()), Confirm)
    {
      run := Then(run, Confirm);
      waitingForConfirm := false;
    }

    /** The calculator has read all messages there were. */
    method ReadAll()
      requires Valid()
      modifies this
      ensures Valid() && run == Then(old(run), Calculate) && at == old(at)
      ensures Snapshot() == After(old(Snapshot()), Calculate)
    {
      run := Then(run, Calculate);
      if messages > 0 {
        messages, last := 0, Some(at);
      }
    }
  }
}
