/**
 The byte tunnel: one pump per direction, half-close on a clean end, and an abort signal that drops both
 directions when either breaks. Each pump is followed from one await point to the next.
 */
module TunnelRelay {
  import opened Sequences

  const PUMP_BUFFER := 16 * 1024

  // ---------------------------------------------------------------- one pump

  datatype Pc = Reading | Writing(chunk: string) | ShuttingDown | Done

  /** One direction: where it is, what it has read from its source, what the other end has received. */
  datatype Pump = Pump(pc: Pc, read: string, delivered: string, fin: bool)

  const IDLE := Pump(Reading, "", "", false)

  datatype Event =
    | Abort
    | Read(chunk: string)
    | Eof
    | ReadError
    | Wrote
    | WriteError(written: nat)
    | Shut(ok: bool)

  /** What may happen to a pump next. The abort signal is looked at before the read. */
  predicate Enabled(p: Pump, permit: bool, sent: string, e: Event) {
    match e
    case Abort => p.pc.Reading? && permit
    case Read(chunk) => p.pc.Reading? && !permit && 0 < |chunk| <= PUMP_BUFFER && p.read + chunk <= sent
    case Eof => p.pc.Reading? && !permit && p.read == sent
    case ReadError => p.pc.Reading? && !permit
    case Wrote => p.pc.Writing?
    case WriteError(written) => p.pc.Writing? && written <= |p.pc.chunk|
    case Shut(_) => p.pc.ShuttingDown?
  }

  predicate Breaks(e: Event) {
    e.ReadError? || e.WriteError?
  }

  function Resumed(p: Pump, e: Event): Pump
    requires e.Wrote? || e.WriteError? ==> p.pc.Writing?
    requires e.WriteError? ==> e.written <= |p.pc.chunk|
  {
    match e
    case Abort => p.(pc := Done)
    case Read(chunk) => p.(pc := Writing(chunk), read := p.read + chunk)
    case Eof => p.(pc := ShuttingDown)
    case ReadError => p.(pc := Done)
    case Wrote => p.(pc := Reading, delivered := p.delivered + p.pc.chunk)
    case WriteError(written) => p.(pc := Done, delivered := p.delivered + p.pc.chunk[..written])
    case Shut(ok) => p.(pc := Done, fin := ok)
  }

  function PermitAfter(permit: bool, e: Event): bool {
    if Breaks(e) then true else if e.Abort? then false else permit
  }

  // ---------------------------------------------------------------- the two pumps together

  datatype Side = Up | Down

  /** What each end sends through the tunnel before it ends. */
  datatype Sent = Sent(up: string, down: string) {
    function By(side: Side): string { if side.Up? then up else down }
  }

  datatype Tunnel = Tunnel(up: Pump, down: Pump, permit: bool) {
    function Of(side: Side): Pump { if side.Up? then up else down }
    predicate Over() { up.pc.Done? && down.pc.Done? }
  }

  const OPEN := Tunnel(IDLE, IDLE, false)

  datatype Step = Step(side: Side, event: Event)

  function Other(side: Side): Side { if side.Up? then Down else Up }

  predicate Possible(sent: Sent, t: Tunnel, s: Step) {
    Enabled(t.Of(s.side), t.permit, sent.By(s.side), s.event)
  }

  function Apply(sent: Sent, t: Tunnel, s: Step): Tunnel
    requires Possible(sent, t, s)
  {
    var p := Resumed(t.Of(s.side), s.event);
    if s.side.Up? then Tunnel(p, t.down, PermitAfter(t.permit, s.event)) else Tunnel(t.up, p, PermitAfter(t.permit, s.event))
  }

  predicate Run(sent: Sent, t: Tunnel, steps: seq<Step>)
    decreases |steps|
  {
    steps == [] || (Possible(sent, t, steps[0]) && Run(sent, Apply(sent, t, steps[0]), steps[1..]))
  }

  function After(sent: Sent, t: Tunnel, steps: seq<Step>): Tunnel
    requires Run(sent, t, steps)
    decreases |steps|
  {
    if steps == [] then t else After(sent, Apply(sent, t, steps[0]), steps[1..])
  }

  // ---------------------------------------------------------------- what every run keeps

  /** Nothing is lost, duplicated or reordered, and a FIN follows only the complete stream. */
  predicate Faithful(p: Pump, sent: string) {
    && p.read <= sent
    && p.delivered <= p.read
    && (p.pc.Reading? ==> p.delivered == p.read)
    && (p.pc.Writing? ==> p.pc.chunk != "" && p.read == p.delivered + p.pc.chunk)
    && (p.pc.ShuttingDown? || p.fin ==> p.delivered == sent)
    && (p.fin ==> p.pc.Done?)
  }

  function Work(p: Pump, sent: string): int {
    2 * (|sent| - |p.read|) + match p.pc case Writing(_) => 3 case Reading => 2 case ShuttingDown => 1 case Done => 0
  }

  lemma FaithfulKept(p: Pump, permit: bool, sent: string, e: Event)
    requires Faithful(p, sent) && Enabled(p, permit, sent, e)
    ensures Faithful(Resumed(p, e), sent)
    ensures 0 <= Work(Resumed(p, e), sent) < Work(p, sent)
  {}

  predicate Sound(sent: Sent, t: Tunnel) {
    Faithful(t.up, sent.up) && Faithful(t.down, sent.down)
  }

  function ToDo(sent: Sent, t: Tunnel): int {
    Work(t.up, sent.up) + Work(t.down, sent.down)
  }

  lemma SoundKept(sent: Sent, t: Tunnel, s: Step)
    requires Sound(sent, t) && Possible(sent, t, s)
    ensures Sound(sent, Apply(sent, t, s)) && 0 <= ToDo(sent, Apply(sent, t, s)) < ToDo(sent, t)
  {
    FaithfulKept(t.Of(s.side), t.permit, sent.By(s.side), s.event);
  }

  lemma {:induction false} SoundAfter(sent: Sent, t: Tunnel, steps: seq<Step>)
    requires Sound(sent, t) && Run(sent, t, steps)
    ensures Sound(sent, After(sent, t, steps)) && |steps| <= ToDo(sent, t)
    decreases |steps|
  {
    hide Possible, Sound, Apply, ToDo;
    if steps == [] {
      ToDoIsNat(sent, t);
    } else {
      SoundKept(sent, t, steps[0]);
      SoundAfter(sent, Apply(sent, t, steps[0]), steps[1..]);
    }
  }

  lemma ToDoIsNat(sent: Sent, t: Tunnel)
    requires Sound(sent, t)
    ensures ToDo(sent, t) >= 0
  {}

  /**
   Under every interleaving: each end receives a prefix of what its peer sent, is shown the end of the
   stream only after all of it, and the tunnel takes a bounded number of steps.
   */
  lemma EachSideReceivesPrefix(sent: Sent, steps: seq<Step>)
    requires Run(sent, OPEN, steps)
    ensures var t := After(sent, OPEN, steps);
            forall side :: t.Of(side).delivered <= sent.By(side) && (t.Of(side).fin ==> t.Of(side).delivered == sent.By(side))
    ensures |steps| <= 2 * (|sent.up| + |sent.down|) + 4
  {
    SoundAfter(sent, OPEN, steps);
    var t := After(sent, OPEN, steps);
    forall side ensures Faithful(t.Of(side), sent.By(side)) {}
  }

  // ---------------------------------------------------------------- without errors

  predicate Fails(e: Event) {
    Breaks(e) || e == Shut(false)
  }

  /** While nothing has failed there is no permit, and a finished direction has shown its end. */
  predicate Unbroken(t: Tunnel) {
    !t.permit && (t.up.pc.Done? ==> t.up.fin) && (t.down.pc.Done? ==> t.down.fin)
  }

  lemma {:induction false} UnbrokenAfter(sent: Sent, t: Tunnel, steps: seq<Step>)
    requires Unbroken(t) && Run(sent, t, steps) && forall k :: 0 <= k < |steps| ==> !Fails(steps[k].event)
    ensures Unbroken(After(sent, t, steps))
    decreases |steps|
  {
    if steps != [] {
      assert forall k :: 0 <= k < |steps[1..]| ==> steps[1..][k] == steps[k + 1];
      UnbrokenAfter(sent, Apply(sent, t, steps[0]), steps[1..]);
    }
  }

  /** Without an error both ends receive everything and then the end of the stream, whichever direction ended first. */
  lemma CleanTunnelDeliversAll(sent: Sent, steps: seq<Step>)
    requires Run(sent, OPEN, steps) && After(sent, OPEN, steps).Over()
    requires forall k :: 0 <= k < |steps| ==> !Fails(steps[k].event)
    ensures var t := After(sent, OPEN, steps);
            forall side :: t.Of(side).delivered == sent.By(side) && t.Of(side).fin
  {
    hide Run, Possible, Enabled;
    UnbrokenAfter(sent, OPEN, steps);
    EachSideReceivesPrefix(sent, steps);
    var t := After(sent, OPEN, steps);
    forall side ensures t.Of(side).fin {}
  }

  // ---------------------------------------------------------------- after an error

  predicate InLoop(p: Pump) {
    p.pc.Reading? || p.pc.Writing?
  }

  /** The state an error leaves: its own pump is done, and the other one, if still copying, has the signal waiting. */
  predicate Signalled(t: Tunnel, broken: Side) {
    t.Of(broken).pc.Done? && (InLoop(t.Of(Other(broken))) ==> t.permit)
  }

  lemma {:induction false} OnlyFinishesWrite(sent: Sent, t: Tunnel, broken: Side, steps: seq<Step>)
    requires Signalled(t, broken) && InLoop(t.Of(Other(broken))) && Run(sent, t, steps)
    ensures |steps| <= if t.Of(Other(broken)).pc.Reading? then 1 else 2
    ensures forall k :: 0 <= k < |steps| ==>
      steps[k].side == Other(broken) && (steps[k].event.Wrote? || steps[k].event.WriteError? || steps[k].event.Abort?)
    ensures After(sent, t, steps).Of(Other(broken)).fin == t.Of(Other(broken)).fin
    decreases |steps|
  {
    if steps != [] {
      var t', rest := Apply(sent, t, steps[0]), steps[1..];
      assert steps == [steps[0]] + rest && steps[0].side == Other(broken);
      if InLoop(t'.Of(Other(broken))) {
        OnlyFinishesWrite(sent, t', broken, rest);
      } else {
        NothingAfterTheEnd(sent, t', rest);
      }
    }
  }

  lemma NothingAfterTheEnd(sent: Sent, t: Tunnel, steps: seq<Step>)
    requires t.Over() && Run(sent, t, steps)
    ensures steps == []
  {}

  lemma {:induction false} SplitRun(sent: Sent, t: Tunnel, a: seq<Step>, b: seq<Step>)
    requires Run(sent, t, a + b)
    ensures Run(sent, t, a) && Run(sent, After(sent, t, a), b)
    ensures After(sent, t, a + b) == After(sent, After(sent, t, a), b)
    decreases |a|
  {
    hide Possible, Apply;
    if a == [] {
      assert a + b == b;
    } else {
      assert (a + b)[1..] == a[1..] + b;
      SplitRun(sent, Apply(sent, t, a[0]), a[1..], b);
    }
  }

  /**
   After a read or write error in one direction, the other pump, if it is still copying, makes no further
   read and no half-close: it finishes the write it is in, if any, and the tunnel is over.
   */
  lemma ErrorDropsBothSides(sent: Sent, steps: seq<Step>, k: nat)
    requires Run(sent, OPEN, steps) && k < |steps| && Breaks(steps[k].event)
    requires Run(sent, OPEN, steps[..k]) && InLoop(After(sent, OPEN, steps[..k]).Of(Other(steps[k].side)))
    ensures |steps| <= k + 3
    ensures forall j :: k < j < |steps| ==>
      steps[j].side == Other(steps[k].side) && (steps[j].event.Wrote? || steps[j].event.WriteError? || steps[j].event.Abort?)
    ensures !After(sent, OPEN, steps).Of(Other(steps[k].side)).fin
  {
    hide Possible, Enabled, InLoop;
    var broken := steps[k].side;
    var a, b := steps[..k], steps[k + 1..];
    assert steps == a + ([steps[k]] + b);
    SplitRun(sent, OPEN, a, [steps[k]] + b);
    var t := After(sent, OPEN, a);
    SoundAfter(sent, OPEN, a);
    NoFinInLoop(sent, t, Other(broken));
    assert ([steps[k]] + b)[1..] == b;
    var t' := Apply(sent, t, steps[k]);
    assert Run(sent, t', b) && After(sent, OPEN, steps) == After(sent, t', b);
    BreakSignals(sent, t, steps[k]);
    OnlyFinishesWrite(sent, t', broken, b);
    assert forall j :: k < j < |steps| ==> steps[j] == b[j - k - 1];
  }

  lemma NoFinInLoop(sent: Sent, t: Tunnel, side: Side)
    requires Sound(sent, t) && InLoop(t.Of(side))
    ensures !t.Of(side).fin
  {}

  lemma BreakSignals(sent: Sent, t: Tunnel, s: Step)
    requires Possible(sent, t, s) && Breaks(s.event)
    ensures Signalled(Apply(sent, t, s), s.side) && Apply(sent, t, s).Of(Other(s.side)) == t.Of(Other(s.side))
  {}

  lemma AbortIsBetweenChunks(sent: Sent, t: Tunnel, s: Step)
    requires Sound(sent, t) && Possible(sent, t, s) && s.event.Abort?
    ensures Apply(sent, t, s).Of(s.side).delivered == Apply(sent, t, s).Of(s.side).read
    ensures Apply(sent, t, s).Of(s.side).pc.Done?
  {}

  /** A pump that is told to stop has passed on everything it had read. */
  lemma AbortLosesNothing(sent: Sent, steps: seq<Step>, k: nat)
    requires Run(sent, OPEN, steps) && k < |steps| && steps[k].event.Abort?
    ensures var p := After(sent, OPEN, steps).Of(steps[k].side); p.pc.Done? && p.delivered == p.read
  {
    hide Run, After, Possible, Enabled, Apply, Sound;
    var s := steps[k];
    assert steps == steps[..k] + ([s] + steps[k + 1..]);
    SplitRun(sent, OPEN, steps[..k], [s] + steps[k + 1..]);
    var t := After(sent, OPEN, steps[..k]);
    AtStart(sent);
    SoundAfter(sent, OPEN, steps[..k]);
    FirstStep(sent, t, s, steps[k + 1..]);
    AbortIsBetweenChunks(sent, t, s);
    DoneStays(sent, Apply(sent, t, s), s.side, steps[k + 1..]);
  }

  lemma FirstStep(sent: Sent, t: Tunnel, s: Step, rest: seq<Step>)
    requires Run(sent, t, [s] + rest)
    ensures Possible(sent, t, s) && Run(sent, Apply(sent, t, s), rest)
    ensures After(sent, t, [s] + rest) == After(sent, Apply(sent, t, s), rest)
  {
    hide Possible, Apply;
    assert ([s] + rest)[1..] == rest;
  }

  /**
   What can happen to a pump: while it waits for bytes, the next bytes in any pieces of at most 16 KiB, their
   end, or an error - or the abort signal, and then nothing else; while it writes, success or an error after
   any part of the chunk; at the end, a half-close that succeeds or fails.
   */
  lemma EventsOfPump(p: Pump, permit: bool, sent: string, e: Event)
    ensures p.pc.Done? ==> !Enabled(p, permit, sent, e)
    ensures p.pc.Reading? && permit ==> (Enabled(p, permit, sent, e) <==> e == Abort)
    ensures p.pc.Reading? && !permit ==>
              (Enabled(p, permit, sent, e) <==>
                 || (e.Read? && 1 <= |e.chunk| <= 16_384 && p.read + e.chunk <= sent)
                 || (e == Eof && p.read == sent) || e == ReadError)
    ensures p.pc.Writing? ==> (Enabled(p, permit, sent, e) <==> e == Wrote || (e.WriteError? && e.written <= |p.pc.chunk|))
    ensures p.pc.ShuttingDown? ==> (Enabled(p, permit, sent, e) <==> e.Shut?)
  {}

  /** The direction that broke shows no end of stream to its receiver. */
  lemma BrokenSideShowsNoEnd(sent: Sent, t: Tunnel, s: Step, steps: seq<Step>)
    requires Sound(sent, t) && Possible(sent, t, s) && Breaks(s.event) && Run(sent, Apply(sent, t, s), steps)
    ensures !After(sent, Apply(sent, t, s), steps).Of(s.side).fin
  {
    hide Run, After, Possible, Enabled, Apply, Sound;
    var t' := Apply(sent, t, s);
    assert t'.Of(s.side).pc.Done? && !t'.Of(s.side).fin by { BreakEnds(sent, t, s); }
    DoneStays(sent, t', s.side, steps);
  }

  lemma BreakEnds(sent: Sent, t: Tunnel, s: Step)
    requires Sound(sent, t) && Possible(sent, t, s) && Breaks(s.event)
    ensures Apply(sent, t, s).Of(s.side).pc.Done? && !Apply(sent, t, s).Of(s.side).fin
  {}

  lemma {:induction false} DoneStays(sent: Sent, t: Tunnel, side: Side, steps: seq<Step>)
    requires t.Of(side).pc.Done? && Run(sent, t, steps)
    ensures After(sent, t, steps).Of(side) == t.Of(side)
    decreases |steps|
  {
    if steps != [] {
      assert steps[0].side == Other(side);
      DoneStays(sent, Apply(sent, t, steps[0]), side, steps[1..]);
    }
  }

  // ---------------------------------------------------------------- the tasks

  class Notify {
    var permit: bool

    constructor ()
      ensures !permit
    {
      permit := false;
    }

    method NotifyOne()
      modifies this
      ensures permit
    {
      permit := true;
    }
  }

  /** One pump as a task that is resumed by the event it was waiting for. */
  class PumpTask {
    var pc: Pc
    var read: string
    var delivered: string
    var fin: bool

    constructor ()
      ensures State() == IDLE
    {
      pc, read, delivered, fin := Reading, "", "", false;
    }

    function State(): Pump
      reads this
    {
      Pump(pc, read, delivered, fin)
    }

    method Resume(e: Event, sent: string, abort: Notify)
      requires Enabled(State(), abort.permit, sent, e)
      modifies this, abort
      ensures State() == Resumed(old(State()), e)
      ensures abort.permit == PermitAfter(old(abort.permit), e)
    {
      match e {
        case Abort =>
          abort.permit := false;
          pc := Done;
        case Read(chunk) =>
          read := read + chunk;
          pc := Writing(chunk);
        case Eof =>
          pc := ShuttingDown;
        case ReadError =>
          abort.NotifyOne();
          pc := Done;
        case Wrote =>
          delivered := delivered + pc.chunk;
          pc := Reading;
        case WriteError(written) =>
          delivered := delivered + pc.chunk[..written];
          abort.NotifyOne();
          pc := Done;
        case Shut(ok) =>
          fin := ok;
          pc := Done;
      }
    }
  }

  /** What happens next, given what has happened: any event a pump may be resumed by. */
  ghost predicate Schedules(sent: Sent, nextStep: seq<Step> -> Step) {
    forall steps :: Run(sent, OPEN, steps) && !After(sent, OPEN, steps).Over()
      ==> Possible(sent, After(sent, OPEN, steps), nextStep(steps))
  }

  lemma {:induction false} OneMore(sent: Sent, t: Tunnel, steps: seq<Step>, s: Step)
    requires Run(sent, t, steps) && Possible(sent, After(sent, t, steps), s)
    ensures Run(sent, t, steps + [s]) && After(sent, t, steps + [s]) == Apply(sent, After(sent, t, steps), s)
    decreases |steps|
  {
    hide Possible, Apply;
    if steps == [] {
      assert steps + [s] == [s] && [s][1..] == [];
    } else {
      assert (steps + [s])[1..] == steps[1..] + [s];
      OneMore(sent, Apply(sent, t, steps[0]), steps[1..], s);
    }
  }

  /** Both pumps joined, under any schedule: the run they make is the schedule's, and it ends. */
  method Relay(sent: Sent, nextStep: seq<Step> -> Step)
    returns (steps: seq<Step>, delivered: Sent, upFin: bool, downFin: bool)
    requires Schedules(sent, nextStep)
    ensures forall k :: 0 <= k < |steps| ==> steps[k] == nextStep(steps[..k])
    ensures Run(sent, OPEN, steps) && After(sent, OPEN, steps).Over()
    ensures var t := After(sent, OPEN, steps);
            delivered == Sent(t.up.delivered, t.down.delivered) && upFin == t.up.fin && downFin == t.down.fin
  {
    hide Run, After, Apply, Possible, Enabled, Resumed, PermitAfter, ToDo, Sound;
    var abort := new Notify();
    var up := new PumpTask();
    var down := new PumpTask();
    steps := [];
    ghost var t := OPEN;
    AtStart(sent);
    while !(up.pc.Done? && down.pc.Done?)
      invariant fresh(abort) && fresh(up) && fresh(down) && up != down
      invariant t == Tunnel(up.State(), down.State(), abort.permit)
      invariant Run(sent, OPEN, steps) && t == After(sent, OPEN, steps)
      invariant Sound(sent, t)
      invariant forall k :: 0 <= k < |steps| ==> steps[k] == nextStep(steps[..k])
      decreases ToDo(sent, t)
    {
      var step := nextStep(steps);
      assert Possible(sent, t, step);
      OneMore(sent, OPEN, steps, step);
      SoundKept(sent, t, step);
      History(steps, step);
      StepIs(sent, t, step);
      if step.side == Up {
        up.Resume(step.event, sent.up, abort);
      } else {
        down.Resume(step.event, sent.down, abort);
      }
      steps := steps + [step];
      t := Apply(sent, t, step);
    }
    delivered, upFin, downFin := Sent(up.delivered, down.delivered), up.fin, down.fin;
  }

  lemma AtStart(sent: Sent)
    ensures Run(sent, OPEN, []) && After(sent, OPEN, []) == OPEN && Sound(sent, OPEN)
  {}

  lemma StepIs(sent: Sent, t: Tunnel, s: Step)
    requires Possible(sent, t, s)
    ensures Enabled(t.Of(s.side), t.permit, sent.By(s.side), s.event)
    ensures var p, permit := Resumed(t.Of(s.side), s.event), PermitAfter(t.permit, s.event);
            Apply(sent, t, s) == if s.side.Up? then Tunnel(p, t.down, permit) else Tunnel(t.up, p, permit)
  {}
}
