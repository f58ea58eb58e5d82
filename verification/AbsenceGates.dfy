/**
 Children without typed ownership may be closed because ComfyUI no longer knows
 their prompt. Three readers decide that, each by a fixed order of queue and
 history requests, while the prompt may move at any time between two requests.
 */
module AbsenceGates {

  /** `InTransit` is a POST whose `queue.put` has not happened yet. */
  datatype Place = InTransit | InQueue | InHistory | Removed

  /** The prompt enters the queue once, leaves it into history or by removal, and history is kept. */
  predicate Moves(p: Place, q: Place) {
    || p == q
    || (p.InTransit? && q.InQueue?)
    || (p.InQueue? && (q.InHistory? || q.Removed?))
  }

  /**
   The gate waits with history-then-queue polls and a counter; the batch reader
   takes one queue snapshot and then an exact history; the single-prompt reader
   surrounds its queue snapshot with two exact histories.
   */
  datatype Reader =
    | Gate(historyAbsent: bool, absences: nat)
    | Batch(offQueue: bool)
    | Single(historyAbsent: bool, offQueue: bool)

  datatype Phase = Reading | Found | ConcludedRemoved

  datatype System = System(place: Place, reader: Reader, phase: Phase)

  /** A request may fail or return a malformed body; the readers draw no conclusion from it. */
  datatype Event =
    | Environment(to: Place)
    | History(answered: bool)
    | Queue(answered: bool)
    | OwnershipMark

  function Absences(r: Reader): nat {
    if r.Gate? then r.absences else 0
  }

  /** An exact history read by the reader. */
  function ReadHistory(s: System): System {
    if s.place.InHistory? then s.(phase := Found) else
      match s.reader
      case Gate(_, n) => s.(reader := Gate(true, n))
      case Batch(off) => if off then s.(phase := ConcludedRemoved) else s
      case Single(_, off) =>
        if off then s.(phase := ConcludedRemoved) else s.(reader := Single(true, false))
  }

  /** A complete queue snapshot read by the reader. */
  function ReadQueue(s: System): System {
    var visible := s.place.InQueue?;
    match s.reader
    case Gate(absent, n) =>
      if visible then s.(reader := Gate(false, 0))
      else if !absent then s
      else if n + 1 >= 2 then s.(phase := ConcludedRemoved)
      else s.(reader := Gate(false, n + 1))
    case Batch(_) => s.(reader := Batch(!visible))
    case Single(absent, _) =>
      if !absent then s
      else if visible then s.(reader := Single(false, false))
      else s.(reader := Single(true, true))
  }

  function Next(s: System, e: Event): System {
    if !s.phase.Reading? then
      if e.Environment? && Moves(s.place, e.to) then s.(place := e.to) else s
    else
      match e
      case Environment(to) => if Moves(s.place, to) then s.(place := to) else s
      case History(answered) => if answered then ReadHistory(s) else Forget(s)
      case Queue(answered) => if answered then ReadQueue(s) else Forget(s)
      case OwnershipMark => Forget(s)
  }

  /** A failed read, or a row still owned by a live submission, ends the attempt. */
  function Forget(s: System): System {
    match s.reader
    case Gate(_, _) => s.(reader := Gate(false, 0))
    case Batch(_) => s.(reader := Batch(false))
    case Single(_, _) => s.(reader := Single(false, false))
  }

  function Run(s: System, events: seq<Event>): System
    decreases |events|
  {
    if events == [] then s else Run(Next(s, events[0]), events[1..])
  }

  predicate Starts(s: System) {
    && s.phase.Reading?
    && (s.reader == Gate(false, 0) || s.reader == Batch(false) || s.reader == Single(false, false))
  }

  /** What one completed absence does establish: the prompt has left the queue for good. */
  predicate Inv(s: System) {
    && !s.place.InTransit?
    && (s.reader.Gate? && s.reader.absences >= 1 ==>
          !s.place.InQueue? && s.reader.absences == 1
          && (s.reader.historyAbsent && s.phase.Reading? ==> s.place.Removed?))
    && (s.reader.Batch? && s.reader.offQueue ==> !s.place.InQueue?)
    && (s.reader.Single? && s.reader.offQueue ==> !s.place.InQueue?)
    && (s.phase.ConcludedRemoved? ==> s.place.Removed?)
  }

  lemma NextKeeps(s: System, e: Event)
    requires Inv(s)
    ensures Inv(Next(s, e))
  {
  }

  lemma {:induction false} RunKeeps(s: System, events: seq<Event>)
    requires Inv(s)
    ensures Inv(Run(s, events))
    decreases |events|
  {
    if events != [] {
      NextKeeps(s, events[0]);
      RunKeeps(Next(s, events[0]), events[1..]);
    }
  }

  /**
   Absence is classified soundly once the POST has returned: whichever reader
   concludes that the prompt was removed, it really is, and not on its way from the
   queue to history.
   */
  lemma AbsenceIsSound(s: System, events: seq<Event>)
    requires Starts(s) && !s.place.InTransit?
    ensures Run(s, events).phase.ConcludedRemoved? ==> Run(s, events).place.Removed?
  {
    RunKeeps(s, events);
  }

  /** One history-then-queue absence alone would misread a prompt moving between them. */
  lemma OneAbsenceIsNotEnough()
    ensures var s := System(InQueue, Gate(false, 0), Reading);
            var t := Run(s, [History(true), Environment(InHistory), Queue(true)]);
            Absences(t.reader) == 1 && t.place.InHistory?
  {
    var s := System(InQueue, Gate(false, 0), Reading);
    var e := [History(true), Environment(InHistory), Queue(true)];
    assert e[1..] == [Environment(InHistory), Queue(true)];
    assert e[1..][1..] == [Queue(true)];
    assert e[1..][1..][1..] == [];
    assert Run(s, e) == Run(Next(Next(Next(s, e[0]), e[1]), e[2]), []);
  }

  /** Before the POST has returned, no number of absences means anything. */
  lemma InTransitDefeatsEveryReader(reader: Reader)
    requires Starts(System(InTransit, reader, Reading))
    ensures exists events :: Run(System(InTransit, reader, Reading), events).phase.ConcludedRemoved?
                             && Run(System(InTransit, reader, Reading), events).place.InQueue?
  {
    var s := System(InTransit, reader, Reading);
    var polls := [History(true), Queue(true), History(true), Queue(true), History(true), Environment(InQueue)];
    assert polls[1..] == [Queue(true), History(true), Queue(true), History(true), Environment(InQueue)];
    assert polls[2..] == [History(true), Queue(true), History(true), Environment(InQueue)];
    assert polls[3..] == [Queue(true), History(true), Environment(InQueue)];
    assert polls[4..] == [History(true), Environment(InQueue)];
    assert polls[5..] == [Environment(InQueue)];
    var s1 := Next(s, polls[0]);
    var s2 := Next(s1, polls[1]);
    var s3 := Next(s2, polls[2]);
    var s4 := Next(s3, polls[3]);
    var s5 := Next(s4, polls[4]);
    assert Run(s5, polls[5..]) == Next(s5, polls[5]);
    assert Run(s4, polls[4..]) == Run(s5, polls[5..]);
    assert Run(s3, polls[3..]) == Run(s4, polls[4..]);
    assert Run(s2, polls[2..]) == Run(s3, polls[3..]);
    assert Run(s1, polls[1..]) == Run(s2, polls[2..]);
    assert Run(s, polls) == Run(s1, polls[1..]);
  }

  /** A poll of the waiting gate, and the requests of the other two readers. */
  function Poll(s: System): System {
    Next(Next(s, History(true)), Queue(true))
  }

  /**
   A prompt that really was removed is recognised, by each reader after exactly the
   requests it insists on: two full polls, a queue snapshot and a history, or a queue
   snapshot between two histories. With one request less nothing is concluded.
   */
  lemma RemovalIsRecognised(s: System)
    requires Starts(s) && s.place.Removed?
    ensures s.reader.Gate? ==>
              Next(Poll(s), History(true)).phase.Reading? && Poll(Poll(s)).phase.ConcludedRemoved?
    ensures s.reader.Batch? ==>
              Next(s, Queue(true)).phase.Reading? && Next(Next(s, Queue(true)), History(true)).phase.ConcludedRemoved?
    ensures s.reader.Single? ==>
              Poll(s).phase.Reading? && Poll(s).reader.historyAbsent && Next(Poll(s), History(true)).phase.ConcludedRemoved?
  {
  }

  /** A finished prompt is found by the first exact history, whatever was read before. */
  lemma HistoryIsFound(s: System)
    requires s.phase.Reading? && s.place.InHistory?
    ensures Next(s, History(true)).phase.Found?
  {
  }

  predicate SameKind(r: Reader, q: Reader) {
    (r.Gate? <==> q.Gate?) && (r.Batch? <==> q.Batch?)
  }

  /** A queue snapshot says nothing to the gate, nor to the single reader, unless a history was read before it. */
  lemma QueueAloneSaysNothing(s: System)
    requires Starts(s) && !s.reader.Batch?
    ensures Next(s, Queue(true)) == s
  {
  }

  /** A visible prompt, a failed request and an ownership mark all make the reader start again. */
  lemma DoubtStartsAgain(s: System, e: Event)
    requires s.phase.Reading? && (s.reader.Single? && s.reader.offQueue ==> s.reader.historyAbsent)
    requires e == History(false) || e == Queue(false) || e == OwnershipMark || (e == Queue(true) && s.place.InQueue?)
    ensures Starts(Next(s, e)) && Next(s, e).place == s.place
    ensures SameKind(s.reader, Next(s, e).reader)
  {
  }

  /** What was concluded stays concluded, and the prompt goes its own way meanwhile. */
  lemma ConclusionsStand(s: System, e: Event)
    requires !s.phase.Reading?
    ensures Next(s, e).phase == s.phase && Next(s, e).reader == s.reader
    ensures Moves(s.place, Next(s, e).place)
  {
  }
}
