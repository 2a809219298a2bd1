/** The notification buffer and the routine that fills and drains it
    (modules/notifier/message_buffer.go, routines/notification/notification.go).

    Levels are logrus numbers: 0 panic, 1 fatal, 2 error, 3 warning, 4 info, 5 debug, 6 trace; a
    smaller number is more urgent. */
module Notifier {
  import opened Texts

  const INFO: nat := 4
  const DEBUG: nat := 5
  const TRACE: nat := 6

  // A record with its formatted line; CreateBodyLine never returns an empty one.
  datatype Event = Event(level: nat, job: string, line: string)

  datatype Buffer = Buffer(jobs: seq<string>, lines: seq<string>, lowest: nat, pass: nat)

  function Cleared(pass: nat): Buffer {
    Buffer([], [], TRACE, pass)
  }

  function PassLevel(maxLevel: nat): nat {
    if maxLevel < DEBUG then INFO else maxLevel
  }

  function Store(b: Buffer, e: Event): Buffer {
    if e.level > b.pass then b
    else
      Buffer(if e.job != "" && e.job !in b.jobs then b.jobs + [e.job] else b.jobs, b.lines + [e.line],
             if e.level < b.lowest then e.level else b.lowest, b.pass)
  }

  function Join(parts: seq<string>, sep: string): string {
    if parts == [] then ""
    else if |parts| == 1 then parts[0]
    else Join(parts[..|parts| - 1], sep) + sep + parts[|parts| - 1]
  }

  // Where the part with a number starts in a joined text.
  function Offset(parts: seq<string>, sep: string, i: nat): nat
    requires i <= |parts|
  {
    if i == 0 then 0 else Offset(parts, sep, i - 1) + |parts[i - 1]| + |sep|
  }

  // A text that is all of the parts, in order, with the separator between them and nothing else.
  ghost predicate LaidOut(text: string, parts: seq<string>, sep: string) {
    && (forall i :: 0 <= i < |parts| ==> OccursAt(text, parts[i], Offset(parts, sep, i)))
    && (forall i :: 0 <= i < |parts| - 1 ==> OccursAt(text, sep, Offset(parts, sep, i) + |parts[i]|))
    && |text| + |sep| == Offset(parts, sep, |parts|)
  }

  lemma {:induction false} SameOffset(parts: seq<string>, last: string, sep: string, i: nat)
    requires i <= |parts|
    ensures Offset(parts + [last], sep, i) == Offset(parts, sep, i)
  {
    if i > 0 {
      SameOffset(parts, last, sep, i - 1);
    }
  }

  lemma OccursInLonger(text: string, more: string, sub: string, at: nat)
    requires OccursAt(text, sub, at)
    ensures OccursAt(text + more, sub, at)
  {
    assert (text + more)[at..at + |sub|] == text[at..at + |sub|];
  }

  lemma {:induction false} JoinLaysOut(parts: seq<string>, sep: string)
    requires parts != []
    ensures LaidOut(Join(parts, sep), parts, sep)
  {
    var front, last := parts[..|parts| - 1], parts[|parts| - 1];
    assert parts == front + [last];
    SameOffset(front, last, sep, |front|);
    if front == [] {
      assert last[0..] == last;
    } else {
      JoinLaysOut(front, sep);
      LaidOutMore(Join(front, sep), front, last, sep);
      assert Join(parts, sep) == Join(front, sep) + sep + last;
    }
  }

  lemma LaidOutMore(text: string, front: seq<string>, last: string, sep: string)
    requires front != [] && LaidOut(text, front, sep)
    ensures LaidOut(text + sep + last, front + [last], sep)
  {
    hide LaidOut, Offset, OccursAt;
    var parts, whole := front + [last], text + sep + last;
    PartLaidOut(text, front, sep, |front| - 1);
    SameOffset(front, last, sep, |front|);
    OffsetStep(parts, sep, |front|);
    forall i | 0 <= i < |parts|
      ensures OccursAt(whole, parts[i], Offset(parts, sep, i))
    {
      PartMore(text, front, last, sep, i);
    }
    forall i | 0 <= i < |parts| - 1
      ensures OccursAt(whole, sep, Offset(parts, sep, i) + |parts[i]|)
    {
      SeparatorMore(text, front, last, sep, i);
    }
    LaidOutIf(whole, parts, sep);
  }

  lemma OffsetStep(parts: seq<string>, sep: string, i: nat)
    requires i < |parts|
    ensures Offset(parts, sep, i + 1) == Offset(parts, sep, i) + |parts[i]| + |sep|
  {
  }

  lemma OccursBetween(a: string, sub: string, b: string)
    ensures OccursAt(a + sub + b, sub, |a|)
  {
    assert (a + sub + b)[|a|..|a| + |sub|] == sub;
  }

  lemma PartMore(text: string, front: seq<string>, last: string, sep: string, i: nat)
    requires front != [] && LaidOut(text, front, sep) && i <= |front|
    ensures OccursAt(text + sep + last, (front + [last])[i], Offset(front + [last], sep, i))
  {
    hide LaidOut, Offset, OccursAt;
    SameOffset(front, last, sep, i);
    assert text + (sep + last) == text + sep + last;
    if i < |front| {
      PartLaidOut(text, front, sep, i);
      OccursInLonger(text, sep + last, front[i], Offset(front, sep, i));
    } else {
      PartLaidOut(text, front, sep, i - 1);
      OccursBetween(text + sep, last, "");
      assert text + sep + last + "" == text + sep + last;
    }
  }

  lemma SeparatorMore(text: string, front: seq<string>, last: string, sep: string, i: nat)
    requires front != [] && LaidOut(text, front, sep) && i < |front|
    ensures OccursAt(text + sep + last, sep, Offset(front + [last], sep, i) + |(front + [last])[i]|)
  {
    hide LaidOut, Offset, OccursAt;
    SameOffset(front, last, sep, i);
    PartLaidOut(text, front, sep, i);
    assert text + (sep + last) == text + sep + last;
    if i < |front| - 1 {
      OccursInLonger(text, sep + last, sep, Offset(front, sep, i) + |front[i]|);
    } else {
      OccursBetween(text, sep, last);
    }
  }

  lemma PartLaidOut(text: string, parts: seq<string>, sep: string, i: nat)
    requires LaidOut(text, parts, sep) && i < |parts|
    ensures OccursAt(text, parts[i], Offset(parts, sep, i)) && |text| + |sep| == Offset(parts, sep, |parts|)
    ensures i < |parts| - 1 ==> OccursAt(text, sep, Offset(parts, sep, i) + |parts[i]|)
    ensures Offset(parts, sep, |parts|) == Offset(parts, sep, |parts| - 1) + |parts[|parts| - 1]| + |sep|
  {
  }

  lemma LaidOutIf(text: string, parts: seq<string>, sep: string)
    requires forall i :: 0 <= i < |parts| ==> OccursAt(text, parts[i], Offset(parts, sep, i))
    requires forall i :: 0 <= i < |parts| - 1 ==> OccursAt(text, sep, Offset(parts, sep, i) + |parts[i]|)
    requires |text| + |sep| == Offset(parts, sep, |parts|)
    ensures LaidOut(text, parts, sep)
  {
  }

  // Lines without line breaks of their own can be told apart again.
  lemma {:induction false} JoinedLinesSplit(lines: seq<string>)
    requires lines != [] && forall i :: 0 <= i < |lines| ==> Lacks(lines[i], '\n')
    ensures Split(Join(lines, "\n"), '\n') == lines
  {
    hide Split, Lacks;
    var front, last := lines[..|lines| - 1], lines[|lines| - 1];
    SplitWhole(last, '\n');
    if front != [] {
      JoinedLinesSplit(front);
      SplitJoin(Join(front, "\n"), last, '\n');
      assert Join(lines, "\n") == Join(front, "\n") + ['\n'] + last;
    }
  }

  // What Init sets: information at least, and more if more is to be reported.
  lemma PassLevelIs(maxLevel: nat)
    ensures PassLevel(maxLevel) == if maxLevel <= 4 then 4 else maxLevel
  {
  }

  // The jobs and the message, "" when there is nothing to send, and the buffer left behind.
  function Retrieve(b: Buffer, maxLevel: nat): (string, string, Buffer) {
    var jobs := Join(b.jobs, ", ");
    if b.lines == [] then (jobs, "", b)
    else (jobs, if b.lowest > maxLevel then "" else Join(b.lines, "\n"), Cleared(b.pass))
  }

  class MessageBuffer {
    var jobs: seq<string>
    var lines: seq<string>
    var lowestLevel: nat
    var passLevel: nat

    function Value(): Buffer
      reads this
    {
      Buffer(jobs, lines, lowestLevel, passLevel)
    }

    constructor Init(maxLevel: nat)
      ensures Value() == Cleared(PassLevel(maxLevel)) && lowestLevel == 6
    {
      lines, jobs, lowestLevel := [], [], TRACE;
      passLevel := if maxLevel < DEBUG then INFO else maxLevel;
    }

    method Clear()
      modifies this
      ensures Value() == Cleared(old(passLevel))
    {
      jobs, lines, lowestLevel := [], [], TRACE;
    }

    method FilterAndStore(level: nat, job: string, line: string)
      modifies this
      ensures Value() == Store(old(Value()), Event(level, job, line))
    {
      if level > passLevel {
        return;
      }
      if level < lowestLevel {
        lowestLevel := level;
      }
      if job != "" {
        if job !in jobs {
          jobs := jobs + [job];
        }
      }
      lines := lines + [line];
    }

    method RetriveAndClear(maxLevel: nat) returns (jobList: string, message: string)
      modifies this
      ensures (jobList, message, Value()) == Retrieve(old(Value()), maxLevel)
      ensures if old(jobs) == [] then jobList == "" else LaidOut(jobList, old(jobs), ", ")
      ensures if old(lines) == [] || old(lowestLevel) > maxLevel then message == "" else LaidOut(message, old(lines), "\n")
    {
      hide LaidOut;
      if jobs != [] {
        JoinLaysOut(jobs, ", ");
      }
      if lines != [] {
        JoinLaysOut(lines, "\n");
      }
      jobList := Join(jobs, ", ");
      if |lines| == 0 {
        message := "";
        return;
      }
      if lowestLevel > maxLevel {
        message := "";
      } else {
        message := Join(lines, "\n");
      }
      Clear();
    }
  }

  /* ---- One notifier and the routine ---- */

  datatype Phase = Running | Draining | Returned

  // What one flush took out of the buffer, and whether it was sent on.
  datatype Batch = Batch(events: seq<Event>, jobs: string, message: string)

  // `owing` is set while the routine has taken an event but not yet started its flush; `held` are
  // the events the buffer's lines come from.
  datatype State = State(buffer: Buffer, held: seq<Event>, accepted: seq<Event>, batches: seq<Batch>,
                         owing: bool, pending: nat, phase: Phase)

  // A notifier's settings.
  datatype Config = Config(maxLevel: nat, combine: bool)

  datatype Action =
    | Take(event: Event, flush: bool)
    | Spawn
    | Flush
    | Stop
    | Return

  function Start(c: Config): State {
    State(Cleared(PassLevel(c.maxLevel)), [], [], [], false, 0, Running)
  }

  predicate Enabled(s: State, a: Action) {
    match a
    case Take(event, _) => s.phase.Running? && !s.owing && event.line != "" && event.level <= 6
    case Spawn => s.owing
    case Flush => s.pending > 0
    case Stop => s.phase.Running? && !s.owing
    case Return => s.phase.Draining? && !s.owing && s.pending == 0
  }

  // The routine takes events one by one and starts flushes; flushes run whenever they please.
  function Perform(c: Config, s: State, a: Action): State
    requires Enabled(s, a)
  {
    match a
    case Take(event, flush) =>
      var kept := event.level <= s.buffer.pass;
      s.(buffer := Store(s.buffer, event),
         held := if kept then s.held + [event] else s.held,
         accepted := if kept then s.accepted + [event] else s.accepted,
         owing := flush || !c.combine)
    case Spawn => s.(owing := false, pending := s.pending + 1)
    case Flush =>
      var (jobs, message, left) := Retrieve(s.buffer, c.maxLevel);
      s.(buffer := left, held := [], pending := s.pending - 1, batches := s.batches + [Batch(s.held, jobs, message)])
    case Stop => s.(phase := Draining, owing := c.combine)
    case Return => s.(phase := Returned)
  }

  ghost predicate Execution(c: Config, actions: seq<Action>, states: seq<State>) {
    && |states| == |actions| + 1 && states[0] == Start(c)
    && forall i :: 0 <= i < |actions| ==> Enabled(states[i], actions[i]) && states[i + 1] == Perform(c, states[i], actions[i])
  }

  /* ---- Invariants ---- */

  function Lines(events: seq<Event>): seq<string> {
    seq(|events|, i requires 0 <= i < |events| => events[i].line)
  }

  // Job names in the order of their first appearance.
  function Jobs(events: seq<Event>): seq<string> {
    if events == [] then []
    else
      var before, job := Jobs(events[..|events| - 1]), events[|events| - 1].job;
      if job != "" && job !in before then before + [job] else before
  }

  function Lowest(events: seq<Event>): nat {
    if events == [] then TRACE
    else
      var before, level := Lowest(events[..|events| - 1]), events[|events| - 1].level;
      if level < before then level else before
  }

  function Flushed(batches: seq<Batch>): seq<Event> {
    if batches == [] then [] else Flushed(batches[..|batches| - 1]) + batches[|batches| - 1].events
  }

  // A batch is sent on exactly when one of its events is urgent enough, whole and in order.
  ghost predicate RightlySent(c: Config, b: Batch) {
    && (b.message != "" <==> exists i :: 0 <= i < |b.events| && b.events[i].level <= c.maxLevel)
    && (b.message != "" ==> b.message == Join(Lines(b.events), "\n") && b.jobs == Join(Jobs(b.events), ", "))
  }

  ghost predicate Invariant(c: Config, s: State) {
    && s.buffer == Buffer(Jobs(s.held), Lines(s.held), Lowest(s.held), PassLevel(c.maxLevel))
    && (forall i :: 0 <= i < |s.held| ==> s.held[i].line != "" && s.held[i].level <= s.buffer.pass && s.held[i].level <= TRACE)
    && s.accepted == Flushed(s.batches) + s.held
    && (forall i :: 0 <= i < |s.batches| ==> RightlySent(c, s.batches[i]))
    && (s.held != [] && !c.combine ==> s.owing || s.pending > 0)
    && (s.held != [] && !s.phase.Running? ==> s.owing || s.pending > 0)
    && (s.phase.Returned? ==> !s.owing && s.pending == 0)
  }

  lemma LowestMeets(events: seq<Event>, level: nat)
    requires events != []
    requires forall i :: 0 <= i < |events| ==> events[i].level <= TRACE
    ensures Lowest(events) <= level <==> exists i :: 0 <= i < |events| && events[i].level <= level
  {
    LowestBounds(events);
    if Lowest(events) <= level {
      if Lowest(events) == TRACE {
        assert events[0].level <= level;
      } else {
        var i :| 0 <= i < |events| && events[i].level == Lowest(events);
        assert events[i].level <= level;
      }
    }
  }

  // lowest_level is the minimum over the held lines.
  lemma {:induction false} LowestBounds(events: seq<Event>)
    ensures forall i :: 0 <= i < |events| ==> Lowest(events) <= events[i].level
    ensures Lowest(events) == TRACE || exists i :: 0 <= i < |events| && events[i].level == Lowest(events)
  {
    if events != [] {
      var n := |events| - 1;
      var before := events[..n];
      LowestBounds(before);
      assert forall i :: 0 <= i < n ==> before[i] == events[i];
      if events[n].level < Lowest(before) {
        assert Lowest(events) == events[n].level;
      } else if Lowest(before) != TRACE {
        var i :| 0 <= i < |before| && before[i].level == Lowest(before);
        assert events[i].level == Lowest(events);
      }
    }
  }

  // The job list names each job of the held lines once.
  lemma {:induction false} JobsNamedOnce(events: seq<Event>)
    ensures forall i, j :: 0 <= i < j < |Jobs(events)| ==> Jobs(events)[i] != Jobs(events)[j]
    ensures forall job :: job in Jobs(events) <==> job != "" && exists i :: 0 <= i < |events| && events[i].job == job
  {
    if events != [] {
      var n := |events| - 1;
      var before := events[..n];
      JobsNamedOnce(before);
      assert forall i :: 0 <= i < n ==> before[i] == events[i];
      forall job ensures job in Jobs(events) <==> job != "" && exists i :: 0 <= i < |events| && events[i].job == job {
        if job in Jobs(events) {
          if job == events[n].job {
          } else {
            assert job in Jobs(before);
            var i :| 0 <= i < |before| && before[i].job == job;
            assert events[i].job == job;
          }
        }
        if job != "" && exists i :: 0 <= i < |events| && events[i].job == job {
          var i :| 0 <= i < |events| && events[i].job == job;
          if i < n {
            assert before[i].job == job;
          }
        }
      }
    }
  }

  lemma JoinNonEmpty(parts: seq<string>, sep: string)
    requires parts != [] && parts[|parts| - 1] != ""
    ensures Join(parts, sep) != ""
  {
  }

  // Storing an event appends it to everything the buffer is a view of.
  lemma StoreAppends(held: seq<Event>, event: Event, pass: nat)
    requires event.level <= pass
    ensures Store(Buffer(Jobs(held), Lines(held), Lowest(held), pass), event)
         == Buffer(Jobs(held + [event]), Lines(held + [event]), Lowest(held + [event]), pass)
  {
    var grown := held + [event];
    assert grown[..|grown| - 1] == held;
    assert Lines(grown) == Lines(held) + [event.line];
  }

  lemma FlushSends(c: Config, s: State)
    requires Invariant(c, s)
    ensures var (jobs, message, left) := Retrieve(s.buffer, c.maxLevel);
            left == Cleared(PassLevel(c.maxLevel)) && RightlySent(c, Batch(s.held, jobs, message))
  {
    if s.held != [] {
      LowestMeets(s.held, c.maxLevel);
      assert Lines(s.held)[|s.held| - 1] == s.held[|s.held| - 1].line;
      JoinNonEmpty(Lines(s.held), "\n");
    }
  }

  lemma FlushedGrows(batches: seq<Batch>, b: Batch)
    ensures Flushed(batches + [b]) == Flushed(batches) + b.events
  {
    assert (batches + [b])[..|batches + [b]| - 1] == batches;
  }

  lemma TakeKeepsInvariant(c: Config, s: State, a: Action)
    requires Invariant(c, s) && Enabled(s, a) && a.Take?
    ensures Invariant(c, Perform(c, s, a))
  {
    hide Jobs, Lines, Lowest, Flushed, RightlySent;
    if a.event.level <= s.buffer.pass {
      StoreAppends(s.held, a.event, s.buffer.pass);
    }
  }

  lemma FlushKeepsInvariant(c: Config, s: State)
    requires Invariant(c, s) && Enabled(s, Flush)
    ensures Invariant(c, Perform(c, s, Flush))
  {
    hide Flushed, RightlySent, Retrieve;
    FlushSends(c, s);
    var (jobs, message, _) := Retrieve(s.buffer, c.maxLevel);
    FlushedGrows(s.batches, Batch(s.held, jobs, message));
  }

  lemma StepKeepsInvariant(c: Config, s: State, a: Action)
    requires Invariant(c, s) && Enabled(s, a)
    ensures Invariant(c, Perform(c, s, a))
  {
    if a.Take? {
      TakeKeepsInvariant(c, s, a);
    } else if a.Flush? {
      FlushKeepsInvariant(c, s);
    } else {
      hide Jobs, Lines, Lowest, Flushed, RightlySent, Retrieve, Store;
    }
  }

  // Whatever the interleaving, every reachable state accounts for every accepted line.
  lemma {:induction false} ExecutionsKeepInvariant(c: Config, actions: seq<Action>, states: seq<State>, k: nat)
    requires Execution(c, actions, states) && k < |states|
    ensures Invariant(c, states[k])
  {
    if k > 0 {
      ExecutionsKeepInvariant(c, actions, states, k - 1);
      assert Enabled(states[k - 1], actions[k - 1]);
      StepKeepsInvariant(c, states[k - 1], actions[k - 1]);
    }
  }

  /* ---- Conservation ---- */

  // The events the routine has taken, in order, and those of them the notifier keeps.
  function Taken(actions: seq<Action>): seq<Event> {
    if actions == [] then []
    else
      var a := actions[|actions| - 1];
      Taken(actions[..|actions| - 1]) + if a.Take? then [a.event] else []
  }

  function Passed(events: seq<Event>, pass: nat): seq<Event> {
    if events == [] then []
    else
      var e := events[|events| - 1];
      Passed(events[..|events| - 1], pass) + if e.level <= pass then [e] else []
  }

  lemma PassedAppends(events: seq<Event>, e: Event, pass: nat)
    ensures Passed(events + [e], pass) == Passed(events, pass) + if e.level <= pass then [e] else []
  {
    assert (events + [e])[..|events + [e]| - 1] == events;
  }

  lemma {:induction false} AcceptedArePassed(c: Config, actions: seq<Action>, states: seq<State>, k: nat)
    requires Execution(c, actions, states) && k < |states|
    ensures states[k].accepted == Passed(Taken(actions[..k]), PassLevel(c.maxLevel))
  {
    if k > 0 {
      AcceptedArePassed(c, actions, states, k - 1);
      ExecutionsKeepInvariant(c, actions, states, k - 1);
      var a := actions[k - 1];
      assert Enabled(states[k - 1], a) && states[k] == Perform(c, states[k - 1], a);
      assert actions[..k][..k - 1] == actions[..k - 1] && actions[..k][k - 1] == a;
      var taken := Taken(actions[..k - 1]);
      if a.Take? {
        PassedAppends(taken, a.event, PassLevel(c.maxLevel));
        assert Taken(actions[..k]) == taken + [a.event];
      } else {
        assert Taken(actions[..k]) == taken;
      }
    }
  }

  lemma {:induction false} TakenHas(actions: seq<Action>, k: nat)
    requires k < |actions| && actions[k].Take?
    ensures actions[k].event in Taken(actions)
  {
    if k < |actions| - 1 {
      TakenHas(actions[..|actions| - 1], k);
    }
  }

  lemma {:induction false} PassedHas(events: seq<Event>, e: Event, pass: nat)
    ensures e in Passed(events, pass) <==> e in events && e.level <= pass
  {
    if events != [] {
      var n := |events| - 1;
      PassedHas(events[..n], e, pass);
      assert events == events[..n] + [events[n]];
    }
  }

  lemma {:induction false} FlushedHas(batches: seq<Batch>, e: Event)
    requires e in Flushed(batches)
    ensures exists i :: 0 <= i < |batches| && e in batches[i].events
  {
    var n := |batches| - 1;
    if e !in batches[n].events {
      FlushedHas(batches[..n], e);
      var i :| 0 <= i < n && e in batches[..n][i].events;
      assert e in batches[i].events;
    }
  }

  // When Runtime returns the buffer is empty and the batches hold, in order and once each, exactly
  // the events that were taken and passed the store filter.
  lemma ReturnedMeansDrained(c: Config, actions: seq<Action>, states: seq<State>)
    requires Execution(c, actions, states) && states[|actions|].phase.Returned?
    ensures states[|actions|].buffer == Cleared(PassLevel(c.maxLevel))
    ensures Flushed(states[|actions|].batches) == Passed(Taken(actions), PassLevel(c.maxLevel))
  {
    ExecutionsKeepInvariant(c, actions, states, |actions|);
    AcceptedArePassed(c, actions, states, |actions|);
    assert actions[..|actions|] == actions;
    assert states[|actions|].held == [];
  }

  /* ---- Progress ---- */

  // The flushes the actions ask for: one an event where nothing is combined, one a request where
  // events are, and a last one at the end.
  function Asked(c: Config, actions: seq<Action>): nat {
    if actions == [] then 0
    else
      Asked(c, actions[..|actions| - 1])
      + match actions[|actions| - 1]
        case Take(_, flush) => if c.combine && !flush then 0 else 1
        case Stop => if c.combine then 1 else 0
        case _ => 0
  }

  // Every flush asked for is still to be started, under way or done.
  lemma {:induction false} FlushesAccounted(c: Config, actions: seq<Action>, states: seq<State>, k: nat)
    requires Execution(c, actions, states) && k < |states|
    ensures Asked(c, actions[..k]) == (if states[k].owing then 1 else 0) + states[k].pending + |states[k].batches|
  {
    if k > 0 {
      FlushesAccounted(c, actions, states, k - 1);
      var a := actions[k - 1];
      assert Enabled(states[k - 1], a) && states[k] == Perform(c, states[k - 1], a);
      assert actions[..k][..k - 1] == actions[..k - 1] && actions[..k][k - 1] == a;
    }
  }

  // The steps left until Runtime can return.
  function Left(c: Config, s: State): nat {
    match s.phase
    case Running => 2 * s.pending + (if s.owing then 3 else 0) + 5
    case Draining => 2 * s.pending + (if s.owing then 3 else 0) + 1
    case Returned => 0
  }

  // No state is a dead end.  While the routine runs and owes no flush it takes whatever event comes;
  // and from every reachable state the notifier can still finish, steps other than taking events bringing it
  // nearer at each step.
  lemma NeverStuck(c: Config, actions: seq<Action>, states: seq<State>, k: nat)
    requires Execution(c, actions, states) && k < |states|
    ensures var s := states[k];
            && (s.phase.Running? && !s.owing ==>
                  forall e: Event, flush :: e.line != "" && e.level <= 6 ==> Enabled(s, Take(e, flush)))
            && (!s.phase.Returned? ==>
                  exists a: Action :: !a.Take? && Enabled(s, a) && Left(c, Perform(c, s, a)) < Left(c, s))
  {
    var s := states[k];
    if !s.phase.Returned? {
      var a := if s.owing then Spawn else if s.pending > 0 then Flush else if s.phase.Running? then Stop else Return;
      assert Enabled(s, a) && Left(c, Perform(c, s, a)) < Left(c, s);
    }
  }

  // When Runtime returns, exactly the flushes asked for have been made.
  lemma ReturnedMeansFlushed(c: Config, actions: seq<Action>, states: seq<State>)
    requires Execution(c, actions, states) && states[|actions|].phase.Returned?
    ensures |states[|actions|].batches| == Asked(c, actions)
  {
    ExecutionsKeepInvariant(c, actions, states, |actions|);
    FlushesAccounted(c, actions, states, |actions|);
    assert actions[..|actions|] == actions;
  }

  // Every event urgent enough to be reported is in a message by the time Runtime returns: neither
  // the store filter nor the check of the whole batch can drop it.
  lemma UrgentEventsAreSent(c: Config, actions: seq<Action>, states: seq<State>, k: nat)
    requires Execution(c, actions, states) && states[|actions|].phase.Returned?
    requires k < |actions| && actions[k].Take? && actions[k].event.level <= c.maxLevel
    ensures exists i :: 0 <= i < |states[|actions|].batches| && Reports(states[|actions|].batches[i], actions[k].event)
  {
    var last, e := states[|actions|], actions[k].event;
    ReturnedMeansDrained(c, actions, states);
    ExecutionsKeepInvariant(c, actions, states, |actions|);
    TakenHas(actions, k);
    PassedHas(Taken(actions), e, PassLevel(c.maxLevel));
    FlushedHas(last.batches, e);
    var i :| 0 <= i < |last.batches| && e in last.batches[i].events;
    assert RightlySent(c, last.batches[i]);
    var j :| 0 <= j < |last.batches[i].events| && last.batches[i].events[j] == e;
    assert last.batches[i].events[j].level <= c.maxLevel;
    SentIsWhole(c, last.batches[i]);
  }

  // A sent message that holds the event's line.
  ghost predicate Reports(b: Batch, e: Event) {
    e in b.events && b.message != "" && exists at :: OccursAt(b.message, e.line, at)
  }

  // An event below the message level is still sent when it shares a batch with an urgent one: the
  // batch is all or nothing.
  lemma BatchesAreWhole(c: Config, actions: seq<Action>, states: seq<State>, i: nat)
    requires Execution(c, actions, states) && i < |states[|actions|].batches|
    ensures var b := states[|actions|].batches[i];
            if exists e :: e in b.events && e.level <= c.maxLevel
            then Whole(b) && forall e :: e in b.events ==> Reports(b, e)
            else b.message == ""
  {
    ExecutionsKeepInvariant(c, actions, states, |actions|);
    var b := states[|actions|].batches[i];
    assert RightlySent(c, b);
    if e :| e in b.events && e.level <= c.maxLevel {
      var j :| 0 <= j < |b.events| && b.events[j] == e;
      assert b.events[j].level <= c.maxLevel;
      SentIsWhole(c, b);
    }
  }

  // All lines of the batch, one after the other, and all its jobs; lines without line breaks can be
  // read off the message.
  ghost predicate Whole(b: Batch) {
    && LaidOut(b.message, Lines(b.events), "\n")
    && (if Jobs(b.events) == [] then b.jobs == "" else LaidOut(b.jobs, Jobs(b.events), ", "))
    && ((forall e :: e in b.events ==> Lacks(e.line, '\n')) ==> Split(b.message, '\n') == Lines(b.events))
  }

  lemma SentIsWhole(c: Config, b: Batch)
    requires RightlySent(c, b) && b.message != "" && b.events != []
    ensures Whole(b) && forall e :: e in b.events ==> Reports(b, e)
  {
    hide LaidOut, Split, Lacks, Jobs;
    JoinLaysOut(Lines(b.events), "\n");
    if Jobs(b.events) != [] {
      JoinLaysOut(Jobs(b.events), ", ");
    }
    if forall e :: e in b.events ==> Lacks(e.line, '\n') {
      JoinedLinesSplit(Lines(b.events));
    }
    forall e | e in b.events
      ensures Reports(b, e)
    {
      var j :| 0 <= j < |b.events| && b.events[j] == e;
      PartLaidOut(b.message, Lines(b.events), "\n", j);
      assert Lines(b.events)[j] == e.line;
    }
  }
}
