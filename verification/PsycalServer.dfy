/** The calendar server of psycal/server.cc as a state machine over its three mutex-guarded
    activities, and what every run of it keeps. */
module PsycalProtocol {
  import opened Basics
  import opened PsycalFiles

  datatype State = State(
    events: multiset<Event>,    // the queue
    expired: seq<Event>,        // old_, not yet saved
    makeSnapshot: bool,
    eventsFile: seq<u8>,
    historyFile: seq<u8>)

  // Timestamps count seconds, the clock nanoseconds.
  const NANOS: nat := 1_000_000_000

  predicate Due(e: Event, now: int) {
    now > e.timestamp * NANOS
  }

  predicate Sorted(es: seq<Event>) {
    forall i, j :: 0 <= i < j < |es| ==> es[i].timestamp <= es[j].timestamp
  }

  // Exactly the due events, with their multiplicities.
  ghost predicate AllDue(moved: seq<Event>, events: multiset<Event>, now: int) {
    forall e: Event :: multiset(moved)[e] == if Due(e, now) then events[e] else 0
  }

  // ---------- the steps ----------

  datatype Step = Receive(e: Event) | Tick(now: int) | Snapshot | Restart

  ghost predicate Moves(s: State, s': State, now: int, moved: seq<Event>) {
    && Sorted(moved) && AllDue(moved, s.events, now)
    && s' == s.(events := s.events - multiset(moved), expired := s.expired + moved,
                makeSnapshot := s.makeSnapshot || moved != [])
  }

  ghost predicate Saves(s: State, s': State, order: seq<Event>) {
    && Sorted(order) && multiset(order) == s.events
    && s' == s.(eventsFile := Records(order), historyFile := s.historyFile + Records(s.expired),
                expired := [], makeSnapshot := false)
  }

  // A restart loses the memory and loads the events file.
  ghost predicate Reloads(s: State, s': State) {
    && ParseFile(s.eventsFile).Some?
    && s' == State(multiset(CutAll(ParseFile(s.eventsFile).value)), [], false, s.eventsFile, s.historyFile)
  }

  ghost predicate Next(s: State, step: Step, s': State) {
    match step
    case Receive(e) => s' == s.(events := s.events + multiset{e}, makeSnapshot := true)
    case Tick(now) => exists moved :: Moves(s, s', now, moved)
    case Snapshot => s.makeSnapshot && exists order :: Saves(s, s', order)
    case Restart => !s.makeSnapshot && Reloads(s, s')
  }

  // ---------- what every step keeps ----------

  ghost predicate FilesParse(s: State) {
    ParseFile(s.eventsFile).Some? && ParseFile(s.historyFile).Some?
  }

  ghost predicate Inv(s: State) {
    && FilesParse(s)
    && (!s.makeSnapshot ==> s.expired == [] && multiset(ParseFile(s.eventsFile).value) == s.events)
  }

  // Every event the server has accepted: waiting, expired, or in the history.
  ghost function Ledger(s: State): multiset<Event>
    requires FilesParse(s)
  {
    s.events + multiset(s.expired) + multiset(ParseFile(s.historyFile).value)
  }

  function Accepted(step: Step): multiset<Event> {
    if step.Receive? then multiset{step.e} else multiset{}
  }

  ghost predicate AllNulFree(m: multiset<Event>) {
    forall e :: e in m ==> NulFree(e)
  }

  lemma AllDueIsPart(moved: seq<Event>, events: multiset<Event>, now: int)
    requires AllDue(moved, events, now)
    ensures multiset(moved) <= events
  {}

  lemma MovePart(events: multiset<Event>, part: multiset<Event>, expired: multiset<Event>, saved: multiset<Event>)
    requires part <= events
    ensures (events - part) + (expired + part) + saved == events + expired + saved
  {}

  // Ticks and snapshots move events, whatever the state.
  lemma TickConserves(s: State, now: int, s': State)
    requires FilesParse(s) && Next(s, Tick(now), s')
    ensures FilesParse(s') && Ledger(s') == Ledger(s)
  {
    hide AllDue, Sorted, ParseFile;
    var moved :| Moves(s, s', now, moved);
    AllDueIsPart(moved, s.events, now);
    assert multiset(s.expired + moved) == multiset(s.expired) + multiset(moved);
    MovePart(s.events, multiset(moved), multiset(s.expired), multiset(ParseFile(s.historyFile).value));
  }

  lemma TickKeeps(s: State, now: int, s': State)
    requires Inv(s) && Next(s, Tick(now), s')
    ensures Inv(s') && Ledger(s') == Ledger(s)
  {
    hide AllDue, Sorted, ParseFile;
    TickConserves(s, now, s');
    var moved :| Moves(s, s', now, moved);
    if moved == [] {
      assert s.events - multiset(moved) == s.events;
      assert s.expired + moved == s.expired;
    }
  }

  lemma SnapshotConserves(s: State, s': State)
    requires FilesParse(s) && Next(s, Snapshot, s')
    ensures FilesParse(s') && Ledger(s') == Ledger(s)
    ensures s'.expired == [] && multiset(ParseFile(s'.eventsFile).value) == s'.events
  {
    hide Sorted, ParseFile, Records;
    var order :| Saves(s, s', order);
    RecordsParse(order);
    AppendParses(s.historyFile, s.expired);
    var history := ParseFile(s.historyFile).value;
    assert multiset(history + s.expired) == multiset(history) + multiset(s.expired);
  }

  lemma SnapshotKeeps(s: State, s': State)
    requires Inv(s) && Next(s, Snapshot, s')
    ensures Inv(s') && Ledger(s') == Ledger(s)
  {
    SnapshotConserves(s, s');
  }

  // A clean restart keeps the state exactly when no waiting message holds a NUL.
  lemma RestartKeeps(s: State, s': State)
    requires Inv(s) && Next(s, Restart, s')
    ensures s' == s <==> AllNulFree(s.events)
    ensures s'.events == s.events <==> AllNulFree(s.events)
  {
    var saved := ParseFile(s.eventsFile).value;
    if AllNulFree(s.events) {
      StartIsInvariant(s, s');
    } else {
      var e :| e in s.events && !NulFree(e);
      NoNulAfterCut(saved, e);
    }
  }

  // A start on files whose waiting events have no NUL is such a state, with nothing lost.
  lemma StartIsInvariant(s: State, s': State)
    requires Reloads(s, s') && ParseFile(s.historyFile).Some?
    requires AllNulFree(multiset(ParseFile(s.eventsFile).value))
    ensures Inv(s')
    ensures Ledger(s') == multiset(ParseFile(s.eventsFile).value) + multiset(ParseFile(s.historyFile).value)
  {
    var saved := ParseFile(s.eventsFile).value;
    forall i | 0 <= i < |saved| ensures NulFree(saved[i]) {
      assert saved[i] in multiset(saved);
    }
    ReadBack(saved, _ => 0);
  }

  lemma StepKeeps(s: State, step: Step, s': State)
    requires Inv(s) && Next(s, step, s')
    requires step.Restart? ==> AllNulFree(s.events)
    ensures Inv(s') && Ledger(s') == Ledger(s) + Accepted(step)
  {
    hide AllDue, Sorted, ParseFile, Moves, Saves, Reloads, NulFree;
    match step
    case Receive(e) =>
    case Tick(now) => TickKeeps(s, now, s');
    case Snapshot => SnapshotKeeps(s, s');
    case Restart => RestartKeeps(s, s');
  }

  // ---------- runs ----------

  ghost predicate IsRun(states: seq<State>, steps: seq<Step>) {
    && |states| == |steps| + 1
    && forall i :: 0 <= i < |steps| ==> Next(states[i], steps[i], states[i + 1])
  }

  function AllAccepted(steps: seq<Step>): multiset<Event> {
    if steps == [] then multiset{} else AllAccepted(steps[..|steps| - 1]) + Accepted(steps[|steps| - 1])
  }

  // No restart of the run finds a message with a NUL waiting.
  ghost predicate RestartsAreNulFree(states: seq<State>, steps: seq<Step>)
    requires |states| == |steps| + 1
  {
    forall i :: 0 <= i < |steps| && steps[i].Restart? ==> AllNulFree(states[i].events)
  }

  // As long as no restart finds a NUL, no event is lost or duplicated, and whenever no snapshot
  // is due the expired list is empty and the events file holds exactly the queue.
  lemma {:induction false} RunsKeep(states: seq<State>, steps: seq<Step>)
    requires IsRun(states, steps) && Inv(states[0]) && RestartsAreNulFree(states, steps)
    ensures Inv(states[|steps|])
    ensures Ledger(states[|steps|]) == Ledger(states[0]) + AllAccepted(steps)
  {
    if steps != [] {
      var n := |steps| - 1;
      RunsKeep(states[..n + 1], steps[..n]);
      StepKeeps(states[n], steps[n], states[n + 1]);
    }
  }

  // No step, whatever the state, makes more of an event whose message holds a NUL than was
  // received, and a restart that finds it waiting loses it.
  lemma StepNeverGains(s: State, step: Step, s': State, e: Event)
    requires Next(s, step, s') && FilesParse(s) && !NulFree(e)
    ensures FilesParse(s') && Ledger(s')[e] <= Ledger(s)[e] + Accepted(step)[e]
    ensures step.Restart? && e in s.events ==> Ledger(s')[e] < Ledger(s)[e]
  {
    hide ParseFile, Records, Moves, Saves;
    match step
    case Receive(_) =>
    case Tick(now) => TickConserves(s, now, s');
    case Snapshot => SnapshotConserves(s, s');
    case Restart => NoNulAfterCut(ParseFile(s.eventsFile).value, e);
  }

  lemma NoNulAfterCut(es: seq<Event>, e: Event)
    requires !NulFree(e)
    ensures e !in multiset(CutAll(es))
  {
    assert forall f :: f in CutAll(es) ==> NulFree(f);
  }

  lemma {:induction false} RunsNeverGain(states: seq<State>, steps: seq<Step>, e: Event, lost: bool)
    requires IsRun(states, steps) && FilesParse(states[0]) && !NulFree(e)
    requires lost ==> exists i :: 0 <= i < |steps| && steps[i].Restart? && e in states[i].events
    ensures FilesParse(states[|steps|])
    ensures Ledger(states[|steps|])[e] <= Ledger(states[0])[e] + AllAccepted(steps)[e]
    ensures lost ==> Ledger(states[|steps|])[e] < Ledger(states[0])[e] + AllAccepted(steps)[e]
  {
    hide Ledger, FilesParse, Next, NulFree, Accepted, AllAccepted;
    if steps == [] {
      AcceptedNothing();
    } else {
      var n := |steps| - 1;
      var before := steps[..n];
      AcceptedLast(steps);
      var lostBefore := lost && !(steps[n].Restart? && e in states[n].events);
      if lostBefore {
        var i :| 0 <= i < |steps| && steps[i].Restart? && e in states[i].events;
        assert before[i] == steps[i] && states[..n + 1][i] == states[i];
      }
      RunsNeverGain(states[..n + 1], before, e, lostBefore);
      StepNeverGains(states[n], steps[n], states[n + 1], e);
    }
  }

  lemma AcceptedNothing()
    ensures AllAccepted([]) == multiset{}
  {}

  lemma AcceptedLast(steps: seq<Step>)
    requires steps != []
    ensures AllAccepted(steps) == AllAccepted(steps[..|steps| - 1]) + Accepted(steps[|steps| - 1])
  {}

  // A run conserves its events exactly when no restart finds a message with a NUL waiting.
  lemma RunsConserveEvents(states: seq<State>, steps: seq<Step>)
    requires IsRun(states, steps) && Inv(states[0])
    ensures RestartsAreNulFree(states, steps) ==> Inv(states[|steps|])
    ensures FilesParse(states[|steps|])
    ensures RestartsAreNulFree(states, steps)
            <==> Ledger(states[|steps|]) == Ledger(states[0]) + AllAccepted(steps)
  {
    hide Ledger, Next, NulFree, Inv;
    InvFilesParse(states[0]);
    if RestartsAreNulFree(states, steps) {
      RunsKeep(states, steps);
      InvFilesParse(states[|steps|]);
    } else {
      var i :| 0 <= i < |steps| && steps[i].Restart? && !AllNulFree(states[i].events);
      var e :| e in states[i].events && !NulFree(e);
      RunsNeverGain(states, steps, e, true);
    }
  }

  lemma InvFilesParse(s: State)
    requires Inv(s)
    ensures FilesParse(s)
  {}

  // A run that loses an event: it is received, saved and read back with its message cut.
  lemma NulIsLostOverRestart() returns (states: seq<State>, steps: seq<Step>)
    ensures IsRun(states, steps) && Inv(states[0]) && FilesParse(states[|steps|])
    ensures Ledger(states[|steps|]) != Ledger(states[0]) + AllAccepted(steps)
  {
    var e := Event(1, [104, 105, 0, 120]);
    var file := Records([e]);
    var s0 := State(multiset{}, [], false, [], []);
    var s1 := State(multiset{e}, [], true, [], []);
    var s2 := State(multiset{e}, [], false, file, []);
    var s3 := State(multiset(CutAll([e])), [], false, file, []);
    hide Records, CutAll, NulFree, ParseFile, Ledger, FilesParse, Next, Inv, AllAccepted;
    SaveAndReload(e);
    states, steps := [s0, s1, s2, s3], [Receive(e), Snapshot, Restart];
    ThreeSteps(states, steps);
    HoldsNul(e, 2);
    RestartLoses(states, steps, 2, e);
  }

  lemma HoldsNul(e: Event, i: nat)
    requires i < |e.message| && e.message[i] == 0
    ensures !NulFree(e)
  {}

  lemma RestartLoses(states: seq<State>, steps: seq<Step>, i: nat, e: Event)
    requires IsRun(states, steps) && Inv(states[0])
    requires i < |steps| && steps[i].Restart? && e in states[i].events && !NulFree(e)
    ensures FilesParse(states[|steps|])
    ensures Ledger(states[|steps|]) != Ledger(states[0]) + AllAccepted(steps)
  {
    hide NulFree, Ledger, FilesParse, Next, Inv, AllAccepted;
    RunsConserveEvents(states, steps);
  }

  lemma SaveAndReload(e: Event)
    ensures var file := Records([e]);
            var s0 := State(multiset{}, [], false, [], []);
            var s1 := State(multiset{e}, [], true, [], []);
            var s2 := State(multiset{e}, [], false, file, []);
            && Inv(s0) && Next(s0, Receive(e), s1) && Next(s1, Snapshot, s2)
            && Next(s2, Restart, State(multiset(CutAll([e])), [], false, file, []))
  {
    hide Records, CutAll, ParseFile;
    RecordsParse([e]);
    NothingParses();
    assert multiset([e]) == multiset{e};
    var s1 := State(multiset{e}, [], true, [], []);
    assert Saves(s1, State(multiset{e}, [], false, Records([e]), []), [e]);
  }

  lemma ThreeSteps(states: seq<State>, steps: seq<Step>)
    requires |states| == 4 && |steps| == 3
    requires Next(states[0], steps[0], states[1]) && Next(states[1], steps[1], states[2])
    requires Next(states[2], steps[2], states[3])
    ensures IsRun(states, steps)
  {
    hide Next;
    forall i | 0 <= i < 3 ensures Next(states[i], steps[i], states[i + 1]) {
      assert i == 0 || i == 1 || i == 2;
    }
  }

  lemma NothingParses()
    ensures ParseFile([]) == Some([]) && Records([]) == []
  {}

  // ---------- what is on disk ----------

  ghost function OnDisk(s: State): multiset<Event>
    requires FilesParse(s)
  {
    multiset(ParseFile(s.eventsFile).value) + multiset(ParseFile(s.historyFile).value)
  }

  // The number of steps up to and with the last snapshot of the run.
  function LastSaved(steps: seq<Step>): (k: nat)
    ensures k <= |steps| && (k > 0 ==> steps[k - 1].Snapshot?)
    ensures forall i :: k <= i < |steps| ==> !steps[i].Snapshot?
  {
    if steps == [] || steps[|steps| - 1].Snapshot? then |steps| else LastSaved(steps[..|steps| - 1])
  }

  // A snapshot saves the whole ledger; no other step writes.
  lemma StepOnDisk(s: State, step: Step, s': State)
    requires Next(s, step, s') && FilesParse(s)
    ensures FilesParse(s') && OnDisk(s') == if step.Snapshot? then Ledger(s') else OnDisk(s)
  {
    hide ParseFile, Records, Moves, Saves, AllDue, Sorted;
    match step
    case Receive(_) =>
    case Tick(now) => TickWritesNothing(s, now, s');
    case Snapshot => SnapshotConserves(s, s');
    case Restart =>
  }

  lemma TickWritesNothing(s: State, now: int, s': State)
    requires Next(s, Tick(now), s')
    ensures s'.eventsFile == s.eventsFile && s'.historyFile == s.historyFile
  {}

  // In every run, whatever its messages, the two files together hold exactly the ledger as of
  // the last snapshot - before the first one, what they held at the start.
  lemma {:induction false} DiskHoldsLastSnapshot(states: seq<State>, steps: seq<Step>)
    requires IsRun(states, steps) && FilesParse(states[0])
    ensures var k := LastSaved(steps);
            && FilesParse(states[|steps|]) && FilesParse(states[k])
            && OnDisk(states[|steps|]) == if k > 0 then Ledger(states[k]) else OnDisk(states[0])
  {
    hide Next, FilesParse, OnDisk, Ledger;
    if steps != [] {
      var n := |steps| - 1;
      DiskHoldsLastSnapshot(states[..n + 1], steps[..n]);
      StepOnDisk(states[n], steps[n], states[n + 1]);
    }
  }

  lemma {:induction false} AcceptedConcat(a: seq<Step>, b: seq<Step>)
    ensures AllAccepted(a + b) == AllAccepted(a) + AllAccepted(b)
  {
    hide Accepted;
    if b == [] {
      ConcatEmpty(a);
    } else {
      var c := a + b;
      assert c[..|c| - 1] == a + b[..|b| - 1] && c[|c| - 1] == b[|b| - 1];
      AcceptedConcat(a, b[..|b| - 1]);
    }
  }

  // So if the run breaks off between two steps, what the files lack is exactly what was
  // received after the last snapshot.
  lemma CrashLosesOnlyLater(states: seq<State>, steps: seq<Step>)
    requires IsRun(states, steps) && Inv(states[0]) && !states[0].makeSnapshot && RestartsAreNulFree(states, steps)
    ensures FilesParse(states[|steps|])
    ensures Ledger(states[|steps|]) == OnDisk(states[|steps|]) + AllAccepted(steps[LastSaved(steps)..])
  {
    hide Next, Ledger, OnDisk, Inv, FilesParse, AllNulFree, RestartsAreNulFree, LastSaved, AllAccepted;
    CleanIsOnDisk(states[0]);
    DiskHoldsLastSnapshot(states, steps);
    LedgerSince(states, steps, LastSaved(steps));
  }

  lemma LedgerSince(states: seq<State>, steps: seq<Step>, k: nat)
    requires IsRun(states, steps) && Inv(states[0]) && RestartsAreNulFree(states, steps) && k <= |steps|
    ensures FilesParse(states[k]) && FilesParse(states[|steps|])
    ensures Ledger(states[|steps|]) == Ledger(states[k]) + AllAccepted(steps[k..])
  {
    hide Next, Ledger, AllNulFree, Inv, FilesParse, AllAccepted;
    var before, after := steps[..k], steps[k..];
    RunsKeep(states, steps);
    RunsKeep(states[..k + 1], before);
    InvFilesParse(states[0]);
    InvFilesParse(states[k]);
    InvFilesParse(states[|steps|]);
    assert steps == before + after;
    AcceptedConcat(before, after);
  }

  lemma CleanIsOnDisk(s: State)
    requires Inv(s) && !s.makeSnapshot
    ensures FilesParse(s) && OnDisk(s) == Ledger(s)
  {}

  // ---------- deadlines ----------

  // A tick at some nanosecond moves exactly the events whose second has passed, in order of
  // their timestamps, behind those that have expired before, and leaves all others waiting.
  lemma TickLeavesNothingDue(s: State, now: int, s': State) returns (moved: seq<Event>)
    requires Next(s, Tick(now), s')
    ensures forall e :: e in s'.events ==> now <= e.timestamp * 1_000_000_000 && s'.events[e] == s.events[e]
    ensures forall e :: e in moved ==> now > e.timestamp * 1_000_000_000 && multiset(moved)[e] == s.events[e]
    ensures s'.events + multiset(moved) == s.events && s'.expired == s.expired + moved
    ensures forall i, j :: 0 <= i < j < |moved| ==> moved[i].timestamp <= moved[j].timestamp
    ensures s'.makeSnapshot <==> s.makeSnapshot || moved != []
    ensures s'.eventsFile == s.eventsFile && s'.historyFile == s.historyFile
  {
    moved :| Moves(s, s', now, moved);
    hide Sorted;
    AllDueIsPart(moved, s.events, now);
    MovedAndLeft(moved, s.events, now);
    SortedIs(moved);
  }

  lemma SortedIs(es: seq<Event>)
    ensures Sorted(es) <==> forall i, j :: 0 <= i < j < |es| ==> es[i].timestamp <= es[j].timestamp
  {}

  lemma MovedAndLeft(moved: seq<Event>, events: multiset<Event>, now: int)
    requires AllDue(moved, events, now)
    ensures var left := events - multiset(moved);
            forall e :: e in left ==> now <= e.timestamp * 1_000_000_000 && left[e] == events[e]
    ensures forall e :: e in moved ==> now > e.timestamp * 1_000_000_000 && multiset(moved)[e] == events[e]
    ensures events - multiset(moved) + multiset(moved) == events
  {
    AllDueIsPart(moved, events, now);
    forall e | e in moved ensures Due(e, now) {
      assert e in multiset(moved);
    }
  }

  // ---------- the log of expired events ----------

  // All that has expired: what the history file holds, and what waits to be saved there.
  ghost function Log(s: State): seq<Event>
    requires FilesParse(s)
  {
    ParseFile(s.historyFile).value + s.expired
  }

  // Nothing has expired that is not saved, unless a snapshot is due.
  predicate IsQuiet(s: State) {
    !s.makeSnapshot ==> s.expired == []
  }

  lemma StepLog(s: State, step: Step, s': State) returns (added: seq<Event>)
    requires Next(s, step, s') && FilesParse(s) && IsQuiet(s)
    ensures FilesParse(s') && IsQuiet(s') && Log(s') == Log(s) + added
    ensures forall e :: e in added ==> step.Tick? && e in s.events && step.now > e.timestamp * 1_000_000_000
  {
    hide ParseFile, Records;
    StepOnDisk(s, step, s');
    match step
    case Receive(_) => added := []; ConcatEmpty(Log(s));
    case Tick(now) =>
      added := TickLeavesNothingDue(s, now, s');
      ConcatAssociates(ParseFile(s.historyFile).value, s.expired, added);
      forall e | e in added ensures e in s.events {
        assert e in multiset(added);
      }
    case Snapshot =>
      added := [];
      AppendParses(s.historyFile, s.expired);
      ConcatEmpty(Log(s));
      ConcatEmpty(ParseFile(s'.historyFile).value);
    case Restart => added := []; ConcatEmpty(Log(s));
  }

  // In every run the log only grows at its end, and only by events that some tick found waiting
  // after their second.
  lemma {:induction false} LogGrows(states: seq<State>, steps: seq<Step>)
    requires IsRun(states, steps) && FilesParse(states[0]) && IsQuiet(states[0])
    ensures FilesParse(states[|steps|]) && IsQuiet(states[|steps|]) && Log(states[0]) <= Log(states[|steps|])
    ensures forall k :: |Log(states[0])| <= k < |Log(states[|steps|])| ==>
              WasDue(states, steps, Log(states[|steps|])[k])
  {
    hide Next, FilesParse, Log, IsQuiet;
    if steps != [] {
      var n := |steps| - 1;
      LogGrows(states[..n + 1], steps[..n]);
      var added := StepLog(states[n], steps[n], states[n + 1]);
      var log := Log(states[n + 1]);
      forall k | |Log(states[0])| <= k < |log| ensures WasDue(states, steps, log[k]) {
        var e := log[k];
        if k < |Log(states[n])| {
          EarlierWasDue(states, steps, e);
        } else {
          assert e == added[k - |Log(states[n])|];
          assert DueAt(states, steps, e, n);
        }
      }
    }
  }

  // Step i is a tick past the event's second, and finds it waiting.
  ghost predicate DueAt(states: seq<State>, steps: seq<Step>, e: Event, i: nat)
    requires |states| == |steps| + 1 && i < |steps|
  {
    steps[i].Tick? && steps[i].now > e.timestamp * 1_000_000_000 && e in states[i].events
  }

  ghost predicate WasDue(states: seq<State>, steps: seq<Step>, e: Event)
    requires |states| == |steps| + 1
  {
    exists i :: 0 <= i < |steps| && DueAt(states, steps, e, i)
  }

  lemma EarlierWasDue(states: seq<State>, steps: seq<Step>, e: Event)
    requires |states| == |steps| + 1 && steps != []
    requires WasDue(states[..|steps|], steps[..|steps| - 1], e)
    ensures WasDue(states, steps, e)
  {
    var i :| 0 <= i < |steps| - 1 && DueAt(states[..|steps|], steps[..|steps| - 1], e, i);
    assert DueAt(states, steps, e, i);
  }
}
/** The class of psycal/server.{h,cc} and the file writers of psycal/dump.cc. */
module PsycalServer {
  import opened Basics
  import opened Codec
  import opened PsycalFiles
  import opened PsycalProtocol

  // What std::priority_queue with Event::SoonerCmp has on top: any event of least timestamp.
  predicate IsTop(e: Event, events: multiset<Event>) {
    e in events && forall f :: f in events ==> e.timestamp <= f.timestamp
  }

  lemma {:induction false} TopExists(events: multiset<Event>) returns (e: Event)
    requires events != multiset{}
    ensures IsTop(e, events)
    decreases |events|
  {
    var first :| first in events;
    var rest := events - multiset{first};
    assert forall g :: g in events <==> g == first || g in rest;
    e := first;
    if rest != multiset{} {
      var f := TopExists(rest);
      if f.timestamp < first.timestamp { e := f; }
    }
  }

  method Top(events: multiset<Event>) returns (e: Event)
    requires events != multiset{}
    ensures IsTop(e, events)
  {
    ghost var t := TopExists(events);
    e :| IsTop(e, events);
  }

  lemma PopOne(events: multiset<Event>, e: Event)
    requires e in events
    ensures (events - multiset{e}) + multiset{e} == events && |events - multiset{e}| == |events| - 1
  {}

  // Every event of `done` comes before every event still in the queue.
  ghost predicate Before(done: seq<Event>, events: multiset<Event>) {
    forall i, f :: 0 <= i < |done| && f in events ==> done[i].timestamp <= f.timestamp
  }

  ghost predicate Split(all: multiset<Event>, done: seq<Event>, rest: multiset<Event>) {
    multiset(done) + rest == all
  }

  lemma Nothing(all: multiset<Event>)
    ensures Sorted([]) && Before([], all) && Split(all, [], all)
  {}

  // Popping the top extends a sorted list that comes before the queue.
  lemma PopTop(all: multiset<Event>, done: seq<Event>, events: multiset<Event>, top: Event)
    requires Sorted(done) && Before(done, events) && IsTop(top, events) && Split(all, done, events)
    ensures Sorted(done + [top]) && Before(done + [top], events - multiset{top})
    ensures Split(all, done + [top], events - multiset{top})
    ensures |events - multiset{top}| == |events| - 1
  {
    PopOne(events, top);
    assert multiset(done + [top]) == multiset(done) + multiset{top};
    forall i, f | 0 <= i < |done + [top]| && f in events - multiset{top}
      ensures (done + [top])[i].timestamp <= f.timestamp
    {
      assert f in events;
    }
    assert top in events;
  }

  method WriteRecord(file: seq<u8>, e: Event) returns (r: seq<u8>)
    ensures r == file + Record(e)
  {
    hide LittleEndian;
    r := EncodeU64LE(e.timestamp, file);
    r := EncodeU64LE(|e.message|, r);
    r := r + e.message;
  }

  // Opened for appending.
  method SaveOld(olds: seq<Event>, file: seq<u8>) returns (r: seq<u8>)
    ensures r == file + Records(olds)
  {
    hide Record;
    r := file;
    for i := 0 to |olds|
      invariant r == file + Records(olds[..i])
    {
      r := WriteRecord(r, olds[i]);
      RecordsLast(olds[..i], olds[i]);
      assert olds[..i + 1] == olds[..i] + [olds[i]];
    }
    assert olds[..|olds|] == olds;
  }

  // Opened for writing, which empties the file; drains a copy of the queue.
  method SaveCurrentEvents(events: multiset<Event>) returns (r: seq<u8>)
    ensures ParseFile(r).Some? && Sorted(ParseFile(r).value) && multiset(ParseFile(r).value) == events
  {
    hide Record, ParseFile, Sorted, Before, IsTop, Split;
    ghost var order := [];
    r := [];
    Nothing(events);
    var copy := events;
    while |copy| > 0
      invariant Sorted(order) && Before(order, copy) && Split(events, order, copy)
      invariant r == Records(order)
      decreases |copy|
    {
      var element := Top(copy);
      r := WriteRecord(r, element);
      RecordsLast(order, element);
      PopTop(events, order, copy, element);
      order := order + [element];
      copy := copy - multiset{element};
    }
    SplitOff(events, order, copy);
    RecordsParse(order);
  }

  lemma SplitOff(all: multiset<Event>, done: seq<Event>, rest: multiset<Event>)
    requires Split(all, done, rest) && |rest| == 0
    ensures multiset(done) == all
  {}

  ghost predicate OnlyDue(es: seq<Event>, now: int) {
    forall i :: 0 <= i < |es| ==> Due(es[i], now)
  }

  ghost predicate NoneDue(events: multiset<Event>, now: int) {
    forall e :: e in events ==> !Due(e, now)
  }

  lemma OneMoreDue(es: seq<Event>, e: Event, now: int)
    ensures OnlyDue([], now)
    ensures OnlyDue(es, now) && Due(e, now) ==> OnlyDue(es + [e], now)
  {}

  // Timestamps are seconds, the clock is in nanoseconds.
  lemma DueIsPast(es: seq<Event>, events: multiset<Event>, now: int)
    ensures OnlyDue(es, now) <==> forall i :: 0 <= i < |es| ==> now > es[i].timestamp * 1_000_000_000
    ensures NoneDue(events, now) <==> forall e :: e in events ==> now <= e.timestamp * 1_000_000_000
  {}

  // The queue is looked at through its top only.
  lemma TopDecides(events: multiset<Event>, top: Event, now: int)
    requires events != multiset{} ==> IsTop(top, events) && !Due(top, now)
    ensures NoneDue(events, now)
  {}

  lemma MovedIsAllDue(before: multiset<Event>, after: multiset<Event>, moved: seq<Event>, now: int)
    requires Split(before, moved, after)
    requires OnlyDue(moved, now) && NoneDue(after, now)
    ensures AllDue(moved, before, now)
    ensures before - multiset(moved) == after
  {
    forall e: Event ensures multiset(moved)[e] == if Due(e, now) then before[e] else 0 {
      if multiset(moved)[e] > 0 {
        assert e in moved;
      }
    }
  }

  class Server {
    var events: multiset<Event>
    var expired: seq<Event>
    var makeSnapshot: bool
    var eventsFile: seq<u8>
    var historyFile: seq<u8>

    ghost function View(): State
      reads this
    {
      State(events, expired, makeSnapshot, eventsFile, historyFile)
    }

    // The constructor and Start, on the files of an earlier run.
    constructor (eventsFile: seq<u8>, historyFile: seq<u8>, heap: nat -> u8)
      ensures View() == State(multiset(EventsRead(eventsFile, heap)), [], false, eventsFile, historyFile)
      ensures ParseFile(eventsFile).Some? ==> Reloads(State(multiset{}, [], false, eventsFile, historyFile), View())
    {
      this.eventsFile, this.historyFile := eventsFile, historyFile;
      expired, makeSnapshot := [], false;
      events := multiset{};
      new;
      hide ParseFile, CutAll, EventsRead;
      var loaded := ReadEventsFrom(eventsFile, heap);
      for i := 0 to |loaded|
        invariant View() == State(multiset(loaded[..i]), [], false, eventsFile, historyFile)
      {
        assert loaded[..i + 1] == loaded[..i] + [loaded[i]];
        events := events + multiset{loaded[i]};
      }
      assert loaded[..|loaded|] == loaded;
      if ParseFile(eventsFile).Some? {
        ParsedRecords(eventsFile);
        ReadBack(ParseFile(eventsFile).value, heap);
      }
    }

    // The lambda of Start that gets each packet; it stops where the copy would leave the packet.
    method OnPacket(buffer: seq<u8>) returns (ok: bool)
      modifies this`events, this`makeSnapshot
      ensures ok <==> ParseRecord(buffer).Some?
      ensures ok ==> Next(old(View()), Receive(ParseRecord(buffer).value.0), View())
      ensures !ok ==> View() == old(View())
    {
      hide ParseRecord;
      var decoded := FromBuffer(buffer);
      if decoded.None? {
        return false;
      }
      var received := decoded.value;
      for i := 0 to |received|
        invariant events == old(events) + multiset(received[..i])
      {
        assert received[..i + 1] == received[..i] + [received[i]];
        events := events + multiset{received[i]};
      }
      assert received[..|received|] == received;
      makeSnapshot := true;
      return true;
    }

    // The inner loop of Tick: expires the top as long as it is due.
    method ExpireDue(now: int) returns (poppedEvent: bool, ghost moved: seq<Event>)
      requires |events| > 0
      modifies this`events, this`expired
      ensures Sorted(moved) && OnlyDue(moved, now) && NoneDue(events, now)
      ensures Split(old(events), moved, events)
      ensures expired == old(expired) + moved && (poppedEvent <==> moved != [])
    {
      hide *;
      moved, poppedEvent := [], false;
      Nothing(events);
      OneMoreDue([], Event(0, []), now);
      var top := Top(events);
      while |events| > 0 && Due(top, now)
        invariant |events| > 0 ==> IsTop(top, events)
        invariant Sorted(moved) && Before(moved, events) && Split(old(events), moved, events) && OnlyDue(moved, now)
        invariant expired == old(expired) + moved && (poppedEvent <==> moved != [])
        decreases |events|
      {
        PopTop(old(events), moved, events, top);
        OneMoreDue(moved, top, now);
        ConcatAssociates(old(expired), moved, [top]);
        moved := moved + [top];
        expired := expired + [top];
        events := events - multiset{top};
        poppedEvent := true;
        if |events| > 0 {
          top := Top(events);
        }
      }
      TopDecides(events, top, now);
    }

    // One turn of the loop of Tick, at a given time.
    method OnTick(now: int)
      modifies this
      ensures Next(old(View()), Tick(now), View())
    {
      hide Sorted, AllDue, OnlyDue, NoneDue, Split;
      ghost var moved := [];
      if |events| == 0 {
        Nothing(events);
        OneMoreDue([], Event(0, []), now);
        TopDecides(events, Event(0, []), now);
      } else {
        var poppedEvent;
        poppedEvent, moved := ExpireDue(now);
        if poppedEvent { makeSnapshot := true; }
      }
      MovedIsAllDue(old(events), events, moved, now);
      assert Moves(old(View()), View(), now, moved);
    }

    // One turn of the loop of Snapshot, once the condition variable lets it through.
    method OnSnapshot()
      requires makeSnapshot
      modifies this
      ensures Next(old(View()), Snapshot, View())
    {
      eventsFile := SaveCurrentEvents(events);
      ghost var order := ParseFile(eventsFile).value;
      ParsedRecords(eventsFile);
      historyFile := SaveOld(expired, historyFile);
      expired := [];
      makeSnapshot := false;
      assert Saves(old(View()), View(), order);
    }
  }
}
