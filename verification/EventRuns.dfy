/**
 Whole runs of the event log: what retention keeps, how each process numbers its
 events, and what a reader that feeds every cursor back receives.
 */
module EventRuns {
  import opened Common
  import opened Events

  datatype Step = Add(draft: Draft, now: int) | Clean(keep: nat, cutoff: int) | Read(limit: int)

  function NextLog(log: Log, step: Step): Log {
    match step
    case Add(d, now) => Append(log, d, now)
    case Clean(keep, cutoff) => Cleanup(log, keep, cutoff)
    case Read(_) => log
  }

  function RunLog(log: Log, steps: seq<Step>): Log {
    if steps == [] then log else NextLog(RunLog(log, steps[..|steps| - 1]), steps[|steps| - 1])
  }

  lemma EmptyInv()
    ensures LogInv(EMPTY)
  {
    FilterNone([], (e: Event) => e.id > Watermark(map[], e.workspace));
  }

  lemma NextKeepsLogInv(log: Log, step: Step)
    requires LogInv(log)
    ensures LogInv(NextLog(log, step))
  {
    hide LogInv;
    match step
    case Add(d, now) => AppendKeepsInv(log, d, now);
    case Clean(keep, cutoff) => CleanupKeepsInv(log, keep, cutoff);
    case Read(_) =>
  }

  lemma {:induction false} RunKeepsLogInv(log: Log, steps: seq<Step>)
    requires LogInv(log)
    ensures LogInv(RunLog(log, steps))
  {
    hide LogInv;
    if steps != [] {
      RunKeepsLogInv(log, steps[..|steps| - 1]);
      NextKeepsLogInv(RunLog(log, steps[..|steps| - 1]), steps[|steps| - 1]);
    }
  }

  lemma NextGrows(log: Log, step: Step)
    requires LogInv(log)
    ensures log.history <= NextLog(log, step).history && log.lastId <= NextLog(log, step).lastId
    ensures forall ws :: Watermark(log.watermarks, ws) <= Watermark(NextLog(log, step).watermarks, ws)
  {
    hide LogInv, NewEvent, RaisedMarks, Retained;
    match step
    case Add(d, now) => NewEventId(log, d, now);
    case Clean(keep, cutoff) => MarksRise(log, keep, cutoff);
    case Read(_) =>
  }

  /** The log only grows at its end, and no watermark falls. */
  lemma {:induction false} RunGrows(log: Log, steps: seq<Step>)
    requires LogInv(log)
    ensures log.history <= RunLog(log, steps).history && log.lastId <= RunLog(log, steps).lastId
    ensures forall ws :: Watermark(log.watermarks, ws) <= Watermark(RunLog(log, steps).watermarks, ws)
  {
    hide LogInv, NextLog;
    if steps != [] {
      var before := RunLog(log, steps[..|steps| - 1]);
      RunGrows(log, steps[..|steps| - 1]);
      RunKeepsLogInv(log, steps[..|steps| - 1]);
      NextGrows(before, steps[|steps| - 1]);
      assert forall ws :: Watermark(log.watermarks, ws) <= Watermark(before.watermarks, ws);
    }
  }

  // ----------------------------------------------------------------- retention

  /**
   In every reachable state the events kept for a workspace are exactly those
   ever appended to it with an id above its watermark.
   */
  lemma RetentionIsExact(steps: seq<Step>, ws: string)
    ensures var log := RunLog(EMPTY, steps);
            && Of(log.events, ws) ==
                Filter(log.history, (e: Event) => e.workspace == ws && e.id > Watermark(log.watermarks, ws))
            && Ascending(log.history)
  {
    var log := RunLog(EMPTY, steps);
    assert LogInv(log) by {
      EmptyInv();
      RunKeepsLogInv(EMPTY, steps);
    }
    var kept := (e: Event) => e.id > Watermark(log.watermarks, e.workspace);
    var mine := (e: Event) => e.workspace == ws;
    FilterTwice(log.history, kept, mine);
    FilterSame(log.history, (e: Event) => kept(e) && mine(e),
               (e: Event) => e.workspace == ws && e.id > Watermark(log.watermarks, ws));
  }

  /**
   The event at index i of a workspace survives a cleanup: it is among the newest,
   and neither it nor a later one is old.
   */
  ghost predicate Survives(mine: seq<Event>, i: nat, keep: nat, cutoff: int)
    requires i < |mine|
  {
    i + keep >= |mine| && forall j :: i <= j < |mine| ==> mine[j].createdAt >= cutoff
  }

  lemma CutIsTheLine(events: seq<Event>, ws: string, i: nat, keep: nat, cutoff: int)
    requires Ascending(events) && i < |Of(events, ws)|
    requires forall e :: e in events ==> e.id >= 1
    ensures Survives(Of(events, ws), i, keep, cutoff) <==> Of(events, ws)[i].id > Cut(events, ws, keep, cutoff)
  {
    hide Filter, Of, TimeCut;
    OfMembers(events, ws);
    TimeCutBounds(events, ws, cutoff);
    var mine := Of(events, ws);
    assert mine[i] in mine;
    assert i + keep >= |mine| <==> mine[i].id > CountCut(events, ws, keep);
    var t := TimeCut(events, ws, cutoff);
    if mine[i].id > t {
      forall j | i <= j < |mine| ensures mine[j].createdAt >= cutoff {
        assert mine[j] in mine;
      }
    } else {
      var e :| e in events && e.workspace == ws && e.createdAt < cutoff && e.id == t;
      assert e in mine;
      var j :| 0 <= j < |mine| && mine[j] == e;
      assert i <= j;
    }
  }

  lemma OfCleanup(log: Log, ws: string, keep: nat, cutoff: int)
    requires LogInv(log)
    ensures Of(Cleanup(log, keep, cutoff).events, ws) ==
            Filter(Of(log.events, ws), (e: Event) => e.id > Cut(log.events, ws, keep, cutoff))
  {
    hide Cut;
    var marks := RaisedMarks(log, keep, cutoff);
    var cut := Cut(log.events, ws, keep, cutoff);
    var kept := (e: Event) => e.id > Watermark(marks, e.workspace);
    var mine := (e: Event) => e.workspace == ws;
    var above := (e: Event) => e.id > cut;
    FilterTwice(log.events, kept, mine);
    FilterTwice(log.events, mine, above);
    RetainedMembers(log.history, log.watermarks);
    forall e | e in log.events ensures (kept(e) && mine(e)) == (mine(e) && above(e)) {
      if mine(e) { assert ws in Workspaces(log.events); }
    }
    FilterSame(log.events, (e: Event) => kept(e) && mine(e), (e: Event) => mine(e) && above(e));
    FilterSame(Of(log.events, ws), above, (e: Event) => e.id > Cut(log.events, ws, keep, cutoff));
  }

  /**
   A cleanup removes exactly the events that are not among the newest `keep` of
   their workspace, or that are old, or that precede an old one: what is left is
   at most the configured count, and none of it older than the cutoff.
   */
  lemma CleanupIsExact(log: Log, ws: string, keep: nat, cutoff: int)
    requires LogInv(log)
    ensures var was, left := Of(log.events, ws), Of(Cleanup(log, keep, cutoff).events, ws);
            && (forall i :: 0 <= i < |was| ==> (was[i] in left <==> Survives(was, i, keep, cutoff)))
            && (forall e :: e in left ==> e in was && e.createdAt >= cutoff)
            && |left| <= keep
            && Ascending(left)
  {
    hide Cut, Of, Cleanup, Retained, Survives;
    var was, left := Of(log.events, ws), Of(Cleanup(log, keep, cutoff).events, ws);
    assert Ascending(log.events) && forall e :: e in log.events ==> e.id >= 1 by {
      RetainedMembers(log.history, log.watermarks);
    }
    OfMembers(log.events, ws);
    OfCleanup(log, ws, keep, cutoff);
    var above := (e: Event) => e.id > Cut(log.events, ws, keep, cutoff);
    FilterMembers(was, above);
    FilterAscending(was, above);
    forall i | 0 <= i < |was| ensures was[i] in left <==> Survives(was, i, keep, cutoff) {
      CutIsTheLine(log.events, ws, i, keep, cutoff);
    }
    SurvivorsAreFew(was, left, keep, cutoff);
  }

  lemma SurvivorsAreFew(was: seq<Event>, left: seq<Event>, keep: nat, cutoff: int)
    requires Ascending(was) && Ascending(left)
    requires forall i :: 0 <= i < |was| ==> (was[i] in left <==> Survives(was, i, keep, cutoff))
    requires forall e :: e in left ==> e in was
    ensures |left| <= keep && forall e :: e in left ==> e.createdAt >= cutoff
  {
    var newest := if |was| > keep then was[|was| - keep..] else was;
    forall e | e in left ensures e in newest && e.createdAt >= cutoff {
      var i :| 0 <= i < |was| && was[i] == e;
      assert Survives(was, i, keep, cutoff);
      assert was[i] == newest[i - (|was| - |newest|)];
    }
    Injection(left, newest);
  }

  lemma {:induction false} Injection(left: seq<Event>, right: seq<Event>)
    requires Ascending(left) && Ascending(right)
    requires forall e :: e in left ==> e in right
    ensures |left| <= |right|
  {
    if left != [] {
      var e := left[|left| - 1];
      assert e in left;
      var i :| 0 <= i < |right| && right[i] == e;
      forall d | d in left[..|left| - 1] ensures d in right[..i] {
        var j :| 0 <= j < |left| - 1 && left[j] == d;
        assert d in left;
        var k :| 0 <= k < |right| && right[k] == d;
        assert d.id < e.id;
        assert k < i;
      }
      Injection(left[..|left| - 1], right[..i]);
    }
  }

  /** The query of a reader that wants a whole workspace. */
  function Everything(ws: string): Query {
    Query(ws, None, [])
  }

  /**
   A reader that gives no cursor starts at the newest retained id.  It is told
   that its cursor expired exactly when retention has removed every event of the
   workspace, although it asked for nothing old.
   */
  lemma TailExpires(log: Log, q: Query, limit: int, maxPageSize: nat)
    requires LogInv(log)
    ensures ListAfter(log, q, Tail(log, q.workspace), limit, maxPageSize).CursorExpired? <==>
            Of(log.events, q.workspace) == [] && q.workspace in log.watermarks && log.watermarks[q.workspace] > 0
    ensures var r := ListAfter(log, q, Tail(log, q.workspace), limit, maxPageSize);
            r.Page? ==> r.events == [] && !r.hasMore && r.cursor == Tail(log, q.workspace)
  {
    hide Filter, Of, Select, Retained;
    RetainedMembers(log.history, log.watermarks);
    OfMembers(log.events, q.workspace);
    var mine := Of(log.events, q.workspace);
    if mine != [] {
      assert mine[|mine| - 1] in mine;
    }
    forall e | e in log.events && Matches(q, e) ensures e.id <= Tail(log, q.workspace) {
      assert e in mine;
      var i :| 0 <= i < |mine| && mine[i] == e;
    }
    EmptyRange(log.events, q, Tail(log, q.workspace), log.lastId);
  }

  lemma FilterOne(e: Event, keep: Event -> bool)
    ensures Filter([e], keep) == if keep(e) then [e] else []
  {
    assert [e][..0] == [] && Filter([], keep) == [];
  }

  lemma OnlyEventCut(e: Event)
    requires e.id == 1 && e.createdAt < 1
    ensures Cut([e], e.workspace, 10, 1) == 1
  {
    hide Filter;
    FilterOne(e, (d: Event) => d.workspace == e.workspace);
    assert [e][..0] == [] && TimeCut([], e.workspace, 1) == 0;
    assert TimeCut([e], e.workspace, 1) == 1;
  }

  lemma OnlyEventMarks(log: Log, e: Event)
    requires log.events == [e] && e.id == 1 && e.createdAt < 1 && log.watermarks == map[]
    ensures RaisedMarks(log, 10, 1) == map[e.workspace := 1]
  {
    hide Cut;
    OnlyEventCut(e);
    assert Workspaces([e]) == {e.workspace} by { assert e in [e]; }
  }

  /** An only event that is old is removed, and the watermark rises to it. */
  lemma OnlyEventRemoved(log: Log, e: Event)
    requires log.events == [e] && e.id == 1 && e.createdAt < 1 && log.watermarks == map[]
    ensures var r := Cleanup(log, 10, 1);
            r.events == [] && r.watermarks == map[e.workspace := 1] && r.lastId == log.lastId
  {
    hide RaisedMarks, Filter;
    OnlyEventMarks(log, e);
    var marks := RaisedMarks(log, 10, 1);
    FilterOne(e, (d: Event) => d.id > Watermark(marks, d.workspace));
  }

  /** Such a state: one event, removed by age. */
  lemma TailExpiresAfterQuietPeriod()
    ensures var log := RunLog(EMPTY, [Add(Draft("w", None, "tool.queued", Json("")), 0), Clean(10, 1)]);
            ListAfter(log, Everything("w"), Tail(log, "w"), 100, 500) == CursorExpired(1)
  {
    var add, clean := Add(Draft("w", None, "tool.queued", Json("")), 0), Clean(10, 1);
    var log := RunLog(EMPTY, [add, clean]);
    var e := Event(1, "w", None, "tool.queued", None, 0, Json(""));
    hide Cleanup, Filter;
    assert [add, clean][..1] == [add] && [add][..0] == [];
    assert RunLog(EMPTY, []) == EMPTY && RunLog(EMPTY, [add]) == Append(EMPTY, add.draft, 0);
    var first := Append(EMPTY, add.draft, 0);
    assert first.events == [e];
    OnlyEventRemoved(first, e);
    assert log == Cleanup(first, 10, 1);
    FilterNone([], (d: Event) => d.workspace == "w");
    assert Of([], "w") == [];
  }

  // ----------------------------------------------------------------- numbering

  function OfProcess(events: seq<Event>, process: string): seq<Event> {
    Filter(events, (e: Event) => e.process == Some(process))
  }

  ghost predicate Consecutive(events: seq<Event>) {
    && (forall i :: 0 <= i < |events| ==> events[i].sequence.Some? && events[i].sequence.value >= 1)
    && (forall i :: 0 < i < |events| ==> events[i].sequence.value == events[i - 1].sequence.value + 1)
  }

  ghost predicate OneWorkspace(events: seq<Event>, process: string) {
    forall d, e :: d in events && e in events && d.process == e.process == Some(process) ==> d.workspace == e.workspace
  }

  lemma {:induction false} MaxOfConsecutive(events: seq<Event>, process: string)
    requires Consecutive(OfProcess(events, process))
    ensures var mine := OfProcess(events, process);
            MaxSequence(events, process) == if mine == [] then 0 else mine[|mine| - 1].sequence.value
  {
    if events != [] {
      var front, last := events[..|events| - 1], events[|events| - 1];
      var before, mine := OfProcess(front, process), OfProcess(events, process);
      assert mine == before + (if last.process == Some(process) then [last] else []);
      assert Consecutive(before) by {
        forall i | 0 <= i < |before| ensures before[i] == mine[i] {}
      }
      MaxOfConsecutive(front, process);
      if last.process == Some(process) && before != [] { assert mine[|mine| - 2] == before[|before| - 1]; }
    }
  }

  lemma AppendNumbers(log: Log, d: Draft, now: int, process: string)
    requires Consecutive(OfProcess(log.events, process))
    ensures Consecutive(OfProcess(Append(log, d, now).events, process))
  {
    var e := NewEvent(log, d, now);
    var mine := OfProcess(log.events, process);
    assert (log.events + [e])[..|log.events|] == log.events;
    if d.process == Some(process) {
      MaxOfConsecutive(log.events, process);
      assert OfProcess(log.events + [e], process) == mine + [e];
    }
  }

  /** In ascending order, the events above an id are the last ones. */
  lemma {:induction false} AboveIsSuffix(events: seq<Event>, keep: Event -> bool, line: nat) returns (k: nat)
    requires Ascending(events)
    requires forall e :: e in events ==> (keep(e) <==> e.id > line)
    ensures k <= |events| && Filter(events, keep) == events[k..]
  {
    hide Ascending, Filter;
    k := |events|;
    if events == [] {
      FilterNone(events, keep);
    } else {
      var front, last := events[..|events| - 1], events[|events| - 1];
      Below(events);
      assert forall e :: e in front ==> e in events;
      k := AboveIsSuffix(front, keep, line);
      FilterStep(events, keep);
      assert last in events;
      if keep(last) {
        assert Filter(events, keep) == front[k..] + [last] == events[k..];
      } else {
        FilterNone(front, keep);
        k := |events|;
        assert Filter(events, keep) == [];
      }
    }
  }

  lemma FilterStep(events: seq<Event>, keep: Event -> bool)
    requires events != []
    ensures Filter(events, keep) ==
            Filter(events[..|events| - 1], keep) + (if keep(events[|events| - 1]) then [events[|events| - 1]] else [])
  {}

  lemma CleanupNumbers(log: Log, keep: nat, cutoff: int, process: string)
    requires LogInv(log)
    requires Consecutive(OfProcess(log.events, process)) && OneWorkspace(log.history, process)
    ensures Consecutive(OfProcess(Cleanup(log, keep, cutoff).events, process))
  {
    hide RaisedMarks, Consecutive;
    var marks := RaisedMarks(log, keep, cutoff);
    var kept := (e: Event) => e.id > Watermark(marks, e.workspace);
    var own := (e: Event) => e.process == Some(process);
    var mine := OfProcess(log.events, process);
    RetainedMembers(log.history, log.watermarks);
    FilterMembers(log.events, own);
    FilterAscending(log.events, own);
    FilterTwice(log.events, kept, own);
    FilterTwice(log.events, own, kept);
    FilterSame(log.events, (e: Event) => kept(e) && own(e), (e: Event) => own(e) && kept(e));
    var line := if mine == [] then 0 else Watermark(marks, mine[0].workspace);
    forall e | e in mine ensures kept(e) <==> e.id > line {
      assert mine[0] in mine;
    }
    var k := AboveIsSuffix(mine, kept, line);
    SuffixConsecutive(mine, k);
  }

  lemma SuffixConsecutive(events: seq<Event>, k: nat)
    requires k <= |events| && Consecutive(events)
    ensures Consecutive(events[k..])
  {
  }

  /**
   While a process appends to one workspace only, its retained events carry
   consecutive numbers, whatever appends and cleanups intervene.
   */
  lemma {:induction false} NumbersAreConsecutive(steps: seq<Step>, process: string)
    requires OneWorkspace(RunLog(EMPTY, steps).history, process)
    ensures Consecutive(OfProcess(RunLog(EMPTY, steps).events, process))
  {
    hide Consecutive, OneWorkspace, LogInv, Append, Cleanup;
    EmptyInv();
    if steps == [] {
      NothingConsecutive(process);
    } else {
      var before, step := RunLog(EMPTY, steps[..|steps| - 1]), steps[|steps| - 1];
      RunKeepsLogInv(EMPTY, steps[..|steps| - 1]);
      NextGrows(before, step);
      PrefixOneWorkspace(before.history, NextLog(before, step).history, process);
      NumbersAreConsecutive(steps[..|steps| - 1], process);
      match step
      case Add(d, now) => AppendNumbers(before, d, now, process);
      case Clean(keep, cutoff) => CleanupNumbers(before, keep, cutoff, process);
      case Read(_) =>
    }
  }

  lemma NothingConsecutive(process: string)
    ensures Consecutive(OfProcess(EMPTY.events, process))
  {}

  lemma PrefixOneWorkspace(before: seq<Event>, after: seq<Event>, process: string)
    requires before <= after && OneWorkspace(after, process)
    ensures OneWorkspace(before, process)
  {}

  /** No two retained events of a process share a number, so the unique index never refuses an append. */
  ghost predicate NumbersUnique(events: seq<Event>) {
    forall d, e :: d in events && e in events && d.process == e.process && d.process.Some? && d.id != e.id ==>
                     d.sequence != e.sequence
  }

  /** Whatever workspaces a process appends to. */
  lemma {:induction false} NumbersStayUnique(steps: seq<Step>)
    ensures NumbersUnique(RunLog(EMPTY, steps).events)
  {
    if steps != [] {
      hide LogInv, RaisedMarks, Retained, MaxSequence;
      var before, step := RunLog(EMPTY, steps[..|steps| - 1]), steps[|steps| - 1];
      NumbersStayUnique(steps[..|steps| - 1]);
      match step
      case Add(d, now) =>
        if d.process.Some? { MaxSequenceIsGreatest(before.events, d.process.value); }
      case Clean(keep, cutoff) => RetainedMembers(before.events, RaisedMarks(before, keep, cutoff));
      case Read(_) =>
    }
  }

  // ------------------------------------------------------------------ a reader

  /** A reader with a fixed filter that feeds each returned cursor back, and stops when told that its cursor expired. */
  datatype Session = Session(log: Log, cursor: nat, received: seq<Event>, expired: bool)

  function NextSession(s: Session, q: Query, step: Step, maxPageSize: nat): Session {
    if step.Read? && !s.expired then
      var r := ListAfter(s.log, q, s.cursor, step.limit, maxPageSize);
      if r.CursorExpired? then s.(expired := true)
      else s.(cursor := r.cursor, received := s.received + r.events)
    else
      s.(log := NextLog(s.log, step))
  }

  function RunSession(s: Session, q: Query, steps: seq<Step>, maxPageSize: nat): Session {
    if steps == [] then s
    else NextSession(RunSession(s, q, steps[..|steps| - 1], maxPageSize), q, steps[|steps| - 1], maxPageSize)
  }

  /** What the reader holds is the matching history between its first cursor and its present one. */
  ghost predicate NoGap(s: Session, q: Query, first: nat) {
    && first <= s.cursor
    && (s.cursor == first || s.cursor <= s.log.lastId)
    && s.received == Select(s.log.history, q, first, s.cursor)
  }

  /** Events appended later lie beyond the cursor. */
  lemma {:induction false} SelectPrefix(before: seq<Event>, after: seq<Event>, q: Query, lo: nat, hi: nat, line: nat)
    requires before <= after
    requires forall e :: e in after[|before|..] ==> e.id > line
    requires lo == hi || hi <= line
    ensures Select(after, q, lo, hi) == Select(before, q, lo, hi)
  {
    if |after| > |before| {
      var front, last := after[..|after| - 1], after[|after| - 1];
      assert last in after[|before|..];
      SelectStep(after, q, lo, hi);
      assert forall e :: e in front[|before|..] ==> e in after[|before|..];
      SelectPrefix(before, front, q, lo, hi, line);
    } else {
      assert after == before;
    }
  }

  lemma NewEventsAreBeyond(log: Log, step: Step)
    requires LogInv(log)
    ensures log.history <= NextLog(log, step).history
    ensures forall e :: e in NextLog(log, step).history[|log.history|..] ==> e.id > log.lastId
  {
    hide LogInv, NewEvent, RaisedMarks, Retained;
    NextGrows(log, step);
    match step
    case Add(d, now) =>
      NewEventId(log, d, now);
      assert Append(log, d, now).history[|log.history|..] == [NewEvent(log, d, now)];
    case Clean(keep, cutoff) => assert Cleanup(log, keep, cutoff).history[|log.history|..] == [];
    case Read(_) => assert log.history[|log.history|..] == [];
  }

  lemma NextKeepsNoGap(s: Session, q: Query, first: nat, step: Step, maxPageSize: nat)
    requires LogInv(s.log) && NoGap(s, q, first)
    ensures LogInv(NextSession(s, q, step, maxPageSize).log)
    ensures NoGap(NextSession(s, q, step, maxPageSize), q, first)
  {
    hide Select, NextLog, ListAfter;
    var r := NextSession(s, q, step, maxPageSize);
    if step.Read? && !s.expired {
      var page := ListAfter(s.log, q, s.cursor, step.limit, maxPageSize);
      PageIsNextStretch(s.log, q, s.cursor, step.limit, maxPageSize);
      if page.Page? { SelectSplits(s.log.history, q, first, s.cursor, page.cursor); }
    } else {
      NextKeepsLogInv(s.log, step);
      NextGrows(s.log, step);
      NewEventsAreBeyond(s.log, step);
      SelectPrefix(s.log.history, r.log.history, q, first, s.cursor, s.log.lastId);
    }
  }

  lemma {:induction false} RunKeepsNoGap(s: Session, q: Query, first: nat, steps: seq<Step>, maxPageSize: nat)
    requires LogInv(s.log) && NoGap(s, q, first)
    ensures LogInv(RunSession(s, q, steps, maxPageSize).log)
    ensures NoGap(RunSession(s, q, steps, maxPageSize), q, first)
  {
    hide LogInv, NoGap, NextSession;
    if steps != [] {
      RunKeepsNoGap(s, q, first, steps[..|steps| - 1], maxPageSize);
      NextKeepsNoGap(RunSession(s, q, steps[..|steps| - 1], maxPageSize), q, first, steps[|steps| - 1], maxPageSize);
    }
  }

  /** The reader's log after steps in `before`, then a session starting at any cursor. */
  function Reader(before: seq<Step>, first: nat): Session {
    Session(RunLog(EMPTY, before), first, [], false)
  }

  /**
   No silent gap: a reader that starts at any cursor of any reachable log, with
   any page limits and any appends and cleanups in between, has received every
   matching event ever appended between its first cursor and its present one,
   each exactly once, in the order of their ids, and nothing else.
   */
  lemma NoSilentGap(before: seq<Step>, steps: seq<Step>, q: Query, first: nat, maxPageSize: nat)
    ensures var s := RunSession(Reader(before, first), q, steps, maxPageSize);
            && (forall e :: e in s.received <==>
                  && e in s.log.history && first < e.id <= s.cursor
                  && e.workspace == q.workspace
                  && (q.process == None || e.process == q.process)
                  && (q.kinds == [] || e.kind in q.kinds))
            && Ascending(s.received)
            && (forall i, j :: 0 <= i < j < |s.received| ==> s.received[i] != s.received[j])
  {
    hide LogInv, Select;
    var start := Reader(before, first);
    assert LogInv(start.log) by {
      EmptyInv();
      RunKeepsLogInv(EMPTY, before);
    }
    EmptyRange(start.log.history, q, first, first);
    RunKeepsNoGap(start, q, first, steps, maxPageSize);
    var s := RunSession(start, q, steps, maxPageSize);
    InvAscending(s.log);
    SelectMembers(s.log.history, q, first, s.cursor);
  }

  lemma InvAscending(log: Log)
    requires LogInv(log)
    ensures Ascending(log.history)
  {
  }

  /**
   The reader is refused exactly when a read finds its cursor below the
   watermark, and then some event of the workspace beyond the cursor is gone.
   */
  lemma ExpiryIsHonest(before: seq<Step>, steps: seq<Step>, q: Query, first: nat, limit: int, maxPageSize: nat)
    ensures var s := RunSession(Reader(before, first), q, steps, maxPageSize);
            !s.expired ==>
              (NextSession(s, q, Read(limit), maxPageSize).expired <==>
               exists e :: e in s.log.history && e !in s.log.events && e.workspace == q.workspace && e.id > s.cursor)
  {
    hide LogInv, MarksAreIds;
    var s := RunSession(Reader(before, first), q, steps, maxPageSize);
    EmptyInv();
    EmptyMarks();
    RunKeepsMarks(EMPTY, before);
    SessionKeepsMarks(Reader(before, first), q, steps, maxPageSize);
    GoneMeansBelow(s.log, q.workspace, s.cursor);
  }

  lemma EmptyMarks()
    ensures MarksAreIds(EMPTY)
  {}

  /** A watermark is the id of an event of its workspace. */
  ghost predicate MarksAreIds(log: Log) {
    forall ws :: Watermark(log.watermarks, ws) > 0 ==>
                   exists e :: e in log.history && e.workspace == ws && e.id == Watermark(log.watermarks, ws)
  }

  lemma GoneMeansBelow(log: Log, ws: string, cursor: nat)
    requires LogInv(log) && MarksAreIds(log)
    ensures cursor < Watermark(log.watermarks, ws) <==>
            exists e :: e in log.history && e !in log.events && e.workspace == ws && e.id > cursor
  {
    hide Retained;
    RetainedMembers(log.history, log.watermarks);
    if cursor < Watermark(log.watermarks, ws) {
      var e :| e in log.history && e.workspace == ws && e.id == Watermark(log.watermarks, ws);
      assert e !in log.events;
    }
  }

  lemma NextKeepsMarks(log: Log, step: Step)
    requires LogInv(log) && MarksAreIds(log)
    ensures MarksAreIds(NextLog(log, step))
  {
    hide Cut, NewEvent;
    NextGrows(log, step);
    var r := NextLog(log, step);
    assert forall e :: e in log.history ==> e in r.history;
    if step.Clean? {
      assert forall e :: e in log.events ==> e in log.history by { RetainedMembers(log.history, log.watermarks); }
      CleanKeepsMarks(log, step.keep, step.cutoff);
    } else {
      assert r.watermarks == log.watermarks;
    }
  }

  lemma CleanKeepsMarks(log: Log, keep: nat, cutoff: int)
    requires MarksAreIds(log) && forall e :: e in log.events ==> e in log.history
    ensures MarksAreIds(Cleanup(log, keep, cutoff))
  {
    hide Cut, Retained;
    var marks := RaisedMarks(log, keep, cutoff);
    forall ws | Watermark(marks, ws) > 0
      ensures exists e :: e in log.history && e.workspace == ws && e.id == Watermark(marks, ws)
    {
      if Cut(log.events, ws, keep, cutoff) > 0 { CutIsAnId(log.events, ws, keep, cutoff); }
    }
  }

  lemma {:induction false} RunKeepsMarks(log: Log, steps: seq<Step>)
    requires LogInv(log) && MarksAreIds(log)
    ensures LogInv(RunLog(log, steps)) && MarksAreIds(RunLog(log, steps))
  {
    hide LogInv, MarksAreIds, NextLog;
    RunKeepsLogInv(log, steps);
    if steps != [] {
      RunKeepsMarks(log, steps[..|steps| - 1]);
      NextKeepsMarks(RunLog(log, steps[..|steps| - 1]), steps[|steps| - 1]);
    }
  }

  lemma {:induction false} SessionKeepsMarks(s: Session, q: Query, steps: seq<Step>, maxPageSize: nat)
    requires LogInv(s.log) && MarksAreIds(s.log)
    ensures LogInv(RunSession(s, q, steps, maxPageSize).log) && MarksAreIds(RunSession(s, q, steps, maxPageSize).log)
  {
    hide LogInv, MarksAreIds, NextLog, ListAfter;
    if steps != [] {
      SessionKeepsMarks(s, q, steps[..|steps| - 1], maxPageSize);
      var before, step := RunSession(s, q, steps[..|steps| - 1], maxPageSize), steps[|steps| - 1];
      NextKeepsLogInv(before.log, step);
      NextKeepsMarks(before.log, step);
    }
  }

  /** Reading alone catches up: as many reads as there are matching events ahead leave nothing ahead. */
  lemma {:induction false} ReaderCatchesUp(s: Session, q: Query, limits: seq<int>, maxPageSize: nat)
    requires LogInv(s.log) && !s.expired && Watermark(s.log.watermarks, q.workspace) <= s.cursor
    requires |limits| >= |Select(s.log.history, q, s.cursor, s.log.lastId)|
    ensures var r := RunReads(s, q, limits, maxPageSize);
            && !r.expired
            && r.log == s.log
            && r.received == s.received + Select(s.log.history, q, s.cursor, s.log.lastId)
    decreases |limits|
  {
    hide LogInv, Select, ListAfter;
    var ahead := Select(s.log.history, q, s.cursor, s.log.lastId);
    if limits != [] {
      var page := ListAfter(s.log, q, s.cursor, limits[0], maxPageSize);
      PageIsNextStretch(s.log, q, s.cursor, limits[0], maxPageSize);
      InvAscending(s.log);
      var next := NextSession(s, q, Read(limits[0]), maxPageSize);
      if page.cursor <= s.log.lastId {
        SelectSplits(s.log.history, q, s.cursor, page.cursor, s.log.lastId);
      } else {
        EmptyPast(s.log, q, s.cursor);
      }
      ReaderCatchesUp(next, q, limits[1..], maxPageSize);
    }
  }

  lemma EmptyPast(log: Log, q: Query, cursor: nat)
    requires LogInv(log) && cursor > log.lastId
    ensures Select(log.history, q, cursor, log.lastId) == [] && Select(log.history, q, cursor, cursor) == []
  {
    EmptyRange(log.history, q, cursor, log.lastId);
    EmptyRange(log.history, q, cursor, cursor);
  }

  function RunReads(s: Session, q: Query, limits: seq<int>, maxPageSize: nat): Session
    decreases |limits|
  {
    if limits == [] then s else RunReads(NextSession(s, q, Read(limits[0]), maxPageSize), q, limits[1..], maxPageSize)
  }

  /**
   A reader that starts at the recovery cursor and follows the cursors, with any
   page limits, is never refused and receives exactly what is retained of the
   workspace; as many reads as there are retained events are enough.
   */
  lemma RecoveryReadsAll(log: Log, ws: string, limits: seq<int>, maxPageSize: nat)
    requires LogInv(log) && |limits| >= |Of(log.events, ws)|
    ensures var start := Session(log, Watermark(log.watermarks, ws), [], false);
            var r := RunReads(start, Everything(ws), limits, maxPageSize);
            !r.expired && r.log == log && r.received == Of(log.events, ws)
  {
    var q, lo := Everything(ws), Watermark(log.watermarks, ws);
    assert Select(log.history, q, lo, log.lastId) == Of(log.events, ws) by {
      NothingMissing(log.history, log.watermarks, q, lo, log.lastId);
      RetainedMembers(log.history, log.watermarks);
      FilterSame(log.events, (e: Event) => Matches(q, e) && lo < e.id <= log.lastId, (e: Event) => e.workspace == ws);
    }
    hide LogInv, Select, Of, RunReads;
    ReaderCatchesUp(Session(log, lo, [], false), q, limits, maxPageSize);
  }
}
