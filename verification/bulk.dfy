/** The one-transaction batches of the reaper, and why they do what the single operations would do in order. */
module Bulk {
  import opened Types
  import opened Metadata
  import opened Rows
  import opened History
  import opened Actions

  /** One ActionDoneUpdate or ActionFailureUpdate. */
  datatype Mark = Mark(id: int, text: string)

  /** An update that found its row already terminal. */
  datatype Lost = Lost(id: int, result: string, observed: Status)

  /** What the transaction of a bulk mark leaves behind: new tables, events to emit after the commit, lost updates. */
  datatype Batch = Batch(store: Store, events: seq<Event>, lost: seq<Lost>)

  predicate AllExist(s: Store, us: seq<Mark>) {
    forall u | u in us :: u.id in s.actions
  }

  function FirstMissing(s: Store, us: seq<Mark>): (r: Option<int>)
    ensures r.None? <==> AllExist(s, us)
  {
    if us == [] then None
    else if us[0].id !in s.actions then assert us[0] in us; Some(us[0].id)
    else
      assert us == [us[0]] + us[1..];
      FirstMissing(s, us[1..])
  }

  function MarkBatch(s: Store, us: seq<Mark>, st: Status, now: int): Batch
    requires AllExist(s, us)
    decreases |us|
  {
    if us == [] then Batch(s, [], [])
    else
      assert us[0] in us;
      var u, from := us[0], s.actions[us[0].id].status;
      if IsTerminal(from) then
        var b := MarkBatch(s, us[1..], st, now);
        b.(lost := [Lost(u.id, u.text, from)] + b.lost)
      else
        var b := MarkBatch(Finish(s, u.id, st, u.text, now), us[1..], st, now);
        b.(events := [StatusChanged(u.id, from, st, Some(u.text), None)] + b.events)
  }

  function EmitAll(s: Store, events: seq<Event>): Store {
    s.(events := s.events + events)
  }

  function BulkMarkFailed(s: Store, us: seq<Mark>, now: int): (Store, Res<()>) {
    match FirstMissing(s, us)
    case Some(id) => (s, Err(NotFound(id)))
    case None => var b := MarkBatch(s, us, Failed, now); (EmitAll(b.store, b.events), Ok(()))
  }

  function PreserveLost(s: Store, lost: seq<Lost>): (Store, Res<()>)
    decreases |lost|
  {
    if lost == [] then (s, Ok(()))
    else
      var (s1, r) := PreserveResult(s, lost[0].id, Done, lost[0].result, lost[0].observed);
      if r.Err? then (s1, r) else PreserveLost(s1, lost[1..])
  }

  function BulkMarkDone(s: Store, us: seq<Mark>, now: int): (Store, Res<()>) {
    match FirstMissing(s, us)
    case Some(id) => (s, Err(NotFound(id)))
    case None => var b := MarkBatch(s, us, Done, now); PreserveLost(EmitAll(b.store, b.events), b.lost)
  }

  /** The single operation applied to each update in order, stopping at the first error. */
  function FoldMarks(s: Store, us: seq<Mark>, st: Status, now: int): (Store, Res<()>)
    decreases |us|
  {
    if us == [] then (s, Ok(()))
    else
      var (s1, r) := MarkTerminal(s, us[0].id, st, us[0].text, now);
      if r.Err? then (s1, r) else FoldMarks(s1, us[1..], st, now)
  }

  // ----- invariants -----

  lemma FinishKeeps(s: Store, id: int, st: Status, text: string, now: int, log: seq<Event>)
    requires Core(s) && Replays(s.actions, log, s.next.action)
    requires id in s.actions && !IsTerminal(s.actions[id].status) && IsTerminal(st)
    ensures
      var s1, e := Finish(s, id, st, text, now), StatusChanged(id, s.actions[id].status, st, Some(text), None);
      && Core(s1) && Replays(s1.actions, log + [e], s1.next.action) && Evolves(s, s1, NO_EDITS)
      && s1.events == s.events && s1.edges == s.edges && s1.actions.Keys == s.actions.Keys
  {
    var row := FinishedRow(s.actions[id], st, text, now);
    PutRowCore(s, id, row, true);
    MoveReplays(s.actions, log, s.next.action, id, row, StatusChanged(id, s.actions[id].status, st, Some(text), None));
  }

  lemma CoreEvolvesTransitive(s: Store, s1: Store, s2: Store, edited: Edits)
    requires Core(s) && Evolves(s, s1, edited) && Evolves(s1, s2, edited)
    ensures Evolves(s, s2, edited)
  {
  }

  lemma {:induction false} MarkBatchKeeps(s: Store, us: seq<Mark>, st: Status, now: int, log: seq<Event>)
    requires Core(s) && AllExist(s, us) && IsTerminal(st)
    requires Replays(s.actions, log, s.next.action)
    ensures
      var b := MarkBatch(s, us, st, now);
      && Core(b.store) && Replays(b.store.actions, log + b.events, b.store.next.action)
      && Evolves(s, b.store, NO_EDITS) && b.store.events == s.events && b.store.edges == s.edges
      && b.store.actions.Keys == s.actions.Keys
    decreases |us|
  {
    hide Core, Replays, Evolves, Finish;
    if us == [] {
      assert log + [] == log;
      EvolvesSelf(s, NO_EDITS);
    } else {
      assert us[0] in us && forall v | v in us[1..] :: v in us;
      var u, a := us[0], s.actions[us[0].id];
      if IsTerminal(a.status) {
        MarkBatchKeeps(s, us[1..], st, now, log);
      } else {
        var s1 := Finish(s, u.id, st, u.text, now);
        var e := StatusChanged(u.id, a.status, st, Some(u.text), None);
        FinishKeeps(s, u.id, st, u.text, now, log);
        MarkBatchKeeps(s1, us[1..], st, now, log + [e]);
        var b := MarkBatch(s1, us[1..], st, now);
        assert log + [e] + b.events == log + ([e] + b.events);
        CoreEvolvesTransitive(s, s1, b.store, NO_EDITS);
      }
    }
  }

  /** Tables first, events after the commit. */
  lemma LoggedAdvances(s: Store, s1: Store, events: seq<Event>, edited: Edits)
    requires Core(s1) && Evolves(s, s1, edited) && s1.events == s.events
    requires Replays(s1.actions, s.events + events, s1.next.action)
    ensures Advances(s, EmitAll(s1, events), edited)
  {
  }

  lemma MarkBatchAdvances(s: Store, us: seq<Mark>, st: Status, now: int)
    requires Inv(s) && AllExist(s, us) && IsTerminal(st)
    ensures Advances(s, EmitAll(MarkBatch(s, us, st, now).store, MarkBatch(s, us, st, now).events), NO_EDITS)
  {
    MarkBatchKeeps(s, us, st, now, s.events);
    var b := MarkBatch(s, us, st, now);
    LoggedAdvances(s, b.store, b.events, NO_EDITS);
  }

  lemma BulkMarkFailedAdvances(s: Store, us: seq<Mark>, now: int)
    requires Inv(s)
    ensures Advances(s, BulkMarkFailed(s, us, now).0, NO_EDITS)
  {
    if AllExist(s, us) {
      MarkBatchAdvances(s, us, Failed, now);
    }
  }

  lemma {:induction false} PreserveLostAdvances(s: Store, lost: seq<Lost>)
    requires Inv(s)
    ensures Advances(s, PreserveLost(s, lost).0, NO_EDITS)
    decreases |lost|
  {
    if lost != [] {
      var (s1, r) := PreserveResult(s, lost[0].id, Done, lost[0].result, lost[0].observed);
      MergeMetadataAdvances(s, lost[0].id, map[SUCCESSFUL_RESULT := JStr(lost[0].result)]);
      if r.Ok? {
        PreserveLostAdvances(s1, lost[1..]);
        AdvancesTransitive(s, s1, PreserveLost(s1, lost[1..]).0, NO_EDITS);
      }
    }
  }

  lemma BulkMarkDoneAdvances(s: Store, us: seq<Mark>, now: int)
    requires Inv(s)
    ensures Advances(s, BulkMarkDone(s, us, now).0, NO_EDITS)
  {
    if AllExist(s, us) {
      var b := MarkBatch(s, us, Done, now);
      MarkBatchAdvances(s, us, Done, now);
      PreserveLostAdvances(EmitAll(b.store, b.events), b.lost);
      AdvancesTransitive(s, EmitAll(b.store, b.events), BulkMarkDone(s, us, now).0, NO_EDITS);
    }
  }

  // ----- bulk equals fold -----

  /** A batch does not look at the log. */
  lemma {:induction false} MarkBatchFrame(s: Store, us: seq<Mark>, st: Status, now: int, log: seq<Event>)
    requires AllExist(s, us)
    ensures
      var b, c := MarkBatch(s, us, st, now), MarkBatch(s.(events := log), us, st, now);
      c == b.(store := b.store.(events := log)) && b.store.events == s.events
    decreases |us|
  {
    if us != [] {
      assert us[0] in us;
      var u := us[0];
      if IsTerminal(s.actions[u.id].status) {
        MarkBatchFrame(s, us[1..], st, now, log);
      } else {
        MarkBatchFrame(Finish(s, u.id, st, u.text, now), us[1..], st, now, log);
      }
    }
  }

  /** BulkMarkFailed is MarkFailed applied to each update in order, the log included. */
  lemma {:induction false} BulkFailedIsFold(s: Store, us: seq<Mark>, now: int)
    requires AllExist(s, us)
    ensures BulkMarkFailed(s, us, now) == FoldMarks(s, us, Failed, now)
    decreases |us|
  {
    if us == [] {
      assert s.events + [] == s.events;
    } else {
      assert us[0] in us;
      var u, a := us[0], s.actions[us[0].id];
      if IsTerminal(a.status) {
        BulkFailedIsFold(s, us[1..], now);
      } else {
        var s1 := Finish(s, u.id, Failed, u.text, now);
        var e := StatusChanged(u.id, a.status, Failed, Some(u.text), None);
        var b := MarkBatch(s1, us[1..], Failed, now);
        MarkBatchFrame(s1, us[1..], Failed, now, s.events + [e]);
        assert s.events + ([e] + b.events) == s.events + [e] + b.events;
        BulkFailedIsFold(Emit(s1, e), us[1..], now);
      }
    }
  }

  /** The events of one action, in order. */
  predicate Concerns(e: Event, id: int) {
    match e
    case Created(i, _) => i == id
    case Claimed(i) => i == id
    case StatusChanged(i, _, _, _, _) => i == id
    case MetadataMerged(i, _) => i == id
    case _ => false
  }

  function LogOf(events: seq<Event>, id: int): seq<Event> {
    if events == [] then []
    else (if Concerns(events[0], id) then [events[0]] else []) + LogOf(events[1..], id)
  }

  lemma {:induction false} LogOfAppend(a: seq<Event>, b: seq<Event>, id: int)
    ensures LogOf(a + b, id) == LogOf(a, id) + LogOf(b, id)
    decreases |a|
  {
    if a == [] {
      assert a + b == b;
    } else {
      hide Concerns;
      assert (a + b)[0] == a[0] && (a + b)[1..] == a[1..] + b;
      LogOfAppend(a[1..], b, id);
    }
  }

  ghost predicate SameLogs(a: seq<Event>, b: seq<Event>) {
    forall id :: LogOf(a, id) == LogOf(b, id)
  }

  /** Equal tables; logs that differ only in how the events of different actions interleave. */
  ghost predicate Same(s: Store, t: Store) {
    s == t.(events := s.events) && SameLogs(s.events, t.events)
  }

  lemma {:induction false} PreserveLostFrame(s: Store, t: Store, lost: seq<Lost>)
    requires Same(s, t)
    ensures PreserveLost(s, lost).1 == PreserveLost(t, lost).1
    ensures Same(PreserveLost(s, lost).0, PreserveLost(t, lost).0)
    decreases |lost|
  {
    if lost != [] {
      var l := lost[0];
      var s1, t1 := PreserveResult(s, l.id, Done, l.result, l.observed),
          PreserveResult(t, l.id, Done, l.result, l.observed);
      assert s1.1 == t1.1;
      assert Same(s1.0, t1.0) by {
        var e := MetadataMerged(l.id, {SUCCESSFUL_RESULT});
        assert map[SUCCESSFUL_RESULT := JStr(l.result)].Keys == {SUCCESSFUL_RESULT};
        forall id ensures LogOf(s.events + [e], id) == LogOf(t.events + [e], id) {
          LogOfAppend(s.events, [e], id);
          LogOfAppend(t.events, [e], id);
        }
      }
      PreserveLostFrame(s1.0, t1.0, lost[1..]);
    }
  }

  /** The metadata write of a merge, without its event. */
  function MergeRow(s: Store, id: int, meta: Meta): Store
    requires id in s.actions
  {
    PutRow(s, id, s.actions[id].(meta := meta), true)
  }

  lemma FinishMergeCommute(s: Store, id: int, meta: Meta, u: Mark, now: int)
    requires id in s.actions && u.id in s.actions && u.id != id
    ensures Finish(MergeRow(s, id, meta), u.id, Done, u.text, now)
         == MergeRow(Finish(s, u.id, Done, u.text, now), id, meta)
  {
    var a, b := Finish(MergeRow(s, id, meta), u.id, Done, u.text, now),
        MergeRow(Finish(s, u.id, Done, u.text, now), id, meta);
    assert a.actions == b.actions;
    assert a.actionSearch == b.actionSearch;
  }

  lemma RowViews(s: Store, id: int, meta: Meta, u: Mark, now: int)
    requires id in s.actions && u.id in s.actions && u.id != id
    ensures MergeRow(s, id, meta).actions.Keys == s.actions.Keys
    ensures forall i | i in s.actions :: MergeRow(s, id, meta).actions[i].status == s.actions[i].status
    ensures Finish(s, u.id, Done, u.text, now).actions.Keys == s.actions.Keys
    ensures Finish(s, u.id, Done, u.text, now).actions[id] == s.actions[id]
  {
  }

  lemma {:induction false} BatchKeepsTerminal(s: Store, us: seq<Mark>, now: int, id: int)
    requires AllExist(s, us) && id in s.actions && IsTerminal(s.actions[id].status)
    ensures id in MarkBatch(s, us, Done, now).store.actions
    ensures MarkBatch(s, us, Done, now).store.actions[id] == s.actions[id]
    decreases |us|
  {
    if us != [] {
      assert us[0] in us;
      if IsTerminal(s.actions[us[0].id].status) {
        BatchKeepsTerminal(s, us[1..], now, id);
      } else {
        BatchKeepsTerminal(Finish(s, us[0].id, Done, us[0].text, now), us[1..], now, id);
      }
    }
  }

  /** Marking other rows commutes with merging metadata into a terminal row. */
  lemma {:induction false} MergeCommutes(s: Store, us: seq<Mark>, now: int, id: int, meta: Meta)
    requires id in s.actions && IsTerminal(s.actions[id].status)
    requires AllExist(s, us) && AllExist(MergeRow(s, id, meta), us)
    requires id in MarkBatch(s, us, Done, now).store.actions
    ensures MarkBatch(MergeRow(s, id, meta), us, Done, now)
         == MarkBatch(s, us, Done, now).(store := MergeRow(MarkBatch(s, us, Done, now).store, id, meta))
    decreases |us|
  {
    if us != [] {
      assert us[0] in us;
      var u, rest := us[0], us[1..];
      if IsTerminal(s.actions[u.id].status) {
        MergeCommutes(s, rest, now, id, meta);
      } else {
        RowViews(s, id, meta, u, now);
        FinishMergeCommute(s, id, meta, u, now);
        hide PutRow, Finish, MergeRow;
        MergeCommutes(Finish(s, u.id, Done, u.text, now), rest, now, id, meta);
      }
    }
  }

  /** No event of the batch concerns a row that was terminal before it. */
  lemma {:induction false} BatchSkipsTerminal(s: Store, us: seq<Mark>, now: int, id: int)
    requires AllExist(s, us) && id in s.actions && IsTerminal(s.actions[id].status)
    ensures LogOf(MarkBatch(s, us, Done, now).events, id) == []
    decreases |us|
  {
    if us != [] {
      assert us[0] in us;
      var u := us[0];
      if IsTerminal(s.actions[u.id].status) {
        BatchSkipsTerminal(s, us[1..], now, id);
      } else {
        var s1 := Finish(s, u.id, Done, u.text, now);
        BatchSkipsTerminal(s1, us[1..], now, id);
        LogOfAppend([StatusChanged(u.id, s.actions[u.id].status, Done, Some(u.text), None)],
                    MarkBatch(s1, us[1..], Done, now).events, id);
      }
    }
  }

  lemma SwapEvents(log: seq<Event>, batch: seq<Event>, e: Event, id: int)
    requires e.MetadataMerged? && e.id == id && LogOf(batch, id) == []
    ensures SameLogs(log + batch + [e], log + [e] + batch)
  {
    forall i ensures LogOf(log + batch + [e], i) == LogOf(log + [e] + batch, i) {
      LogOfAppend(log + batch, [e], i);
      LogOfAppend(log, batch, i);
      LogOfAppend(log + [e], batch, i);
      LogOfAppend(log, [e], i);
    }
  }

  /** The head update found its row terminal and keeps its result: merging before or after the rest is the same. */
  lemma KeptHead(s: Store, us: seq<Mark>, now: int)
    requires us != [] && AllExist(s, us) && AllExist(s, us[1..]) && IsTerminal(s.actions[us[0].id].status)
    requires KeepsLostResult(Done, us[0].text, s.actions[us[0].id].status)
    requires MarkTerminal(s, us[0].id, Done, us[0].text, now).1.Ok?
    ensures
      var s1 := MarkTerminal(s, us[0].id, Done, us[0].text, now).0;
      && AllExist(s1, us[1..])
      && BulkMarkDone(s, us, now).1 == BulkMarkDone(s1, us[1..], now).1
      && Same(BulkMarkDone(s, us, now).0, BulkMarkDone(s1, us[1..], now).0)
  {
    assert us[0] in us;
    var u, rest := us[0], us[1..];
    var a := s.actions[u.id];
    var updates := map[SUCCESSFUL_RESULT := JStr(u.text)];
    var meta := Merge(a.meta, updates).value;
    var e := MetadataMerged(u.id, updates.Keys);
    var m := MergeRow(s, u.id, meta);
    BatchKeepsTerminal(s, rest, now, u.id);
    MergeCommutes(s, rest, now, u.id, meta);
    var b := MarkBatch(s, rest, Done, now);
    MarkBatchFrame(m, rest, Done, now, s.events + [e]);
    MarkBatchFrame(s, rest, Done, now, s.events);
    var x := EmitAll(MergeRow(b.store, u.id, meta), b.events + [e]);
    var y := MergeRow(b.store, u.id, meta).(events := s.events + [e] + b.events);
    assert s.events + (b.events + [e]) == s.events + b.events + [e];
    BatchSkipsTerminal(s, rest, now, u.id);
    SwapEvents(s.events, b.events, e, u.id);
    assert Same(x, y);
    PreserveLostFrame(x, y, b.lost);
    assert MarkBatch(s, us, Done, now) == b.(lost := [Lost(u.id, u.text, a.status)] + b.lost);
    var bulk := EmitAll(b.store, b.events);
    assert PreserveResult(bulk, u.id, Done, u.text, a.status).0 == x;
  }

  /** The head update keeps nothing, or finishes its row: the batch continues from the single operation's state. */
  lemma PlainHead(s: Store, us: seq<Mark>, now: int)
    requires us != [] && AllExist(s, us) && AllExist(s, us[1..])
    requires !KeepsLostResult(Done, us[0].text, s.actions[us[0].id].status)
    ensures
      var s1 := MarkTerminal(s, us[0].id, Done, us[0].text, now).0;
      AllExist(s1, us[1..]) && BulkMarkDone(s, us, now) == BulkMarkDone(s1, us[1..], now)
  {
    assert us[0] in us;
    var u, a := us[0], s.actions[us[0].id];
    if !IsTerminal(a.status) {
      var s1 := Finish(s, u.id, Done, u.text, now);
      var e := StatusChanged(u.id, a.status, Done, Some(u.text), None);
      var b := MarkBatch(s1, us[1..], Done, now);
      MarkBatchFrame(s1, us[1..], Done, now, s.events + [e]);
      assert s.events + ([e] + b.events) == s.events + [e] + b.events;
    }
  }

  /**
    BulkMarkDone succeeds iff MarkDone in order does, and then leaves the same tables and the same log of
    every action.
   */
  lemma {:induction false} BulkDoneFolds(s: Store, us: seq<Mark>, now: int)
    requires AllExist(s, us)
    ensures BulkMarkDone(s, us, now).1.Ok? <==> FoldMarks(s, us, Done, now).1.Ok?
    ensures BulkMarkDone(s, us, now).1.Ok? ==> Same(BulkMarkDone(s, us, now).0, FoldMarks(s, us, Done, now).0)
    decreases |us|
  {
    if us == [] {
      assert s.events + [] == s.events;
    } else {
      assert us[0] in us && forall u | u in us[1..] :: u in us;
      var u, a := us[0], s.actions[us[0].id];
      var s1 := MarkTerminal(s, u.id, Done, u.text, now);
      if s1.1.Err? {
        var b := MarkBatch(s, us[1..], Done, now);
        BatchKeepsTerminal(s, us[1..], now, u.id);
        assert MarkBatch(s, us, Done, now).lost[0] == Lost(u.id, u.text, a.status);
      } else {
        if KeepsLostResult(Done, u.text, a.status) {
          KeptHead(s, us, now);
        } else {
          PlainHead(s, us, now);
        }
        BulkDoneFolds(s1.0, us[1..], now);
      }
    }
  }

  /**
    The store before the call lets every lost output be kept: no failed or cancelled row of the batch has
    metadata that does not parse.
   */
  predicate Preservable(s: Store, us: seq<Mark>)
    requires AllExist(s, us)
  {
    forall u | u in us :: !Unkept(s, u)
  }

  /** An output that preserveSuccessfulResultOnRaceLoss refuses to store. */
  predicate Unkept(s: Store, u: Mark) {
    && u.id in s.actions && KeepsLostResult(Done, u.text, s.actions[u.id].status)
    && GoParse(s.actions[u.id].meta).None?
  }

  /** With any id missing a bulk mark changes nothing. */
  lemma BulkMissingUnchanged(s: Store, us: seq<Mark>, now: int)
    requires !AllExist(s, us)
    ensures BulkMarkDone(s, us, now).0 == s && BulkMarkDone(s, us, now).1.Err?
    ensures BulkMarkFailed(s, us, now).0 == s && BulkMarkFailed(s, us, now).1.Err?
  {
  }

  // ----- what a batch does to each row -----

  function RowAfterMark(a: Action, st: Status, text: string, now: int): Action {
    if st == Done then DoneRow(a, text, now) else FailedRow(a, text, now)
  }

  /** The updates of one id applied to its row in order. */
  function RowAfterMarks(a: Action, id: int, us: seq<Mark>, st: Status, now: int): Action
    decreases |us|
  {
    if us == [] then a
    else RowAfterMarks(if us[0].id == id then RowAfterMark(a, st, us[0].text, now) else a, id, us[1..], st, now)
  }

  ghost predicate OnlyActionsDiffer(s: Store, t: Store) {
    && t.actions.Keys == s.actions.Keys
    && t.projects == s.projects && t.tasks == s.tasks && t.schedules == s.schedules && t.edges == s.edges
    && t.taskSearch == s.taskSearch && t.next == s.next
  }

  lemma PutOthers(s: Store, id: int, a: Action)
    requires id in s.actions
    ensures forall e :: OnlyActionsDiffer(s, Emit(PutRow(s, id, a, true), e))
  {
  }

  lemma MarkOthers(s: Store, id: int, st: Status, text: string, now: int)
    ensures OnlyActionsDiffer(s, MarkTerminal(s, id, st, text, now).0)
  {
    if id in s.actions {
      var a, updates := s.actions[id], map[SUCCESSFUL_RESULT := JStr(text)];
      if !IsTerminal(a.status) {
        PutOthers(s, id, FinishedRow(a, st, text, now));
      } else if KeepsLostResult(st, text, a.status) && Merge(a.meta, updates).Some? {
        PutOthers(s, id, a.(meta := Merge(a.meta, updates).value));
      }
    }
  }

  lemma MarkRow(s: Store, id: int, st: Status, text: string, now: int)
    requires st == Done || st == Failed
    requires MarkTerminal(s, id, st, text, now).1.Ok?
    ensures id in s.actions && MarkTerminal(s, id, st, text, now).0.actions
                            == s.actions[id := RowAfterMark(s.actions[id], st, text, now)]
  {
    var a, updates := s.actions[id], map[SUCCESSFUL_RESULT := JStr(text)];
    if IsTerminal(a.status) {
      if KeepsLostResult(st, text, a.status) {
        assert Merge(a.meta, updates).value.m == GoParse(a.meta).value[SUCCESSFUL_RESULT := JStr(text)];
      }
    }
  }

  lemma {:induction false} FoldRows(s: Store, us: seq<Mark>, st: Status, now: int)
    requires st == Done || st == Failed
    requires FoldMarks(s, us, st, now).1.Ok?
    ensures OnlyActionsDiffer(s, FoldMarks(s, us, st, now).0)
    ensures forall id | id in s.actions ::
              FoldMarks(s, us, st, now).0.actions[id] == RowAfterMarks(s.actions[id], id, us, st, now)
    decreases |us|
  {
    if us != [] {
      MarkRow(s, us[0].id, st, us[0].text, now);
      MarkOthers(s, us[0].id, st, us[0].text, now);
      hide MarkTerminal, RowAfterMark;
      FoldRows(MarkTerminal(s, us[0].id, st, us[0].text, now).0, us[1..], st, now);
    }
  }

  /** Row by row, a bulk mark as failed is the marks for that row applied in order. */
  lemma BulkFailedRows(s: Store, us: seq<Mark>, now: int)
    requires AllExist(s, us)
    ensures
      var s' := BulkMarkFailed(s, us, now).0;
      && OnlyActionsDiffer(s, s')
      && forall id | id in s.actions :: s'.actions[id] == RowAfterMarks(s.actions[id], id, us, Failed, now)
  {
    BulkFailedIsFold(s, us, now);
    FoldRows(s, us, Failed, now);
  }

  /** The text of the first update of an id. */
  function FirstText(us: seq<Mark>, id: int): Option<string>
    decreases |us|
  {
    if us == [] then None else if us[0].id == id then Some(us[0].text) else FirstText(us[1..], id)
  }

  /** The last non-empty text among the updates of an id. */
  function LastText(us: seq<Mark>, id: int): Option<string>
    decreases |us|
  {
    if us == [] then None
    else if LastText(us[1..], id).Some? then LastText(us[1..], id)
    else if us[0].id == id && us[0].text != "" then Some(us[0].text)
    else None
  }

  /** Where the outputs reported for a row end up: the first as its result, or the last kept beside the failure. */
  function SettledRow(a: Action, id: int, us: seq<Mark>, now: int): Action {
    if a.status == Done then a
    else if !IsTerminal(a.status) then
      if FirstText(us, id).Some? then FinishedRow(a, Done, FirstText(us, id).value, now) else a
    else if LastText(us, id).Some? && GoParse(a.meta).Some? then
      a.(meta := Obj(GoParse(a.meta).value[SUCCESSFUL_RESULT := JStr(LastText(us, id).value)]))
    else a
  }

  lemma {:induction false} RowSettles(a: Action, id: int, us: seq<Mark>, now: int)
    ensures RowAfterMarks(a, id, us, Done, now) == SettledRow(a, id, us, now)
    decreases |us|
  {
    if us != [] {
      var a1 := if us[0].id == id then DoneRow(a, us[0].text, now) else a;
      RowSettles(a1, id, us[1..], now);
      if GoParse(a.meta).Some? && LastText(us[1..], id).Some? {
        var m, t := GoParse(a.meta).value, JStr(LastText(us[1..], id).value);
        assert m[SUCCESSFUL_RESULT := JStr(us[0].text)][SUCCESSFUL_RESULT := t] == m[SUCCESSFUL_RESULT := t];
      }
    }
  }

  /** Row by row, a bulk mark as done that keeps every lost output is the marks for that row applied in order. */
  lemma BulkDoneRows(s: Store, us: seq<Mark>, now: int)
    requires AllExist(s, us) && Preservable(s, us)
    ensures
      var s' := BulkMarkDone(s, us, now).0;
      && OnlyActionsDiffer(s, s')
      && forall id | id in s.actions :: s'.actions[id] == RowAfterMarks(s.actions[id], id, us, Done, now)
  {
    BulkDoneKeepsOutput(s, us, now);
    assert us[..FirstUnkept(s, us)] == us;
    forall id | id in s.actions
      ensures RowAfterMarks(s.actions[id], id, us, Done, now) == SettledRow(s.actions[id], id, us, now)
    {
      RowSettles(s.actions[id], id, us, now);
    }
  }

  // ----- where outputs end up when one cannot be kept -----

  /** Index of the first output that cannot be stored; the length of the batch when there is none. */
  function FirstUnkept(s: Store, us: seq<Mark>): (k: nat)
    ensures k <= |us|
    ensures forall i | 0 <= i < k :: !Unkept(s, us[i])
    ensures k < |us| ==> Unkept(s, us[k])
  {
    if us == [] || Unkept(s, us[0]) then 0 else 1 + FirstUnkept(s, us[1..])
  }

  /** What the outputs of us leave beside a row that was seen failed or cancelled. */
  function KeptRow(a: Action, observed: Status, id: int, us: seq<Mark>): Action {
    if (observed == Failed || observed == Cancelled) && LastText(us, id).Some? && GoParse(a.meta).Some? then
      a.(meta := Obj(GoParse(a.meta).value[SUCCESSFUL_RESULT := JStr(LastText(us, id).value)]))
    else a
  }

  /** t has the rows of s that lost their race, up to metadata that parses or not as in s. */
  ghost predicate SameLosers(s: Store, t: Store) {
    && t.actions.Keys == s.actions.Keys
    && forall id | id in s.actions && (s.actions[id].status == Failed || s.actions[id].status == Cancelled) ::
         GoParse(t.actions[id].meta).Some? == GoParse(s.actions[id].meta).Some?
  }

  lemma KeptRowStep(a: Action, observed: Status, id: int, u: Mark, us: seq<Mark>)
    requires GoParse(a.meta).Some?
    ensures
      var m := Obj(GoParse(a.meta).value[SUCCESSFUL_RESULT := JStr(u.text)]);
      var kept := u.id == id && KeepsLostResult(Done, u.text, observed);
      KeptRow(a, observed, id, [u] + us) == KeptRow(if kept then a.(meta := m) else a, observed, id, us)
  {
    assert ([u] + us)[1..] == us;
    if LastText(us, id).Some? {
      var m, x := GoParse(a.meta).value, JStr(LastText(us, id).value);
      assert m[SUCCESSFUL_RESULT := JStr(u.text)][SUCCESSFUL_RESULT := x] == m[SUCCESSFUL_RESULT := x];
    }
  }

  lemma KeptRowSame(a: Action, observed: Status, id: int, u: Mark, us: seq<Mark>)
    requires u.id != id || !KeepsLostResult(Done, u.text, observed)
    ensures KeptRow(a, observed, id, [u] + us) == KeptRow(a, observed, id, us)
  {
    assert ([u] + us)[1..] == us;
  }

  lemma {:induction false} SameUnkept(s: Store, t: Store, us: seq<Mark>)
    requires forall u | u in us :: Unkept(s, u) == Unkept(t, u)
    ensures FirstUnkept(s, us) == FirstUnkept(t, us)
    decreases |us|
  {
    if us != [] {
      assert us[0] in us && forall u | u in us[1..] :: u in us;
      SameUnkept(s, t, us[1..]);
    }
  }

  lemma FinishedKeeps(s: Store, u: Mark, now: int)
    requires u.id in s.actions && !IsTerminal(s.actions[u.id].status)
    ensures
      var s1 := Finish(s, u.id, Done, u.text, now);
      && OnlyActionsDiffer(s, s1)
      && s1.actions == s.actions[u.id := FinishedRow(s.actions[u.id], Done, u.text, now)]
      && forall v :: Unkept(s, v) == Unkept(s1, v)
  {
  }

  lemma KeptMerge(t: Store, u: Mark, observed: Status)
    requires u.id in t.actions && KeepsLostResult(Done, u.text, observed)
    ensures
      var a, (t1, r) := t.actions[u.id], PreserveResult(t, u.id, Done, u.text, observed);
      && (r.Ok? <==> GoParse(a.meta).Some?) && (r.Err? ==> t1 == t) && OnlyActionsDiffer(t, t1)
      && (r.Ok? ==>
            t1.actions == t.actions[u.id := a.(meta := Obj(GoParse(a.meta).value[SUCCESSFUL_RESULT := JStr(u.text)]))])
  {
    var a, updates := t.actions[u.id], map[SUCCESSFUL_RESULT := JStr(u.text)];
    if Merge(a.meta, updates).Some? {
      PutOthers(t, u.id, a.(meta := Merge(a.meta, updates).value));
      assert GoParse(a.meta).value + updates == GoParse(a.meta).value[SUCCESSFUL_RESULT := JStr(u.text)];
    }
  }

  /** t' is t with the outputs of us kept up to the first that cannot be, and none after it. */
  ghost predicate KeptUpTo(s: Store, us: seq<Mark>, t: Store, t': Store, ok: bool) {
    && (ok <==> FirstUnkept(s, us) == |us|) && OnlyActionsDiffer(t, t')
    && t.actions.Keys == s.actions.Keys
    && forall id | id in s.actions ::
         t'.actions[id] == KeptRow(t.actions[id], s.actions[id].status, id, us[..FirstUnkept(s, us)])
  }

  lemma KeptNone(s: Store, us: seq<Mark>, t: Store)
    requires t.actions.Keys == s.actions.Keys && FirstUnkept(s, us) == 0
    ensures KeptUpTo(s, us, t, t, us == [])
  {
    assert us[..0] == [];
  }

  lemma FirstUnkeptAfter(s: Store, u: Mark, us: seq<Mark>)
    ensures !Unkept(s, u) ==> FirstUnkept(s, [u] + us) == 1 + FirstUnkept(s, us)
  {
    assert ([u] + us)[1..] == us;
  }

  lemma KeptPastOpen(s: Store, u: Mark, us: seq<Mark>, now: int, t: Store, t': Store, ok: bool)
    requires u.id in s.actions && !IsTerminal(s.actions[u.id].status)
    requires KeptUpTo(Finish(s, u.id, Done, u.text, now), us, t, t', ok)
    ensures KeptUpTo(s, [u] + us, t, t', ok)
  {
    var s1, k := Finish(s, u.id, Done, u.text, now), FirstUnkept(s, us);
    FinishedKeeps(s, u, now);
    SameUnkept(s, s1, us);
    hide Finish, KeptRow;
    assert ([u] + us)[1..] == us && ([u] + us)[..1 + k] == [u] + us[..k];
    forall id | id in s.actions
      ensures KeptRow(t.actions[id], s1.actions[id].status, id, us[..k])
          == KeptRow(t.actions[id], s.actions[id].status, id, [u] + us[..k])
    {
      KeptRowSame(t.actions[id], s.actions[id].status, id, u, us[..k]);
      KeptRowOpen(t.actions[id], s.actions[id].status, s1.actions[id].status, id, us[..k]);
    }
  }

  lemma KeptPastLoser(s: Store, u: Mark, us: seq<Mark>, t: Store, t': Store, ok: bool)
    requires u.id in s.actions && IsTerminal(s.actions[u.id].status) && SameLosers(s, t)
    requires
      var (t1, r) := PreserveResult(t, u.id, Done, u.text, s.actions[u.id].status);
      r.Ok? && KeptUpTo(s, us, t1, t', ok)
    ensures KeptUpTo(s, [u] + us, t, t', ok)
  {
    hide MergeMetadata, KeptRow, LastText, FirstUnkept, Unkept;
    FirstUnkeptAfter(s, u, us);
    LoserKept(s, u, t);
    var k, from := FirstUnkept(s, us), s.actions[u.id].status;
    var kept := KeepsLostResult(Done, u.text, from);
    var t1 := PreserveResult(t, u.id, Done, u.text, from).0;
    if kept {
      KeptMerge(t, u, from);
    }
    assert ([u] + us)[..1 + k] == [u] + us[..k];
    forall id | id in s.actions
      ensures KeptRow(t1.actions[id], s.actions[id].status, id, us[..k])
          == KeptRow(t.actions[id], s.actions[id].status, id, [u] + us[..k])
    {
      if kept && u.id == id {
        KeptRowStep(t.actions[id], from, id, u, us[..k]);
      } else {
        KeptRowSame(t.actions[id], s.actions[id].status, id, u, us[..k]);
      }
    }
  }

  lemma LoserKept(s: Store, u: Mark, t: Store)
    requires u.id in s.actions && IsTerminal(s.actions[u.id].status) && SameLosers(s, t)
    ensures
      var (t1, r) := PreserveResult(t, u.id, Done, u.text, s.actions[u.id].status);
      && (r.Err? <==> Unkept(s, u)) && (r.Err? ==> t1 == t) && SameLosers(s, t1)
  {
    if KeepsLostResult(Done, u.text, s.actions[u.id].status) {
      KeptMerge(t, u, s.actions[u.id].status);
    }
  }

  /** The preserve loop over the updates that lost their race. */
  lemma {:induction false} LostRows(s: Store, us: seq<Mark>, now: int, t: Store)
    requires AllExist(s, us) && SameLosers(s, t)
    ensures
      var (t', r) := PreserveLost(t, MarkBatch(s, us, Done, now).lost);
      KeptUpTo(s, us, t, t', r.Ok?)
    decreases |us|
  {
    hide Finish, PreserveResult, KeptUpTo, Unkept, SameLosers;
    if us == [] {
      LosersRows(s, t);
      KeptNone(s, us, t);
    } else {
      assert us[0] in us && us == [us[0]] + us[1..];
      var u, rest, from := us[0], us[1..], s.actions[us[0].id].status;
      var lost := MarkBatch(s, us, Done, now).lost;
      if !IsTerminal(from) {
        var s1 := Finish(s, u.id, Done, u.text, now);
        FinishedLosers(s, u, now, t);
        LostRows(s1, rest, now, t);
        KeptPastOpen(s, u, rest, now, t, PreserveLost(t, lost).0, PreserveLost(t, lost).1.Ok?);
      } else {
        assert lost[0] == Lost(u.id, u.text, from) && lost[1..] == MarkBatch(s, rest, Done, now).lost;
        var (t1, r) := PreserveResult(t, u.id, Done, u.text, from);
        LoserKept(s, u, t);
        if r.Err? {
          LosersRows(s, t);
          KeptNone(s, us, t);
        } else {
          LostRows(s, rest, now, t1);
          KeptPastLoser(s, u, rest, t, PreserveLost(t, lost).0, PreserveLost(t, lost).1.Ok?);
        }
      }
    }
  }

  lemma LosersRows(s: Store, t: Store)
    requires SameLosers(s, t)
    ensures t.actions.Keys == s.actions.Keys
  {
  }

  lemma FinishedLosers(s: Store, u: Mark, now: int, t: Store)
    requires u.id in s.actions && !IsTerminal(s.actions[u.id].status) && SameLosers(s, t)
    ensures SameLosers(Finish(s, u.id, Done, u.text, now), t)
        && Finish(s, u.id, Done, u.text, now).actions.Keys == s.actions.Keys
  {
    FinishedKeeps(s, u, now);
    hide Finish;
  }

  lemma KeptRowOpen(a: Action, observed: Status, seen: Status, id: int, us: seq<Mark>)
    requires observed == seen || (!observed.Failed? && !observed.Cancelled? && !seen.Failed? && !seen.Cancelled?)
    ensures KeptRow(a, observed, id, us) == KeptRow(a, seen, id, us)
  {
  }

  /** The transaction alone: open rows get the first output reported for them, terminal rows are not written. */
  lemma {:induction false} BatchRows(s: Store, us: seq<Mark>, now: int)
    requires AllExist(s, us)
    ensures
      var s' := MarkBatch(s, us, Done, now).store;
      && OnlyActionsDiffer(s, s')
      && forall id | id in s.actions ::
           s'.actions[id] == if IsTerminal(s.actions[id].status) then s.actions[id]
               else SettledRow(s.actions[id], id, us, now)
    decreases |us|
  {
    hide Finish, LastText, GoParse, Unkept;
    if us != [] {
      assert us[0] in us && forall u | u in us[1..] :: u in us;
      if IsTerminal(s.actions[us[0].id].status) {
        BatchRows(s, us[1..], now);
      } else {
        FinishedKeeps(s, us[0], now);
        BatchRows(Finish(s, us[0].id, Done, us[0].text, now), us[1..], now);
      }
    }
  }

  /**
    Where every output of a bulk mark ends up, in success and in error. Done rows stay; open rows end done
    with the first output reported for them, even when an error is returned; a row that had failed or been
    cancelled keeps, under successful_result, the last non-empty output reported before the first one that
    cannot be stored. The mark succeeds exactly when every such output can be.
   */
  lemma BulkDoneKeepsOutput(s: Store, us: seq<Mark>, now: int)
    requires AllExist(s, us)
    ensures
      var (s', r) := BulkMarkDone(s, us, now);
      && (r.Ok? <==> Preservable(s, us)) && OnlyActionsDiffer(s, s')
      && forall id | id in s.actions ::
           s'.actions[id] == SettledRow(s.actions[id], id,
                                        if IsTerminal(s.actions[id].status) then us[..FirstUnkept(s, us)] else us, now)
  {
    hide MarkBatch, PreserveLost, Unkept, SettledRow, KeptRow;
    var b, k := MarkBatch(s, us, Done, now), FirstUnkept(s, us);
    var t := EmitAll(b.store, b.events);
    BatchRows(s, us, now);
    SameRowsSameLosers(s, t);
    LostRows(s, us, now, t);
    assert k < |us| ==> us[k] in us;
    forall id | id in s.actions
      ensures KeptRow(t.actions[id], s.actions[id].status, id, us[..k])
           == SettledRow(s.actions[id], id, if IsTerminal(s.actions[id].status) then us[..k] else us, now)
    {
      KeptSettles(s.actions[id], id, us, k, now);
    }
  }

  lemma SameRowsSameLosers(s: Store, t: Store)
    requires t.actions.Keys == s.actions.Keys
    requires forall id | id in s.actions && IsTerminal(s.actions[id].status) :: t.actions[id] == s.actions[id]
    ensures SameLosers(s, t)
  {
  }

  lemma KeptSettles(a: Action, id: int, us: seq<Mark>, k: nat, now: int)
    requires k <= |us|
    ensures
      if IsTerminal(a.status) then KeptRow(a, a.status, id, us[..k]) == SettledRow(a, id, us[..k], now)
      else KeptRow(SettledRow(a, id, us, now), a.status, id, us[..k]) == SettledRow(a, id, us, now)
  {
    hide LastText, FirstText;
  }

  // ----- exactly when the bulk mark and the marks in order agree -----

  /** The batch of ys after the batch x. */
  ghost predicate Appended(x: Batch, ys: seq<Mark>, whole: Batch, now: int) {
    && AllExist(x.store, ys)
    && var y := MarkBatch(x.store, ys, Done, now);
    whole == Batch(y.store, x.events + y.events, x.lost + y.lost)
  }

  lemma AppendedFirst(x: Batch, ys: seq<Mark>, whole: Batch, now: int, events: seq<Event>, lost: seq<Lost>)
    requires Appended(x, ys, whole, now)
    ensures Appended(Batch(x.store, events + x.events, lost + x.lost), ys,
                     Batch(whole.store, events + whole.events, lost + whole.lost), now)
  {
    hide MarkBatch;
    var y := MarkBatch(x.store, ys, Done, now);
    assert events + (x.events + y.events) == events + x.events + y.events;
    assert lost + (x.lost + y.lost) == lost + x.lost + y.lost;
  }

  lemma {:induction false} MarkBatchAppend(s: Store, xs: seq<Mark>, ys: seq<Mark>, now: int)
    requires AllExist(s, xs) && AllExist(s, xs + ys)
    ensures Appended(MarkBatch(s, xs, Done, now), ys, MarkBatch(s, xs + ys, Done, now), now)
    decreases |xs|
  {
    hide Finish, Appended;
    if xs == [] {
      assert xs + ys == ys;
      AppendedNothing(s, ys, now);
    } else {
      var u, rest := xs[0], xs[1..];
      assert (xs + ys)[0] == u && (xs + ys)[1..] == rest + ys;
      assert u in xs && forall v | v in rest :: v in xs;
      assert forall v | v in rest + ys :: v in xs + ys;
      var from := s.actions[u.id].status;
      if IsTerminal(from) {
        MarkBatchAppend(s, rest, ys, now);
        var x, whole, lost := MarkBatch(s, rest, Done, now), MarkBatch(s, rest + ys, Done, now),
            [Lost(u.id, u.text, from)];
        AppendedFirst(x, ys, whole, now, [], lost);
        assert [] + x.events == x.events && [] + whole.events == whole.events;
      } else {
        var s1 := Finish(s, u.id, Done, u.text, now);
        FinishedKeeps(s, u, now);
        assert AllExist(s1, rest) && AllExist(s1, rest + ys);
        MarkBatchAppend(s1, rest, ys, now);
        var x, whole := MarkBatch(s1, rest, Done, now), MarkBatch(s1, rest + ys, Done, now);
        AppendedFirst(x, ys, whole, now, [StatusChanged(u.id, from, Done, Some(u.text), None)], []);
        assert [] + x.lost == x.lost && [] + whole.lost == whole.lost;
      }
    }
  }

  lemma AppendedNothing(s: Store, ys: seq<Mark>, now: int)
    requires AllExist(s, ys)
    ensures Appended(Batch(s, [], []), ys, MarkBatch(s, ys, Done, now), now)
  {
    hide MarkBatch;
    var y := MarkBatch(s, ys, Done, now);
    assert [] + y.events == y.events && [] + y.lost == y.lost;
  }

  lemma {:induction false} PreserveLostAppend(s: Store, xs: seq<Lost>, ys: seq<Lost>)
    ensures PreserveLost(s, xs + ys) ==
              if PreserveLost(s, xs).1.Err? then PreserveLost(s, xs) else PreserveLost(PreserveLost(s, xs).0, ys)
    decreases |xs|
  {
    hide PreserveResult;
    if xs == [] {
      assert xs + ys == ys;
    } else {
      assert (xs + ys)[0] == xs[0] && (xs + ys)[1..] == xs[1..] + ys;
      PreserveLostAppend(PreserveResult(s, xs[0].id, Done, xs[0].result, xs[0].observed).0, xs[1..], ys);
    }
  }

  /** A batch over rows that are all terminal writes nothing. */
  lemma {:induction false} TerminalBatch(s: Store, us: seq<Mark>, now: int)
    requires AllExist(s, us) && forall u | u in us :: IsTerminal(s.actions[u.id].status)
    ensures MarkBatch(s, us, Done, now).store == s && MarkBatch(s, us, Done, now).events == []
    ensures
      us != [] ==>
        && us[0].id in s.actions && MarkBatch(s, us, Done, now).lost != []
        && MarkBatch(s, us, Done, now).lost[0] == Lost(us[0].id, us[0].text, s.actions[us[0].id].status)
    decreases |us|
  {
    if us != [] {
      assert us[0] in us && forall u | u in us[1..] :: u in us;
      TerminalBatch(s, us[1..], now);
    }
  }

  lemma {:induction false} FirstTextIn(us: seq<Mark>, u: Mark)
    requires u in us
    ensures FirstText(us, u.id).Some?
    decreases |us|
  {
    if us[0] != u {
      FirstTextIn(us[1..], u);
    }
  }

  /** Every open row of the batch is named before the first output that cannot be stored. */
  predicate NoneBeyond(s: Store, us: seq<Mark>) {
    forall id | id in s.actions && !IsTerminal(s.actions[id].status) && FirstText(us, id).Some? ::
      FirstText(us[..FirstUnkept(s, us)], id).Some?
  }

  lemma PrefixKept(s: Store, us: seq<Mark>)
    requires AllExist(s, us)
    ensures
      var before := us[..FirstUnkept(s, us)];
      AllExist(s, before) && Preservable(s, before) && FirstUnkept(s, before) == |before|
          && before[..|before|] == before
  {
    var k := FirstUnkept(s, us);
    forall u | u in us[..k] ensures u in us && !Unkept(s, u) {
      var i :| 0 <= i < k && us[i] == u;
    }
    hide Unkept;
  }

  /** After the prefix of the batch, nothing is left to finish. */
  lemma AllSettled(s: Store, us: seq<Mark>, now: int)
    requires AllExist(s, us) && AllExist(s, us[..FirstUnkept(s, us)]) && NoneBeyond(s, us)
    ensures
      var k := FirstUnkept(s, us);
      var s1 := MarkBatch(s, us[..k], Done, now).store;
      AllExist(s1, us[k..]) && forall u | u in us[k..] :: IsTerminal(s1.actions[u.id].status)
  {
    hide MarkBatch, Unkept, FirstText;
    var k := FirstUnkept(s, us);
    BatchRows(s, us[..k], now);
    forall u | u in us[k..]
      ensures u.id in s.actions && (IsTerminal(s.actions[u.id].status) || FirstText(us[..k], u.id).Some?)
    {
      assert u in us;
      FirstTextIn(us, u);
    }
  }

  /** The bulk mark then does what it would do without the output that cannot be stored and all after it. */
  lemma BulkStops(s: Store, us: seq<Mark>, now: int)
    requires AllExist(s, us) && NoneBeyond(s, us) && FirstUnkept(s, us) < |us|
    ensures BulkMarkDone(s, us, now).0 == BulkMarkDone(s, us[..FirstUnkept(s, us)], now).0
  {
    hide MarkBatch, PreserveLost, Unkept, KeptRow, NoneBeyond, FirstUnkept;
    var k := FirstUnkept(s, us);
    var before, after := us[..k], us[k..];
    assert us == before + after && after[0] == us[k];
    PrefixKept(s, us);
    AllSettled(s, us, now);
    var x := MarkBatch(s, before, Done, now);
    MarkBatchAppend(s, before, after, now);
    TerminalBatch(x.store, after, now);
    var y := MarkBatch(x.store, after, Done, now);
    var t := EmitAll(x.store, x.events);
    assert x.events + [] == x.events;
    PreserveLostAppend(t, x.lost, y.lost);
    LastStopped(s, us, now);
  }

  /** The preserve loop stops where it meets that output. */
  lemma LastStopped(s: Store, us: seq<Mark>, now: int)
    requires AllExist(s, us) && NoneBeyond(s, us) && FirstUnkept(s, us) < |us|
    requires AllExist(s, us[..FirstUnkept(s, us)])
    ensures
      var k := FirstUnkept(s, us);
      var x := MarkBatch(s, us[..k], Done, now);
      var (t1, r) := PreserveLost(EmitAll(x.store, x.events), x.lost);
      && AllExist(x.store, us[k..])
      && var lost := MarkBatch(x.store, us[k..], Done, now).lost;
      r.Ok? && PreserveLost(t1, lost).0 == t1
  {
    hide MarkBatch, KeptRow, NoneBeyond;
    var k := FirstUnkept(s, us);
    PrefixKept(s, us);
    AllSettled(s, us, now);
    var x := MarkBatch(s, us[..k], Done, now);
    var t := EmitAll(x.store, x.events);
    TerminalBatch(x.store, us[k..], now);
    BatchRows(s, us[..k], now);
    SameRowsSameLosers(s, t);
    LostRows(s, us[..k], now, t);
    var u, t1 := us[k], PreserveLost(t, x.lost).0;
    UnparsedKept(t.actions[u.id], s.actions[u.id].status, u.id, us[..k]);
    assert PreserveResult(t1, u.id, Done, u.text, s.actions[u.id].status) == (t1, Err(BadMetadata));
  }

  lemma UnparsedKept(a: Action, observed: Status, id: int, us: seq<Mark>)
    requires GoParse(a.meta).None?
    ensures KeptRow(a, observed, id, us) == a
  {
  }

  lemma MarkedUnkept(s: Store, u: Mark, now: int)
    requires MarkTerminal(s, u.id, Done, u.text, now).1.Ok?
    ensures forall v :: Unkept(MarkTerminal(s, u.id, Done, u.text, now).0, v) == Unkept(s, v)
  {
    MarkRow(s, u.id, Done, u.text, now);
    hide MarkTerminal;
  }

  lemma MarkErrIff(s: Store, u: Mark, now: int)
    requires u.id in s.actions
    ensures MarkTerminal(s, u.id, Done, u.text, now).1.Err? <==> Unkept(s, u)
    ensures Unkept(s, u) ==> MarkTerminal(s, u.id, Done, u.text, now).0 == s
    ensures MarkTerminal(s, u.id, Done, u.text, now).0.actions.Keys == s.actions.Keys
  {
    MarkOthers(s, u.id, Done, u.text, now);
  }

  /** The marks in order stop where they meet that output. */
  lemma {:induction false} FoldStops(s: Store, us: seq<Mark>, now: int)
    requires AllExist(s, us)
    ensures FoldMarks(s, us, Done, now).0 == FoldMarks(s, us[..FirstUnkept(s, us)], Done, now).0
    decreases |us|
  {
    hide MarkTerminal, Unkept;
    if us != [] {
      assert us[0] in us && forall u | u in us[1..] :: u in us;
      MarkErrIff(s, us[0], now);
      if !Unkept(s, us[0]) {
        var s1 := MarkTerminal(s, us[0].id, Done, us[0].text, now).0;
        MarkedUnkept(s, us[0], now);
        SameUnkept(s, s1, us[1..]);
        FoldStops(s1, us[1..], now);
        var k := FirstUnkept(s, us);
        assert us[..k][0] == us[0] && us[..k][1..] == us[1..][..k - 1];
      }
    }
  }

  /** Rows after the marks in order, in success and in error. */
  lemma FoldRowsExact(s: Store, us: seq<Mark>, now: int)
    requires AllExist(s, us)
    ensures OnlyActionsDiffer(s, FoldMarks(s, us, Done, now).0)
    ensures forall id | id in s.actions ::
              FoldMarks(s, us, Done, now).0.actions[id] == SettledRow(s.actions[id], id, us[..FirstUnkept(s, us)], now)
  {
    hide FoldMarks, Unkept, SettledRow, BulkMarkDone;
    var before := us[..FirstUnkept(s, us)];
    FoldStops(s, us, now);
    PrefixKept(s, us);
    BulkDoneKeepsOutput(s, before, now);
    BulkDoneFolds(s, before, now);
    FoldRows(s, before, Done, now);
    forall id | id in s.actions
      ensures RowAfterMarks(s.actions[id], id, before, Done, now) == SettledRow(s.actions[id], id, before, now)
    {
      RowSettles(s.actions[id], id, before, now);
    }
  }

  lemma OpenSettledIff(a: Action, id: int, us: seq<Mark>, before: seq<Mark>, now: int)
    requires !IsTerminal(a.status) && (FirstText(before, id).Some? ==> FirstText(us, id) == FirstText(before, id))
    ensures SettledRow(a, id, us, now) == SettledRow(a, id, before, now)
       <==> (FirstText(us, id).Some? ==> FirstText(before, id).Some?)
  {
  }

  lemma {:induction false} FirstTextPrefix(us: seq<Mark>, id: int, k: nat)
    requires k <= |us|
    ensures FirstText(us[..k], id).Some? ==> FirstText(us, id) == FirstText(us[..k], id)
    decreases k
  {
    if k > 0 && us[0].id != id {
      assert us[..k][1..] == us[1..][..k - 1];
      FirstTextPrefix(us[1..], id, k - 1);
    }
  }

  /** The two leave the same rows exactly when no open row is named only after the output that cannot be stored. */
  lemma SameRowsIff(s: Store, us: seq<Mark>, now: int)
    requires AllExist(s, us)
    ensures BulkMarkDone(s, us, now).0.actions == FoldMarks(s, us, Done, now).0.actions <==> NoneBeyond(s, us)
  {
    hide BulkMarkDone, FoldMarks, Unkept, SettledRow, FirstText, FirstUnkept;
    var k := FirstUnkept(s, us);
    BulkDoneKeepsOutput(s, us, now);
    FoldRowsExact(s, us, now);
    forall id | id in s.actions && !IsTerminal(s.actions[id].status)
      ensures SettledRow(s.actions[id], id, us, now) == SettledRow(s.actions[id], id, us[..k], now)
         <==> (FirstText(us, id).Some? ==> FirstText(us[..k], id).Some?)
    {
      FirstTextPrefix(us, id, k);
      OpenSettledIff(s.actions[id], id, us, us[..k], now);
    }
    var bulk, fold := BulkMarkDone(s, us, now).0.actions, FoldMarks(s, us, Done, now).0.actions;
    assert bulk.Keys == fold.Keys;
    assert bulk == fold <==> forall id | id in s.actions :: bulk[id] == fold[id];
  }

  /**
    Bulk equals fold, exactly: BulkMarkDone leaves the tables, and the log of every action, that MarkDone in
    order leaves if and only if every open row of the batch is named before the first lost output that
    cannot be stored. Both succeed if and only if there is no such output.
   */
  lemma BulkDoneIsFold(s: Store, us: seq<Mark>, now: int)
    requires AllExist(s, us)
    ensures Same(BulkMarkDone(s, us, now).0, FoldMarks(s, us, Done, now).0) <==> NoneBeyond(s, us)
    ensures Preservable(s, us) <==> BulkMarkDone(s, us, now).1.Ok?
    ensures Preservable(s, us) <==> FoldMarks(s, us, Done, now).1.Ok?
  {
    hide BulkMarkDone, FoldMarks, SameLogs, NoneBeyond, Unkept, FirstUnkept;
    BulkDoneFolds(s, us, now);
    BulkDoneKeepsOutput(s, us, now);
    SameRowsIff(s, us, now);
    var before := us[..FirstUnkept(s, us)];
    PrefixKept(s, us);
    BulkDoneKeepsOutput(s, before, now);
    BulkDoneFolds(s, before, now);
    FoldStops(s, us, now);
    if NoneBeyond(s, us) {
      if FirstUnkept(s, us) < |us| {
        BulkStops(s, us, now);
      } else {
        assert before == us;
      }
    }
  }

  const THREE_OUTPUTS := [Mark(1, "x"), Mark(2, "y"), Mark(3, "z")]

  /**
    Both properties fail when one lost output cannot be stored: what is reported after it for a failed row
    is stored nowhere, although MarkDone alone keeps it; and an open row after it is done where the
    updates in order stop short of it.
   */
  lemma UnkeptOutputStopsOthers(s: Store, now: int)
    requires 1 in s.actions && s.actions[1].status == Failed && s.actions[1].meta == Malformed
    requires 2 in s.actions && s.actions[2].status == Failed && s.actions[2].meta == Obj(map[])
    requires 3 in s.actions && s.actions[3].status == Running
    ensures
      var (s', r) := BulkMarkDone(s, THREE_OUTPUTS, now);
      && r.Err? && 2 in s'.actions && s'.actions[2] == s.actions[2] && 3 in s'.actions && s'.actions[3].status == Done
    ensures
      var s' := MarkTerminal(s, 2, Done, "y", now).0;
      2 in s'.actions && s'.actions[2] == s.actions[2].(meta := Obj(map[SUCCESSFUL_RESULT := JStr("y")]))
    ensures FoldMarks(s, THREE_OUTPUTS, Done, now).0 == s
  {
    hide BulkMarkDone;
    var us := THREE_OUTPUTS;
    FirstText3();
    assert us[0] == Mark(1, "x") && Unkept(s, us[0]) && us[0] in us;
    assert us[..0] == [] && FirstUnkept(s, us) == 0 && !Preservable(s, us);
    BulkDoneKeepsOutput(s, us, now);
    assert BulkMarkDone(s, us, now).1.Err?;
    assert BulkMarkDone(s, us, now).0.actions[3] == SettledRow(s.actions[3], 3, us, now);
    MarkRow(s, 2, Done, "y", now);
  }

  lemma FirstText3()
    ensures FirstText(THREE_OUTPUTS, 3) == Some("z") && forall s: Store | {1, 2, 3} <= s.actions.Keys ::
        AllExist(s, THREE_OUTPUTS)
  {
    assert THREE_OUTPUTS[1..] == [Mark(2, "y"), Mark(3, "z")] && [Mark(2, "y"), Mark(3, "z")][1..] == [Mark(3, "z")];
  }

  // ----- bulk metadata merge -----

  datatype MetaUpdate = MetaUpdate(id: int, updates: Object)

  /** The transaction of BulkMergeActionMetadata: new tables and the events to emit, or the first error. */
  function MergeBatch(s: Store, ms: seq<MetaUpdate>): Res<(Store, seq<Event>)>
    decreases |ms|
  {
    if ms == [] then Ok((s, []))
    else if ms[0].updates == map[] then MergeBatch(s, ms[1..])
    else if ms[0].id !in s.actions then Err(NotFound(ms[0].id))
    else match Merge(s.actions[ms[0].id].meta, ms[0].updates)
      case None => Err(BadMetadata)
      case Some(m) =>
        match MergeBatch(MergeRow(s, ms[0].id, m), ms[1..])
        case Err(e) => Err(e)
        case Ok(b) => Ok((b.0, [MetadataMerged(ms[0].id, ms[0].updates.Keys)] + b.1))
  }

  function BulkMerge(s: Store, ms: seq<MetaUpdate>): (Store, Res<()>) {
    match MergeBatch(s, ms)
    case Err(e) => (s, Err(e))
    case Ok(b) => (EmitAll(b.0, b.1), Ok(()))
  }

  lemma MergeRowKeeps(s: Store, id: int, meta: Meta, e: Event, log: seq<Event>)
    requires Core(s) && Replays(s.actions, log, s.next.action) && id in s.actions && Silent(e)
    ensures
      var s1 := MergeRow(s, id, meta);
      Core(s1) && Replays(s1.actions, log + [e], s1.next.action) && Evolves(s, s1, NO_EDITS)
  {
    PutRowCore(s, id, s.actions[id].(meta := meta), true);
    SilentReplays(s.actions, log, s.next.action, e);
    assert Replays(s.actions, log + [e], s.next.action);
  }

  lemma {:induction false} MergeBatchKeeps(s: Store, ms: seq<MetaUpdate>, log: seq<Event>)
    requires Core(s) && Replays(s.actions, log, s.next.action) && MergeBatch(s, ms).Ok?
    ensures
      var (s', events) := MergeBatch(s, ms).value;
      && Core(s') && Replays(s'.actions, log + events, s'.next.action)
      && Evolves(s, s', NO_EDITS) && s'.events == s.events
    decreases |ms|
  {
    hide Core, Replays, Evolves;
    if ms == [] {
      assert log + [] == log;
      EvolvesSelf(s, NO_EDITS);
    } else if ms[0].updates == map[] {
      MergeBatchKeeps(s, ms[1..], log);
    } else {
      var id := ms[0].id;
      var m := Merge(s.actions[id].meta, ms[0].updates).value;
      var e := MetadataMerged(id, ms[0].updates.Keys);
      var s1 := MergeRow(s, id, m);
      MergeRowKeeps(s, id, m, e, log);
      MergeBatchKeeps(s1, ms[1..], log + [e]);
      var b := MergeBatch(s1, ms[1..]).value;
      assert log + [e] + b.1 == log + ([e] + b.1);
      CoreEvolvesTransitive(s, s1, b.0, NO_EDITS);
    }
  }

  lemma BulkMergeAdvances(s: Store, ms: seq<MetaUpdate>)
    requires Inv(s)
    ensures Advances(s, BulkMerge(s, ms).0, NO_EDITS)
  {
    if MergeBatch(s, ms).Ok? {
      MergeBatchKeeps(s, ms, s.events);
      LoggedAdvances(s, MergeBatch(s, ms).value.0, MergeBatch(s, ms).value.1, NO_EDITS);
    }
  }

  function MetaAfter(meta: Meta, id: int, ms: seq<MetaUpdate>): Meta
    decreases |ms|
  {
    if ms == [] then meta
    else MetaAfter(if ms[0].id == id && ms[0].updates != map[] && GoParse(meta).Some?
                   then Obj(GoParse(meta).value + ms[0].updates) else meta, id, ms[1..])
  }

  lemma MergeRowFrame(s: Store, id: int, meta: Meta)
    requires id in s.actions
    ensures OnlyActionsDiffer(s, MergeRow(s, id, meta))
    ensures MergeRow(s, id, meta).actions == s.actions[id := s.actions[id].(meta := meta)]
  {
  }

  lemma {:induction false} MergeBatchRows(s: Store, ms: seq<MetaUpdate>)
    requires MergeBatch(s, ms).Ok?
    ensures
      var s' := MergeBatch(s, ms).value.0;
      && OnlyActionsDiffer(s, s')
      && forall id | id in s.actions :: s'.actions[id] == s.actions[id].(meta := MetaAfter(s.actions[id].meta, id, ms))
    decreases |ms|
  {
    hide MergeRow;
    if ms != [] {
      if ms[0].updates == map[] {
        MergeBatchRows(s, ms[1..]);
      } else {
        var id, m := ms[0].id, Merge(s.actions[ms[0].id].meta, ms[0].updates).value;
        MergeRowFrame(s, id, m);
        MergeBatchRows(MergeRow(s, id, m), ms[1..]);
      }
    }
  }

  /** A bulk merge into rows that exist and parse always commits. */
  lemma {:induction false} MergeBatchOk(s: Store, ms: seq<MetaUpdate>)
    requires forall m | m in ms :: m.id in s.actions && GoParse(s.actions[m.id].meta).Some?
    ensures MergeBatch(s, ms).Ok?
    decreases |ms|
  {
    if ms != [] {
      assert ms[0] in ms && forall m | m in ms[1..] :: m in ms;
      if ms[0].updates == map[] {
        MergeBatchOk(s, ms[1..]);
      } else {
        MergeBatchOk(MergeRow(s, ms[0].id, Merge(s.actions[ms[0].id].meta, ms[0].updates).value), ms[1..]);
      }
    }
  }

  /** The single merge applied to each update that has keys, in order, stopping at the first error. */
  function FoldMerges(s: Store, ms: seq<MetaUpdate>): (Store, Res<()>)
    decreases |ms|
  {
    if ms == [] then (s, Ok(()))
    else if ms[0].updates == map[] then FoldMerges(s, ms[1..])
    else
      var (s1, r) := MergeMetadata(s, ms[0].id, ms[0].updates);
      if r.Err? then (s1, r) else FoldMerges(s1, ms[1..])
  }

  lemma {:induction false} MergeBatchFrame(s: Store, ms: seq<MetaUpdate>, log: seq<Event>)
    ensures MergeBatch(s.(events := log), ms)
         == match MergeBatch(s, ms)
            case Err(e) => Err(e)
            case Ok(b) => Ok((b.0.(events := log), b.1))
    ensures MergeBatch(s, ms).Ok? ==> MergeBatch(s, ms).value.0.events == s.events
    decreases |ms|
  {
    if ms != [] {
      if ms[0].updates == map[] || ms[0].id !in s.actions || Merge(s.actions[ms[0].id].meta, ms[0].updates).None? {
        MergeBatchFrame(s, ms[1..], log);
      } else {
        MergeBatchFrame(MergeRow(s, ms[0].id, Merge(s.actions[ms[0].id].meta, ms[0].updates).value), ms[1..], log);
      }
    }
  }

  /**
    A bulk merge is the single merges in order, the log included, when all of them succeed; otherwise it
    answers with their first error and changes nothing.
   */
  lemma {:induction false} BulkMergeIsFold(s: Store, ms: seq<MetaUpdate>)
    ensures FoldMerges(s, ms).1.Ok? ==> BulkMerge(s, ms) == FoldMerges(s, ms)
    ensures FoldMerges(s, ms).1.Err? ==> BulkMerge(s, ms) == (s, FoldMerges(s, ms).1)
    decreases |ms|
  {
    if ms == [] {
      assert s.events + [] == s.events;
    } else if ms[0].updates == map[] {
      BulkMergeIsFold(s, ms[1..]);
    } else if MergeMetadata(s, ms[0].id, ms[0].updates).1.Ok? {
      var id, m := ms[0].id, Merge(s.actions[ms[0].id].meta, ms[0].updates).value;
      var s1, e := MergeRow(s, id, m), MetadataMerged(id, ms[0].updates.Keys);
      BulkMergeIsFold(Emit(s1, e), ms[1..]);
      MergeBatchFrame(s1, ms[1..], s.events + [e]);
      if MergeBatch(s1, ms[1..]).Ok? {
        var events := MergeBatch(s1, ms[1..]).value.1;
        assert s.events + ([e] + events) == s.events + [e] + events;
      }
    }
  }
}
