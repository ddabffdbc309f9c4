/** withRetry / withTxRetry: transactions repeated over lock failures, with capped jittered backoff. */
module Retry {
  import opened Types
  import opened Metadata
  import opened Sets
  import opened Rows
  import opened Actions
  import opened Bulk

  const MAX_TRIES := 8
  const BASE_DELAY := 5_000_000
  const CAP_DELAY := 200_000_000
  const TOTAL_BUDGET := 3 * SECOND

  // ----- errors -----

  /** A Go error with the error it wraps. */
  datatype Failure = Failure(text: string, cause: Option<Failure>)

  function Upper(s: string): string {
    seq(|s|, i requires 0 <= i < |s| => if 'a' <= s[i] <= 'z' then s[i] - 'a' + 'A' else s[i])
  }

  predicate Contains(s: string, part: string) {
    part <= s || (s != [] && Contains(s[1..], part))
  }

  predicate IsLockText(s: string) {
    Contains(Upper(s), "DATABASE IS LOCKED") || Contains(Upper(s), "SQLITE_BUSY") || Contains(Upper(s), "SQLITE_LOCKED")
  }

  /** isRetryableLockError: the error or anything it wraps reads like a lock failure. */
  predicate Retryable(e: Failure) {
    IsLockText(e.text) || (e.cause.Some? && Retryable(e.cause.value))
  }

  /** f is e or an error it wraps, at any depth. */
  predicate InChain(e: Failure, f: Failure) {
    f == e || (e.cause.Some? && InChain(e.cause.value, f))
  }

  /** The same letter in either case, or the same character. */
  predicate SameLetter(a: char, b: char) {
    a == b || ('A' <= b <= 'Z' && a as int == b as int + 32) || ('a' <= b <= 'z' && a as int == b as int - 32)
  }

  /** part stands somewhere in s, in any case. */
  predicate Mentions(s: string, part: string) {
    exists i :: 0 <= i <= |s| - |part| && StandsAt(s, part, i)
  }

  predicate StandsAt(s: string, part: string, i: int)
    requires 0 <= i <= |s| - |part|
  {
    forall j | 0 <= j < |part| :: SameLetter(s[i + j], part[j])
  }

  predicate PartAt(s: string, part: string, i: int) {
    0 <= i <= |s| - |part| && s[i..i + |part|] == part
  }

  lemma {:induction false} ContainsIff(s: string, part: string)
    ensures Contains(s, part) <==> exists i :: PartAt(s, part, i)
    decreases |s|
  {
    if part <= s {
      assert PartAt(s, part, 0);
    } else if s != [] {
      ContainsIff(s[1..], part);
      forall i ensures PartAt(s, part, i + 1) <==> i >= 0 && PartAt(s[1..], part, i) {
        if 0 <= i <= |s| - 1 - |part| {
          assert s[1..][i..i + |part|] == s[i + 1..i + 1 + |part|];
        } else if i == -1 && |part| <= |s| {
          assert s[0..|part|] == s[..|part|];
        }
      }
      if i :| PartAt(s, part, i) {
        assert PartAt(s, part, (i - 1) + 1) && PartAt(s[1..], part, i - 1);
      }
      if i :| PartAt(s[1..], part, i) {
        assert PartAt(s, part, i + 1);
      }
    }
  }

  lemma UpperMentions(s: string, part: string)
    ensures Contains(Upper(s), Upper(part)) <==> Mentions(s, part)
  {
    ContainsIff(Upper(s), Upper(part));
    forall i | 0 <= i <= |s| - |part| ensures PartAt(Upper(s), Upper(part), i) <==> StandsAt(s, part, i) {
      var cut := Upper(s)[i..i + |part|];
      assert forall j | 0 <= j < |part| :: cut[j] == Upper(s)[i + j];
      assert forall j | 0 <= j < |part| :: cut[j] == Upper(part)[j] <==> SameLetter(s[i + j], part[j]);
      assert StandsAt(s, part, i) ==> cut == Upper(part);
    }
  }

  lemma LockTexts()
    ensures Upper("database is locked") == "DATABASE IS LOCKED"
    ensures Upper("SQLITE_BUSY") == "SQLITE_BUSY" && Upper("SQLITE_LOCKED") == "SQLITE_LOCKED"
  {
  }

  /** A lock failure, as the driver words it: one of three phrases in any case, anywhere along the chain of errors. */
  lemma {:induction false} RetryableIff(e: Failure)
    ensures Retryable(e) <==> (exists f ::
              && InChain(e, f)
              && (Mentions(f.text, "database is locked") || Mentions(f.text, "SQLITE_BUSY")
                  || Mentions(f.text, "SQLITE_LOCKED")))
    decreases e
  {
    hide Mentions, Contains, Upper;
    LockTexts();
    UpperMentions(e.text, "database is locked");
    UpperMentions(e.text, "SQLITE_BUSY");
    UpperMentions(e.text, "SQLITE_LOCKED");
    if IsLockText(e.text) {
      assert InChain(e, e);
    } else if e.cause.Some? {
      RetryableIff(e.cause.value);
      if Retryable(e) {
        var f :|
          && InChain(e.cause.value, f)
          && (Mentions(f.text, "database is locked") || Mentions(f.text, "SQLITE_BUSY")
              || Mentions(f.text, "SQLITE_LOCKED"));
        assert InChain(e, f);
      }
    }
  }

  // ----- backoff -----

  function Nominal(attempt: nat): nat {
    var shift := if attempt < 8 then attempt else 8;
    var d := BASE_DELAY * Doublings(shift);
    if d < CAP_DELAY then d else CAP_DELAY
  }

  function Doublings(k: nat): nat {
    if k == 0 then 1 else 2 * Doublings(k - 1)
  }

  /** rand is drawn from [0, 1). */
  function BackoffDelay(attempt: nat, rand: real): int {
    (Nominal(attempt) as real * (0.5 + rand)).Floor
  }

  function TotalNominal(attempts: nat): nat {
    if attempts == 0 then 0 else TotalNominal(attempts - 1) + Nominal(attempts - 1)
  }

  lemma NominalSums()
    ensures forall k: nat | k <= 7 :: TotalNominal(k) <= 515_000_000
  {
    assert Doublings(0) == 1 && Doublings(1) == 2 && Doublings(2) == 4 && Doublings(3) == 8;
    assert Doublings(4) == 16 && Doublings(5) == 32 && Doublings(6) == 64;
    assert TotalNominal(3) == 35_000_000;
    assert TotalNominal(5) == 155_000_000;
    assert TotalNominal(7) == 515_000_000;
    forall k: nat | k <= 7 ensures TotalNominal(k) <= 515_000_000 {
      NominalGrows(k, 7);
    }
  }

  lemma NextNominal(k: nat)
    ensures TotalNominal(k + 1) == TotalNominal(k) + Nominal(k)
  {
  }

  lemma {:induction false} NominalGrows(a: nat, b: nat)
    requires a <= b
    ensures TotalNominal(a) <= TotalNominal(b)
  {
    if a < b {
      NominalGrows(a, b - 1);
    }
  }

  /** One delay is at least half and less than one and a half of its nominal value, to the nanosecond. */
  lemma DelayBound(attempt: nat, rand: real)
    requires 0.0 <= rand < 1.0
    ensures Nominal(attempt) - 1 <= 2 * BackoffDelay(attempt, rand) < 3 * Nominal(attempt)
    ensures BackoffDelay(attempt, rand) > 0
  {
    NominalTable(attempt);
    var d, f := Nominal(attempt) as real, 0.5 + rand;
    assert d > 1000.0 && 0.5 <= f < 1.5;
    assert d * 0.5 <= d * f < d * 1.5;
    assert d - 2.0 < 2.0 * (BackoffDelay(attempt, rand) as real) < 3.0 * d;
  }

  /** 5, 10, 20, 40, 80, 160 ms, then 200 ms. */
  lemma NominalTable(attempt: nat)
    ensures Nominal(attempt)
         == match attempt
            case 0 => 5_000_000
            case 1 => 10_000_000
            case 2 => 20_000_000
            case 3 => 40_000_000
            case 4 => 80_000_000
            case 5 => 160_000_000
            case _ => 200_000_000
  {
    assert Doublings(0) == 1 && Doublings(1) == 2 && Doublings(2) == 4 && Doublings(3) == 8;
    assert Doublings(4) == 16 && Doublings(5) == 32 && Doublings(6) == 64;
    assert Doublings(7) == 128 && Doublings(8) == 256;
  }

  // ----- the transaction loop -----

  /** What one run of a transaction body leaves in its transaction and in the variables it captured. */
  datatype TxOut<C> = TxOut(store: Store, captured: C, error: Option<Failure>)

  /**
    One attempt as the outside world sees it: a cancelled context, a failure to begin, a database failure
    inside the body that leaves the captured variables anyhow, a failure to commit, the time since the
    start, and the random draw.
   */
  datatype World<C> = World(
    cancelled: Option<Failure>, begin: Option<Failure>, fault: Option<(Failure, C)>, commit: Option<Failure>,
    elapsed: int, rand: real)

  /**
    A body whose effect and error do not depend on what an earlier attempt left in its variables, nor,
    when it succeeds, do the results read from them.
   */
  ghost predicate Resets<C(!new), V>(body: (Store, C) -> TxOut<C>, view: C -> V) {
    forall s: Store, c: C, d: C ::
      && body(s, c).store == body(s, d).store && body(s, c).error == body(s, d).error
      && (body(s, c).error.None? ==> view(body(s, c).captured) == view(body(s, d).captured))
  }

  /** What an attempt ends with, `bodyError` being the error of the body itself; None is a commit. */
  function Ends<C>(w: World<C>, bodyError: Option<Failure>): Option<Failure> {
    if w.begin.Some? then w.begin
    else if w.fault.Some? then Some(w.fault.value.0)
    else if bodyError.Some? then bodyError
    else w.commit
  }

  /** The attempt ends in a lock failure within the time budget. */
  predicate Repeats<C>(w: World<C>, bodyError: Option<Failure>) {
    && w.cancelled.None? && w.elapsed < 3_000_000_000
    && Ends(w, bodyError).Some? && Retryable(Ends(w, bodyError).value)
  }

  /** Attempt k is reached and commits. */
  ghost predicate CommitsAt<C(!new)>(world: nat -> World<C>, bodyError: Option<Failure>, k: nat) {
    && (forall n: nat | n < k :: Repeats(world(n), bodyError))
    && world(k).cancelled.None? && world(k).begin.None? && world(k).fault.None? && bodyError.None?
    && world(k).commit.None?
  }

  lemma CommitsOnlyLast<C(!new)>(world: nat -> World<C>, bodyError: Option<Failure>, last: nat)
    requires last < 8 && forall n: nat | n < last :: Repeats(world(n), bodyError)
    requires Repeats(world(last), bodyError) ==> last == 7
    ensures (exists k: nat :: k < 8 && CommitsAt(world, bodyError, k))
       <==> world(last).cancelled.None? && Ends(world(last), bodyError).None?
  {
    hide Retryable;
    if world(last).cancelled.None? && Ends(world(last), bodyError).None? {
      assert CommitsAt(world, bodyError, last);
    } else {
      forall k: nat | k < 8 ensures !CommitsAt(world, bodyError, k) {
        assert k < last ==> Repeats(world(k), bodyError);
        assert last < k ==> !Repeats(world(last), bodyError);
      }
    }
  }

  /** The delays after the attempts before k. */
  function Delays<C>(world: nat -> World<C>, k: nat): int {
    if k == 0 then 0 else Delays(world, k - 1) + BackoffDelay(k - 1, world(k - 1).rand)
  }

  /**
    A transaction under retry behaves like one attempt: success means its body's effect exactly once, an
    error means no effect at all, and the captured results are those of the committed attempt. `last` is
    the attempt it ends with. Exactly the lock failures within 3 seconds are repeated, up to the eighth
    attempt, so it succeeds if and only if some attempt k < 8 commits after such failures only; any other
    failure, and a cancelled context, is returned at once. The body runs at most 8 times and the sleeps are
    the delays between attempts, less than 772.5 ms in all.
   */
  method WithTxRetry<C(!new), V>(s: Store, c0: C, body: (Store, C) -> TxOut<C>, ghost view: C -> V,
        world: nat -> World<C>)
    returns (s': Store, c: C, err: Option<Failure>, last: nat, runs: nat, slept: int)
    requires Resets(body, view)
    requires forall n :: 0.0 <= world(n).rand < 1.0
    ensures err.Some? ==> s' == s
    ensures err.None? ==> body(s, c0).error.None? && s' == body(s, c0).store && view(c) == view(body(s, c0).captured)
    ensures err.None? <==> exists k: nat :: k < 8 && CommitsAt(world, body(s, c0).error, k)
    ensures last < 8 && forall n: nat | n < last :: Repeats(world(n), body(s, c0).error)
    ensures err == if world(last).cancelled.Some? then world(last).cancelled else Ends(world(last), body(s, c0).error)
    ensures Repeats(world(last), body(s, c0).error) ==> last == 7
    ensures world(0).cancelled.None? && Ends(world(0), body(s, c0).error).Some?
            && !Retryable(Ends(world(0), body(s, c0).error).value)
            ==> last == 0 && err == Ends(world(0), body(s, c0).error)
    ensures runs <= last + 1 && (err.None? ==> runs > 0)
    ensures slept == Delays(world, last) && 0 <= slept && 2 * slept < 3 * 515_000_000
  {
    hide Retryable, BackoffDelay, Nominal, TotalNominal, CommitsAt;
    s', c, err, last, runs, slept := s, c0, None, 0, 0, 0;
    NominalSums();
    ghost var e := body(s, c0).error;
    while last < MAX_TRIES
      invariant 0 <= last < MAX_TRIES && runs <= last
      invariant s' == s
      invariant forall n: nat | n < last :: Repeats(world(n), e)
      invariant slept == Delays(world, last) && 0 <= slept && 2 * slept <= 3 * TotalNominal(last)
      invariant last > 0 ==> 2 * slept < 3 * TotalNominal(last)
      decreases MAX_TRIES - last
    {
      var w := world(last);
      if w.cancelled.Some? {
        err := w.cancelled;
        CommitsOnlyLast(world, e, last);
        return;
      }
      if w.begin.Some? {
        err := w.begin;
      } else {
        runs := runs + 1;
        if w.fault.Some? {
          c, err := w.fault.value.1, Some(w.fault.value.0);
        } else {
          var out := body(s', c);
          assert body(s, c).error == e && body(s, c).store == body(s, c0).store;
          c := out.captured;
          if out.error.Some? {
            err := out.error;
          } else if w.commit.Some? {
            err := w.commit;
          } else {
            s', err := out.store, None;
            CommitsOnlyLast(world, e, last);
            return;
          }
        }
      }
      if !Retryable(err.value) {
        CommitsOnlyLast(world, e, last);
        return;
      }
      if w.elapsed >= TOTAL_BUDGET || last + 1 >= MAX_TRIES {
        CommitsOnlyLast(world, e, last);
        return;
      }
      DelayBound(last, w.rand);
      NextNominal(last);
      slept := slept + BackoffDelay(last, w.rand);
      last := last + 1;
    }
    // The loop always returns from inside.
    assert false;
  }

  // ----- transactions of the store -----

  /** The variables NextPending captures: whether it found an action, and the one it last read. */
  datatype Found = Found(found: bool, id: int)

  /** `found` is reset on entry; the action variable is only written when something is found. */
  function NextPendingBody(now: int): (Store, Found) -> TxOut<Found> {
    (s: Store, c: Found) =>
      if EligibleIds(s, now) == {} then TxOut(s, Found(false, c.id), None)
      else
        var id := Min(EligibleIds(s, now));
        TxOut(PutRow(s, id, s.actions[id].(status := Running, startedAt := Some(Sec(now))), false), Found(true, id),
            None)
  }

  function SeenId(c: Found): Option<int> {
    if c.found then Some(c.id) else None
  }

  /** NextPending over any pattern of lock failures: the claim and its event once, or nothing. */
  method NextPendingRetried(s: Store, now: int, world: nat -> World<Found>)
    returns (s': Store, next: Option<int>, err: Option<Failure>)
    requires forall n :: 0.0 <= world(n).rand < 1.0
    ensures err.None? ==> (s', next) == NextPending(s, now)
    ensures err.Some? ==> s' == s && next == None
  {
    var c, last, runs, slept;
    s', c, err, last, runs, slept := WithTxRetry(s, Found(false, 0), NextPendingBody(now), SeenId, world);
    next := None;
    if err.None? && c.found {
      next := Some(c.id);
      s' := Emit(s', Claimed(c.id));
    }
  }

  /** BulkMarkFailed empties its list of committed transitions on entry and then appends to it. */
  function BulkFailedBody(us: seq<Mark>, now: int): (Store, seq<Event>) -> TxOut<seq<Event>> {
    (s: Store, c: seq<Event>) =>
      match FirstMissing(s, us)
      case Some(_) => TxOut(s, [], Some(Failure("bulk mark failed", None)))
      case None => var b := MarkBatch(s, us, Failed, now); TxOut(b.store, b.events, None)
  }

  function Whole<C>(c: C): C {
    c
  }

  /** The events of a committed batch, one by one. */
  method EmitInOrder(s: Store, events: seq<Event>) returns (s': Store)
    ensures s' == EmitAll(s, events)
  {
    s' := s;
    var i := 0;
    while i < |events|
      invariant 0 <= i <= |events|
      invariant s' == EmitAll(s, events[..i])
    {
      assert events[..i + 1] == events[..i] + [events[i]];
      assert s.events + events[..i] + [events[i]] == s.events + (events[..i] + [events[i]]);
      s' := Emit(s', events[i]);
      i := i + 1;
    }
    assert events[..|events|] == events;
  }

  /** BulkMarkFailed over any pattern of lock failures: events are emitted for the committed attempt only. */
  method BulkMarkFailedRetried(s: Store, us: seq<Mark>, now: int, world: nat -> World<seq<Event>>)
    returns (s': Store, err: Option<Failure>)
    requires forall n :: 0.0 <= world(n).rand < 1.0
    ensures err.None? ==> (s', Ok(())) == BulkMarkFailed(s, us, now)
    ensures err.Some? ==> s' == s
  {
    hide MarkBatch;
    var c, last, runs, slept;
    s', c, err, last, runs, slept := WithTxRetry(s, [], BulkFailedBody(us, now), Whole, world);
    if err.None? {
      assert BulkFailedBody(us, now)(s, []).error.None?;
      s' := EmitInOrder(s', c);
    }
  }

  /** MergeActionMetadata writes its list of keys only when it succeeds. */
  function MergeBody(id: int, updates: Object): (Store, set<string>) -> TxOut<set<string>> {
    (s: Store, c: set<string>) =>
      if id !in s.actions then TxOut(s, c, Some(Failure("merge action metadata", None)))
      else match Merge(s.actions[id].meta, updates)
        case None => TxOut(s, c, Some(Failure("merge action metadata", None)))
        case Some(m) => TxOut(PutRow(s, id, s.actions[id].(meta := m), true), updates.Keys, None)
  }

  method MergeMetadataRetried(s: Store, id: int, updates: Object, world: nat -> World<set<string>>)
    returns (s': Store, err: Option<Failure>)
    requires forall n :: 0.0 <= world(n).rand < 1.0
    ensures err.None? ==> (s', Ok(())) == MergeMetadata(s, id, updates)
    ensures err.Some? ==> s' == s
  {
    var keys, last, runs, slept;
    s', keys, err, last, runs, slept := WithTxRetry(s, {}, MergeBody(id, updates), Whole, world);
    if err.None? {
      s' := Emit(s', MetadataMerged(id, keys));
    }
  }

  method PreserveResultRetried(s: Store, l: Lost, attempted: Status, world: nat -> World<set<string>>)
    returns (s': Store, err: Option<Failure>)
    requires forall n :: 0.0 <= world(n).rand < 1.0
    ensures err.None? ==> (s', Ok(())) == PreserveResult(s, l.id, attempted, l.result, l.observed)
    ensures err.Some? ==> s' == s
  {
    if attempted != Done || l.result == "" || !IsTerminal(l.observed) || l.observed == Done {
      return s, None;
    }
    s', err := MergeMetadataRetried(s, l.id, map[SUCCESSFUL_RESULT := JStr(l.result)], world);
  }

  /** The variables markTerminal captures, all three reset on entry. */
  datatype Marked = Marked(from: Option<Status>, updated: bool, earlyTerminal: bool)

  function MarkBody(id: int, st: Status, result: string, now: int): (Store, Marked) -> TxOut<Marked> {
    (s: Store, c: Marked) =>
      if id !in s.actions then TxOut(s, Marked(None, false, false), Some(Failure("get current status", None)))
      else if IsTerminal(s.actions[id].status) then TxOut(s, Marked(Some(s.actions[id].status), false, true), None)
      else TxOut(Finish(s, id, st, result, now), Marked(Some(s.actions[id].status), true, false), None)
  }

  /**
    A terminal mark over any pattern of lock failures, of its own transaction and of the one that keeps a
    lost result.
   */
  method MarkTerminalRetried(s: Store, id: int, st: Status, result: string, now: int, world: nat -> World<Marked>,
      merge: nat -> World<set<string>>)
    returns (s': Store, err: Option<Failure>)
    requires forall n :: 0.0 <= world(n).rand < 1.0 && 0.0 <= merge(n).rand < 1.0
    ensures err.None? ==> (s', Ok(())) == MarkTerminal(s, id, st, result, now)
    ensures err.Some? ==> s' == s
  {
    var c, last, runs, slept;
    var body := MarkBody(id, st, result, now);
    s', c, err, last, runs, slept := WithTxRetry(s, Marked(None, false, false), body, Whole, world);
    if err.Some? || c.from.None? {
      return;
    }
    if c.earlyTerminal {
      s', err := PreserveResultRetried(s', Lost(id, result, c.from.value), st, merge);
      return;
    }
    s' := Emit(s', StatusChanged(id, c.from.value, st, Some(result), None));
  }

  /** BulkMarkDone empties both of its lists on entry. */
  datatype Sorted = Sorted(done: seq<Event>, lost: seq<Lost>)

  function BulkDoneBody(us: seq<Mark>, now: int): (Store, Sorted) -> TxOut<Sorted> {
    (s: Store, c: Sorted) =>
      match FirstMissing(s, us)
      case Some(_) => TxOut(s, Sorted([], []), Some(Failure("bulk mark done", None)))
      case None => var b := MarkBatch(s, us, Done, now); TxOut(b.store, Sorted(b.events, b.lost), None)
  }

  lemma {:induction false} PreserveLostSnoc(s: Store, lost: seq<Lost>, l: Lost)
    requires PreserveLost(s, lost).1.Ok?
    ensures PreserveLost(s, lost + [l]) == PreserveResult(PreserveLost(s, lost).0, l.id, Done, l.result, l.observed)
    decreases |lost|
  {
    hide PreserveResult;
    if lost == [] {
      assert lost + [l] == [l] && [l][1..] == [];
      var r := PreserveResult(s, l.id, Done, l.result, l.observed).1;
      assert r.Ok? ==> r.value == ();
    } else {
      assert (lost + [l])[0] == lost[0] && (lost + [l])[1..] == lost[1..] + [l];
      PreserveLostSnoc(PreserveResult(s, lost[0].id, Done, lost[0].result, lost[0].observed).0, lost[1..], l);
    }
  }

  /** The batch is committed and announced, and the first `kept` of its lost results are handled. */
  ghost predicate Interrupted(s: Store, us: seq<Mark>, now: int, s': Store, kept: nat) {
    && AllExist(s, us)
    && var b := MarkBatch(s, us, Done, now);
    && kept < |b.lost| && (s', Ok(())) == PreserveLost(EmitAll(b.store, b.events), b.lost[..kept])
  }

  /** The preserve loop: each lost result in its own retried transaction, stopping at the first that fails. */
  method KeepLostRetried(s: Store, lost: seq<Lost>, merges: (nat, nat) -> World<set<string>>)
    returns (s': Store, err: Option<Failure>, kept: nat)
    requires forall i, n :: 0.0 <= merges(i, n).rand < 1.0
    ensures kept <= |lost| && (err.Some? ==> kept < |lost|)
    ensures (s', Ok(())) == PreserveLost(s, if err.None? then lost else lost[..kept])
  {
    hide PreserveResult;
    s', err, kept := s, None, 0;
    while kept < |lost|
      invariant kept <= |lost| && err.None?
      invariant (s', Ok(())) == PreserveLost(s, lost[..kept])
    {
      var i := kept;
      var w: nat -> World<set<string>> := (n: nat) => merges(i, n);
      var s1;
      s1, err := PreserveResultRetried(s', lost[kept], Done, w);
      if err.Some? {
        return;
      }
      PreserveLostSnoc(s, lost[..kept], lost[kept]);
      assert lost[..kept + 1] == lost[..kept] + [lost[kept]];
      s' := s1;
      kept := kept + 1;
    }
    assert lost[..kept] == lost;
  }

  /**
    BulkMarkDone over any pattern of lock failures in its batch and in each transaction that keeps a lost
    result: without an error it is one BulkMarkDone; with one, nothing happened or the batch is committed
    once, its events emitted once, and the first `kept` lost results are handled.
   */
  method BulkMarkDoneRetried(s: Store, us: seq<Mark>, now: int, world: nat -> World<Sorted>,
      merges: (nat, nat) -> World<set<string>>)
    returns (s': Store, err: Option<Failure>, kept: nat)
    requires forall n :: 0.0 <= world(n).rand < 1.0
    requires forall i, n :: 0.0 <= merges(i, n).rand < 1.0
    ensures err.None? ==> (s', Ok(())) == BulkMarkDone(s, us, now)
    ensures err.Some? ==> s' == s || Interrupted(s, us, now, s', kept)
  {
    hide PreserveLost, MarkBatch;
    kept := 0;
    var c, last, runs, slept;
    s', c, err, last, runs, slept := WithTxRetry(s, Sorted([], []), BulkDoneBody(us, now), Whole, world);
    if err.Some? {
      return;
    }
    assert BulkDoneBody(us, now)(s, Sorted([], [])).error.None?;
    s' := EmitInOrder(s', c.done);
    s', err, kept := KeepLostRetried(s', c.lost, merges);
  }
}
