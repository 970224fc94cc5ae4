/** Change-data-capture polling: a bookmark, a page of rows strictly above it, and faults anywhere in between. */
module Cdc {
  import opened Strings

  /** The polled table: row ids and the poll column, which may be NULL. */
  type Table = map<nat, Option<int>>

  datatype Row = Row(id: nat, value: int)

  predicate In(r: Row, table: Table) { r.id in table && table[r.id] == Some(r.value) }

  /** A result of `WHERE col > bookmark ORDER BY col ASC LIMIT limit`; the order of equal values is not fixed. */
  ghost predicate IsPage(table: Table, bookmark: int, limit: nat, rows: seq<Row>) {
    && |rows| <= limit
    && (forall i | 0 <= i < |rows| :: In(rows[i], table) && rows[i].value > bookmark)
    && (forall i, j | 0 <= i < j < |rows| :: rows[i].id != rows[j].id && rows[i].value <= rows[j].value)
    && (forall r: Row | In(r, table) && r.value > bookmark && r !in rows ::
          |rows| == limit && (rows != [] ==> r.value >= rows[|rows| - 1].value))
  }

  /** A result of `SELECT MAX(col)`. */
  ghost predicate IsMax(table: Table, max: Option<int>) {
    match max
    case None => forall r: Row :: !In(r, table)
    case Some(m) => (exists r: Row :: In(r, table) && r.value == m) && forall r: Row | In(r, table) :: r.value <= m
  }

  /** Where an iteration fails, if it does. */
  datatype Fault =
    | NoFault
    | BeforeEnqueue
    | InEnqueue(delivered: bool)
    | BeforeCommit
    | AfterCommit

  /** One turn of the loop: what the trigger row and the table hold, what the query returns, what goes wrong. */
  datatype Poll = Poll(active: bool, table: Table, limit: nat, page: int -> seq<Row>, max: Option<int>, fault: Fault)

  /** The queries answer from the table, whatever bookmark they are given. */
  ghost predicate Answers(p: Poll) {
    IsMax(p.table, p.max) && forall b: int :: IsPage(p.table, b, p.limit, p.page(b))
  }

  /** `v` was in the table at one of the first `n` turns. */
  ghost predicate SeenBefore(script: seq<Poll>, n: nat, v: int) {
    exists i: nat, id: nat :: i < n && i < |script| && In(Row(id, v), script[i].table)
  }

  ghost predicate DistinctValues(table: Table) {
    forall q, r: Row :: In(q, table) && In(r, table) && q.value == r.value ==> q == r
  }

  /** A row of turn `i` is unchanged since the turn before, or has a value above every one seen before. */
  ghost predicate OldOrAbove(script: seq<Poll>, i: nat, r: Row)
    requires 0 < i < |script|
  {
    In(r, script[i - 1].table) || forall v: int :: SeenBefore(script, i, v) ==> v < r.value
  }

  /** Rows keep their value, go away, or move to a value above every one seen before. */
  ghost predicate Evolves(script: seq<Poll>) {
    forall i, r: Row | 0 < i < |script| && In(r, script[i].table) :: OldOrAbove(script, i, r)
  }

  /** No two rows of a turn share a value. */
  ghost predicate NoTies(script: seq<Poll>) {
    forall i | 0 <= i < |script| :: DistinctValues(script[i].table)
  }

  function Flatten(batches: seq<seq<Row>>): seq<Row> {
    if batches == [] then [] else Flatten(batches[..|batches| - 1]) + batches[|batches| - 1]
  }

  function Failures(script: seq<Poll>): nat {
    if script == [] || script[|script| - 1].fault.NoFault? then 0 else 1 + Failures(script[..|script| - 1])
  }

  function Pow2(n: nat): nat { if n == 0 then 1 else 2 * Pow2(n - 1) }

  function Min(a: nat, b: nat): (m: nat)
    ensures m <= a && m <= b && m in {a, b}
  {
    if a < b then a else b
  }

  /** The failures since the last turn that went well. */
  lemma {:induction false} FailuresExactly(script: seq<Poll>)
    ensures var k := Failures(script);
            && k <= |script| && (forall i | |script| - k <= i < |script| :: script[i].fault != NoFault)
            && (k < |script| ==> script[|script| - k - 1].fault == NoFault)
  {
    if script != [] && !script[|script| - 1].fault.NoFault? {
      FailuresExactly(script[..|script| - 1]);
    }
  }

  /** The delay in seconds after `k` failures in a row: doubled each time, a minute from the seventh on. */
  lemma BackoffExactly(k: nat)
    ensures Min(Pow2(k), 60) == if k < 6 then [1, 2, 4, 8, 16, 32][k] else 60
  {
    if k >= 6 {
      Pow2Grows(6, k);
      assert Pow2(6) == 2 * Pow2(5) == 4 * Pow2(4) == 8 * Pow2(3) == 16 * Pow2(2) == 32 * Pow2(1) == 64;
    } else {
      assert Pow2(0) == 1 && Pow2(1) == 2 && Pow2(2) == 4 && Pow2(3) == 8 && Pow2(4) == 2 * Pow2(3) && Pow2(5) == 2 * Pow2(4);
    }
  }

  lemma {:induction false} Pow2Grows(m: nat, n: nat)
    requires m <= n
    ensures Pow2(m) <= Pow2(n)
  {
    if m < n {
      Pow2Grows(m, n - 1);
    }
  }

  /** How long the loop sleeps after each turn that failed. */
  function Delays(script: seq<Poll>): seq<nat> {
    if script == [] then []
    else
      var last := |script| - 1;
      Delays(script[..last])
      + if script[last].fault.NoFault? then [] else [Min(Pow2(Failures(script[..last])), 60)]
  }

  /** Upwards, no row twice; `strict`: no value twice either. */
  ghost predicate Upwards(rows: seq<Row>, strict: bool) {
    forall i, j | 0 <= i < j < |rows| ::
      rows[i] != rows[j] && (if strict then rows[i].value < rows[j].value else rows[i].value <= rows[j].value)
  }

  /** Exactly what a page can skip: rows tied with its last one. */
  lemma SkipsExactlyTies(table: Table, bookmark: int, limit: nat, rows: seq<Row>)
    requires IsPage(table, bookmark, limit, rows) && rows != []
    ensures (exists r: Row :: In(r, table) && bookmark < r.value <= rows[|rows| - 1].value && r !in rows)
       <==> (exists r: Row :: In(r, table) && r.value == rows[|rows| - 1].value && r !in rows)
  {}

  /** Rows 0 to `n - 1`, all of one value. */
  function AllTied(n: nat, v: int): (table: Table)
    ensures forall id: nat :: (id in table <==> id < n) && (id in table ==> table[id] == Some(v))
  {
    if n == 0 then map[] else AllTied(n - 1, v)[n - 1 := Some(v)]
  }

  /** A tie that the limit cuts through, whatever the limit: one row of the value too many. */
  lemma TieCutThrough(limit: nat, v: int)
    requires limit > 0
    ensures var rows := seq(limit, i requires 0 <= i < limit => Row(i, v));
            IsPage(AllTied(limit + 1, v), v - 1, limit, rows) && In(Row(limit, v), AllTied(limit + 1, v)) && Row(limit, v) !in rows
  {
    var rows := seq(limit, i requires 0 <= i < limit => Row(i, v));
    forall r: Row | In(r, AllTied(limit + 1, v)) && r !in rows ensures |rows| == limit && r.value >= rows[limit - 1].value {
      assert r.value == v;
    }
  }

  /** With a positive limit a poll moves on whenever there is something above the bookmark. */
  lemma PageMovesOn(table: Table, bookmark: int, limit: nat, rows: seq<Row>, r: Row)
    requires IsPage(table, bookmark, limit, rows) && limit > 0 && In(r, table) && r.value > bookmark
    ensures rows != [] && rows[|rows| - 1].value > bookmark
  {}

  /** The stored bookmark, the value it was first given, and every row handed to the function so far. */
  datatype Progress = Progress(base: Option<int>, bookmark: Option<int>, delivered: seq<Row>)
  {
    /** The bookmark only moves up from its first value. */
    ghost predicate Marked() {
      && (bookmark.Some? <==> base.Some?)
      && (bookmark.Some? ==> base.value <= bookmark.value)
      && (bookmark.None? ==> delivered == [])
    }

    /** A row with this value was delivered. */
    ghost predicate Tied(r: Row) { exists q: Row :: q in delivered && q.value == r.value }

    /** Nothing of the table between the initial and the current bookmark is missing, unless, when not `strict`,
        a row of the same value was delivered. */
    ghost predicate NoneSkipped(table: Table, strict: bool)
      requires Marked()
    {
      bookmark.Some? ==> forall r: Row :: In(r, table) && base.value < r.value <= bookmark.value ==>
        r in delivered || (!strict && Tied(r))
    }

    /** Every delivery was a row of one of the first `n` tables, above the initial bookmark. */
    ghost predicate AllReal(script: seq<Poll>, n: nat)
      requires Marked()
    {
      forall r: Row :: r in delivered ==>
        bookmark.Some? && r.value > base.value && exists i: nat :: i < n && i < |script| && In(r, script[i].table)
    }

    /** The bookmark is where it started, or a value the table has shown. */
    ghost predicate Anchored(script: seq<Poll>, n: nat)
      requires Marked()
    {
      bookmark != base ==> SeenBefore(script, n, bookmark.value)
    }

    /** The deliveries run upwards to the bookmark without repetition. */
    ghost predicate InOrderOnce(strict: bool)
      requires Marked()
    {
      && Upwards(delivered, strict)
      && (bookmark.Some? ==>
            if delivered == [] then bookmark == base else delivered[|delivered| - 1].value == bookmark.value)
    }
  }

  /** What one turn can make of the progress: nothing, an initial bookmark, or a page delivered and perhaps recorded. */
  ghost predicate PolledTo(s: Progress, p: Poll, t: Progress) {
    match s.bookmark
    case None =>
      t.delivered == s.delivered && t.base == t.bookmark && t.bookmark in {None, p.max} && (p.fault.NoFault? ==> t.bookmark == p.max)
    case Some(b) =>
      var rows := p.page(b);
      && (t == s || (rows != [] && t.base == s.base && t.delivered == s.delivered + rows
                     && t.bookmark in {s.bookmark, Some(rows[|rows| - 1].value)}))
      && (p.fault.NoFault? && rows != [] ==> t.bookmark == Some(rows[|rows| - 1].value) != s.bookmark)
  }

  /** Before it is polled, the next table holds nothing up to the bookmark that was not delivered. */
  lemma CarryOver(script: seq<Poll>, n: nat, s: Progress, strict: bool)
    requires n < |script| && Evolves(script) && s.Marked() && s.Anchored(script, n)
    requires if n > 0 then s.NoneSkipped(script[n - 1].table, strict) else s.bookmark == s.base
    ensures s.NoneSkipped(script[n].table, strict)
  {
    if n > 0 && s.bookmark.Some? {
      forall r: Row | In(r, script[n].table) && s.base.value < r.value <= s.bookmark.value
        ensures r in s.delivered || (!strict && s.Tied(r))
      {
        assert OldOrAbove(script, n, r);
      }
    }
  }

  lemma StaysMarked(s: Progress, p: Poll, t: Progress)
    requires s.Marked() && Answers(p) && PolledTo(s, p, t)
    ensures t.Marked()
    ensures s.bookmark.Some? ==> t.bookmark.Some? && s.bookmark.value <= t.bookmark.value && t.base == s.base
  {}

  lemma StaysUnskipped(s: Progress, p: Poll, t: Progress, strict: bool)
    requires s.Marked() && t.Marked() && Answers(p) && PolledTo(s, p, t)
    requires (strict ==> DistinctValues(p.table)) && s.NoneSkipped(p.table, strict)
    ensures t.NoneSkipped(p.table, strict)
  {
    if s.bookmark.Some? && t != s {
      var rows := p.page(s.bookmark.value);
      assert IsPage(p.table, s.bookmark.value, p.limit, rows);
      var last := rows[|rows| - 1];
      assert In(last, p.table) && last in t.delivered;
      forall r: Row | In(r, p.table) && t.base.value < r.value <= t.bookmark.value
        ensures r in t.delivered || (!strict && t.Tied(r))
      {
        if r.value <= s.bookmark.value {
          assert r in s.delivered || (!strict && s.Tied(r));
          if !strict && s.Tied(r) {
            var q: Row :| q in s.delivered && q.value == r.value;
            assert q in t.delivered;
          }
        } else if r !in rows {
          assert r.value == last.value;
        }
      }
    }
  }

  lemma StaysReal(s: Progress, script: seq<Poll>, n: nat, t: Progress)
    requires n < |script| && s.Marked() && t.Marked() && Answers(script[n]) && PolledTo(s, script[n], t)
    requires s.AllReal(script, n) && s.Anchored(script, n)
    ensures t.AllReal(script, n + 1) && t.Anchored(script, n + 1)
  {}

  lemma StaysInOrder(s: Progress, p: Poll, t: Progress, strict: bool)
    requires s.Marked() && t.Marked() && Answers(p) && PolledTo(s, p, t)
    requires (strict ==> DistinctValues(p.table)) && p.fault.NoFault? && s.InOrderOnce(strict)
    ensures t.InOrderOnce(strict)
  {
    if s.bookmark.Some? && t != s {
      var rows := p.page(s.bookmark.value);
      assert IsPage(p.table, s.bookmark.value, p.limit, rows);
      PageUpwards(p.table, s.bookmark.value, p.limit, rows, strict);
      UpwardsConcat(s.delivered, rows, s.bookmark.value, strict);
    }
  }

  lemma PageUpwards(table: Table, bookmark: int, limit: nat, rows: seq<Row>, strict: bool)
    requires IsPage(table, bookmark, limit, rows) && (strict ==> DistinctValues(table))
    ensures Upwards(rows, strict) && forall r | r in rows :: r.value > bookmark
  {
    forall i, j | 0 <= i < j < |rows|
      ensures rows[i] != rows[j] && (if strict then rows[i].value < rows[j].value else rows[i].value <= rows[j].value)
    {
      assert In(rows[i], table) && In(rows[j], table);
    }
  }

  lemma UpwardsConcat(a: seq<Row>, b: seq<Row>, m: int, strict: bool)
    requires Upwards(a, strict) && Upwards(b, strict)
    requires (a != [] ==> a[|a| - 1].value <= m) && forall r | r in b :: r.value > m
    ensures Upwards(a + b, strict)
  {
    var c := a + b;
    forall i, j | 0 <= i < j < |c|
      ensures c[i] != c[j] && (if strict then c[i].value < c[j].value else c[i].value <= c[j].value)
    {
      if i < |a| <= j {
        assert c[j] == b[j - |a|] && b[j - |a|] in b;
        assert i < |a| - 1 ==> a[i].value <= a[|a| - 1].value;
      } else if |a| <= i {
        assert b[i - |a|] == c[i] && b[j - |a|] == c[j];
      }
    }
  }

  class Trigger {
    var bookmark: Option<int>
    var enqueued: seq<seq<Row>>
    var backoff: nat
    var sleeps: seq<nat>
    ghost var base: Option<int>

    constructor (bookmark: Option<int>)
      ensures this.bookmark == bookmark == base && enqueued == [] && backoff == 1 && sleeps == []
    {
      this.bookmark, base, enqueued, backoff, sleeps := bookmark, bookmark, [], 1, [];
    }

    ghost function Now(): Progress
      reads this
    {
      Progress(base, bookmark, Flatten(enqueued))
    }

    /** The body of the loop up to where it failed, if it did. */
    method PollOnce(p: Poll)
      requires Now().Marked() && Answers(p)
      modifies this`bookmark, this`enqueued, this`base
      ensures PolledTo(old(Now()), p, Now())
      ensures old(bookmark) == None ==>
                enqueued == old(enqueued) && bookmark == if p.fault in {NoFault, AfterCommit} then p.max else None
      ensures old(bookmark) != None && (p.page(old(bookmark).value) == [] || p.fault in {BeforeEnqueue, InEnqueue(false)}) ==>
                enqueued == old(enqueued) && bookmark == old(bookmark)
      ensures old(bookmark) != None && p.page(old(bookmark).value) != [] && p.fault !in {BeforeEnqueue, InEnqueue(false)} ==>
                var rows := p.page(old(bookmark).value);
                && enqueued == old(enqueued) + [rows]
                && bookmark == if p.fault in {NoFault, AfterCommit} then Some(rows[|rows| - 1].value) else old(bookmark)
    {
      if p.fault.BeforeEnqueue? {
        return;
      }
      if bookmark.None? {
        if p.fault.NoFault? || p.fault.AfterCommit? {
          bookmark, base := p.max, p.max;
        }
      } else {
        var rows := p.page(bookmark.value);
        assert IsPage(p.table, bookmark.value, p.limit, rows);
        if rows != [] {
          if p.fault.InEnqueue? && !p.fault.delivered {
            return;
          }
          enqueued := enqueued + [rows];
          if p.fault.NoFault? || p.fault.AfterCommit? {
            bookmark := Some(rows[|rows| - 1].value);
          }
        }
      }
    }

    /** After a turn: a reset, or an exponential backoff of at most a minute. */
    method Rest(failed: bool)
      modifies this`backoff, this`sleeps
      ensures sleeps == old(sleeps) + if failed then [Min(old(backoff), 60)] else []
      ensures backoff == if failed then Min(2 * old(backoff), 60) else 1
    {
      if failed {
        sleeps := sleeps + [Min(backoff, 60)];
        backoff := Min(backoff * 2, 60);
      } else {
        backoff := 1;
      }
    }

    /** One turn keeps everything said about the deliveries so far; what holds without ties is asked for by `strict`. */
    method Turn(script: seq<Poll>, n: nat, ghost strict: bool)
      requires n < |script| && Evolves(script) && (strict ==> NoTies(script)) && Answers(script[n]) && Now().Marked()
      requires Now().AllReal(script, n) && Now().Anchored(script, n)
      requires if n > 0 then Now().NoneSkipped(script[n - 1].table, strict) else bookmark == base
      modifies this`bookmark, this`enqueued, this`base
      ensures PolledTo(old(Now()), script[n], Now())
      ensures Now().Marked() && Now().AllReal(script, n + 1) && Now().Anchored(script, n + 1)
      ensures Now().NoneSkipped(script[n].table, strict)
      ensures old(bookmark).Some? ==> bookmark.Some? && old(bookmark).value <= bookmark.value && base == old(base)
      ensures script[n].fault.NoFault? && old(Now().InOrderOnce(strict)) ==> Now().InOrderOnce(strict)
    {
      ghost var before := Now();
      if strict {
        assert DistinctValues(script[n].table);
      }
      hide Answers, Evolves, NoTies, DistinctValues, PolledTo;
      hide Progress.AllReal, Progress.NoneSkipped, Progress.Anchored, Progress.InOrderOnce;
      CarryOver(script, n, before, strict);
      PollOnce(script[n]);
      StaysMarked(before, script[n], Now());
      StaysUnskipped(before, script[n], Now(), strict);
      StaysReal(before, script, n, Now());
      if script[n].fault.NoFault? && before.InOrderOnce(strict) {
        StaysInOrder(before, script[n], Now(), strict);
      }
    }

    /** The poll loop, over any evolution of the table and any faults; it stops at the first inactive turn.
        `trace` is the progress before the first turn and after each. */
    method RunPollLoop(script: seq<Poll>) returns (n: nat, ghost trace: seq<Progress>)
      requires Now().Marked() && enqueued == [] && bookmark == base && backoff == 1
      requires Evolves(script) && forall i | 0 <= i < |script| :: Answers(script[i])
      modifies this
      ensures n <= |script| && (n == |script| || !script[n].active) && forall i | 0 <= i < n :: script[i].active
      ensures Polls(script, trace) && |trace| == n + 1 && trace[0] == old(Now()) && trace[n] == Now()
      ensures Now().Marked() && Now().AllReal(script, n)
      ensures old(bookmark).Some? ==> bookmark.Some? && old(bookmark).value <= bookmark.value && base == old(bookmark)
      ensures n > 0 ==> Now().NoneSkipped(script[n - 1].table, NoTies(script))
      ensures (forall i | 0 <= i < n :: script[i].fault.NoFault?) ==> Now().InOrderOnce(NoTies(script))
      ensures backoff == Min(Pow2(Failures(script[..n])), 60) && sleeps == old(sleeps) + Delays(script[..n])
    {
      hide Answers, Evolves, NoTies, PolledTo, Progress.AllReal, Progress.NoneSkipped, Progress.Anchored, Progress.InOrderOnce;
      hide Failures, Delays, Pow2;
      NothingFailed(script);
      n := 0;
      trace := [Now()];
      ghost var strict := NoTies(script);
      NothingYet(Now(), script, strict);
      while n < |script| && script[n].active
        invariant n <= |script| && forall i | 0 <= i < n :: script[i].active
        invariant |trace| == n + 1 && trace[0] == old(Now()) && trace[n] == Now()
        invariant Polls(script, trace)
        invariant Now().Marked() && Now().AllReal(script, n) && Now().Anchored(script, n)
        invariant old(bookmark).Some? ==> bookmark.Some? && old(bookmark).value <= bookmark.value && base == old(bookmark)
        invariant if n > 0 then Now().NoneSkipped(script[n - 1].table, strict) else bookmark == base && enqueued == []
        invariant (forall i | 0 <= i < n :: script[i].fault.NoFault?) ==> Now().InOrderOnce(strict)
        invariant backoff == Min(Pow2(Failures(script[..n])), 60) && sleeps == old(sleeps) + Delays(script[..n])
      {
        Turn(script, n, strict);
        FailureCounted(script, n);
        Rest(!script[n].fault.NoFault?);
        trace := trace + [Now()];
        n := n + 1;
      }
    }
  }

  lemma NothingFailed(script: seq<Poll>)
    ensures Failures(script[..0]) == 0 && Delays(script[..0]) == [] && Pow2(0) == 1
  {}

  lemma FailureCounted(script: seq<Poll>, n: nat)
    requires n < |script|
    ensures Delays(script[..n + 1])
         == Delays(script[..n]) + if script[n].fault.NoFault? then [] else [Min(Pow2(Failures(script[..n])), 60)]
    ensures Pow2(Failures(script[..n + 1])) == if script[n].fault.NoFault? then 1 else 2 * Pow2(Failures(script[..n]))
  {
    assert script[..n + 1][..n] == script[..n];
  }

  lemma NothingYet(s: Progress, script: seq<Poll>, strict: bool)
    requires s.Marked() && s.delivered == [] && s.bookmark == s.base
    ensures s.AllReal(script, 0) && s.Anchored(script, 0) && s.InOrderOnce(strict)
  {}

  /** Each progress comes from the one before by the turn between them. */
  ghost predicate Polls(script: seq<Poll>, trace: seq<Progress>) {
    |trace| <= |script| + 1 && forall i | 0 < i < |trace| :: PolledTo(trace[i - 1], script[i - 1], trace[i])
  }

  /** A row the bookmark has passed without delivering it is never delivered while it keeps its value. */
  lemma {:induction false} LeftBehindForever(script: seq<Poll>, trace: seq<Progress>, i: nat, j: nat, r: Row)
    requires Polls(script, trace) && i <= j < |trace| && forall k | 0 <= k < |script| :: Answers(script[k])
    requires trace[i].Marked() && trace[i].bookmark.Some? && r.value <= trace[i].bookmark.value && r !in trace[i].delivered
    ensures trace[j].Marked() && trace[j].bookmark.Some? && r.value <= trace[j].bookmark.value && r !in trace[j].delivered
    decreases j
  {
    if i < j {
      LeftBehindForever(script, trace, i, j - 1, r);
      PassedStays(trace[j - 1], script[j - 1], trace[j], r);
    }
  }

  lemma PassedStays(s: Progress, p: Poll, t: Progress, r: Row)
    requires s.Marked() && Answers(p) && PolledTo(s, p, t)
    requires s.bookmark.Some? && r.value <= s.bookmark.value && r !in s.delivered
    ensures t.Marked() && t.bookmark.Some? && r.value <= t.bookmark.value && r !in t.delivered
  {
    StaysMarked(s, p, t);
    assert IsPage(p.table, s.bookmark.value, p.limit, p.page(s.bookmark.value));
  }
}
