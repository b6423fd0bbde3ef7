/** The bus channel: a table of granted time slots, filled gap by gap. */
module Slots {
  datatype Interval = Interval(lock: real, unlock: real)

  function Length(e: Interval): real { e.unlock - e.lock }

  predicate Apart(a: Interval, b: Interval) {
    a.unlock <= b.lock || b.unlock <= a.lock
  }

  predicate Proper(t: seq<Interval>) {
    forall e :: e in t ==> e.lock < e.unlock
  }

  predicate Disjoint(t: seq<Interval>) {
    forall i, j :: 0 <= i < j < |t| ==> Apart(t[i], t[j])
  }

  predicate SortedByLock(t: seq<Interval>) {
    forall i, j :: 0 <= i < j < |t| ==> t[i].lock <= t[j].lock
  }

  /** Each entry ends before any later one begins. */
  predicate Chain(t: seq<Interval>) {
    Proper(t) && forall i, j :: 0 <= i < j < |t| ==> t[i].unlock <= t[j].lock
  }

  /** An order std::sort may leave: equal lock times come in any order. */
  ghost predicate Arranged(t: seq<Interval>, s: seq<Interval>) {
    multiset(s) == multiset(t) && SortedByLock(s)
  }

  function Insert(e: Interval, s: seq<Interval>): seq<Interval> {
    if s == [] || e.lock <= s[0].lock then [e] + s else [s[0]] + Insert(e, s[1..])
  }

  lemma {:induction false} InsertOk(e: Interval, s: seq<Interval>)
    requires SortedByLock(s)
    ensures SortedByLock(Insert(e, s)) && multiset(Insert(e, s)) == multiset(s) + multiset{e}
  {
    if s != [] && e.lock > s[0].lock {
      var rest := s[1..];
      assert s == [s[0]] + rest;
      InsertOk(e, rest);
      forall x | x in Insert(e, rest) ensures s[0].lock <= x.lock {
        assert x in multiset(Insert(e, rest));
        assert x == e || x in rest;
      }
      HeadFirst(s[0], Insert(e, rest));
    } else {
      HeadFirst(e, s);
    }
  }

  lemma HeadFirst(e: Interval, s: seq<Interval>)
    requires SortedByLock(s) && forall x :: x in s ==> e.lock <= x.lock
    ensures SortedByLock([e] + s)
  {
    var r := [e] + s;
    forall i, j | 0 <= i < j < |r| ensures r[i].lock <= r[j].lock {
      assert r[j] == s[j - 1] && r[j] in s;
      assert i > 0 ==> r[i] == s[i - 1];
    }
  }

  function Arrange(t: seq<Interval>): (r: seq<Interval>)
    ensures Arranged(t, r)
  {
    if t == [] then [] else
      assert t == [t[0]] + t[1..];
      var rest := Arrange(t[1..]);
      InsertOk(t[0], rest);
      Insert(t[0], rest)
  }

  /** The entries that end after `start`. */
  function Live(t: seq<Interval>, start: real): seq<Interval> {
    if t == [] then []
    else if t[0].unlock <= start then Live(t[1..], start)
    else [t[0]] + Live(t[1..], start)
  }

  lemma {:induction false} LiveMembers(t: seq<Interval>, start: real)
    ensures forall e :: e in Live(t, start) <==> e in t && e.unlock > start
  {
    if t != [] {
      LiveMembers(t[1..], start);
      assert t == [t[0]] + t[1..];
    }
  }

  lemma LiveFirst(e: Interval, t: seq<Interval>, start: real)
    ensures Live([e] + t, start) == (if e.unlock <= start then [] else [e]) + Live(t, start)
  {
    assert ([e] + t)[1..] == t;
  }

  lemma {:induction false} LiveSplit(a: seq<Interval>, b: seq<Interval>, start: real)
    ensures Live(a + b, start) == Live(a, start) + Live(b, start)
  {
    if a == [] {
      assert a + b == b;
    } else {
      LiveSplit(a[1..], b, start);
      assert a + b == [a[0]] + (a[1..] + b);
      LiveFirst(a[0], a[1..] + b, start);
      LiveFirst(a[0], a[1..], start);
      assert a == [a[0]] + a[1..];
      hide Live;
    }
  }

  lemma {:induction false} AllLive(t: seq<Interval>, start: real)
    requires forall e :: e in t ==> e.unlock > start
    ensures Live(t, start) == t
  {
    if t != [] {
      AllLive(t[1..], start);
      assert t == [t[0]] + t[1..];
    }
  }

  /** lock's choice between the gaps of a sorted table, from the one after entry i on. */
  function Gap(s: seq<Interval>, i: nat, start: real, duration: real): real
    requires i < |s|
    decreases |s| - i
  {
    if i + 1 < |s| then
      if s[i].unlock >= start && s[i + 1].lock - s[i].unlock >= duration then s[i].unlock
      else Gap(s, i + 1, start, duration)
    else s[i].unlock
  }

  /** The time lock schedules at, given the sorted table without expired entries. */
  function Slot(s: seq<Interval>, start: real, duration: real): real {
    if s == [] then start
    else if s[0].lock > start && s[0].lock - start >= duration then start
    else Gap(s, 0, start, duration)
  }

  ghost predicate Free(s: seq<Interval>, t: real, duration: real) {
    forall e :: e in s ==> Apart(Interval(t, t + duration), e)
  }

  /** t is the least time from start on at which the bus is free for the duration. */
  ghost predicate EarliestFit(s: seq<Interval>, start: real, duration: real, t: real) {
    && start <= t && Free(s, t, duration)
    && forall u :: start <= u < t ==> !Free(s, u, duration)
  }

  function Total(s: seq<Interval>): real {
    if s == [] then 0.0 else Total(s[..|s| - 1]) + Length(s[|s| - 1])
  }

  /** The lengths of the entries and, for each, one gap of the given duration. */
  function WithGaps(s: seq<Interval>, duration: real): real {
    if s == [] then 0.0 else WithGaps(s[..|s| - 1], duration) + Length(s[|s| - 1]) + duration
  }

  /** The lengths of the entries and one duration for each of them. */
  function WaitLimit(s: seq<Interval>, duration: real): real {
    Total(s) + |s| as real * duration
  }

  // ------------------------------------------------------------------ tables

  lemma {:induction false} Twice(s: seq<Interval>, x: Interval)
    requires multiset(s)[x] >= 2
    ensures exists i, j :: 0 <= i < j < |s| && s[i] == x && s[j] == x
  {
    var n := |s| - 1;
    assert s == s[..n] + [s[n]];
    if s[n] != x {
      Twice(s[..n], x);
      var i, j :| 0 <= i < j < n && s[..n][i] == x && s[..n][j] == x;
      assert s[i] == x && s[j] == x;
    } else {
      assert x in multiset(s[..n]);
      var i :| 0 <= i < n && s[..n][i] == x;
      assert s[i] == x && s[n] == x;
    }
  }

  lemma OnceOnly(s: seq<Interval>, i: nat, j: nat)
    requires i < j < |s| && s[i] == s[j]
    ensures multiset(s)[s[i]] >= 2
  {
    assert s == s[..j] + s[j..] && s[i] in s[..j] && s[j] in s[j..];
    assert multiset(s) == multiset(s[..j]) + multiset(s[j..]);
  }

  /** Reordering keeps the entries of a table disjoint. */
  lemma ReorderKeepsDisjoint(s: seq<Interval>, t: seq<Interval>)
    requires Disjoint(s) && Proper(s) && multiset(s) == multiset(t)
    ensures Disjoint(t) && Proper(t)
  {
    forall e | e in t ensures e in s { assert e in multiset(t); }
    forall i, j | 0 <= i < j < |t| ensures Apart(t[i], t[j]) {
      if t[i] == t[j] {
        OnceOnly(t, i, j);
        Twice(s, t[i]);
      } else {
        assert t[i] in s && t[j] in s;
      }
    }
  }

  lemma LiveKeepsDisjoint(t: seq<Interval>, start: real)
    requires Disjoint(t)
    ensures Disjoint(Live(t, start))
  {
    if t != [] {
      LiveKeepsDisjoint(t[1..], start);
      LiveMembers(t[1..], start);
      var rest := Live(t[1..], start);
      forall e | e in rest ensures Apart(t[0], e) {
        var k :| 0 <= k < |t[1..]| && t[1..][k] == e;
        assert t[k + 1] == e;
      }
    }
  }

  lemma SortedIsChain(s: seq<Interval>)
    requires SortedByLock(s) && Disjoint(s) && Proper(s)
    ensures Chain(s)
  {
  }

  /** Sorting the unexpired entries of a disjoint table leaves a chain. */
  lemma LiveChain(t: seq<Interval>, start: real, s: seq<Interval>)
    requires Disjoint(t) && Proper(t) && Arranged(Live(t, start), s)
    ensures Chain(s) && Disjoint(s)
    ensures forall e :: e in s <==> e in t && e.unlock > start
  {
    LiveKeepsDisjoint(t, start);
    LiveMembers(t, start);
    assert forall e :: e in Live(t, start) ==> e in t;
    ReorderKeepsDisjoint(Live(t, start), s);
    SortedIsChain(s);
    forall e ensures e in s <==> e in Live(t, start) {
      assert e in s <==> e in multiset(s);
    }
  }

  // ------------------------------------------------------------------ earliest fit

  lemma Blocked(s: seq<Interval>, k: nat, t: real, duration: real)
    requires k < |s| && !Apart(Interval(t, t + duration), s[k])
    ensures !Free(s, t, duration)
  {
    assert s[k] in s;
  }

  lemma {:induction false} GapIsEarliest(s: seq<Interval>, i: nat, start: real, duration: real)
    requires Chain(s) && i < |s| && duration > 0.0 && s[i].unlock > start
    requires forall u :: start <= u < s[i].unlock ==> !Free(s, u, duration)
    ensures EarliestFit(s, start, duration, Gap(s, i, start, duration))
    decreases |s| - i
  {
    if i + 1 < |s| && s[i + 1].lock - s[i].unlock < duration {
      forall u | start <= u < s[i + 1].unlock ensures !Free(s, u, duration) {
        if s[i].unlock <= u { Blocked(s, i + 1, u, duration); }
      }
      GapIsEarliest(s, i + 1, start, duration);
    } else {
      forall e | e in s ensures Apart(Interval(s[i].unlock, s[i].unlock + duration), e) {
        var k :| 0 <= k < |s| && s[k] == e;
        if k < i {
          assert s[k].unlock <= s[i].lock;
        } else if k > i + 1 {
          assert s[i + 1].unlock <= s[k].lock;
        }
      }
    }
  }

  /** lock schedules at the earliest time the bus is free for the whole duration. */
  lemma SlotIsEarliest(s: seq<Interval>, start: real, duration: real)
    requires Chain(s) && duration > 0.0 && forall e :: e in s ==> e.unlock > start
    ensures EarliestFit(s, start, duration, Slot(s, start, duration))
  {
    if s == [] {
    } else if s[0].lock - start >= duration {
      forall e | e in s ensures Apart(Interval(start, start + duration), e) {
        var k :| 0 <= k < |s| && s[k] == e;
        assert k > 0 ==> s[0].unlock <= s[k].lock;
      }
    } else {
      forall u | start <= u < s[0].unlock ensures !Free(s, u, duration) {
        Blocked(s, 0, u, duration);
      }
      GapIsEarliest(s, 0, start, duration);
    }
  }

  /** For durations of zero too: the slot is always free, and it is the earliest one exactly when
      the duration is positive or no entry begins at the start. */
  lemma EarliestExactly(s: seq<Interval>, start: real, duration: real)
    requires Chain(s) && duration >= 0.0 && forall e :: e in s ==> e.unlock > start
    ensures var t := Slot(s, start, duration);
            && start <= t && Free(s, t, duration)
            && (EarliestFit(s, start, duration, t) <==> duration > 0.0 || forall e :: e in s ==> e.lock != start)
  {
    if duration > 0.0 {
      SlotIsEarliest(s, start, duration);
    } else if s != [] {
      ZeroSlot(s, start);
    }
  }

  lemma ZeroSlot(s: seq<Interval>, start: real)
    requires Chain(s) && s != [] && forall e :: e in s ==> e.unlock > start
    ensures var t := Slot(s, start, 0.0);
            && start <= t && Free(s, t, 0.0)
            && (EarliestFit(s, start, 0.0, t) <==> forall e :: e in s ==> e.lock != start)
  {
    var t := Slot(s, start, 0.0);
    assert t == if s[0].lock > start then start else s[0].unlock;
    assert s[0] in s;
    forall e | e in s ensures Apart(Interval(t, t + 0.0), e) && (e != s[0] ==> e.lock >= s[0].unlock) {
      var k :| 0 <= k < |s| && s[k] == e;
      assert k > 0 ==> s[0].unlock <= s[k].lock;
    }
    if s[0].lock == start {
      assert Free(s, start, 0.0);
    } else {
      forall u | start <= u < t ensures !Free(s, u, 0.0) { Blocked(s, 0, u, 0.0); }
    }
  }

  /** The earliest fit depends on the entries alone, not on their order. */
  lemma EarliestFitIsUnique(s: seq<Interval>, s': seq<Interval>, start: real, duration: real, t: real)
    requires forall e :: e in s <==> e in s'
    requires EarliestFit(s, start, duration, t)
    ensures EarliestFit(s', start, duration, t)
    ensures forall t' :: EarliestFit(s', start, duration, t') ==> t' == t
  {
    assert forall u :: Free(s, u, duration) <==> Free(s', u, duration);
  }

  lemma {:induction false} GapWait(s: seq<Interval>, i: nat, start: real, duration: real)
    requires i < |s| && duration >= 0.0 && Proper(s) && forall e :: e in s ==> e.unlock > start
    requires s[i].unlock - start <= WithGaps(s[..i + 1], duration)
    ensures Gap(s, i, start, duration) - start <= WithGaps(s, duration)
    decreases |s| - i
  {
    if i + 1 == |s| {
      assert s[..i + 1] == s;
    } else if s[i].unlock >= start && s[i + 1].lock - s[i].unlock >= duration {
      PrefixWithGaps(s, i + 1, duration);
    } else {
      assert s[..i + 2][..i + 1] == s[..i + 1] && s[..i + 2][i + 1] == s[i + 1];
      GapWait(s, i + 1, start, duration);
    }
  }

  lemma {:induction false} PrefixWithGaps(s: seq<Interval>, n: nat, duration: real)
    requires Proper(s) && n <= |s| && duration >= 0.0
    ensures WithGaps(s[..n], duration) <= WithGaps(s, duration)
    decreases |s|
  {
    if n == |s| {
      assert s[..n] == s;
    } else {
      var f := s[..|s| - 1];
      PrefixWithGaps(f, n, duration);
      assert f[..n] == s[..n] && s[|s| - 1] in s;
    }
  }

  lemma {:induction false} GapsAddUp(s: seq<Interval>, duration: real)
    ensures WithGaps(s, duration) == Total(s) + |s| as real * duration
    decreases |s|
  {
    if s != [] {
      GapsAddUp(s[..|s| - 1], duration);
      assert |s| as real * duration == (|s| - 1) as real * duration + duration;
    }
  }

  /** A request waits at most for the length of every unexpired entry plus, for each, a gap
      shorter than itself. */
  lemma WaitBound(s: seq<Interval>, start: real, duration: real)
    requires Chain(s) && duration >= 0.0 && forall e :: e in s ==> e.unlock > start
    ensures Slot(s, start, duration) - start <= WaitLimit(s, duration)
  {
    GapsAddUp(s, duration);
    PrefixWithGaps(s, 0, duration);
    if s != [] && !(s[0].lock > start && s[0].lock - start >= duration) {
      assert s[..1][..0] == [] && s[..1][0] == s[0];
      assert WithGaps(s[..1], duration) == Length(s[0]) + duration;
      GapWait(s, 0, start, duration);
    }
  }
}

/** Runs of the channel, and the channel object. */
module Channels {
  import opened Slots

  /** `granted` lists every interval ever granted, in order, also those no longer in the table. */
  datatype Bus = Bus(table: seq<Interval>, readyAt: real, granted: seq<Interval>)
  datatype Request = Request(start: real, duration: real)

  const IDLE := Bus([], -1.0, [])

  /** The effect of one lock call. The new table is the unexpired part, sorted, and the grant. */
  ghost predicate Granted(b: Bus, r: Request, b': Bus) {
    && |b'.table| > 0
    && var s := b'.table[..|b'.table| - 1];
       var t := Slot(s, r.start, r.duration);
       var g := Interval(t, t + r.duration);
       && Arranged(Live(b.table, r.start), s) && b'.table == s + [g]
       && b'.readyAt == (if g.unlock > b.readyAt then g.unlock else b.readyAt)
       && b'.granted == b.granted + [g]
  }

  /** readyAt is the latest end of any grant. */
  predicate ReadyIsLatest(b: Bus) {
    && (b.granted == [] ==> b.readyAt == -1.0)
    && (b.granted != [] ==> exists g :: g in b.granted && g.unlock == b.readyAt)
    && forall g :: g in b.granted ==> 0.0 <= g.unlock <= b.readyAt
  }

  /** The entries of the table are disjoint; this says nothing of what has left it. */
  ghost predicate TableOk(b: Bus) {
    Proper(b.table) && Disjoint(b.table)
  }

  /** All grants are disjoint; whatever left the table ended before anything still in it. */
  ghost predicate HistoryOk(b: Bus) {
    && Proper(b.granted) && Disjoint(b.granted)
    && (forall e :: e in b.table ==> e in b.granted)
    && forall g, e :: g in b.granted && g !in b.table && e in b.table ==> g.unlock < e.unlock
  }

  ghost predicate Inv(b: Bus) { TableOk(b) && ReadyIsLatest(b) && HistoryOk(b) }

  /** No interval that left the table ends after `start`. */
  ghost predicate PastIsOver(b: Bus, start: real) {
    forall g :: g in b.granted && g !in b.table ==> g.unlock <= start
  }

  /** From any disjoint table, whatever was granted before and in whatever order: the grant is
      free of every unexpired entry and waits no longer than the bound, and it is the earliest
      fit unless its duration is zero and an entry begins at its start. */
  lemma GrantFits(b: Bus, r: Request, b': Bus)
    requires TableOk(b) && r.duration >= 0.0 && Granted(b, r, b')
    ensures Fits(b, r, b')
    ensures |b'.table| > 0 && var s, g := b'.table[..|b'.table| - 1], b'.table[|b'.table| - 1];
            && g.unlock == g.lock + r.duration && Disjoint(s) && Proper(s)
            && forall e :: e in s <==> e in b.table && e.unlock > r.start
  {
    var s, g := b'.table[..|b'.table| - 1], b'.table[|b'.table| - 1];
    LiveChain(b.table, r.start, s);
    EarliestExactly(s, r.start, r.duration);
    WaitBound(s, r.start, r.duration);
    assert g == Interval(Slot(s, r.start, r.duration), Slot(s, r.start, r.duration) + r.duration);
    hide Slot, Chain, Arranged, WaitLimit, Live, Disjoint;
    LiveMembers(b.table, r.start);
    SameFits(s, Live(b.table, r.start), r.start, r.duration, g.lock);
  }

  /** The grant that leads from b to b' is free, within the bound and, but for one case, the
      earliest fit. */
  ghost predicate Fits(b: Bus, r: Request, b': Bus) {
    |b'.table| > 0 && var live, g := Live(b.table, r.start), b'.table[|b'.table| - 1];
    && r.start <= g.lock && Free(live, g.lock, r.duration)
    && g.lock - r.start <= WaitLimit(b'.table[..|b'.table| - 1], r.duration)
    && (EarliestFit(live, r.start, r.duration, g.lock) <==>
        r.duration > 0.0 || forall e :: e in live ==> e.lock != r.start)
  }

  lemma SameFits(s: seq<Interval>, s': seq<Interval>, start: real, duration: real, t: real)
    requires forall e :: e in s <==> e in s'
    ensures EarliestFit(s, start, duration, t) <==> EarliestFit(s', start, duration, t)
    ensures Free(s, t, duration) <==> Free(s', t, duration)
  {
    assert forall u :: Free(s, u, duration) <==> Free(s', u, duration);
  }

  /** And a positive duration leaves the table disjoint. */
  lemma GrantIsEarliest(b: Bus, r: Request, b': Bus)
    requires TableOk(b) && r.duration > 0.0 && Granted(b, r, b')
    ensures TableOk(b') && Fits(b, r, b')
    ensures var s, g := b'.table[..|b'.table| - 1], b'.table[|b'.table| - 1];
            && EarliestFit(Live(b.table, r.start), r.start, r.duration, g.lock)
            && r.start <= g.lock && (forall e :: e in s ==> Apart(g, e))
            && forall e :: e in s <==> e in b.table && e.unlock > r.start
  {
    var s, g := b'.table[..|b'.table| - 1], b'.table[|b'.table| - 1];
    GrantFits(b, r, b');
    hide Slot, Arranged, WaitLimit, Live, Disjoint, EarliestFit;
    LiveMembers(b.table, r.start);
    assert forall e :: e in s ==> e in Live(b.table, r.start);
    assert g == Interval(g.lock, g.lock + r.duration);
    assert b'.table == s + [g];
    Extend(s, g);
  }

  /** Every grant keeps readyAt the latest end, for any table and any duration. */
  lemma GrantKeepsReady(b: Bus, r: Request, b': Bus)
    requires ReadyIsLatest(b) && r.start >= 0.0 && r.duration >= 0.0 && Granted(b, r, b')
    ensures ReadyIsLatest(b')
  {
    var s, g := b'.table[..|b'.table| - 1], b'.table[|b'.table| - 1];
    LiveMembers(b.table, r.start);
    forall e | e in s ensures e.unlock > r.start {
      assert e in multiset(s);
      assert e in Live(b.table, r.start);
    }
    SlotNotEarly(s, r.start, r.duration);
    assert g == Interval(Slot(s, r.start, r.duration), Slot(s, r.start, r.duration) + r.duration);
    hide Slot, Arranged, Live;
    LatestKept(b, g, b');
  }

  lemma SlotNotEarly(s: seq<Interval>, start: real, duration: real)
    requires forall e :: e in s ==> e.unlock > start
    ensures Slot(s, start, duration) >= start
  {
    if s != [] { GapNotEarly(s, 0, start, duration); }
  }

  lemma {:induction false} GapNotEarly(s: seq<Interval>, i: nat, start: real, duration: real)
    requires i < |s| && forall e :: e in s ==> e.unlock > start
    ensures Gap(s, i, start, duration) >= start
    decreases |s| - i
  {
    assert s[i] in s;
    if i + 1 < |s| { GapNotEarly(s, i + 1, start, duration); }
  }

  lemma GrantMeans(b: Bus, r: Request, b': Bus)
    requires r.start >= 0.0 && r.duration >= 0.0 && Granted(b, r, b')
    ensures TableOk(b) ==> Fits(b, r, b') && (r.duration > 0.0 ==> TableOk(b'))
    ensures ReadyIsLatest(b) ==> ReadyIsLatest(b')
    ensures Inv(b) && r.duration > 0.0 && PastIsOver(b, r.start) ==> Inv(b')
  {
    hide Granted, Inv, TableOk, EarliestFit, PastIsOver, ReadyIsLatest, Fits;
    if TableOk(b) {
      GrantFits(b, r, b');
      if r.duration > 0.0 { GrantIsEarliest(b, r, b'); }
    }
    if ReadyIsLatest(b) { GrantKeepsReady(b, r, b'); }
    if Inv(b) && r.duration > 0.0 && PastIsOver(b, r.start) { GrantOk(b, r, b'); }
  }

  lemma Extend(t: seq<Interval>, g: Interval)
    requires Disjoint(t) && forall e :: e in t ==> Apart(g, e)
    ensures Disjoint(t + [g])
  {
    forall i, j | 0 <= i < j < |t + [g]| ensures Apart((t + [g])[i], (t + [g])[j]) {
      assert t[i] in t;
    }
  }

  /** What a grant keeps, when the past is over at its start. */
  lemma GrantOk(b: Bus, r: Request, b': Bus)
    requires Inv(b) && PastIsOver(b, r.start) && r.start >= 0.0 && r.duration > 0.0 && Granted(b, r, b')
    ensures Inv(b') && PastIsOver(b', r.start)
    ensures |b'.granted| == |b.granted| + 1 && b'.granted[..|b.granted|] == b.granted
    ensures b'.granted[|b.granted|].lock >= r.start && Length(b'.granted[|b.granted|]) == r.duration
  {
    GrantIsEarliest(b, r, b');
    GrantKeepsReady(b, r, b');
    hide Slot, Arranged, Live, EarliestFit, WaitLimit, TableOk, ReadyIsLatest, Fits;
    var n := |b'.table| - 1;
    HistoryKept(b, r.start, b'.table[..n], b'.table[n], b');
  }

  lemma HistoryKept(b: Bus, start: real, s: seq<Interval>, g: Interval, b': Bus)
    requires HistoryOk(b) && PastIsOver(b, start) && b'.table == s + [g] && b'.granted == b.granted + [g]
    requires start <= g.lock < g.unlock && forall e :: e in s ==> Apart(g, e)
    requires forall e :: e in s <==> e in b.table && e.unlock > start
    ensures HistoryOk(b') && PastIsOver(b', start)
  {
    assert forall e :: e in b.granted ==> Apart(g, e);
    Extend(b.granted, g);
    hide Disjoint;
    assert forall e :: e in b'.table <==> e in s || e == g;
    assert forall e :: e in b'.granted <==> e in b.granted || e == g;
  }

  lemma LatestKept(b: Bus, g: Interval, b': Bus)
    requires ReadyIsLatest(b) && g.unlock >= 0.0 && b'.granted == b.granted + [g]
    requires b'.readyAt == if g.unlock > b.readyAt then g.unlock else b.readyAt
    ensures ReadyIsLatest(b')
  {
    assert g in b'.granted;
    if b.granted != [] {
      var l :| l in b.granted && l.unlock == b.readyAt;
      assert l in b'.granted;
    }
  }

  /** A start is safe for every duration exactly when the past is over at it. */
  lemma SafeStart(b: Bus, start: real)
    requires Inv(b) && start >= 0.0
    ensures PastIsOver(b, start) <==>
            forall d: real, b': Bus :: d > 0.0 && Granted(b, Request(start, d), b') ==> Disjoint(b'.granted)
  {
    if PastIsOver(b, start) {
      forall d: real, b': Bus | d > 0.0 && Granted(b, Request(start, d), b') ensures Disjoint(b'.granted) {
        GrantOk(b, Request(start, d), b');
      }
    } else {
      var g :| g in b.granted && g !in b.table && g.unlock > start;
      LateGrant(b, start, g);
    }
  }

  lemma GrantStep(b: Bus, r: Request, s: seq<Interval>, g: Interval, b': Bus)
    requires Arranged(Live(b.table, r.start), s) && Slot(s, r.start, r.duration) == g.lock
    requires g.unlock == g.lock + r.duration
    requires b' == Bus(s + [g], if g.unlock > b.readyAt then g.unlock else b.readyAt, b.granted + [g])
    ensures Granted(b, r, b')
  {
    assert b'.table[..|s|] == s;
  }

  /** Where a purged interval ends after the start, the bus is granted over it again. */
  lemma LateGrant(b: Bus, start: real, g: Interval)
    requires Inv(b) && g in b.granted && g !in b.table && g.unlock > start
    ensures exists d: real, b': Bus :: d > 0.0 && Granted(b, Request(start, d), b') && !Disjoint(b'.granted)
  {
    hide Inv, Arranged, Live, Slot, Granted, Disjoint;
    var d := g.unlock - start;
    var s := Arrange(Live(b.table, start));
    LateTable(b, start, g, s);
    SlotAtStart(s, start, d);
    var n := Interval(start, start + d);
    var b' := Bus(s + [n], if n.unlock > b.readyAt then n.unlock else b.readyAt, b.granted + [n]);
    GrantStep(b, Request(start, d), s, n, b');
    Overlap(b.granted, g, n);
  }

  lemma SlotAtStart(s: seq<Interval>, start: real, duration: real)
    requires duration > 0.0 && forall e :: e in s ==> start + duration <= e.lock
    ensures Slot(s, start, duration) == start
  {
    assert s != [] ==> s[0] in s;
  }

  lemma LateTable(b: Bus, start: real, g: Interval, s: seq<Interval>)
    requires Inv(b) && g in b.granted && g !in b.table && g.unlock > start && Arranged(Live(b.table, start), s)
    ensures g.lock < g.unlock && forall e :: e in s ==> g.unlock <= e.lock
  {
    LiveChain(b.table, start, s);
    forall e | e in s ensures g.unlock <= e.lock {
      ApartMembers(b.granted, g, e);
    }
  }

  lemma Overlap(t: seq<Interval>, g: Interval, n: Interval)
    requires g in t && !Apart(g, n)
    ensures !Disjoint(t + [n])
  {
    var k :| 0 <= k < |t| && t[k] == g;
    assert (t + [n])[k] == g && (t + [n])[|t|] == n;
  }

  lemma ApartMembers(t: seq<Interval>, a: Interval, b: Interval)
    requires Disjoint(t) && a in t && b in t && a != b
    ensures Apart(a, b)
  {
    var i :| 0 <= i < |t| && t[i] == a;
    var j :| 0 <= j < |t| && t[j] == b;
    assert i < j || j < i;
  }

  // ------------------------------------------------------------------ whole runs

  /** bs are the states of a fresh channel between the requests of rs. */
  ghost predicate Trace(bs: seq<Bus>, rs: seq<Request>) {
    && |bs| == |rs| + 1 && bs[0] == IDLE
    && (forall i :: 0 <= i < |rs| ==> Granted(bs[i], rs[i], bs[i + 1]))
    && forall r :: r in rs ==> r.start >= 0.0 && r.duration >= 0.0
  }

  ghost predicate StartsInOrder(rs: seq<Request>) {
    forall i, j :: 0 <= i < j < |rs| ==> rs[i].start <= rs[j].start
  }

  /** The first k grants are as long as asked and not before their starts. */
  ghost predicate Honoured(g: seq<Interval>, rs: seq<Request>, k: nat) {
    && |g| == k <= |rs|
    && forall i :: 0 <= i < k ==> g[i].lock >= rs[i].start && Length(g[i]) == rs[i].duration
  }

  lemma TraceAt(bs: seq<Bus>, rs: seq<Request>, k: nat)
    requires Trace(bs, rs) && k < |rs|
    ensures |bs| == |rs| + 1 && Granted(bs[k], rs[k], bs[k + 1])
    ensures rs[k] in rs && rs[k].start >= 0.0 && rs[k].duration >= 0.0
  {
    hide Granted;
  }

  /** Over every run, starts in any order and durations of any length, ready_at is the latest
      end of any grant. */
  lemma {:induction false} RunReady(bs: seq<Bus>, rs: seq<Request>, k: nat)
    requires Trace(bs, rs) && k <= |rs|
    ensures ReadyIsLatest(bs[k])
  {
    if k > 0 {
      TraceAt(bs, rs, k - 1);
      hide Granted, ReadyIsLatest, Trace;
      RunReady(bs, rs, k - 1);
      GrantKeepsReady(bs[k - 1], rs[k - 1], bs[k]);
    }
  }

  lemma FirstIsIdle(bs: seq<Bus>, rs: seq<Request>)
    requires Trace(bs, rs)
    ensures bs[0] == IDLE && TableOk(IDLE)
  {
    hide Granted;
  }

  /** Over every run with positive durations, starts in any order, the table stays disjoint. */
  lemma {:induction false} RunTable(bs: seq<Bus>, rs: seq<Request>, k: nat)
    requires Trace(bs, rs) && (forall r :: r in rs ==> r.duration > 0.0) && k <= |rs|
    ensures TableOk(bs[k])
  {
    hide Granted, TableOk, Trace, EarliestFit, Fits, Proper, Disjoint;
    if k == 0 {
      FirstIsIdle(bs, rs);
    } else {
      TraceAt(bs, rs, k - 1);
      RunTable(bs, rs, k - 1);
      GrantIsEarliest(bs[k - 1], rs[k - 1], bs[k]);
    }
  }

  /** And every grant of such a run is the earliest fit and waits no longer than the bound. */
  lemma RunIsEarliest(bs: seq<Bus>, rs: seq<Request>, k: nat)
    requires Trace(bs, rs) && (forall r :: r in rs ==> r.duration > 0.0) && k < |rs|
    ensures |bs[k + 1].table| > 0 && Fits(bs[k], rs[k], bs[k + 1])
    ensures var r, g := rs[k], bs[k + 1].table[|bs[k + 1].table| - 1];
            EarliestFit(Live(bs[k].table, r.start), r.start, r.duration, g.lock)
  {
    RunTable(bs, rs, k);
    TraceAt(bs, rs, k);
    GrantIsEarliest(bs[k], rs[k], bs[k + 1]);
  }

  /** Up to request k, no request starts before the end of an interval that had left the table. */
  ghost predicate PastAlwaysOver(bs: seq<Bus>, rs: seq<Request>, k: nat)
    requires k <= |rs| < |bs|
  {
    forall i :: 0 <= i < k ==> PastIsOver(bs[i], rs[i].start)
  }

  lemma {:induction false} RunOk(bs: seq<Bus>, rs: seq<Request>, k: nat)
    requires Trace(bs, rs) && (forall r :: r in rs ==> r.duration > 0.0) && k <= |rs|
    requires PastAlwaysOver(bs, rs, k)
    ensures Inv(bs[k]) && Honoured(bs[k].granted, rs, k)
    ensures k > 0 ==> PastIsOver(bs[k], rs[k - 1].start)
  {
    if k > 0 {
      TraceAt(bs, rs, k - 1);
      assert PastIsOver(bs[k - 1], rs[k - 1].start);
      hide Inv, Granted, Honoured, Trace, PastIsOver;
      RunOk(bs, rs, k - 1);
      GrantOk(bs[k - 1], rs[k - 1], bs[k]);
      HonouredStep(bs[k - 1].granted, bs[k].granted, rs, k);
    }
  }

  lemma HonouredStep(g: seq<Interval>, g': seq<Interval>, rs: seq<Request>, k: nat)
    requires 0 < k <= |rs| && Honoured(g, rs, k - 1) && |g'| == k && g'[..k - 1] == g
    requires g'[k - 1].lock >= rs[k - 1].start && Length(g'[k - 1]) == rs[k - 1].duration
    ensures Honoured(g', rs, k)
  {
    forall i | 0 <= i < k - 1 ensures g'[i] == g[i] { assert g'[..k - 1][i] == g'[i]; }
  }

  /** Whole-run exclusion: when no request starts before the end of a purged interval, any two
      grants of a run are disjoint, purged or not, each as long as asked and not early. */
  lemma RunExclusion(bs: seq<Bus>, rs: seq<Request>)
    requires Trace(bs, rs) && (forall r :: r in rs ==> r.duration > 0.0) && PastAlwaysOver(bs, rs, |rs|)
    ensures Disjoint(bs[|rs|].granted) && Honoured(bs[|rs|].granted, rs, |rs|)
  {
    RunOk(bs, rs, |rs|);
  }

  lemma {:induction false} InOrderPastIsOver(bs: seq<Bus>, rs: seq<Request>, k: nat)
    requires Trace(bs, rs) && StartsInOrder(rs) && (forall r :: r in rs ==> r.duration > 0.0) && k <= |rs|
    ensures PastAlwaysOver(bs, rs, k)
  {
    if k > 0 {
      hide Trace, Inv, Honoured;
      InOrderPastIsOver(bs, rs, k - 1);
      RunOk(bs, rs, k - 1);
      assert PastIsOver(bs[k - 1], rs[k - 1].start) by {
        if k > 1 {
          assert rs[k - 2].start <= rs[k - 1].start;
        } else {
          assert bs[0] == IDLE by { FirstIsIdle(bs, rs); }
        }
      }
    }
  }

  /** Requests whose starts are in order never start in the past, so all their grants are disjoint. */
  lemma RunInOrder(bs: seq<Bus>, rs: seq<Request>)
    requires Trace(bs, rs) && StartsInOrder(rs) && (forall r :: r in rs ==> r.duration > 0.0)
    ensures Disjoint(bs[|rs|].granted) && Honoured(bs[|rs|].granted, rs, |rs|)
  {
    InOrderPastIsOver(bs, rs, |rs|);
    RunExclusion(bs, rs);
  }

  /** A grant on a table that is sorted and has no expired entry. */
  lemma GrantSorted(t: seq<Interval>, h: seq<Interval>, ready: real, r: Request, g: Interval)
    requires SortedByLock(t) && (forall e :: e in t ==> e.unlock > r.start) && Slot(t, r.start, r.duration) == g.lock
    requires g.unlock == g.lock + r.duration
    ensures Granted(Bus(t, ready, h), r, Bus(t + [g], if g.unlock > ready then g.unlock else ready, h + [g]))
  {
    AllLive(t, r.start);
    GrantStep(Bus(t, ready, h), r, t, g, Bus(t + [g], if g.unlock > ready then g.unlock else ready, h + [g]));
  }

  lemma Trace3(b1: Bus, b2: Bus, b3: Bus, r0: Request, r1: Request, r2: Request)
    requires Granted(IDLE, r0, b1) && Granted(b1, r1, b2) && Granted(b2, r2, b3)
    requires forall r :: r in [r0, r1, r2] ==> r.start >= 0.0 && r.duration >= 0.0
    ensures Trace([IDLE, b1, b2, b3], [r0, r1, r2])
  {
    hide Granted;
  }

  /** A start in the past breaks exclusion: [0,10) expires at 20 and is granted over at 5. */
  lemma StartInThePast() returns (bs: seq<Bus>, rs: seq<Request>)
    ensures Trace(bs, rs) && (forall r :: r in rs ==> r.duration > 0.0) && !Disjoint(bs[|rs|].granted)
  {
    hide Granted, Trace;
    var a, b, c := Interval(0.0, 10.0), Interval(20.0, 21.0), Interval(5.0, 8.0);
    var b1, b2, b3 := Bus([a], 10.0, [a]), Bus([b], 21.0, [a, b]), Bus([b, c], 21.0, [a, b, c]);
    var r0, r1, r2 := Request(0.0, 10.0), Request(20.0, 1.0), Request(5.0, 3.0);
    assert Granted(IDLE, r0, b1) by { GrantSorted([], [], -1.0, r0, a); }
    assert Granted(b1, r1, b2) by {
      assert [a][1..] == [] && Live([a], 20.0) == [];
      GrantStep(b1, r1, [], b, b2);
    }
    assert Granted(b2, r2, b3) by {
      assert [a, b] + [c] == [a, b, c] && [b] + [c] == [b, c];
      GrantSorted([b], [a, b], 21.0, r2, c);
    }
    Trace3(b1, b2, b3, r0, r1, r2);
    bs, rs := [IDLE, b1, b2, b3], [r0, r1, r2];
    assert !Apart(b3.granted[0], b3.granted[2]);
  }

  /** A duration of zero breaks exclusion: the grant [5,5) may be sorted after [5,10), and the
      next request goes to its end. */
  lemma ZeroDuration() returns (bs: seq<Bus>, rs: seq<Request>)
    ensures Trace(bs, rs) && StartsInOrder(rs) && !Disjoint(bs[|rs|].granted) && !Disjoint(bs[|rs|].table)
  {
    hide Granted;
    var a, b, c, d := Interval(0.0, 5.0), Interval(5.0, 10.0), Interval(5.0, 5.0), Interval(5.0, 6.0);
    var b1, b2 := Bus([a], 5.0, [a]), Bus([a, b], 10.0, [a, b]);
    var b3, b4 := Bus([a, b, c], 10.0, [a, b, c]), Bus([a, b, c, d], 10.0, [a, b, c, d]);
    var r0, r2, r3 := Request(0.0, 5.0), Request(0.0, 0.0), Request(0.0, 1.0);
    assert Granted(IDLE, r0, b1) by { GrantSorted([], [], -1.0, r0, a); }
    assert Granted(b1, r0, b2) by { assert [a] + [b] == [a, b]; GrantSorted([a], [a], 5.0, r0, b); }
    assert Granted(b2, r2, b3) by { assert [a, b] + [c] == [a, b, c]; GrantSorted([a, b], [a, b], 10.0, r2, c); }
    assert Granted(b3, r3, b4) by {
      var s := [a, b, c];
      assert Gap(s, 2, 0.0, 1.0) == 5.0 && Gap(s, 1, 0.0, 1.0) == 5.0;
      assert s + [d] == [a, b, c, d];
      GrantSorted(s, s, 10.0, r3, d);
    }
    assert Trace([IDLE, b1, b2, b3], [r0, r0, r2]) by { Trace3(b1, b2, b3, r0, r0, r2); }
    bs, rs := [IDLE, b1, b2, b3, b4], [r0, r0, r2, r3];
    assert Trace(bs, rs) by { TraceMore([IDLE, b1, b2, b3], [r0, r0, r2], r3, b4); }
    assert !Apart(b4.granted[1], b4.granted[3]) && !Apart(b4.table[1], b4.table[3]);
  }

  lemma TraceMore(bs: seq<Bus>, rs: seq<Request>, r: Request, b: Bus)
    requires Trace(bs, rs) && Granted(bs[|rs|], r, b) && r.start >= 0.0 && r.duration >= 0.0
    ensures Trace(bs + [b], rs + [r])
  {
    hide Granted;
    forall i | 0 <= i < |rs| + 1 ensures Granted((bs + [b])[i], (rs + [r])[i], (bs + [b])[i + 1]) {
      assert i < |rs| ==> Granted(bs[i], rs[i], bs[i + 1]);
    }
  }

  ghost predicate AtLeast(rs: seq<Request>, least: real) {
    forall r :: r in rs ==> r.duration >= least
  }

  /** A lower bound on the durations guarantees a disjoint table on every run, and disjoint
      grants on every run with starts in order, exactly when it is positive. */
  lemma DurationsMustBePositive(least: real)
    requires least >= 0.0
    ensures least > 0.0 <==>
            forall bs: seq<Bus>, rs: seq<Request> :: Trace(bs, rs) && AtLeast(rs, least) ==> Disjoint(bs[|rs|].table)
    ensures least > 0.0 <==>
            forall bs: seq<Bus>, rs: seq<Request> :: Trace(bs, rs) && StartsInOrder(rs) && AtLeast(rs, least) ==>
              Disjoint(bs[|rs|].granted)
  {
    hide Granted, Disjoint, Honoured;
    if least > 0.0 {
      forall bs: seq<Bus>, rs: seq<Request> | Trace(bs, rs) && AtLeast(rs, least) ensures Disjoint(bs[|rs|].table) {
        RunTable(bs, rs, |rs|);
      }
      forall bs: seq<Bus>, rs: seq<Request> | Trace(bs, rs) && StartsInOrder(rs) && AtLeast(rs, least)
        ensures Disjoint(bs[|rs|].granted)
      {
        RunInOrder(bs, rs);
      }
    } else {
      var bs, rs := ZeroDuration();
      assert Trace(bs, rs) && StartsInOrder(rs) && AtLeast(rs, least);
    }
  }

  // ------------------------------------------------------------------ the object

  class Channel {
    var timings: seq<Interval>
    var readyAt: real
    ghost var granted: seq<Interval>

    ghost function View(): Bus
      reads this
    {
      Bus(timings, readyAt, granted)
    }

    /** readyAt is the latest end of any grant, whatever was asked for so far. */
    ghost predicate Valid()
      reads this
    {
      ReadyIsLatest(View())
    }

    constructor ()
      ensures Valid() && View() == IDLE && Inv(View())
    {
      timings, readyAt, granted := [], -1.0, [];
    }

    /** Drops the expired entries and sorts the others by lock time. */
    method Unlock(start: real)
      modifies this`timings
      ensures Arranged(Live(old(timings), start), timings)
    {
      var it := 0;
      while it < |timings|
        invariant 0 <= it <= |timings|
        invariant Live(timings, start) == Live(old(timings), start)
        invariant forall e :: e in timings[..it] ==> e.unlock > start
        decreases |timings| - it
      {
        LiveSplit(timings[..it], timings[it..], start);
        if timings[it].unlock <= start {
          LiveSplit(timings[..it], timings[it + 1..], start);
          assert timings == timings[..it] + timings[it..] && timings[it..][1..] == timings[it + 1..];
          timings := timings[..it] + timings[it + 1..];
        } else {
          it := it + 1;
        }
      }
      assert timings[..it] == timings;
      AllLive(timings, start);
      timings := Arrange(timings);
    }

    /** Grants the bus for the duration; returns the wait and the time taken. From any disjoint
        table the slot is free; it is the earliest one unless the duration is zero and an entry
        begins at the start. A positive duration leaves the table disjoint. */
    method Lock(start: real, duration: real) returns (wait: real, taken: real)
      requires Valid() && start >= 0.0 && duration >= 0.0
      modifies this
      ensures Valid() && Granted(old(View()), Request(start, duration), View())
      ensures start + wait == timings[|timings| - 1].lock && taken == wait + duration
      ensures TableOk(old(View())) ==>
                && wait <= WaitLimit(timings[..|timings| - 1], duration)
                && Free(Live(old(timings), start), start + wait, duration)
                && (EarliestFit(Live(old(timings), start), start, duration, start + wait) <==>
                    duration > 0.0 || forall e :: e in Live(old(timings), start) ==> e.lock != start)
      ensures TableOk(old(View())) && duration > 0.0 ==> TableOk(View())
      ensures Inv(old(View())) && duration > 0.0 && PastIsOver(old(View()), start) ==> Inv(View())
    {
      ghost var b := View();
      Unlock(start);
      var sched := Schedule(start, duration);
      hide Slot, Arranged, Live, Inv, TableOk, EarliestFit, WaitLimit, PastIsOver, Granted, ReadyIsLatest;
      Record(Interval(sched, sched + duration));
      wait, taken := sched - start, sched - start + duration;
      assert old(View()) == b;
      GrantStep(b, Request(start, duration), timings[..|timings| - 1], timings[|timings| - 1], View());
      GrantMeans(b, Request(start, duration), View());
    }

    /** Enters a grant in the table. */
    method Record(lt: Interval)
      modifies this
      ensures timings == old(timings) + [lt] && timings[..|timings| - 1] == old(timings)
      ensures View() ==
        Bus(old(timings) + [lt], if lt.unlock > old(readyAt) then lt.unlock else old(readyAt), old(granted) + [lt])
    {
      timings := timings + [lt];
      if lt.unlock > readyAt {
        readyAt := lt.unlock;
      }
      granted := granted + [lt];
    }

    /** The scan for the first gap that is long enough. */
    method Schedule(start: real, duration: real) returns (sched: real)
      ensures sched == Slot(timings, start, duration)
    {
      if |timings| == 0 { return start; }
      if timings[0].lock > start && timings[0].lock - start >= duration { return start; }
      var it := 0;
      while it + 1 < |timings|
        invariant 0 <= it < |timings| && Slot(timings, start, duration) == Gap(timings, it, start, duration)
      {
        if timings[it].unlock >= start && timings[it + 1].lock - timings[it].unlock >= duration {
          return timings[it].unlock;
        }
        it := it + 1;
      }
      sched := timings[|timings| - 1].unlock;
    }

    /** The latest end of any grant; -1 before the first. */
    method ReadyTime() returns (t: real)
      requires Valid()
      ensures forall g :: g in granted ==> g.unlock <= t
      ensures if granted == [] then t == -1.0 else exists g :: g in granted && g.unlock == t
    {
      t := readyAt;
    }
  }
}
