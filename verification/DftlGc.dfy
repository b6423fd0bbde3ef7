/** When DFTL collects, which blocks it cleans, when it stops, and which page a host write gets. */
module DftlGc {
  import opened Flash
  import opened Pools
  import opened DftlSpec

  // ---------------------------------------------------------------- what insert_events cleans

  /** No block has more INVALID pages than v; with `skip`, not counting the block being written. */
  ghost predicate Chosen(m: Dftl, skip: bool, v: nat) {
    && v < |m.fl| && (skip ==> m.pool.writing != v)
    && forall k :: 0 <= k < |m.fl| && (skip ==> m.pool.writing != k) ==> m.fl[k].invalid <= m.fl[v].invalid
  }

  predicate Cleanable(m: Dftl, v: nat)
    requires v < |m.fl|
  {
    m.fl[v].invalid > 0 && m.fl[v].programmed == m.size
  }

  /** The first turn went to the block being written, which is passed over. */
  ghost predicate Wasted(m: Dftl) {
    exists v :: m.pool.writing == v && Chosen(m, false, v) && Cleanable(m, v)
  }

  /** After `turns` turns the next choice may not be cleaned. */
  ghost predicate Stops(m: Dftl, turns: nat) {
    exists v :: Chosen(m, turns > 0, v) && !Cleanable(m, v)
  }

  predicate Cleans(ss: seq<Step>) {
    forall s :: s in ss ==> s.Clean?
  }

  /** `turns` turns of the loop from m, which cleaned the blocks of ss one after the other. */
  ghost predicate Turns(m: Dftl, ss: seq<Step>, turns: nat)
    requires Inv(m)
  {
    && Run(m, ss).Some? && Cleans(ss) && turns <= 5
    && if turns == |ss| then ss != [] ==> Chosen(m, false, ss[0].v) else turns == |ss| + 1 && Wasted(m)
  }

  /** What insert_events does from m when it completes: at most five turns, and fewer only if
      the next choice may not be cleaned. */
  ghost predicate Collection(m: Dftl, gc: bool, ss: seq<Step>, turns: nat)
    requires Inv(m)
  {
    && Turns(m, ss, turns)
    && if gc then turns < 5 ==> Stops(Run(m, ss).value, turns) else turns == 0
  }

  /** The next cleaning cannot complete. */
  ghost predicate Stuck(m: Dftl, ss: seq<Step>)
    requires Inv(m)
  {
    && Run(m, ss).Some? && Cleans(ss)
    && exists v :: Victim(Run(m, ss).value, v) && Collect(Run(m, ss).value, v).None?
  }

  lemma NoTurn(m: Dftl)
    requires Inv(m)
    ensures Turns(m, [], 0)
  {
  }

  /** One more turn, which chose v. */
  lemma NextTurn(m: Dftl, ss: seq<Step>, turns: nat, r: Dftl, v: nat)
    requires Inv(m) && Turns(m, ss, turns) && Run(m, ss) == Some(r) && turns < 5
    requires Chosen(r, turns > 0, v) && Cleanable(r, v)
    ensures r.pool.writing == v ==> Turns(m, ss, turns + 1)
    ensures r.pool.writing != v ==> Victim(r, v) && if Collect(r, v).None? then Stuck(m, ss) else
              Turns(m, ss + [Clean(v)], turns + 1) && Run(m, ss + [Clean(v)]) == Collect(r, v)
  {
    hide Inv, Collect, Cached, SameContent;
    if ss == [] { RunNothing(m); }
    if r.pool.writing != v && Collect(r, v).Some? {
      RunOne(r, Clean(v));
      RunAppend(m, ss, [Clean(v)]);
      assert (ss + [Clean(v)])[0] == if ss == [] then Clean(v) else ss[0];
    }
    hide Run;
  }

  /** v is not being written and has more INVALID pages than any other block that is not; the
      block being written, if there is one, has fewer or may be cleaned too. */
  ghost predicate Dirtiest(m: Dftl, v: nat) {
    && v < |m.fl| && m.pool.writing != v
    && (forall k :: 0 <= k < |m.fl| && k != v && m.pool.writing != k ==> m.fl[k].invalid < m.fl[v].invalid)
    && (forall k :: 0 <= k < |m.fl| && m.pool.writing == k ==> m.fl[k].invalid < m.fl[v].invalid || Cleanable(m, k))
  }

  /** A collection cleans the dirtiest block first, if it is fully written and has an INVALID
      page. */
  lemma CleansDirtiest(m: Dftl, ss: seq<Step>, turns: nat, v: nat)
    requires Inv(m) && Collection(m, true, ss, turns) && Dirtiest(m, v)
    requires m.fl[v].invalid > 0 && m.fl[v].programmed == m.size
    ensures ss != [] && ss[0] == Clean(v)
  {
    hide Inv, Collect, Apply;
    if ss == [] {
      RunNothing(m);
      hide Run;
      assert false;
    } else {
      assert ss[0] in ss;
      assert Legal(m, ss[0]);
    }
  }

  /** A collection of fewer than four cleanings leaves nothing to collect: the dirtiest block, if
      there is one, is not fully written. */
  lemma StopsClean(m: Dftl, ss: seq<Step>, turns: nat, v: nat)
    requires Inv(m) && Collection(m, true, ss, turns) && |ss| < 4
    requires Dirtiest(Run(m, ss).value, v)
    ensures var r := Run(m, ss).value; v < |r.fl| && !(r.fl[v].invalid > 0 && r.fl[v].programmed == r.size)
  {
    hide Inv, Run;
    var r := Run(m, ss).value;
    var u :| Chosen(r, turns > 0, u) && !Cleanable(r, u);
  }

  /** Every cleaning gains an EMPTY page, and none of them shrinks the pool. */
  lemma {:induction false} CleaningGains(m: Dftl, ss: seq<Step>)
    requires Inv(m) && Run(m, ss).Some? && Cleans(ss)
    ensures var r := Run(m, ss).value;
            EmptyPages(r.fl) >= EmptyPages(m.fl) + |ss| && Reserve(r.pool) >= Reserve(m.pool)
    decreases |ss|
  {
    hide Inv, Collect, EmptyPages, Reserve, Direct, Moved;
    if ss != [] {
      assert ss[0] in ss && forall s :: s in ss[1..] ==> s in ss;
      ApplyOk(m, ss[0]);
      CollectOk(m, ss[0].v);
      CleaningGains(Apply(m, ss[0]), ss[1..]);
    }
  }

  // ---------------------------------------------------------------- which page a write gets

  /** get_page_block starts a collection when the virgin area is used up, at most one block is
      free, and none was started since a block was last taken from the free list. */
  predicate Short(p: Pool) {
    p.virgin >= p.total && |p.free| <= 1 && !p.out
  }

  ghost function Marked(m: Dftl): (r: Dftl)
    requires Inv(m)
    ensures Inv(r)
  {
    MarkOutOk(m);
    m.(pool := m.pool.(out := true))
  }

  /** The part of get_page_block before a block is handed out. */
  ghost predicate Refills(m: Dftl, gc: bool, ss: seq<Step>)
    requires Inv(m)
  {
    if Short(m.pool) then
      && ss != [] && ss[0] == MarkOut && exists turns :: Collection(Marked(m), gc, ss[1..], turns)
    else ss == []
  }
  /** The steps of get_free_data_page for a host write from m: c from insert_events, f from the
      allocation of a block. While the open block has a page left, that is the page. */
  ghost predicate Allocates(m: Dftl, gc: bool, gcAgain: bool, c: seq<Step>, f: seq<Step>, open: bool)
    requires Inv(m)
  {
    if m.cur.Some? && m.cur.value.i + 1 < m.size then c == [] && f == [] && !open
    else
      && (exists turns :: Collection(m, gc, c, turns))
      && var r := Run(m, c).value; Takes(r, gcAgain, f, open)
  }

  /** The same once insert_events is over: a collection may have opened a block with room. */
  ghost predicate Takes(m: Dftl, gc: bool, f: seq<Step>, open: bool)
    requires Inv(m)
  {
    if m.cur.Some? && m.cur.value.i + 1 < m.size then f == [] && !open
    else open && Refills(m, gc, f)
  }

  /** get_page_block cannot hand out a block: a cleaning of its collection cannot complete, or
      nothing is left when that is over. */
  ghost predicate Refuses(m: Dftl, gc: bool)
    requires Inv(m)
  {
    || (gc && Short(m.pool) && exists ss :: Stuck(Marked(m), ss))
    || exists ss :: Refills(m, gc, ss) && Run(m, ss).Some? && Dry(Run(m, ss).value.pool)
  }

  /** get_free_data_page cannot offer a page. */
  ghost predicate Fails(m: Dftl, gc: bool, gcAgain: bool)
    requires Inv(m)
  {
    && !(m.cur.Some? && m.cur.value.i + 1 < m.size)
    && ((gc && exists c :: Stuck(m, c))
        || exists c, turns :: Collection(m, gc, c, turns) && RefusesBlock(Run(m, c).value, gcAgain))
  }

  ghost predicate RefusesBlock(m: Dftl, gc: bool)
    requires Inv(m)
  {
    !(m.cur.Some? && m.cur.value.i + 1 < m.size) && Refuses(m, gc)
  }

  // ---------------------------------------------------------------- what happens to the map

  /** resolve_mapping: a hit renews the visit and evicts nothing; a miss evicts as long as the
      counter is at the limit, and then loads the entry. */
  predicate Resolves(m: Dftl, v: nat, now: real, ss: seq<Step>)
    requires v < |m.trans|
  {
    if m.trans[v].cached then ss == [Visit(v, now)]
    else ss != [] && ss[|ss| - 1] == Miss(v, now) && forall s :: s in ss[..|ss| - 1] ==> s.Dismiss?
  }

  /** A collection moves every entry of its victim elsewhere and caches it, visits none, and
      touches no other entry. */
  lemma {:induction false} MoveAllEntries(m: Dftl, v: nat, i: nat)
    requires Inv(m) && Swept(m, v, i) && i <= m.size && MoveAll(m, v, i).Some?
    ensures |MoveAll(m, v, i).value.trans| == |m.trans|
    ensures forall u :: 0 <= u < |m.trans| ==> EntryMoved(m.trans[u], MoveAll(m, v, i).value.trans[u], v)
    decreases m.size - i
  {
    hide Inv, Move, Swept, IsValid;
    if i < m.size {
      if !IsValid(m.fl, Ppn(v, i)) {
        SkipPage(m, v, i);
        MoveAllEntries(m, v, i + 1);
      } else {
        MoveOk(m, Ppn(v, i));
        MoveStep(m, v, i);
        MoveEntry(m, v, i);
        var r := Move(m, Ppn(v, i)).value;
        MoveAllEntries(r, v, i + 1);
      }
    } else {
      SweptEntries(m, v);
    }
  }

  predicate EntryMoved(e: MPage, r: MPage, v: nat) {
    if e.ppn.Some? && e.ppn.value.b == v
    then r == MPage(r.ppn, true, e.last) && r.ppn.Some? && r.ppn.value.b != v
    else r == e
  }

  lemma MoveEntry(m: Dftl, v: nat, i: nat)
    requires Inv(m) && Swept(m, v, i) && i < m.size && IsValid(m.fl, Ppn(v, i)) && Move(m, Ppn(v, i)).Some?
    ensures var r := Move(m, Ppn(v, i)).value;
            && |r.trans| == |m.trans|
            && forall u :: 0 <= u < |m.trans| ==>
                 r.trans[u] == m.trans[u] || (EntryMoved(m.trans[u], r.trans[u], v) && r.trans[u].ppn.value.b != v)
  {
    MoveUnfolds(m, v, i);
    hide Inv, Swept, Advance, IssueWrite, Move;
  }

  lemma SweptEntries(m: Dftl, v: nat)
    requires Inv(m) && Swept(m, v, m.size)
    ensures forall u :: 0 <= u < |m.trans| ==> EntryMoved(m.trans[u], m.trans[u], v)
  {
    forall u | 0 <= u < |m.trans| ensures EntryMoved(m.trans[u], m.trans[u], v) {
      if m.trans[u].ppn.Some? { assert IsValid(m.fl, m.trans[u].ppn.value); }
    }
  }

  lemma CollectEntries(m: Dftl, v: nat)
    requires Inv(m) && Victim(m, v) && Collect(m, v).Some?
    ensures |Collect(m, v).value.trans| == |m.trans|
    ensures forall u :: 0 <= u < |m.trans| ==> EntryMoved(m.trans[u], Collect(m, v).value.trans[u], v)
  {
    VictimSwept(m, v);
    hide Inv, Victim, Swept, MoveAll;
    MoveAllEntries(m, v, 0);
  }

  /** Cleaning never takes an entry out of the cache and never visits one. */
  lemma {:induction false} CleaningKeeps(m: Dftl, ss: seq<Step>)
    requires Inv(m) && Run(m, ss).Some? && forall s :: s in ss ==> s.Clean? || s.MarkOut?
    ensures var r := Run(m, ss).value;
            && |r.trans| == |m.trans|
            && forall u :: 0 <= u < |m.trans| ==>
                 (m.trans[u].cached ==> r.trans[u].cached) && r.trans[u].last == m.trans[u].last
    decreases |ss|
  {
    hide Inv, Collect, Victim;
    if ss != [] {
      assert ss[0] in ss && forall s :: s in ss[1..] ==> s in ss;
      ApplyOk(m, ss[0]);
      if ss[0].Clean? { CollectEntries(m, ss[0].v); }
      CleaningKeeps(Apply(m, ss[0]), ss[1..]);
    }
  }
  // ---------------------------------------------------------------- a host write

  /** What a host write does on the way: resolve is the lookup, collect and refill what the
      allocation of its page did, open whether it took a new block. */
  datatype Trail = Trail(resolve: seq<Step>, collect: seq<Step>, refill: seq<Step>, open: bool) {
    function Steps(v: nat, d: Payload): seq<Step> { resolve + (collect + refill) + [Put(v, d, open)] }
  }

  ghost predicate Leads(m: Dftl, t: Trail, v: nat, now: real, gc: bool, gcAgain: bool)
    requires Inv(m) && v < |m.trans|
  {
    && Resolves(m, v, now, t.resolve) && Run(m, t.resolve).Some?
    && Allocates(Run(m, t.resolve).value, gc, gcAgain, t.collect, t.refill, t.open)
  }

  /** The lookup went well, and then no page could be offered. */
  ghost predicate Ends(m: Dftl, t: Trail, v: nat, now: real, gc: bool, gcAgain: bool)
    requires Inv(m) && v < |m.trans|
  {
    && Resolves(m, v, now, t.resolve) && Run(m, t.resolve).Some?
    && Fails(Run(m, t.resolve).value, gc, gcAgain)
  }

  /** After cleaning and a write, the entry is cached and was last visited as before, and it maps
      the open page, which is the next one of the open block or the first of the next block. */
  lemma WrittenEntry(m: Dftl, ss: seq<Step>, open: bool, v: nat, d: Payload)
    requires Inv(m) && Run(m, ss).Some? && (forall s :: s in ss ==> s.Clean? || s.MarkOut?)
    requires var r := Run(m, ss).value;
             v < |m.trans| && m.trans[v].cached && if open then !Dry(r.pool) else !NeedsBlock(r)
    requires CanBind(Allocated(Run(m, ss).value, open), v)
    ensures var r, b := Run(m, ss).value, Bind(Allocated(Run(m, ss).value, open), v, d);
            && v < |b.trans| && b.trans[v] == MPage(b.cur, true, m.trans[v].last)
            && b.cur == Some(if open then Ppn(NextBlock(r.pool), 0) else Ppn(r.cur.value.b, r.cur.value.i + 1))
  {
    CleaningKeeps(m, ss);
    hide Inv, Run, IssueWrite;
  }
}
