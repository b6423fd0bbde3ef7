/** DFTL as a state machine: a page map with an inverse, a cached subset of the map, and
    greedy collection. Collection is described page by page, map entry by map entry; the
    object in Dftl.dfy copies first and patches the map afterwards. */
module DftlSpec {
  import opened Flash
  import opened Pools

  datatype MPage = MPage(ppn: Option<Ppn>, cached: bool, last: real)

  /** drift counts the trims that counted a cached entry out of the cache without clearing
      its flag; the program does not store it. */
  datatype Dftl = Dftl(size: nat, limit: nat, fl: Cells, pool: Pool, trans: seq<MPage>,
                       rev: map<Ppn, nat>, cmt: int, drift: nat, cur: Option<Ppn>)

  function NewDftl(size: nat, limit: nat, n: nat, pages: nat): Dftl {
    Dftl(size, limit, seq(n, _ => NewBlock(size)), NewPool(n),
         seq(pages, _ => MPage(None, false, -1.0)), map[], 0, 0, None)
  }

  function Content(m: Dftl, v: nat): Option<Payload> {
    if v < |m.trans| && m.trans[v].ppn.Some? && InRange(m.fl, m.trans[v].ppn.value)
    then Some(DataAt(m.fl, m.trans[v].ppn.value)) else None
  }

  function Cached(t: seq<MPage>): set<nat> {
    set v | 0 <= v < |t| && t[v].cached
  }

  // ---------------------------------------------------------------- invariant

  /** The map and its inverse pair the mapped pages with the VALID pages. */
  ghost predicate Paired(m: Dftl) {
    && (forall v :: 0 <= v < |m.trans| && m.trans[v].ppn.Some? ==>
          var p := m.trans[v].ppn.value; IsValid(m.fl, p) && p in m.rev && m.rev[p] == v)
    && (forall p {:trigger IsValid(m.fl, p)} :: IsValid(m.fl, p) ==>
          p in m.rev && m.rev[p] < |m.trans| && m.trans[m.rev[p]].ppn == Some(p))
  }

  ghost predicate CacheOk(m: Dftl) {
    m.limit > 0 && m.cmt == |Cached(m.trans)| - m.drift
  }

  ghost predicate PagesOk(m: Dftl) {
    && FlashOk(m.fl, m.size) && ListsOk(m.pool) && PoolFresh(m.pool, m.fl) && m.pool.invalid == []
    && (forall k :: 0 <= k < |m.fl| ==> Append(m.fl[k]))
  }

  ghost predicate Core(m: Dftl) { PagesOk(m) && Paired(m) && CacheOk(m) }

  /** The open block, and how many of its pages are programmed. */
  ghost predicate OpenAt(m: Dftl, programmed: nat) {
    m.cur.Some? && var b := m.cur.value.b;
    b < |m.fl| && !InPool(m.pool, b) && m.pool.writing == b && m.fl[b].programmed == programmed
  }

  ghost predicate Inv(m: Dftl) {
    Core(m) && (m.cur.Some? ==> m.cur.value.i < m.size && OpenAt(m, m.cur.value.i + 1))
  }

  /** A page has been allocated and is about to be programmed. */
  ghost predicate Armed(m: Dftl) {
    Core(m) && m.cur.Some? && m.cur.value.i < m.size && OpenAt(m, m.cur.value.i)
  }

  // ---------------------------------------------------------------- steps

  predicate NeedsBlock(m: Dftl) {
    m.cur.None? || m.cur.value.i + 1 >= m.size
  }

  /** get_page_block hands out a block without entering insert_events again. */
  predicate Direct(p: Pool) {
    p.virgin < p.total || |p.free| > 1 || (|p.free| == 1 && p.out)
  }

  /** That is: there is a block, and get_page_block would not start a collection. */
  lemma DirectExactly(p: Pool)
    ensures Direct(p) <==> !Dry(p) && !(p.virgin >= p.total && |p.free| <= 1 && !p.out)
    ensures Direct(p) <==> !Dry(p) && forall gc :: Collected(p, gc) == p
  {
    assert Collected(p, false) == p <==> !(p.virgin >= p.total && |p.free| <= 1 && !p.out);
  }

  function TakeBlock(m: Dftl): Dftl
    requires !Dry(m.pool)
  {
    m.(pool := TakeAs(m.pool, DATA), cur := Some(Ppn(NextBlock(m.pool), 0)))
  }

  /** get_free_data_page during collection. None when the allocation would find no block,
      or would start a second collection inside the first. */
  function Advance(m: Dftl): Option<Dftl> {
    if !NeedsBlock(m) then Some(m.(cur := Some(Ppn(m.cur.value.b, m.cur.value.i + 1))))
    else if Direct(m.pool) then Some(TakeBlock(m)) else None
  }

  predicate CanBind(m: Dftl, v: nat) {
    && v < |m.trans| && m.cur.Some? && InRange(m.fl, m.cur.value)
    && |m.fl[m.cur.value.b].st| == |m.fl[m.cur.value.b].data| && StateAt(m.fl, m.cur.value) == EMPTY
    && (m.trans[v].ppn.Some? ==> InRange(m.fl, m.trans[v].ppn.value))
  }

  /** Logical page v moves to the allocated page, which gets d. */
  function Bind(m: Dftl, v: nat, d: Payload): Dftl
    requires CanBind(m, v)
  {
    var p := m.cur.value;
    m.(fl := IssueWrite(m.fl, p, d, m.trans[v].ppn),
       trans := m.trans[v := m.trans[v].(ppn := Some(p))],
       rev := m.rev[p := v])
  }

  /** Rewrites the cache fields of an entry; the counter follows the flag. */
  function Cache(m: Dftl, v: nat, cached: bool, last: real): Dftl
    requires v < |m.trans|
  {
    m.(trans := m.trans[v := m.trans[v].(cached := cached, last := last)],
       cmt := m.cmt + (if cached then 1 else 0) - (if m.trans[v].cached then 1 else 0))
  }

  /** The patched entry enters the cache. */
  function Enter(m: Dftl, v: nat): Dftl
    requires v < |m.trans|
  {
    Cache(m, v, true, m.trans[v].last)
  }

  /** Collection moves the VALID page p. */
  function Move(m: Dftl, p: Ppn): Option<Dftl>
    requires Inv(m) && IsValid(m.fl, p)
  {
    match Advance(m)
    case None => None
    case Some(a) =>
      AdvanceOk(m);
      BindReady(a, a.rev[p]);
      Some(Enter(Bind(a, a.rev[p], DataAt(m.fl, p)), a.rev[p]))
  }

  function MoveAll(m: Dftl, v: nat, i: nat): Option<Dftl>
    requires Inv(m) && v < |m.fl| && i <= m.size
    decreases m.size - i
  {
    if i == m.size then Some(m)
    else if !IsValid(m.fl, Ppn(v, i)) then MoveAll(m, v, i + 1)
    else match Move(m, Ppn(v, i))
      case None => None
      case Some(r) =>
        MoveOk(m, Ppn(v, i));
        MoveAll(r, v, i + 1)
  }

  /** The victim conditions of insert_events, and its greedy choice. */
  ghost predicate Victim(m: Dftl, v: nat) {
    && v < |m.fl| && m.fl[v].invalid > 0 && m.fl[v].programmed == m.size && m.pool.writing != v
    && forall k :: 0 <= k < |m.fl| && m.pool.writing != k ==> m.fl[k].invalid <= m.fl[v].invalid
  }

  /** cleanup_block, the erase, and the return of the block to the free list. */
  function Collect(m: Dftl, v: nat): Option<Dftl>
    requires Inv(m) && v < |m.fl|
  {
    match MoveAll(m, v, 0)
    case None => None
    case Some(r) =>
      MoveAllShape(m, v, 0);
      Some(r.(fl := Wipe(r.fl, v), pool := Reclaim(r.pool, v)))
  }

  // ---------------------------------------------------------------- every step keeps the invariant

  ghost predicate SameContent(m: Dftl, r: Dftl) {
    forall v: nat {:trigger Content(r, v)} :: Content(r, v) == Content(m, v)
  }

  lemma TakeBlockOk(m: Dftl)
    requires Core(m) && !Dry(m.pool)
    ensures var r := TakeBlock(m); Armed(r) && SameContent(m, r) && Reserve(r.pool) == Reserve(m.pool) - 1
    ensures !InPool(TakeBlock(m).pool, TakeBlock(m).cur.value.b) && InPool(m.pool, TakeBlock(m).cur.value.b)
  {
    TakeEffect(m.pool, DATA);
    assert Fresh(m.fl[NextBlock(m.pool)]);
  }

  lemma AdvanceOk(m: Dftl)
    requires Inv(m)
    ensures Advance(m).Some? <==> !NeedsBlock(m) || Direct(m.pool)
    ensures Advance(m).Some? ==> var r := Advance(m).value;
            && Armed(r) && SameContent(m, r) && r.fl == m.fl && r.trans == m.trans && r.rev == m.rev
            && Reserve(r.pool) == Reserve(m.pool) - (if NeedsBlock(m) then 1 else 0)
            && (forall k: nat :: k < |m.fl| && m.pool.writing != k && !InPool(m.pool, k) ==>
                  r.pool.writing != k && r.cur.value.b != k && !InPool(r.pool, k))
  {
    if NeedsBlock(m) && Direct(m.pool) {
      TakeBlockOk(m);
      TakeEffect(m.pool, DATA);
    }
  }

  /** The page a move gets: the next one of the open block, else the first of the next block. */
  lemma AdvanceExactly(m: Dftl)
    requires Advance(m).Some?
    ensures if m.cur.Some? && m.cur.value.i + 1 < m.size
            then Advance(m).value == m.(cur := Some(Ppn(m.cur.value.b, m.cur.value.i + 1)))
            else !Dry(m.pool) && Advance(m).value ==
                 m.(cur := Some(Ppn(NextBlock(m.pool), 0)), pool := TakeAs(m.pool, DATA))
  {
  }

  lemma BindReady(m: Dftl, v: nat)
    requires Armed(m) && v < |m.trans|
    ensures CanBind(m, v) && !IsValid(m.fl, m.cur.value)
    ensures m.trans[v].ppn.Some? ==> IsValid(m.fl, m.trans[v].ppn.value) && m.trans[v].ppn != m.cur
  {
    assert m.fl[m.cur.value.b].st[m.cur.value.i] == EMPTY;
  }

  lemma BindPages(m: Dftl, v: nat, d: Payload)
    requires Armed(m) && v < |m.trans|
    ensures CanBind(m, v)
    ensures var r, p := Bind(m, v, d), m.cur.value;
            && PagesOk(r) && OpenAt(r, p.i + 1) && |r.fl| == |m.fl|
            && IsValid(r.fl, p) && DataAt(r.fl, p) == d
            && (forall q {:trigger IsValid(r.fl, q)} :: IsValid(r.fl, q) <==>
                  q == p || (IsValid(m.fl, q) && m.trans[v].ppn != Some(q)))
            && (forall q {:trigger DataAt(r.fl, q)} :: IsValid(m.fl, q) ==>
                InRange(r.fl, q) && DataAt(r.fl, q) == DataAt(m.fl, q))
            && (forall k :: 0 <= k < |m.fl| && k != p.b ==> r.fl[k].programmed == m.fl[k].programmed)
  {
    BindReady(m, v);
    var p, repl, r := m.cur.value, m.trans[v].ppn, Bind(m, v, d);
    IssueWriteEffect(m.fl, m.size, p, d, repl);
    forall k | 0 <= k < |m.fl|
      ensures Append(r.fl[k]) && r.fl[k].programmed == m.fl[k].programmed + if k == p.b then 1 else 0
    {
      IssueWriteAppends(m.fl, m.size, p, d, repl, k);
    }
    forall k | 0 <= k < |r.fl| && InPool(r.pool, k) ensures Fresh(r.fl[k]) {
      assert Fresh(m.fl[k]) && k != p.b && !(repl.Some? && repl.value.b == k);
    }
    hide IssueWrite, Append, FlashOk, ListsOk, Paired, CacheOk;
    forall q {:trigger IsValid(r.fl, q)}
      ensures IsValid(r.fl, q) <==> q == p || (IsValid(m.fl, q) && repl != Some(q))
      ensures IsValid(m.fl, q) ==> InRange(r.fl, q) && DataAt(r.fl, q) == DataAt(m.fl, q)
    {
      assert InRange(r.fl, q) <==> InRange(m.fl, q);
    }
  }

  lemma BindPairs(m: Dftl, v: nat, d: Payload)
    requires Armed(m) && v < |m.trans|
    ensures CanBind(m, v) && Paired(Bind(m, v, d)) && Content(Bind(m, v, d), v) == Some(d)
    ensures forall u: nat {:trigger Content(Bind(m, v, d), u)} :: u != v ==> Content(Bind(m, v, d), u) == Content(m, u)
  {
    hide PagesOk, IssueWrite, CacheOk, OpenAt;
    BindReady(m, v);
    BindPages(m, v, d);
    var r := Bind(m, v, d);
    forall u | 0 <= u < |r.trans| && r.trans[u].ppn.Some?
      ensures var q := r.trans[u].ppn.value; IsValid(r.fl, q) && q in r.rev && r.rev[q] == u
    {
      if u != v { assert IsValid(m.fl, m.trans[u].ppn.value); }
    }
    forall u: nat | u != v ensures Content(r, u) == Content(m, u) {
      if u < |m.trans| && m.trans[u].ppn.Some? {
        assert IsValid(m.fl, m.trans[u].ppn.value) && IsValid(r.fl, m.trans[u].ppn.value);
      }
    }
  }

  lemma BindOk(m: Dftl, v: nat, d: Payload)
    requires Armed(m) && v < |m.trans|
    ensures CanBind(m, v) && Inv(Bind(m, v, d))
    ensures Content(Bind(m, v, d), v) == Some(d)
    ensures forall u: nat {:trigger Content(Bind(m, v, d), u)} :: u != v ==> Content(Bind(m, v, d), u) == Content(m, u)
  {
    hide PagesOk, IssueWrite, CacheOk, Cached, OpenAt, CanBind;
    assert PagesOk(m) && Paired(m) && CacheOk(m);
    BindReady(m, v);
    BindPages(m, v, d);
    BindPairs(m, v, d);
    var r := Bind(m, v, d);
    CachedAfter(m.trans, v, r.trans[v]);
    CacheDef(m);
    CacheDef(r);
    FromParts(r);
  }

  /** The parts of the invariant. */
  lemma Parts(m: Dftl)
    requires Inv(m)
    ensures PagesOk(m) && Paired(m) && CacheOk(m)
      && (m.cur.Some? ==> m.cur.value.i < m.size && OpenAt(m, m.cur.value.i + 1))
  {
  }

  lemma FromParts(r: Dftl)
    requires PagesOk(r) && Paired(r) && CacheOk(r)
      && (r.cur.Some? ==> r.cur.value.i < r.size && OpenAt(r, r.cur.value.i + 1))
    ensures Inv(r)
  {
  }

  lemma CachedAfter(t: seq<MPage>, v: nat, e: MPage)
    requires v < |t|
    ensures Cached(t[v := e]) == if e.cached then Cached(t) + {v} else Cached(t) - {v}
    ensures e.cached == t[v].cached ==> Cached(t[v := e]) == Cached(t)
  {
  }

  lemma CacheCounts(m: Dftl, v: nat, cached: bool, last: real)
    requires CacheOk(m) && v < |m.trans|
    ensures CacheOk(Cache(m, v, cached, last))
    ensures Cached(Cache(m, v, cached, last).trans) == if cached then Cached(m.trans) + {v} else Cached(m.trans) - {v}
  {
    CachedAfter(m.trans, v, m.trans[v].(cached := cached, last := last));
  }

  lemma CachePairs(m: Dftl, v: nat, cached: bool, last: real)
    requires Paired(m) && v < |m.trans|
    ensures Paired(Cache(m, v, cached, last))
  {
    hide IsValid;
  }

  /** An entry keeps its physical page when only its cache fields change. */
  lemma CacheStep(m: Dftl, v: nat, cached: bool, last: real)
    requires Inv(m) && v < |m.trans|
    ensures Inv(Cache(m, v, cached, last)) && SameContent(m, Cache(m, v, cached, last))
    ensures Cache(m, v, cached, last).trans == m.trans[v := MPage(m.trans[v].ppn, cached, last)]
    ensures Cached(Cache(m, v, cached, last).trans) == if cached then Cached(m.trans) + {v} else Cached(m.trans) - {v}
  {
    hide Inv, Paired, CacheOk, Cached, IsValid;
    Parts(m);
    var r := Cache(m, v, cached, last);
    CacheCounts(m, v, cached, last);
    CachePairs(m, v, cached, last);
    FromParts(r);
    forall u: nat ensures Content(r, u) == Content(m, u) {}
  }

  /** Block v is full, out of the pool and not open; its pages below i are not VALID. */
  ghost predicate Swept(m: Dftl, v: nat, i: nat) {
    && v < |m.fl| && |m.fl[v].st| == m.fl[v].programmed == m.size && m.pool.writing != v && !InPool(m.pool, v)
    && forall j :: 0 <= j < i ==> !IsValid(m.fl, Ppn(v, j))
  }

  ghost predicate Moved(m: Dftl, r: Dftl) {
    && SameContent(m, r) && r.size == m.size && r.limit == m.limit && r.drift == m.drift
    && |r.fl| == |m.fl| && |r.trans| == |m.trans| && r.pool.total == m.pool.total
  }

  lemma MoveOk(m: Dftl, p: Ppn)
    requires Inv(m) && IsValid(m.fl, p)
    ensures Move(m, p).Some? <==> !NeedsBlock(m) || Direct(m.pool)
    ensures Move(m, p).Some? ==> var r := Move(m, p).value; Inv(r) && Moved(m, r)
  {
    AdvanceOk(m);
    if Advance(m).Some? {
      var a := Advance(m).value;
      var v, d := a.rev[p], DataAt(m.fl, p);
      BindOk(a, v, d);
      assert Content(a, v) == Some(d);
      hide Inv, Advance, Armed, Content, Bind;
      CacheStep(Bind(a, v, d), v, true, Bind(a, v, d).trans[v].last);
    }
  }

  lemma {:induction false} MoveAllShape(m: Dftl, v: nat, i: nat)
    requires Inv(m) && v < |m.fl| && i <= m.size
    ensures MoveAll(m, v, i).Some? ==> var r := MoveAll(m, v, i).value; Inv(r) && Moved(m, r)
    decreases m.size - i
  {
    hide Inv, Move;
    if i < m.size {
      if !IsValid(m.fl, Ppn(v, i)) {
        MoveAllShape(m, v, i + 1);
      } else {
        MoveOk(m, Ppn(v, i));
        if Move(m, Ppn(v, i)).Some? { MoveAllShape(Move(m, Ppn(v, i)).value, v, i + 1); }
      }
    }
  }

  // ---------------------------------------------------------------- progress of collection

  function EmptyPages(fl: Cells): nat {
    if fl == [] then 0 else Tally(fl[0], EMPTY) + EmptyPages(fl[1..])
  }

  lemma {:induction false} EmptyUpdate(fl: Cells, k: nat, b: BlockView)
    requires k < |fl|
    ensures EmptyPages(fl[k := b]) == EmptyPages(fl) - Tally(fl[k], EMPTY) + Tally(b, EMPTY)
  {
    if k > 0 {
      EmptyUpdate(fl[1..], k - 1, b);
      assert fl[k := b][1..] == fl[1..][k - 1 := b];
    }
  }

  /** A WRITE event that replaces a VALID page uses up one EMPTY page. */
  lemma IssueUsesOne(fl: Cells, p: Ppn, d: Payload, q: Ppn)
    requires InRange(fl, p) && |fl[p.b].st| == |fl[p.b].data| && StateAt(fl, p) == EMPTY
    requires IsValid(fl, q) && p.b != q.b
    ensures EmptyPages(IssueWrite(fl, p, d, Some(q))) == EmptyPages(fl) - 1
    ensures |IssueWrite(fl, p, d, Some(q))| == |fl|
      && IssueWrite(fl, p, d, Some(q))[q.b] == InvalidatePage(fl[q.b], q.i)
  {
    EmptyUpdate(fl, p.b, WritePage(fl[p.b], p.i, d));
    EmptyUpdate(Program(fl, p, d), q.b, InvalidatePage(fl[q.b], q.i));
  }

  /** Pages left in the open block. */
  function Room(m: Dftl): int {
    if m.cur.None? then 0 else m.size - 1 - m.cur.value.i
  }

  /** VALID pages of block v from i on. */
  function Live(m: Dftl, v: nat, i: nat): nat
    requires v < |m.fl| && i <= |m.fl[v].st|
  {
    multiset(m.fl[v].st[i..])[VALID]
  }

  /** One move out of block v. */
  lemma MoveStep(m: Dftl, v: nat, i: nat)
    requires Inv(m) && Swept(m, v, i) && i < m.size && IsValid(m.fl, Ppn(v, i)) && Move(m, Ppn(v, i)).Some?
    ensures var r := Move(m, Ppn(v, i)).value;
            && Inv(r) && Moved(m, r) && Swept(r, v, i + 1) && r.fl[v].st[i + 1..] == m.fl[v].st[i + 1..]
            && r.size == m.size && EmptyPages(r.fl) == EmptyPages(m.fl) - 1
            && Reserve(r.pool) == Reserve(m.pool) - (if NeedsBlock(m) then 1 else 0)
            && (!NeedsBlock(m) ==> r.pool == m.pool)
            && Room(r) == if NeedsBlock(m) then m.size - 1 else Room(m) - 1
  {
    hide Inv, Moved, EmptyPages, Move, Reserve, InPool, NeedsBlock, Room;
    MoveOk(m, Ppn(v, i));
    MoveStepCells(m, v, i);
    var r := Move(m, Ppn(v, i)).value;
    forall j | 0 <= j < i + 1 ensures !IsValid(r.fl, Ppn(v, j)) {
      assert j < i ==> !IsValid(m.fl, Ppn(v, j));
    }
  }

  /** The copy itself, in terms of the allocated page. */
  lemma MoveUnfolds(now: Dftl, v: nat, i: nat)
    requires Inv(now) && Swept(now, v, i) && i < now.size
    requires IsValid(now.fl, Ppn(v, i)) && Move(now, Ppn(v, i)).Some?
    ensures var a, r := Advance(now), Move(now, Ppn(v, i)).value;
            && a.Some? && a.value.cur.Some? && a.value.fl == now.fl && a.value.trans == now.trans
            && a.value.rev == now.rev
            && Ppn(v, i) in now.rev && now.rev[Ppn(v, i)] < |now.trans|
            && now.trans[now.rev[Ppn(v, i)]].ppn == Some(Ppn(v, i))
            && CanBind(a.value, now.rev[Ppn(v, i)])
            && r == Enter(Bind(a.value, now.rev[Ppn(v, i)], DataAt(now.fl, Ppn(v, i))), now.rev[Ppn(v, i)])
            && a.value.cur.value.b != v && !IsValid(now.fl, a.value.cur.value)
            && r.size == now.size && r.limit == now.limit && r.drift == now.drift
  {
    AdvanceOk(now);
    BindReady(Advance(now).value, now.rev[Ppn(v, i)]);
  }

  lemma SweptInRange(m: Dftl, v: nat, i: nat)
    requires Inv(m) && Swept(m, v, i) && i < m.size
    ensures |m.fl[v].st| == |m.fl[v].data| == m.fl[v].programmed == m.size && m.pool.writing != v && !InPool(m.pool, v)
    ensures InRange(m.fl, Ppn(v, i)) && (IsValid(m.fl, Ppn(v, i)) <==> StateAt(m.fl, Ppn(v, i)) == VALID)
    ensures m.pool.invalid == []
  {
  }

  lemma AdvanceRoom(m: Dftl)
    requires Advance(m).Some?
    ensures var r := Advance(m).value;
            && r.cur.Some? && r.size == m.size && (!NeedsBlock(m) ==> r.pool == m.pool)
            && Room(r) == if NeedsBlock(m) then m.size - 1 else Room(m) - 1
  {
  }

  lemma InvalidateEffect(b: BlockView, i: nat)
    requires i < |b.st|
    ensures var r := InvalidatePage(b, i);
            && |r.st| == |b.st| && r.data == b.data && r.programmed == b.programmed && r.st[i] == INVALID
            && forall j :: 0 <= j < |b.st| && j != i ==> r.st[j] == b.st[j]
  {
  }

  /** Moving a page out of block v elsewhere: the page becomes INVALID, the rest of v stays,
      and one EMPTY page is used up. */
  lemma BindCells(a: Dftl, u: nat, d: Payload, v: nat, i: nat)
    requires CanBind(a, u) && a.trans[u].ppn == Some(Ppn(v, i)) && IsValid(a.fl, Ppn(v, i))
    requires a.cur.value.b != v && |a.fl[v].st| == |a.fl[v].data|
    ensures var r := Bind(a, u, d);
            && r.pool == a.pool && r.cur == a.cur && r.size == a.size && |r.trans| == |a.trans| && Room(r) == Room(a)
            && v < |r.fl| && |r.fl[v].st| == |a.fl[v].st| && r.fl[v].programmed == a.fl[v].programmed
            && (forall j: nat :: IsValid(r.fl, Ppn(v, j)) ==> j != i && IsValid(a.fl, Ppn(v, j)))
            && r.fl[v].st[i + 1..] == a.fl[v].st[i + 1..]
            && EmptyPages(r.fl) == EmptyPages(a.fl) - 1
  {
    hide EmptyPages, IssueWrite, InvalidatePage;
    IssueUsesOne(a.fl, a.cur.value, d, Ppn(v, i));
    InvalidateEffect(a.fl[v], i);
    var st, was := Bind(a, u, d).fl[v].st, a.fl[v].st;
    assert st[i + 1..] == was[i + 1..];
  }

  /** The device and the pool after one move. */
  lemma MoveStepCells(m: Dftl, v: nat, i: nat)
    requires Inv(m) && Swept(m, v, i) && i < m.size && IsValid(m.fl, Ppn(v, i)) && Move(m, Ppn(v, i)).Some?
    ensures var r := Move(m, Ppn(v, i)).value;
            && v < |r.fl| && r.size == m.size && |r.fl[v].st| == r.fl[v].programmed == m.size
            && (forall j :: 0 <= j < m.size && IsValid(r.fl, Ppn(v, j)) ==> j != i && IsValid(m.fl, Ppn(v, j)))
            && r.fl[v].st[i + 1..] == m.fl[v].st[i + 1..]
            && r.pool.writing != v && !InPool(r.pool, v)
            && EmptyPages(r.fl) == EmptyPages(m.fl) - 1
            && Reserve(r.pool) == Reserve(m.pool) - (if NeedsBlock(m) then 1 else 0)
            && (!NeedsBlock(m) ==> r.pool == m.pool)
            && Room(r) == if NeedsBlock(m) then m.size - 1 else Room(m) - 1
  {
    hide Inv, Armed, Move, Advance, Bind, Reserve, InPool, NeedsBlock, EmptyPages;
    SweptInRange(m, v, i);
    MoveUnfolds(m, v, i);
    AdvanceOk(m);
    AdvanceRoom(m);
    var a, u := Advance(m).value, m.rev[Ppn(v, i)];
    BindCells(a, u, DataAt(m.fl, Ppn(v, i)), v, i);
  }

  lemma SkipPage(m: Dftl, v: nat, i: nat)
    requires Inv(m) && Swept(m, v, i) && i < m.size && !IsValid(m.fl, Ppn(v, i))
    ensures Swept(m, v, i + 1) && MoveAll(m, v, i) == MoveAll(m, v, i + 1)
  {
  }

  lemma MoveAllDone(m: Dftl, v: nat)
    requires Inv(m) && Swept(m, v, m.size)
    ensures v < |m.fl| && |m.fl[v].st| == m.size && Live(m, v, m.size) == 0 && Moved(m, m)
      && MoveAll(m, v, m.size) == Some(m)
  {
  }

  lemma LiveAt(m: Dftl, v: nat, i: nat)
    requires Inv(m) && Swept(m, v, i) && i < m.size
    ensures v < |m.fl| && |m.fl[v].st| == m.size && 0 <= Live(m, v, i) <= m.size - i
    ensures Live(m, v, i) == Live(m, v, i + 1) + if IsValid(m.fl, Ppn(v, i)) then 1 else 0
  {
    assert m.fl[v].st[i..] == [m.fl[v].st[i]] + m.fl[v].st[i + 1..];
    FullTally(m.fl[v].st[i..], VALID);
  }

  lemma LiveMoved(m: Dftl, r: Dftl, v: nat, i: nat)
    requires Inv(m) && Inv(r) && Swept(m, v, i) && Swept(r, v, i + 1) && i < m.size == r.size
      && r.fl[v].st[i + 1..] == m.fl[v].st[i + 1..]
    ensures v < |m.fl| && v < |r.fl| && i + 1 <= |m.fl[v].st| && i + 1 <= |r.fl[v].st|
      && Live(r, v, i + 1) == Live(m, v, i + 1)
  {
  }

  /** Collection takes at most one block, whatever its victim holds, and never more than
      the open block lacks. */
  lemma {:induction false} MoveAllOk(m: Dftl, v: nat, i: nat)
    requires Inv(m) && Swept(m, v, i) && i <= m.size && Live(m, v, i) <= m.size + Room(m)
    ensures MoveAll(m, v, i).Some? <==> Live(m, v, i) <= Room(m) || Direct(m.pool)
    ensures MoveAll(m, v, i).Some? ==> var r := MoveAll(m, v, i).value;
            && Inv(r) && Moved(m, r) && Swept(r, v, m.size)
            && EmptyPages(r.fl) == EmptyPages(m.fl) - Live(m, v, i)
            && Reserve(r.pool) == Reserve(m.pool) - (if Live(m, v, i) <= Room(m) then 0 else 1)
    decreases m.size - i
  {
    hide Inv, Move, Live, Moved, Room, Swept, Reserve, EmptyPages, Direct, NeedsBlock, IsValid;
    RoomLeft(m);
    if i == m.size {
      MoveAllDone(m, v);
    } else {
      LiveAt(m, v, i);
      if !IsValid(m.fl, Ppn(v, i)) {
        SkipPage(m, v, i);
        MoveAllOk(m, v, i + 1);
      } else {
        MoveOk(m, Ppn(v, i));
        if Move(m, Ppn(v, i)).Some? {
          MoveStep(m, v, i);
          var r := Move(m, Ppn(v, i)).value;
          RoomLeft(r);
          LiveMoved(m, r, v, i);
          MoveAllOk(r, v, i + 1);
          if MoveAll(r, v, i + 1).Some? { MovedTwice(m, r, MoveAll(r, v, i + 1).value); }
        }
      }
    }
  }

  lemma RoomLeft(m: Dftl)
    requires Inv(m)
    ensures Room(m) >= 0 && (NeedsBlock(m) <==> Room(m) == 0)
    ensures Reserve(m.pool) >= 2 ==> Direct(m.pool)
  {
  }

  lemma MovedTwice(m: Dftl, r: Dftl, t: Dftl)
    requires Moved(m, r) && Moved(r, t)
    ensures Moved(m, t)
  {
    forall u: nat ensures Content(t, u) == Content(m, u) {
      assert Content(t, u) == Content(r, u) == Content(m, u);
    }
  }

  /** The pages of an erased block that held nothing VALID. */
  lemma WipePages(m: Dftl, v: nat)
    requires PagesOk(m) && Swept(m, v, m.size)
    ensures Owned(m.pool, v)
    ensures var r := m.(fl := Wipe(m.fl, v), pool := Reclaim(m.pool, v));
            && PagesOk(r) && |r.fl| == |m.fl| && r.pool.total == m.pool.total && Reserve(r.pool) == Reserve(m.pool) + 1
            && Fresh(r.fl[v])
            && (forall p {:trigger IsValid(r.fl, p)} :: IsValid(r.fl, p) <==> IsValid(m.fl, p))
            && (forall p {:trigger DataAt(r.fl, p)} {:trigger IsValid(m.fl, p)} :: IsValid(m.fl, p) ==>
                InRange(r.fl, p) && DataAt(r.fl, p) == DataAt(m.fl, p))
  {
    var r := m.(fl := Wipe(m.fl, v), pool := Reclaim(m.pool, v));
    EraseKeepsSound(m.fl[v], m.size);
    ReclaimEffect(m.pool, v);
    hide ListsOk, Reserve;
    forall p {:trigger IsValid(r.fl, p)} ensures IsValid(r.fl, p) <==> IsValid(m.fl, p) {
      assert p.b == v && p.i < m.size ==> !IsValid(m.fl, Ppn(v, p.i));
    }
    forall p {:trigger DataAt(r.fl, p)} {:trigger IsValid(m.fl, p)} | IsValid(m.fl, p)
      ensures InRange(r.fl, p) && DataAt(r.fl, p) == DataAt(m.fl, p)
    {
      assert p.b == v ==> !IsValid(m.fl, Ppn(v, p.i));
    }
    forall k | 0 <= k < |r.fl| && InPool(r.pool, k) ensures Fresh(r.fl[k]) {
      assert k != v ==> InPool(m.pool, k);
    }
  }

  lemma WipeCount(m: Dftl, v: nat)
    requires PagesOk(m) && Swept(m, v, m.size)
    ensures EmptyPages(Wipe(m.fl, v)) == EmptyPages(m.fl) + m.size
  {
    hide ListsOk, PoolFresh;
    EmptyUpdate(m.fl, v, EraseBlock(m.fl[v]));
    FullTally(EraseBlock(m.fl[v]).st, EMPTY);
    NoEmpty(m.fl[v]);
  }

  lemma WipeOpen(m: Dftl, v: nat)
    requires Swept(m, v, m.size)
    ensures var r := m.(fl := Wipe(m.fl, v), pool := Reclaim(m.pool, v));
            forall n {:trigger OpenAt(r, n)} :: OpenAt(m, n) ==> OpenAt(r, n)
  {
  }

  /** The map stays paired and the contents stay where no VALID page changes. */
  lemma PairsKept(m: Dftl, r: Dftl)
    requires Paired(m) && r.trans == m.trans && r.rev == m.rev
    requires forall p {:trigger IsValid(r.fl, p)} :: IsValid(r.fl, p) <==> IsValid(m.fl, p)
    requires forall p {:trigger DataAt(r.fl, p)} {:trigger IsValid(m.fl, p)} :: IsValid(m.fl, p) ==>
      InRange(r.fl, p) && DataAt(r.fl, p) == DataAt(m.fl, p)
    ensures Paired(r) && SameContent(m, r)
  {
    forall u: nat ensures Content(r, u) == Content(m, u) {
      if u < |m.trans| && m.trans[u].ppn.Some? {
        assert IsValid(m.fl, m.trans[u].ppn.value) && IsValid(r.fl, m.trans[u].ppn.value);
      }
    }
  }

  lemma WipeOk(m: Dftl, v: nat)
    requires Inv(m) && Swept(m, v, m.size)
    ensures Owned(m.pool, v)
    ensures var r := m.(fl := Wipe(m.fl, v), pool := Reclaim(m.pool, v));
            && Inv(r) && Moved(m, r) && Reserve(r.pool) == Reserve(m.pool) + 1 && Fresh(r.fl[v])
            && EmptyPages(r.fl) == EmptyPages(m.fl) + m.size
  {
    hide Inv, PagesOk, Paired, CacheOk, Reclaim, Wipe;
    Parts(m);
    WipePages(m, v);
    WipeCount(m, v);
    var r := m.(fl := Wipe(m.fl, v), pool := Reclaim(m.pool, v));
    PairsKept(m, r);
    CacheDef(m);
    CacheDef(r);
    WipeOpen(m, v);
    FromParts(r);
  }

  /** A fully programmed append-only block has no EMPTY page. */
  lemma NoEmpty(b: BlockView)
    requires Append(b) && b.programmed == |b.st|
    ensures Tally(b, EMPTY) == 0
  {
    assert EMPTY !in b.st;
  }

  lemma VictimSwept(m: Dftl, v: nat)
    requires Inv(m) && Victim(m, v)
    ensures Swept(m, v, 0) && Live(m, v, 0) + m.fl[v].invalid == m.size && Live(m, v, 0) <= m.size + Room(m)
  {
    assert Append(m.fl[v]) && (InPool(m.pool, v) ==> Fresh(m.fl[v]));
    NoEmpty(m.fl[v]);
    TalliesSum(m.fl[v].st);
    assert m.fl[v].st[0..] == m.fl[v].st;
    RoomLeft(m);
  }

  /** Cleaning a victim changes no logical page, frees the victim, never shrinks the pool,
      and gains exactly its INVALID pages as EMPTY ones. It completes exactly when the open
      block has room for its live pages or a block can be taken directly; two blocks in
      reserve are enough. */
  lemma CollectOk(m: Dftl, v: nat)
    requires Inv(m) && Victim(m, v)
    ensures Collect(m, v).Some? <==> m.size - m.fl[v].invalid <= Room(m) || Direct(m.pool)
    ensures Reserve(m.pool) >= 2 ==> Direct(m.pool)
    ensures Collect(m, v).Some? ==> var r := Collect(m, v).value;
            && Inv(r) && Moved(m, r) && Fresh(r.fl[v]) && InPool(r.pool, v)
            && Reserve(m.pool) <= Reserve(r.pool) <= Reserve(m.pool) + 1
            && EmptyPages(r.fl) == EmptyPages(m.fl) + m.fl[v].invalid
  {
    VictimSwept(m, v);
    MoveAllOk(m, v, 0);
    RoomLeft(m);
    if Collect(m, v).Some? {
      var c := MoveAll(m, v, 0).value;
      WipeOk(c, v);
      ReclaimEffect(c.pool, v);
      MovedTwice(m, c, Collect(m, v).value);
    }
  }

  /** The pool after the moves: untouched while the open block has room for what is live, and
      else without its next block, which is counted as a data block. */
  lemma {:induction false} MoveAllPool(m: Dftl, v: nat, i: nat)
    requires Inv(m) && Swept(m, v, i) && i <= m.size && Live(m, v, i) <= m.size + Room(m)
    requires MoveAll(m, v, i).Some?
    ensures if Live(m, v, i) <= Room(m) then MoveAll(m, v, i).value.pool == m.pool
            else !Dry(m.pool) && MoveAll(m, v, i).value.pool == TakeAs(m.pool, DATA)
    decreases m.size - i
  {
    hide Inv, Move, Live, Moved, Room, Swept, Reserve, EmptyPages, Direct, NeedsBlock, IsValid, TakeAs;
    RoomLeft(m);
    if i == m.size {
      MoveAllDone(m, v);
    } else {
      LiveAt(m, v, i);
      if !IsValid(m.fl, Ppn(v, i)) {
        SkipPage(m, v, i);
        MoveAllPool(m, v, i + 1);
      } else {
        MoveOk(m, Ppn(v, i));
        MoveStep(m, v, i);
        MovePool(m, v, i);
        var r := Move(m, Ppn(v, i)).value;
        LiveMoved(m, r, v, i);
        LiveAtEnd(r, v, i + 1);
        MoveAllPool(r, v, i + 1);
      }
    }
  }

  lemma LiveAtEnd(m: Dftl, v: nat, i: nat)
    requires Inv(m) && Swept(m, v, i) && i <= m.size
    ensures v < |m.fl| && i <= |m.fl[v].st| && 0 <= Live(m, v, i) <= m.size - i
  {
    if i < m.size { LiveAt(m, v, i); } else { MoveAllDone(m, v); }
  }

  lemma MovePool(m: Dftl, v: nat, i: nat)
    requires Inv(m) && Swept(m, v, i) && i < m.size && IsValid(m.fl, Ppn(v, i)) && Move(m, Ppn(v, i)).Some?
    ensures if NeedsBlock(m) then !Dry(m.pool) && Move(m, Ppn(v, i)).value.pool == TakeAs(m.pool, DATA)
            else Move(m, Ppn(v, i)).value.pool == m.pool
  {
    MoveUnfolds(m, v, i);
    AdvanceExactly(m);
    hide Inv, Swept, Advance, Move, IssueWrite;
  }

  /** The pool after a collection: that, and the victim at the end of the free list, which no
      counter counts out. */
  lemma CollectPool(m: Dftl, v: nat)
    requires Inv(m) && Victim(m, v) && Collect(m, v).Some?
    ensures if m.size - m.fl[v].invalid <= Room(m)
            then Collect(m, v).value.pool == m.pool.(free := m.pool.free + [v])
            else !Dry(m.pool) && var p := TakeAs(m.pool, DATA);
                 Collect(m, v).value.pool == p.(free := p.free + [v])
  {
    hide Inv, Victim, Swept, Live, Room, TakeAs;
    VictimSwept(m, v);
    CollectUnfolds(m, v);
    MoveAllPool(m, v, 0);
  }

  /** A collection as the moves followed by the erase. */
  lemma CollectUnfolds(m: Dftl, v: nat)
    requires Inv(m) && Victim(m, v)
    ensures Collect(m, v).Some? <==> MoveAll(m, v, 0).Some?
    ensures Collect(m, v).Some? ==> var c := MoveAll(m, v, 0).value;
            && v < |c.fl| && Owned(c.pool, v) && Inv(Collect(m, v).value)
            && Collect(m, v).value == c.(fl := Wipe(c.fl, v), pool := Reclaim(c.pool, v))
  {
    CollectOk(m, v);
    VictimSwept(m, v);
    MoveAllOk(m, v, 0);
    hide Inv, Victim, MoveAll;
    if Collect(m, v).Some? { WipeOk(MoveAll(m, v, 0).value, v); }
  }

  // ---------------------------------------------------------------- the cached mapping table

  /** v is cached and no cached entry was visited earlier. */
  ghost predicate Lru(m: Dftl, v: nat) {
    && v < |m.trans| && m.trans[v].cached
    && forall u :: 0 <= u < |m.trans| && m.trans[u].cached ==> m.trans[v].last <= m.trans[u].last
  }

  /** While the counter is at the limit some entry is cached. */
  lemma SomeCached(m: Dftl)
    requires CacheOk(m) && m.cmt >= m.limit
    ensures exists v :: 0 <= v < |m.trans| && m.trans[v].cached
  {
    var v :| v in Cached(m.trans);
  }

  // ---------------------------------------------------------------- trim

  /** trim: the page is invalidated and the mapping dropped. If the entry was cached the
      counter goes down, but the entry's flag is written back from a stale copy, still set. */
  function Trim(m: Dftl, v: nat): Dftl
    requires v < |m.trans| && (m.trans[v].ppn.Some? ==> InRange(m.fl, m.trans[v].ppn.value))
  {
    if m.trans[v].ppn.None? then m
    else
      var c := if m.trans[v].cached then 1 else 0;
      m.(fl := Discard(m.fl, m.trans[v].ppn.value), trans := m.trans[v := m.trans[v].(ppn := None)],
         cmt := m.cmt - c, drift := m.drift + c)
  }

  lemma TrimPages(m: Dftl, v: nat)
    requires Inv(m) && v < |m.trans| && m.trans[v].ppn.Some?
    ensures IsValid(m.fl, m.trans[v].ppn.value)
    ensures var r, q := Trim(m, v), m.trans[v].ppn.value;
            && PagesOk(r) && |r.fl| == |m.fl|
            && (forall k :: 0 <= k < |m.fl| ==> r.fl[k].programmed == m.fl[k].programmed)
            && (forall p {:trigger IsValid(r.fl, p)} :: IsValid(r.fl, p) <==> IsValid(m.fl, p) && p != q)
            && (forall p {:trigger DataAt(r.fl, p)} :: IsValid(m.fl, p) ==>
                InRange(r.fl, p) && DataAt(r.fl, p) == DataAt(m.fl, p))
  {
    hide Inv, CacheOk;
    Parts(m);
    var r, q := Trim(m, v), m.trans[v].ppn.value;
    DiscardEffect(m.fl, m.size, q);
    hide Append, FlashOk, Paired, Discard, ListsOk;
    forall k | 0 <= k < |r.fl| && InPool(r.pool, k) ensures Fresh(r.fl[k]) {
      assert Fresh(m.fl[k]) && k != q.b;
    }
    forall p {:trigger IsValid(r.fl, p)} ensures IsValid(r.fl, p) <==> IsValid(m.fl, p) && p != q {
      assert InRange(r.fl, p) <==> InRange(m.fl, p);
    }
    forall p {:trigger DataAt(r.fl, p)} | IsValid(m.fl, p)
      ensures InRange(r.fl, p) && DataAt(r.fl, p) == DataAt(m.fl, p)
    {
      assert InRange(r.fl, p) <==> InRange(m.fl, p);
    }
  }

  lemma OpenKept(m: Dftl, r: Dftl)
    requires r.pool == m.pool && r.cur == m.cur && |r.fl| == |m.fl|
    requires forall k :: 0 <= k < |m.fl| ==> r.fl[k].programmed == m.fl[k].programmed
    ensures forall n {:trigger OpenAt(r, n)} :: OpenAt(m, n) ==> OpenAt(r, n)
  {
  }

  lemma TrimCache(m: Dftl, v: nat)
    requires CacheOk(m) && v < |m.trans| && (m.trans[v].ppn.Some? ==> InRange(m.fl, m.trans[v].ppn.value))
    ensures CacheOk(Trim(m, v)) && Cached(Trim(m, v).trans) == Cached(m.trans)
  {
    hide Discard;
    CachedAfter(m.trans, v, m.trans[v].(ppn := None));
  }

  lemma TrimPairs(m: Dftl, v: nat)
    requires Inv(m) && v < |m.trans| && m.trans[v].ppn.Some?
    ensures IsValid(m.fl, m.trans[v].ppn.value)
    ensures var r := Trim(m, v);
            && Paired(r) && Content(r, v) == None
            && forall u: nat {:trigger Content(r, u)} :: u != v ==> Content(r, u) == Content(m, u)
  {
    hide Inv, PagesOk, Discard, CacheOk;
    Parts(m);
    TrimPages(m, v);
    var r := Trim(m, v);
    forall u: nat | u != v ensures Content(r, u) == Content(m, u) {
      if u < |m.trans| && m.trans[u].ppn.Some? {
        assert IsValid(m.fl, m.trans[u].ppn.value) && IsValid(r.fl, m.trans[u].ppn.value);
      }
    }
  }

  lemma TrimOk(m: Dftl, v: nat)
    requires Inv(m) && v < |m.trans|
    ensures m.trans[v].ppn.Some? ==> IsValid(m.fl, m.trans[v].ppn.value)
    ensures var r := Trim(m, v);
            && Inv(r) && Content(r, v) == None
            && forall u: nat {:trigger Content(r, u)} :: u != v ==> Content(r, u) == Content(m, u)
    ensures var r := Trim(m, v);
            && r.trans == m.trans[v := MPage(None, m.trans[v].cached, m.trans[v].last)] && r.pool == m.pool
            && (forall p {:trigger IsValid(r.fl, p)} ::
                  IsValid(r.fl, p) <==> IsValid(m.fl, p) && m.trans[v].ppn != Some(p))
  {
    hide Inv, PagesOk, Discard, Cached, CacheOk, Paired;
    Parts(m);
    if m.trans[v].ppn.Some? {
      TrimPages(m, v);
      TrimCache(m, v);
      TrimPairs(m, v);
      OpenKept(m, Trim(m, v));
      FromParts(Trim(m, v));
    }
  }

  // ---------------------------------------------------------------- runs

  /** The steps that host operations are made of. Open takes a new block for the page to
      be written even if the open block has room. */
  datatype Step = Visit(v: nat, now: real) | Miss(v: nat, now: real) | Dismiss(v: nat)
                | Clean(v: nat) | MarkOut | Put(v: nat, d: Payload, open: bool) | Drop(v: nat)

  ghost predicate Legal(m: Dftl, s: Step)
    requires Inv(m)
  {
    match s
    case Visit(v, _) => v < |m.trans| && m.trans[v].cached
    case Miss(v, _) => v < |m.trans| && !m.trans[v].cached && m.cmt < m.limit
    case Dismiss(v) => m.cmt >= m.limit && Lru(m, v)
    case Clean(v) => Victim(m, v) && Collect(m, v).Some?
    case MarkOut => true
    case Put(v, _, open) => v < |m.trans| && if open then !Dry(m.pool) else !NeedsBlock(m)
    case Drop(v) => v < |m.trans|
  }

  function Allocated(m: Dftl, open: bool): Dftl
    requires if open then !Dry(m.pool) else !NeedsBlock(m)
  {
    if open then TakeBlock(m) else m.(cur := Some(Ppn(m.cur.value.b, m.cur.value.i + 1)))
  }

  lemma AllocatedOk(m: Dftl, open: bool)
    requires Inv(m) && if open then !Dry(m.pool) else !NeedsBlock(m)
    ensures var r := Allocated(m, open);
            && Armed(r) && SameContent(m, r) && |r.trans| == |m.trans| && r.drift == m.drift
  {
    if open { TakeBlockOk(m); }
  }

  ghost function Apply(m: Dftl, s: Step): Dftl
    requires Inv(m) && Legal(m, s)
  {
    match s
    case Visit(v, now) => Cache(m, v, true, now)
    case Miss(v, now) => Cache(m, v, true, now)
    case Dismiss(v) => Cache(m, v, false, -2.0)
    case Clean(v) => Collect(m, v).value
    case MarkOut => m.(pool := m.pool.(out := true))
    case Put(v, d, open) =>
      AllocatedOk(m, open);
      BindReady(Allocated(m, open), v);
      Bind(Allocated(m, open), v, d)
    case Drop(v) => TrimOk(m, v); Trim(m, v)
  }

  type Store = map<nat, Payload>

  function PlainStep(c: Store, s: Step): Store {
    match s
    case Put(v, d, _) => c[v := d]
    case Drop(v) => c - {v}
    case _ => c
  }

  ghost predicate Refines(m: Dftl, c: Store) {
    forall v: nat {:trigger Content(m, v)} :: Content(m, v) == if v in c then Some(c[v]) else None
  }

  lemma StoreKept(m: Dftl, r: Dftl, c: Store)
    requires SameContent(m, r) && Refines(m, c)
    ensures Refines(r, c)
  {
    forall v: nat ensures Content(r, v) == if v in c then Some(c[v]) else None {
      assert Content(r, v) == Content(m, v);
    }
  }

  lemma StoreChanged(m: Dftl, r: Dftl, v: nat, c: Store)
    requires (forall u: nat {:trigger Content(r, u)} :: u != v ==> Content(r, u) == Content(m, u)) && Refines(m, c)
    ensures Content(r, v).Some? ==> Refines(r, c[v := Content(r, v).value])
    ensures Content(r, v).None? ==> Refines(r, c - {v})
  {
    forall u: nat | u != v ensures Content(r, u) == if u in c then Some(c[u]) else None {
      assert Content(r, u) == Content(m, u);
    }
  }

  /** Every step keeps the invariant and does to the contents what it does to the plain map;
      only trims of mapped cached entries make the cache counter drift. */
  lemma ApplyOk(m: Dftl, s: Step)
    requires Inv(m) && Legal(m, s)
    ensures var r := Apply(m, s);
            && Inv(r)
            && (forall c {:trigger PlainStep(c, s)} :: Refines(m, c) ==> Refines(r, PlainStep(c, s)))
            && r.drift == m.drift + if s.Drop? && m.trans[s.v].cached && m.trans[s.v].ppn.Some? then 1 else 0
  {
    hide Content, SameContent, Refines, Collect, PagesOk, Paired;
    var r := Apply(m, s);
    match s {
      case Visit(v, now) => CacheStep(m, v, true, now);
      case Miss(v, now) => CacheStep(m, v, true, now);
      case Dismiss(v) => CacheStep(m, v, false, -2.0);
      case Clean(v) => CollectOk(m, v);
      case MarkOut => MarkOutOk(m);
      case Put(v, d, open) => PutOk(m, v, d, open);
      case Drop(v) => TrimOk(m, v);
    }
    hide Inv, Apply;
    forall c {:trigger PlainStep(c, s)} | Refines(m, c) ensures Refines(r, PlainStep(c, s)) {
      match s {
        case Put(v, _, _) => StoreChanged(m, r, v, c);
        case Drop(v) => StoreChanged(m, r, v, c);
        case _ => StoreKept(m, r, c);
      }
    }
  }

  lemma PutOk(m: Dftl, v: nat, d: Payload, open: bool)
    requires Inv(m) && Legal(m, Put(v, d, open))
    ensures CanBind(Allocated(m, open), v)
    ensures var r := Bind(Allocated(m, open), v, d);
            && Inv(r) && Content(r, v) == Some(d) && r.drift == m.drift
            && forall u: nat {:trigger Content(r, u)} :: u != v ==> Content(r, u) == Content(m, u)
  {
    AllocatedOk(m, open);
    var a := Allocated(m, open);
    BindOk(a, v, d);
    hide Inv, Armed, Content;
    forall u: nat | u != v ensures Content(Bind(a, v, d), u) == Content(m, u) {
      assert Content(a, u) == Content(m, u);
    }
  }

  lemma MarkOutOk(m: Dftl)
    requires Inv(m)
    ensures var r := m.(pool := m.pool.(out := true)); Inv(r) && SameContent(m, r)
  {
    forall k {:trigger InPool(m.pool.(out := true), k)}
      ensures InPool(m.pool.(out := true), k) <==> InPool(m.pool, k)
    {}
    forall u: nat ensures Content(m.(pool := m.pool.(out := true)), u) == Content(m, u) {}
  }

  /** A run of legal steps; None when a step is not legal. */
  ghost function Run(m: Dftl, ss: seq<Step>): (r: Option<Dftl>)
    requires Inv(m)
    ensures r.Some? ==> Inv(r.value)
    decreases |ss|
  {
    if ss == [] then Some(m)
    else if !Legal(m, ss[0]) then None
    else
      ApplyOk(m, ss[0]);
      Run(Apply(m, ss[0]), ss[1..])
  }

  function PlainRun(c: Store, ss: seq<Step>): Store
    decreases |ss|
  {
    if ss == [] then c else PlainRun(PlainStep(c, ss[0]), ss[1..])
  }

  /** The step trims a page whose entry is both mapped and cached. */
  predicate TrimsCached(m: Dftl, s: Step) {
    s.Drop? && s.v < |m.trans| && m.trans[s.v].cached && m.trans[s.v].ppn.Some?
  }

  /** How many steps of a run do that. */
  ghost function CachedTrims(m: Dftl, ss: seq<Step>): nat
    requires Inv(m) && Run(m, ss).Some?
    decreases |ss|
  {
    if ss == [] then 0
    else
      ApplyOk(m, ss[0]);
      (if TrimsCached(m, ss[0]) then 1 else 0) + CachedTrims(Apply(m, ss[0]), ss[1..])
  }

  /** After every run of writes, trims, cache misses, evictions and collections, each logical
      page reads what the plain map holds; and the cache counter has fallen behind the number
      of cached entries by exactly the trims that met a mapped and cached entry. */
  lemma {:induction false} RunRefines(m: Dftl, c: Store, ss: seq<Step>)
    requires Inv(m) && Refines(m, c) && Run(m, ss).Some?
    ensures var r := Run(m, ss).value;
            && Inv(r) && Refines(r, PlainRun(c, ss))
            && |Cached(r.trans)| - r.cmt == |Cached(m.trans)| - m.cmt + CachedTrims(m, ss)
            && r.drift == m.drift + CachedTrims(m, ss)
    decreases |ss|
  {
    if ss == [] {
    } else {
      var r := Apply(m, ss[0]);
      ApplyOk(m, ss[0]);
      assert r.drift == m.drift + if TrimsCached(m, ss[0]) then 1 else 0;
      CacheDef(m);
      CacheDef(r);
      hide Inv, Legal, Apply, Refines, PlainStep, TrimsCached;
      assert Refines(r, PlainStep(c, ss[0]));
      RunRefines(r, PlainStep(c, ss[0]), ss[1..]);
    }
  }

  /** Without trims the counter of a new drive is the number of cached entries. */
  lemma {:induction false} NoTrimsNoDrift(m: Dftl, ss: seq<Step>)
    requires Inv(m) && Run(m, ss).Some? && forall s :: s in ss ==> !s.Drop?
    ensures CachedTrims(m, ss) == 0
    decreases |ss|
  {
    if ss != [] {
      ApplyOk(m, ss[0]);
      assert ss[0] in ss && forall s :: s in ss[1..] ==> s in ss;
      hide Inv, Legal, Apply;
      NoTrimsNoDrift(Apply(m, ss[0]), ss[1..]);
    }
  }

  lemma {:induction false} RunAppend(m: Dftl, a: seq<Step>, b: seq<Step>)
    requires Inv(m) && Run(m, a).Some?
    ensures Inv(Run(m, a).value) && Run(m, a + b) == Run(Run(m, a).value, b)
    decreases |a|
  {
    if a == [] {
      assert a + b == b;
    } else {
      ApplyOk(m, a[0]);
      hide Inv, Apply, Legal;
      assert (a + b)[0] == a[0] && (a + b)[1..] == a[1..] + b;
      RunAppend(Apply(m, a[0]), a[1..], b);
    }
  }

  lemma RunNothing(m: Dftl)
    requires Inv(m)
    ensures Run(m, []) == Some(m)
  {
  }

  lemma RunOne(m: Dftl, s: Step)
    requires Inv(m) && Legal(m, s)
    ensures Run(m, [s]) == Some(Apply(m, s))
  {
    ApplyOk(m, s);
    assert [s][0] == s && [s][1..] == [];
  }

  lemma CacheDef(m: Dftl)
    ensures CacheOk(m) <==> m.limit > 0 && m.cmt == |Cached(m.trans)| - m.drift
    ensures Inv(m) ==> CacheOk(m)
  {
  }

  /** The counter is exact after a trim iff it was exact before and the trimmed entry was
      not both mapped and cached. */
  lemma TrimCounts(m: Dftl, v: nat)
    requires Inv(m) && v < |m.trans|
    ensures m.trans[v].ppn.Some? ==> InRange(m.fl, m.trans[v].ppn.value)
    ensures var r := Trim(m, v);
            r.cmt == |Cached(r.trans)| <==> m.cmt == |Cached(m.trans)| && !(m.trans[v].ppn.Some? && m.trans[v].cached)
  {
    hide Inv, Discard, CacheOk, Cached, PagesOk, Paired;
    Parts(m);
    TrimOk(m, v);
    TrimCache(m, v);
    CacheDef(m);
    CacheDef(Trim(m, v));
  }

  /** It happens: one write and one trim on a new drive leave an entry cached and the counter
      at zero. */
  lemma WriteThenTrim(d: Payload, now: real)
    ensures Inv(NewDftl(1, 1, 2, 1))
    ensures var run := Run(NewDftl(1, 1, 2, 1), [Miss(0, now), Put(0, d, true), Drop(0)]);
            run.Some? && run.value.cmt == 0 && Cached(run.value.trans) == {0}
  {
    var m := NewDftl(1, 1, 2, 1);
    NewDftlOk(1, 1, 2, 1);
    var m1, m2 := MissThenPut(m, d, now);
    ApplyOk(m2, Drop(0));
    var m3 := Apply(m2, Drop(0));
    RunOne(m2, Drop(0));
    RunAppend(m, [Miss(0, now), Put(0, d, true)], [Drop(0)]);
    assert [Miss(0, now), Put(0, d, true)] + [Drop(0)] == [Miss(0, now), Put(0, d, true), Drop(0)];
    hide Inv, Run;
    assert Cached(m3.trans) == {0};
  }

  /** The first write of a new one-page drive. */
  lemma MissThenPut(m: Dftl, d: Payload, now: real) returns (m1: Dftl, m2: Dftl)
    requires m == NewDftl(1, 1, 2, 1) && Inv(m)
    ensures Inv(m2) && Run(m, [Miss(0, now), Put(0, d, true)]) == Some(m2)
    ensures m2.trans == [MPage(Some(Ppn(0, 0)), true, now)] && m2.cmt == 1
  {
    ApplyOk(m, Miss(0, now));
    m1 := Apply(m, Miss(0, now));
    ApplyOk(m1, Put(0, d, true));
    m2 := Apply(m1, Put(0, d, true));
    RunOne(m, Miss(0, now));
    RunOne(m1, Put(0, d, true));
    RunAppend(m, [Miss(0, now)], [Put(0, d, true)]);
    assert [Miss(0, now)] + [Put(0, d, true)] == [Miss(0, now), Put(0, d, true)];
    hide Inv, Run;
  }

  lemma NewDftlOk(size: nat, limit: nat, n: nat, pages: nat)
    requires size > 0 && limit > 0
    ensures var m := NewDftl(size, limit, n, pages); Inv(m) && Refines(m, map[])
  {
    FreshBlockIsSound(size);
    assert Cached(NewDftl(size, limit, n, pages).trans) == {};
  }
}
