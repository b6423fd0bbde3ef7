/** Collection in DFTL copies all pages of its victim first and patches the map afterwards. This
    module relates that order of work to the page by page moves of DftlSpec, and composes the
    steps of that machine into the runs that host operations are. */
module PatchRuns {
  import opened Flash
  import opened Pools
  import opened DftlSpec
  import opened DftlGc

  // ---------------------------------------------------------------- copy first, patch later

  /** base is the state whose map has not been patched; `now` is where moving and patching
      page by page would be. `pending` holds the patches, `index` its inverse. */
  ghost predicate Deferred(base: Dftl, now: Dftl, pending: map<nat, Ppn>, index: map<Ppn, nat>, v: nat) {
    && now.size == base.size && now.limit == base.limit && now.drift == base.drift && |now.trans| == |base.trans|
    && Inverse(pending, index, v, |base.trans|) && Patched(base.trans, now.trans, pending)
    && now.rev == base.rev + index
  }

  ghost predicate Inverse(pending: map<nat, Ppn>, index: map<Ppn, nat>, v: nat, n: nat) {
    && (forall u :: u in pending ==> u < n && pending[u] in index && index[pending[u]] == u)
    && (forall p {:trigger index[p]} :: p in index ==> p.b != v && index[p] in pending && pending[index[p]] == p)
  }

  ghost predicate Patched(before: seq<MPage>, after: seq<MPage>, pending: map<nat, Ppn>) {
    |after| == |before| && forall u :: 0 <= u < |before| ==> after[u] == PatchedEntry(before[u], u, pending)
  }

  function PatchedEntry(e: MPage, u: nat, pending: map<nat, Ppn>): MPage {
    if u in pending then e.(ppn := Some(pending[u]), cached := true) else e
  }

  /** Copying one more page: the old inverse map still names its owner, and no earlier
      copy belongs to the same owner, so recording the patch loses none. */
  lemma OwnerKnown(base: Dftl, now: Dftl, pending: map<nat, Ppn>, index: map<Ppn, nat>, v: nat, i: nat)
    requires Deferred(base, now, pending, index, v) && Inv(now) && IsValid(now.fl, Ppn(v, i))
    ensures Ppn(v, i) in base.rev && base.rev[Ppn(v, i)] == now.rev[Ppn(v, i)] && base.rev[Ppn(v, i)] !in pending
    ensures var u := base.rev[Ppn(v, i)]; u < |now.trans| && now.trans[u].ppn == Some(Ppn(v, i))
    ensures forall q :: q in index ==> q.b != v && IsValid(now.fl, q)
    ensures base.rev[Ppn(v, i)] < |base.trans|
  {
    assert Ppn(v, i) !in index;
    forall q | q in index ensures q.b != v && IsValid(now.fl, q) {
      assert now.trans[index[q]].ppn == Some(q);
    }
  }

  lemma DeferredStep(base: Dftl, now: Dftl, pending: map<nat, Ppn>, index: map<Ppn, nat>, v: nat, i: nat)
    requires Deferred(base, now, pending, index, v) && Inv(now) && Swept(now, v, i) && i < now.size
    requires IsValid(now.fl, Ppn(v, i)) && Move(now, Ppn(v, i)).Some?
    ensures Ppn(v, i) in base.rev && Advance(now).Some? && Advance(now).value.cur.Some?
    ensures var u, dst := base.rev[Ppn(v, i)], Advance(now).value.cur.value;
            Deferred(base, Move(now, Ppn(v, i)).value, pending[u := dst], index[dst := u], v)
  {
    hide Inv, Swept, Advance, IssueWrite, Move, IsValid, CanBind, Inverse, Patched;
    OwnerKnown(base, now, pending, index, v, i);
    MoveUnfolds(now, v, i);
    var u, dst := base.rev[Ppn(v, i)], Advance(now).value.cur.value;
    InverseGrows(pending, index, v, |base.trans|, u, dst);
    PatchedGrows(base.trans, now.trans, pending, u, dst);
    assert Move(now, Ppn(v, i)).value.rev == base.rev + index[dst := u];
    assert Move(now, Ppn(v, i)).value.trans == now.trans[u := now.trans[u].(ppn := Some(dst), cached := true)];
  }

  lemma InverseGrows(pending: map<nat, Ppn>, index: map<Ppn, nat>, v: nat, n: nat, u: nat, dst: Ppn)
    requires Inverse(pending, index, v, n) && u !in pending && u < n && dst !in index && dst.b != v
    ensures Inverse(pending[u := dst], index[dst := u], v, n)
  {
  }

  lemma PatchedGrows(before: seq<MPage>, after: seq<MPage>, pending: map<nat, Ppn>, u: nat, dst: Ppn)
    requires Patched(before, after, pending) && u < |before| && u !in pending
    ensures Patched(before, after[u := after[u].(ppn := Some(dst), cached := true)], pending[u := dst])
  {
  }

  /** The inverse entries written once all but `left` are patched. */
  function Patches(index: map<Ppn, nat>, left: set<nat>): map<Ppn, nat> {
    map p | p in index && index[p] !in left :: index[p]
  }

  lemma PatchesStep(index: map<Ppn, nat>, left: set<nat>, u: nat, p: Ppn)
    requires u in left && p in index && index[p] == u && forall q :: q in index && index[q] == u ==> q == p
    ensures Patches(index, left - {u}) == Patches(index, left)[p := u]
  {
  }

  /** The batch update with the entries of `left` still to be patched. */
  ghost predicate Patching(base: Dftl, now: Dftl, pending: map<nat, Ppn>, index: map<Ppn, nat>,
                           left: set<nat>, trans: seq<MPage>, rev: map<Ppn, nat>, cmt: int) {
    && left <= pending.Keys && |trans| == |base.trans| == |now.trans|
    && (forall u :: 0 <= u < |trans| ==> trans[u] == if u in left then base.trans[u] else now.trans[u])
    && rev == base.rev + Patches(index, left)
    && cmt == |Cached(trans)| - base.drift
  }

  lemma PatchStep(base: Dftl, now: Dftl, pending: map<nat, Ppn>, index: map<Ppn, nat>, v: nat,
                  left: set<nat>, trans: seq<MPage>, rev: map<Ppn, nat>, cmt: int, u: nat)
    requires Inverse(pending, index, v, |base.trans|) && Patched(base.trans, now.trans, pending)
    requires Patching(base, now, pending, index, left, trans, rev, cmt) && u in left
    ensures u < |trans| && u in pending
    ensures Patching(base, now, pending, index, left - {u},
                     trans[u := trans[u].(ppn := Some(pending[u]), cached := true)],
                     rev[pending[u] := u], cmt + if trans[u].cached then 0 else 1)
  {
    assert u in pending && u < |trans|;
    PatchesStep(index, left, u, pending[u]);
    assert now.trans[u] == PatchedEntry(trans[u], u, pending);
    hide Inverse, Patches, Patched;
    CachedUpdate(trans, u, trans[u].(ppn := Some(pending[u]), cached := true));
    hide Cached;
  }

  lemma CachedUpdate(t: seq<MPage>, u: nat, e: MPage)
    requires u < |t| && e.cached
    ensures |Cached(t[u := e])| == |Cached(t)| + if t[u].cached then 0 else 1
  {
    assert Cached(t[u := e]) == Cached(t) + {u};
  }

  /** When every entry is patched, the batch has reached the state that moving and patching
      page by page reaches. */
  lemma PatchDone(base: Dftl, now: Dftl, pending: map<nat, Ppn>, index: map<Ppn, nat>, v: nat,
                  trans: seq<MPage>, rev: map<Ppn, nat>, cmt: int)
    requires Deferred(base, now, pending, index, v) && CacheOk(now)
    requires Patching(base, now, pending, index, {}, trans, rev, cmt)
    ensures trans == now.trans && rev == now.rev && cmt == now.cmt
  {
    hide PatchedEntry, Cached;
    assert trans == now.trans;
    assert Patches(index, {}) == index;
  }

  lemma PatchStart(base: Dftl, now: Dftl, pending: map<nat, Ppn>, index: map<Ppn, nat>, v: nat)
    requires Deferred(base, now, pending, index, v) && CacheOk(base)
    ensures Patching(base, now, pending, index, pending.Keys, base.trans, base.rev, base.cmt)
  {
    assert Patches(index, pending.Keys) == map[];
  }

  lemma DeferredStart(base: Dftl, v: nat)
    ensures Deferred(base, base, map[], map[], v)
  {
    assert base.rev + map[] == base.rev;
  }

  /** Allocation looks at neither the map nor the cache. */
  lemma AdvanceIgnoresMap(now: Dftl, base: Dftl)
    ensures var w := now.(trans := base.trans, rev := base.rev, cmt := base.cmt);
            && (Advance(w).Some? <==> Advance(now).Some?)
            && (Advance(w).Some? ==>
                Advance(w).value == Advance(now).value.(trans := base.trans, rev := base.rev, cmt := base.cmt))
  {
  }

  /** m with the map, inverse and counter of base: a collection that has not patched yet. */
  function Unpatched(m: Dftl, base: Dftl): Dftl {
    m.(trans := base.trans, rev := base.rev, cmt := base.cmt)
  }

  /** One iteration of the copy loop: copying in the unpatched state follows moving in the
      patched one. */
  lemma CopyFollowsMove(base: Dftl, now: Dftl, pending: map<nat, Ppn>, index: map<Ppn, nat>, v: nat, i: nat)
    requires Deferred(base, now, pending, index, v) && Inv(now) && Swept(now, v, i) && i < now.size
    requires IsValid(now.fl, Ppn(v, i))
    ensures Move(now, Ppn(v, i)).Some? <==> Advance(Unpatched(now, base)).Some?
    ensures Move(now, Ppn(v, i)).None? ==> MoveAll(now, v, i) == None
    ensures Move(now, Ppn(v, i)).Some? ==> Ppn(v, i) in base.rev && Advance(Unpatched(now, base)).value.cur.Some?
    ensures Move(now, Ppn(v, i)).Some? ==>
      var r, a, u := Move(now, Ppn(v, i)).value, Advance(Unpatched(now, base)).value, base.rev[Ppn(v, i)];
      && Inv(r) && Swept(r, v, i + 1) && r.size == now.size && |r.fl| == |now.fl|
      && MoveAll(now, v, i) == MoveAll(r, v, i + 1)
      && InRange(now.fl, a.cur.value) && StateAt(now.fl, a.cur.value) == EMPTY && now.fl == a.fl
      && |now.fl[a.cur.value.b].st| == |now.fl[a.cur.value.b].data|
      && Deferred(base, r, pending[u := a.cur.value], index[a.cur.value := u], v)
      && Unpatched(r, base) == a.(fl := IssueWrite(now.fl, a.cur.value, DataAt(now.fl, Ppn(v, i)), Some(Ppn(v, i))))
  {
    var src := Ppn(v, i);
    MoveOk(now, src);
    AdvanceOk(now);
    AdvanceIgnoresMap(now, base);
    if Move(now, src).Some? {
      MoveStep(now, v, i);
      OwnerKnown(base, now, pending, index, v, i);
      MoveUnfolds(now, v, i);
      DeferredStep(base, now, pending, index, v, i);
      hide Inv, Swept, Deferred, Advance, IssueWrite, Moved;
    }
  }

  // ---------------------------------------------------------------- composing runs

  predicate Quiet(ss: seq<Step>) {
    forall s :: s in ss ==> !s.Put? && !s.Drop?
  }

  lemma {:induction false} QuietPlain(c: Store, ss: seq<Step>)
    requires Quiet(ss)
    ensures PlainRun(c, ss) == c
    decreases |ss|
  {
    if ss != [] {
      assert ss[0] in ss;
      QuietPlain(c, ss[1..]);
    }
  }

  function StoreOf(m: Dftl): Store {
    map v | 0 <= v < |m.trans| && Content(m, v).Some? :: Content(m, v).value
  }

  lemma StoreOfRefines(m: Dftl)
    ensures Refines(m, StoreOf(m))
  {
  }

  /** A quiet run changes no logical page. */
  lemma QuietRun(m: Dftl, ss: seq<Step>)
    requires Inv(m) && Run(m, ss).Some? && Quiet(ss)
    ensures Inv(Run(m, ss).value) && SameContent(m, Run(m, ss).value) && Run(m, ss).value.drift == m.drift
  {
    NoTrimsNoDrift(m, ss);
    StoreOfRefines(m);
    RunRefines(m, StoreOf(m), ss);
    QuietPlain(StoreOf(m), ss);
    var r := Run(m, ss).value;
    hide Inv, Content, StoreOf;
    forall u: nat ensures Content(r, u) == Content(m, u) {}
  }

  lemma QuietPool(m: Dftl)
    requires Inv(m)
    ensures m.pool.invalid == [] && Drain(m.pool, 5) == m.pool && DrainCells(m.fl, m.pool, 5) == m.fl
  {
  }

  /** One more step at the end of a run. */
  lemma RunExtends(m: Dftl, ss: seq<Step>, r: Dftl, s: Step)
    requires Inv(m) && Run(m, ss) == Some(r) && Inv(r) && Legal(r, s)
    ensures Run(m, ss + [s]) == Some(Apply(r, s)) && Inv(Apply(r, s))
  {
    ApplyOk(r, s);
    RunOne(r, s);
    RunAppend(m, ss, [s]);
  }

  lemma EvictRuns(m: Dftl, ss: seq<Step>, r: Dftl, v: nat)
    requires Inv(m) && Run(m, ss) == Some(r) && Inv(r) && r.cmt >= r.limit && Lru(r, v)
    ensures var e := Cache(r, v, false, -2.0); Inv(e) && Run(m, ss + [Dismiss(v)]) == Some(e) && e.cmt == r.cmt - 1
  {
    CacheStep(r, v, false, -2.0);
    RunExtends(m, ss, r, Dismiss(v));
    hide Inv, Run;
  }

  lemma VisitRuns(m: Dftl, v: nat, now: real)
    requires Inv(m) && v < |m.trans| && m.trans[v].cached
    ensures var e := Cache(m, v, true, now); Inv(e) && Run(m, [Visit(v, now)]) == Some(e) && e.cmt == m.cmt
  {
    CacheStep(m, v, true, now);
    RunOne(m, Visit(v, now));
    hide Inv, Run;
  }

  lemma MissRuns(m: Dftl, v: nat, now: real)
    requires Inv(m) && v < |m.trans| && !m.trans[v].cached && m.cmt < m.limit
    ensures var e := Cache(m, v, true, now); Inv(e) && Run(m, [Miss(v, now)]) == Some(e) && e.cmt == m.cmt + 1
  {
    CacheStep(m, v, true, now);
    RunOne(m, Miss(v, now));
    hide Inv, Run;
  }

  lemma PatchReady(base: Dftl, now: Dftl, pending: map<nat, Ppn>, index: map<Ppn, nat>, v: nat)
    requires Deferred(base, now, pending, index, v) && Inv(base) && Inv(now)
    ensures Inverse(pending, index, v, |base.trans|) && Patched(base.trans, now.trans, pending) && CacheOk(base)
      && CacheOk(now)
  {
  }

  lemma MappedInRange(m: Dftl, v: nat)
    requires Inv(m) && v < |m.trans|
    ensures m.trans[v].ppn.Some? ==> InRange(m.fl, m.trans[v].ppn.value)
  {
  }

  /** A host write as a run: resolve, collect, then put the page. */
  lemma WriteRuns(m: Dftl, s1: seq<Step>, s2: seq<Step>, open: bool, v: nat, d: Payload)
    requires Inv(m) && Run(m, s1).Some? && Quiet(s1) && Inv(Run(m, s1).value)
    requires Run(Run(m, s1).value, s2).Some? && (forall s :: s in s2 ==> s.Clean? || s.MarkOut?)
    requires var r := Run(Run(m, s1).value, s2).value;
             v < |r.trans| && if open then !Dry(r.pool) else !NeedsBlock(r)
    ensures var r := Run(Run(m, s1).value, s2).value;
            && CanBind(Allocated(r, open), v) && Inv(Bind(Allocated(r, open), v, d))
            && forall u: nat {:trigger Content(Bind(Allocated(r, open), v, d), u)} ::
                 Content(Bind(Allocated(r, open), v, d), u) == if u == v then Some(d) else Content(m, u)
  {
    hide Inv, Run, Content, Allocated, Bind, CanBind, NeedsBlock, Dry;
    var r1 := Run(m, s1).value;
    QuietRun(m, s1);
    QuietRun(r1, s2);
    var r := Run(r1, s2).value;
    PutOk(r, v, d, open);
    forall u: nat ensures Content(Bind(Allocated(r, open), v, d), u) == if u == v then Some(d) else Content(m, u) {
      assert Content(r, u) == Content(r1, u) == Content(m, u);
    }
  }
  /** The steps of a host write: one Put, of the page written, comes last, and no other step
      writes or trims. */
  predicate Writes(ss: seq<Step>, v: nat, d: Payload) {
    ss != [] && Quiet(ss[..|ss| - 1]) && exists open :: ss[|ss| - 1] == Put(v, d, open)
  }

  /** The same write as one run of the step machine. */
  lemma WriteIsRun(m: Dftl, s1: seq<Step>, s2: seq<Step>, open: bool, v: nat, d: Payload)
    requires Inv(m) && Run(m, s1).Some? && Quiet(s1) && Inv(Run(m, s1).value)
    requires Run(Run(m, s1).value, s2).Some? && (forall s :: s in s2 ==> s.Clean? || s.MarkOut?)
    requires var r := Run(Run(m, s1).value, s2).value;
             v < |r.trans| && if open then !Dry(r.pool) else !NeedsBlock(r)
    ensures var r, ss := Run(Run(m, s1).value, s2).value, s1 + s2 + [Put(v, d, open)];
            && CanBind(Allocated(r, open), v) && Writes(ss, v, d)
            && Run(m, ss) == Some(Bind(Allocated(r, open), v, d))
            && Bind(Allocated(r, open), v, d).drift == m.drift
            && |Bind(Allocated(r, open), v, d).trans| == |r.trans|
  {
    hide Inv, Content, Allocated, Bind, CanBind, NeedsBlock, Dry, Apply, Run;
    var r1 := Run(m, s1).value;
    var r := Run(r1, s2).value;
    QuietRun(m, s1);
    QuietRun(r1, s2);
    RunAppend(m, s1, s2);
    PutOk(r, v, d, open);
    RunExtends(m, s1 + s2, r, Put(v, d, open));
    ApplyPut(r, v, d, open);
  }

  /** Both, and the entry written. */
  lemma WriteDone(m: Dftl, s1: seq<Step>, s2: seq<Step>, open: bool, v: nat, d: Payload)
    requires Inv(m) && Run(m, s1).Some? && Quiet(s1) && Inv(Run(m, s1).value)
    requires Run(Run(m, s1).value, s2).Some? && (forall s :: s in s2 ==> s.Clean? || s.MarkOut?)
    requires v < |Run(m, s1).value.trans| && Run(m, s1).value.trans[v].cached
    requires var r := Run(Run(m, s1).value, s2).value; if open then !Dry(r.pool) else !NeedsBlock(r)
    ensures v < |Run(Run(m, s1).value, s2).value.trans|
    ensures CanBind(Allocated(Run(Run(m, s1).value, s2).value, open), v)
    ensures var r := Run(Run(m, s1).value, s2).value;
            var a, ss := Allocated(r, open), s1 + s2 + [Put(v, d, open)];
            var b := Bind(a, v, d);
            && Inv(b) && Writes(ss, v, d) && Run(m, ss) == Some(b) && b.drift == m.drift
            && |b.trans| == |Run(m, s1).value.trans| && b.trans[v] == MPage(b.cur, true, Run(m, s1).value.trans[v].last)
            && b.cur == Some(if open then Ppn(NextBlock(r.pool), 0) else Ppn(r.cur.value.b, r.cur.value.i + 1))
            && forall u: nat {:trigger Content(b, u)} :: Content(b, u) == if u == v then Some(d) else Content(m, u)
  {
    CleaningKeeps(Run(m, s1).value, s2);
    WriteRuns(m, s1, s2, open, v, d);
    WriteIsRun(m, s1, s2, open, v, d);
    WrittenEntry(Run(m, s1).value, s2, open, v, d);
    hide *;
  }

  lemma ApplyPut(m: Dftl, v: nat, d: Payload, open: bool)
    requires Inv(m) && Legal(m, Put(v, d, open))
    ensures CanBind(Allocated(m, open), v) && Apply(m, Put(v, d, open)) == Bind(Allocated(m, open), v, d)
    ensures |Bind(Allocated(m, open), v, d).trans| == |m.trans|
  {
    PutOk(m, v, d, open);
    AllocatedOk(m, open);
  }
}
