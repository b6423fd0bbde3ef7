/** BAST as a state machine: a block map (data_list), and log blocks with a page map of
    their own for the logical blocks being rewritten. */
module BastSpec {
  import opened Flash
  import opened Pools

  /** pages[j] is the page of block `blk` that holds offset j. */
  datatype LogBlock = LogBlock(pages: seq<Option<nat>>, blk: nat)

  datatype Bast = Bast(size: nat, limit: nat, fl: Cells, pool: Pool,
                       logs: map<nat, LogBlock>, dlist: seq<Option<nat>>)

  function NewBast(size: nat, limit: nat, n: nat): Bast {
    Bast(size, limit, seq(n, _ => NewBlock(size)), NewPool(n), map[], seq(n, _ => None))
  }

  // ---------------------------------------------------------------- reading

  function LogPage(m: Bast, l: nat, j: nat): Option<Ppn> {
    if l in m.logs && j < |m.logs[l].pages| then
      match m.logs[l].pages[j]
      case None => None
      case Some(s) => Some(Ppn(m.logs[l].blk, s))
    else None
  }

  function DataPage(m: Bast, l: nat, j: nat): Option<Ppn> {
    if l < |m.dlist| && m.dlist[l].Some? then Some(Ppn(m.dlist[l].value, j)) else None
  }

  /** Where a read or a merge looks for offset j: the log block if it maps j, else the
      data block. */
  function Source(m: Bast, l: nat, j: nat): Option<Ppn> {
    if LogPage(m, l, j).Some? then LogPage(m, l, j) else DataPage(m, l, j)
  }

  /** The address read() sends to the device: page 0 stands in for absent and INVALID pages. */
  function ReadAddress(m: Bast, l: nat, j: nat): Ppn {
    match Source(m, l, j)
    case None => Ppn(0, 0)
    case Some(p) => if InRange(m.fl, p) && StateAt(m.fl, p) == INVALID then Ppn(0, 0) else p
  }

  /** What is stored at offset j of logical block l: the source page, if it is VALID. */
  function Content(m: Bast, l: nat, j: nat): Option<Payload> {
    match Source(m, l, j)
    case None => None
    case Some(p) => if IsValid(m.fl, p) then Some(DataAt(m.fl, p)) else None
  }

  // ---------------------------------------------------------------- invariant

  ghost predicate LogOk(m: Bast, l: nat)
    requires l in m.logs
  {
    var b := m.logs[l];
    && l < |m.dlist| && m.dlist[l] != Some(b.blk)
    && b.blk < |m.fl| && !InPool(m.pool, b.blk) && |b.pages| == m.size && Append(m.fl[b.blk])
    && (forall j :: 0 <= j < m.size && b.pages[j].Some? ==> IsValid(m.fl, Ppn(b.blk, b.pages[j].value)))
    && (forall i, j :: 0 <= i < j < m.size && b.pages[i].Some? ==> b.pages[i] != b.pages[j])
  }

  ghost predicate DataOk(m: Bast, l: nat)
    requires l < |m.dlist|
  {
    m.dlist[l].Some? ==> m.dlist[l].value < |m.fl| && !InPool(m.pool, m.dlist[l].value)
  }

  ghost predicate EntryOk(m: Bast, l: nat) {
    (l in m.logs ==> LogOk(m, l)) && (l < |m.dlist| ==> DataOk(m, l))
  }

  predicate OwnedBy(m: Bast, l: nat, k: nat) {
    (l in m.logs && m.logs[l].blk == k) || (l < |m.dlist| && m.dlist[l] == Some(k))
  }

  /** The blocks an operation on l may touch: its own and those of the pool. */
  predicate Zone(m: Bast, l: nat, k: nat) {
    InPool(m.pool, k) || OwnedBy(m, l, k)
  }

  /** Every block has an owner, the pool or a logical block, and only one. */
  ghost predicate Ownership(m: Bast) {
    && (forall k, l1, l2 :: OwnedBy(m, l1, k) && OwnedBy(m, l2, k) ==> l1 == l2)
    && (forall k :: 0 <= k < |m.fl| ==> Covered(m, k))
  }

  ghost predicate Covered(m: Bast, k: nat) {
    InPool(m.pool, k) || exists l :: OwnedBy(m, l, k)
  }

  function Mapped(d: seq<Option<nat>>): nat {
    if d == [] then 0 else (if d[0].Some? then 1 else 0) + Mapped(d[1..])
  }

  /** The activity counters count the log blocks and the mapped logical blocks, and with
      the pool they account for every block. */
  ghost predicate CountsOk(m: Bast) {
    && m.pool.logActive == |m.logs| <= m.limit
    && m.pool.dataActive == Mapped(m.dlist)
    && Balance(m.pool) == 0
  }

  ghost predicate PagesOk(m: Bast) {
    FlashOk(m.fl, m.size) && ListsOk(m.pool) && PoolFresh(m.pool, m.fl) && m.pool.invalid == []
  }

  ghost predicate Inv(m: Bast) {
    && m.limit > 0 && PagesOk(m) && CountsOk(m) && Ownership(m)
    && (forall l {:trigger EntryOk(m, l)} :: EntryOk(m, l))
  }

  // ---------------------------------------------------------------- steps

  /** A new, empty log block for l. */
  function AddLog(m: Bast, l: nat): Bast
    requires !Dry(m.pool)
  {
    m.(logs := m.logs[l := LogBlock(seq(m.size, _ => None), NextBlock(m.pool))],
       pool := TakeAs(m.pool, LOG))
  }

  predicate IsSequential(b: LogBlock) {
    forall j :: 0 <= j < |b.pages| ==> b.pages[j] == Some(j)
  }

  /** erase_and_invalidate of l's data block, if it has one. */
  function DropData(m: Bast, l: nat): Bast
    requires CanDrop(m, l)
  {
    if m.dlist[l].None? then m
    else m.(fl := Wipe(m.fl, m.dlist[l].value),
            pool := Release(m.pool, m.dlist[l].value, DATA),
            dlist := m.dlist[l := None])
  }

  /** dispose_logblock and erase_and_invalidate of l's log block. */
  function DropLog(m: Bast, l: nat): Bast
    requires l in m.logs && m.logs[l].blk < |m.fl|
  {
    m.(fl := Wipe(m.fl, m.logs[l].blk),
       pool := Release(m.pool, m.logs[l].blk, LOG),
       logs := m.logs - {l})
  }

  predicate CanDrop(m: Bast, l: nat) {
    l < |m.dlist| && (m.dlist[l].Some? ==> m.dlist[l].value < |m.fl|)
  }

  /** Switch merge: the log block, written in order, becomes the data block. */
  function Switch(m: Bast, l: nat): Bast
    requires CanDrop(m, l) && l in m.logs
  {
    var d := DropData(m.(pool := Promote(m.pool, DATA)), l);
    d.(dlist := d.dlist[l := Some(m.logs[l].blk)], logs := d.logs - {l})
  }

  /** The copy loop of a full merge: from offset i on, each VALID source page goes to the
      same offset of block nb, and is invalidated. */
  function CopyFrom(fl: Cells, src: seq<Option<Ppn>>, nb: nat, i: nat): Cells
    requires CopyReady(fl, src, nb, i)
    decreases |src| - i
  {
    if i == |src| then fl
    else
      CopyStep(fl, src, nb, i);
      if src[i].Some? && IsValid(fl, src[i].value)
      then CopyFrom(IssueWrite(fl, Ppn(nb, i), DataAt(fl, src[i].value), src[i]), src, nb, i + 1)
      else CopyFrom(fl, src, nb, i + 1)
  }

  /** Block nb is EMPTY from i on, and no source page lies in it or occurs twice. */
  ghost predicate CopyReady(fl: Cells, src: seq<Option<Ppn>>, nb: nat, i: nat) {
    && i <= |src| && FlashOk(fl, |src|) && nb < |fl|
    && (forall j :: i <= j < |src| ==> fl[nb].st[j] == EMPTY)
    && (forall j :: 0 <= j < |src| && src[j].Some? ==> src[j].value.b != nb && InRange(fl, src[j].value))
    && (forall j, k :: 0 <= j < k < |src| && src[j].Some? ==> src[j] != src[k])
  }

  lemma CopyStep(fl: Cells, src: seq<Option<Ppn>>, nb: nat, i: nat)
    requires CopyReady(fl, src, nb, i) && i < |src|
    ensures CopyReady(fl, src, nb, i + 1) && InRange(fl, Ppn(nb, i)) && StateAt(fl, Ppn(nb, i)) == EMPTY
    ensures nb < |fl| && |fl[nb].st| == |fl[nb].data|
      && (src[i].Some? ==> InRange(fl, src[i].value) && src[i].value.b != nb)
    ensures src[i].Some? && IsValid(fl, src[i].value) ==>
      CopyReady(IssueWrite(fl, Ppn(nb, i), DataAt(fl, src[i].value), src[i]), src, nb, i + 1)
  {
    if src[i].Some? && IsValid(fl, src[i].value) {
      var r := IssueWrite(fl, Ppn(nb, i), DataAt(fl, src[i].value), src[i]);
      IssueWriteEffect(fl, |src|, Ppn(nb, i), DataAt(fl, src[i].value), src[i]);
      forall j | i + 1 <= j < |src| ensures r[nb].st[j] == EMPTY {
        assert InRange(fl, Ppn(nb, j)) && StateAt(r, Ppn(nb, j)) == StateAt(fl, Ppn(nb, j));
      }
      forall j | 0 <= j < |src| && src[j].Some? ensures InRange(r, src[j].value) {
        assert InRange(fl, src[j].value);
      }
    }
  }

  /** What the copy loop leaves behind, from offset i on: in nb, the data of the VALID
      sources and EMPTY pages elsewhere; outside nb and the source blocks, no change. */
  ghost predicate Copied(fl: Cells, r: Cells, src: seq<Option<Ppn>>, nb: nat, i: nat)
    requires nb < |fl| && i <= |src|
  {
    && FlashOk(r, |src|) && |r| == |fl|
    && (forall j {:trigger Ppn(nb, j)} {:trigger r[nb].st[j]} :: i <= j < |src| ==> CopiedAt(fl, r, src[j], Ppn(nb, j)))
    && (forall j {:trigger Ppn(nb, j)} {:trigger r[nb].st[j]} :: 0 <= j < i ==> Kept(fl, r, Ppn(nb, j)))
    && (forall k :: 0 <= k < |fl| && k != nb && Untouched(src, i, k) ==> r[k] == fl[k])
  }

  /** No source page from offset i on lies in block k. */
  ghost predicate Untouched(src: seq<Option<Ppn>>, i: nat, k: nat) {
    forall j :: i <= j < |src| && src[j].Some? ==> src[j].value.b != k
  }

  ghost predicate CopiedAt(fl: Cells, r: Cells, from: Option<Ppn>, q: Ppn) {
    InRange(r, q) &&
    if from.Some? && IsValid(fl, from.value) then IsValid(r, q) && DataAt(r, q) == DataAt(fl, from.value)
    else StateAt(r, q) == EMPTY
  }

  ghost predicate Kept(fl: Cells, r: Cells, q: Ppn) {
    InRange(fl, q) && InRange(r, q) && StateAt(r, q) == StateAt(fl, q) && DataAt(r, q) == DataAt(fl, q)
  }

  /** One copy: page i of nb is written, other pages of nb and later sources are kept. */
  lemma CopyOne(fl: Cells, src: seq<Option<Ppn>>, nb: nat, i: nat)
    requires CopyReady(fl, src, nb, i) && i < |src| && src[i].Some? && IsValid(fl, src[i].value)
    ensures InRange(fl, Ppn(nb, i)) && StateAt(fl, Ppn(nb, i)) == EMPTY
    ensures var f := IssueWrite(fl, Ppn(nb, i), DataAt(fl, src[i].value), src[i]);
            && |f| == |fl| && CopiedAt(fl, f, src[i], Ppn(nb, i))
            && (forall j {:trigger Ppn(nb, j)} :: 0 <= j < i ==> Kept(fl, f, Ppn(nb, j)))
            && (forall j :: i < j < |src| && src[j].Some? ==> Kept(fl, f, src[j].value))
            && (forall k :: 0 <= k < |fl| && k != nb && k != src[i].value.b ==> f[k] == fl[k])
  {
    CopyStep(fl, src, nb, i);
    var p, d := Ppn(nb, i), DataAt(fl, src[i].value);
    IssueWriteEffect(fl, |src|, p, d, src[i]);
    var f := IssueWrite(fl, p, d, src[i]);
    forall q | InRange(fl, q) && q != p && src[i] != Some(q) ensures Kept(fl, f, q) {
      assert InRange(f, q) && StateAt(f, q) == StateAt(fl, q) && DataAt(f, q) == DataAt(fl, q);
    }
    forall j | 0 <= j < i ensures Kept(fl, f, Ppn(nb, j)) {
      assert InRange(fl, Ppn(nb, j)) && src[i] != Some(Ppn(nb, j));
    }
  }

  lemma {:induction false} CopyEffect(fl: Cells, src: seq<Option<Ppn>>, nb: nat, i: nat)
    requires CopyReady(fl, src, nb, i)
    ensures Copied(fl, CopyFrom(fl, src, nb, i), src, nb, i) && |CopyFrom(fl, src, nb, i)| == |fl|
    decreases |src| - i
  {
    if i == |src| {
      CopyDone(fl, src, nb);
    } else {
      CopyStep(fl, src, nb, i);
      hide Copied, CopyReady, CopiedAt, Kept, FlashOk;
      if src[i].Some? && IsValid(fl, src[i].value) {
        CopyOne(fl, src, nb, i);
        var f := IssueWrite(fl, Ppn(nb, i), DataAt(fl, src[i].value), src[i]);
        hide IssueWrite;
        CopyEffect(f, src, nb, i + 1);
        CopyChain(fl, f, CopyFrom(f, src, nb, i + 1), src, nb, i);
      } else {
        CopyEffect(fl, src, nb, i + 1);
        CopySkip(fl, CopyFrom(fl, src, nb, i + 1), src, nb, i);
      }
    }
  }

  lemma CopyDone(fl: Cells, src: seq<Option<Ppn>>, nb: nat)
    requires CopyReady(fl, src, nb, |src|)
    ensures Copied(fl, fl, src, nb, |src|) && CopyFrom(fl, src, nb, |src|) == fl
  {
  }

  lemma CopySkip(fl: Cells, r: Cells, src: seq<Option<Ppn>>, nb: nat, i: nat)
    requires CopyReady(fl, src, nb, i) && i < |src| && (src[i].Some? ==> !IsValid(fl, src[i].value))
    requires Copied(fl, r, src, nb, i + 1)
    ensures Copied(fl, r, src, nb, i)
  {
    assert Kept(fl, r, Ppn(nb, i));
    hide FlashOk, Kept, IsValid;
  }

  lemma CopyChain(fl: Cells, f: Cells, r: Cells, src: seq<Option<Ppn>>, nb: nat, i: nat)
    requires i < |src| && nb < |fl| == |f| && src[i].Some?
    requires CopiedAt(fl, f, src[i], Ppn(nb, i))
    requires forall j {:trigger Ppn(nb, j)} :: 0 <= j < i ==> Kept(fl, f, Ppn(nb, j))
    requires forall j :: i < j < |src| && src[j].Some? ==> Kept(fl, f, src[j].value)
    requires forall k :: 0 <= k < |fl| && k != nb && k != src[i].value.b ==> f[k] == fl[k]
    requires Copied(f, r, src, nb, i + 1)
    ensures Copied(fl, r, src, nb, i)
  {
    forall j | i <= j < |src| ensures CopiedAt(fl, r, src[j], Ppn(nb, j)) {
      if j == i {
        assert Kept(f, r, Ppn(nb, i));
      } else {
        assert CopiedAt(f, r, src[j], Ppn(nb, j));
      }
    }
    forall j | 0 <= j < i ensures Kept(fl, r, Ppn(nb, j)) {
      assert Kept(fl, f, Ppn(nb, j)) && Kept(f, r, Ppn(nb, j));
    }
  }

  // ---------------------------------------------------------------- steps that touch one logical block

  function Sources(m: Bast, l: nat): seq<Option<Ppn>> {
    seq(m.size, j requires 0 <= j < m.size => Source(m, l, j))
  }

  /** Full merge: a new data block gets the live pages of the log and data blocks, which
      are then erased. None when no block is left. */
  function Merge(m: Bast, l: nat): Option<Bast>
    requires Inv(m) && l in m.logs
  {
    if Dry(m.pool) then None
    else
      MergeReady(m, l);
      var nb := NextBlock(m.pool);
      var c := m.(pool := TakeAs(m.pool, DATA), fl := CopyFrom(m.fl, Sources(m, l), nb, 0));
      CopyEffect(m.fl, Sources(m, l), nb, 0);
      Some(FinishMerge(c, l, nb))
  }

  /** The end of a full merge: both old blocks are erased and nb becomes the data block. */
  function FinishMerge(c: Bast, l: nat, nb: nat): Bast
    requires l in c.logs && c.logs[l].blk < |c.fl| && CanDrop(c, l)
  {
    var d := DropData(DropLog(c, l), l);
    d.(dlist := d.dlist[l := Some(nb)])
  }

  lemma SourcesSize(m: Bast, l: nat)
    ensures |Sources(m, l)| == m.size
  {
  }

  lemma MergeReady(m: Bast, l: nat)
    requires Inv(m) && l in m.logs && !Dry(m.pool)
    ensures m.logs[l].blk < |m.fl| && CanDrop(m, l) && |m.logs[l].pages| == m.size
    ensures NextBlock(m.pool) < |m.fl| && CopyReady(m.fl, Sources(m, l), NextBlock(m.pool), 0)
  {
    hide Inv, Ownership, CountsOk;
    EntryAt(m, l);
    TakeEffect(m.pool, DATA);
    assert Fresh(m.fl[NextBlock(m.pool)]);
    var src := Sources(m, l);
    forall j | 0 <= j < |src| && src[j].Some?
      ensures src[j].value.b != NextBlock(m.pool) && InRange(m.fl, src[j].value)
    {
      if LogPage(m, l, j).Some? { assert IsValid(m.fl, src[j].value); }
    }
  }

  /** is_sequential, and random_merge where it does not apply. */
  function Evict(m: Bast, l: nat): Option<Bast>
    requires Inv(m) && l in m.logs
  {
    assert EntryOk(m, l);
    if IsSequential(m.logs[l]) then Some(Switch(m, l)) else Merge(m, l)
  }

  // The effect of a step on l: everything outside l's zone is as before.
  ghost predicate Local(m: Bast, r: Bast, l: nat) {
    && r.size == m.size && r.limit == m.limit && |r.fl| == |m.fl| && |r.dlist| == |m.dlist|
    && (forall x {:trigger x in r.logs} {:trigger x in m.logs} :: x != l ==> (x in r.logs <==> x in m.logs))
    && (forall x {:trigger r.logs[x]} :: x != l && x in m.logs && x in r.logs ==> r.logs[x] == m.logs[x])
    && (forall x :: 0 <= x < |m.dlist| && x != l ==> r.dlist[x] == m.dlist[x])
    && (forall k :: 0 <= k < |m.fl| && !Zone(m, l, k) ==> r.fl[k] == m.fl[k])
    && (forall k {:trigger Zone(r, l, k)} {:trigger Zone(m, l, k)} :: 0 <= k < |m.fl| ==>
        (Zone(r, l, k) <==> Zone(m, l, k)))
  }

  lemma CountsAt(m: Bast)
    requires Inv(m)
    ensures CountsOk(m) && m.limit > 0 && m.size > 0 && |m.logs| <= m.limit && m.pool.logActive <= m.pool.total
    ensures Balance(m.pool) == 0 && m.pool.invalid == [] && |m.fl| == m.pool.total
    ensures Reserve(m.pool) >= 0 && (Dry(m.pool) <==> Reserve(m.pool) == 0)
    ensures !Dry(m.pool) ==> InPool(m.pool, NextBlock(m.pool)) && NextBlock(m.pool) < |m.fl|
  {
    if !Dry(m.pool) { TakeEffect(m.pool, DATA); }
  }

  lemma LocalShape(m: Bast, r: Bast, l: nat)
    requires Local(m, r, l) && r.pool.total == m.pool.total
    ensures SameShape(m, r)
  {
  }

  lemma InvFrom(r: Bast)
    requires r.limit > 0 && PagesOk(r) && CountsOk(r) && Ownership(r)
    requires forall x {:trigger EntryOk(r, x)} :: EntryOk(r, x)
    ensures Inv(r)
  {
  }

  lemma EntryAt(m: Bast, l: nat)
    requires Inv(m)
    ensures EntryOk(m, l) && PagesOk(m)
  {
  }

  /** No other logical block owns a block of l's zone. */
  lemma OutOfZone(m: Bast, l: nat, x: nat, k: nat)
    requires Inv(m) && x != l && OwnedBy(m, x, k)
    ensures k < |m.fl| && !InPool(m.pool, k) && !OwnedBy(m, l, k)
  {
    assert EntryOk(m, x);
  }

  lemma LocalOther(m: Bast, r: Bast, l: nat, x: nat)
    requires Inv(m) && PagesOk(r) && Local(m, r, l) && x != l
    ensures EntryOk(r, x) && (forall k {:trigger OwnedBy(r, x, k)} :: OwnedBy(r, x, k) <==> OwnedBy(m, x, k))
    ensures forall j: nat {:trigger Content(r, x, j)} :: Content(r, x, j) == Content(m, x, j)
  {
    hide Inv, Ownership, CountsOk;
    EntryAt(m, x);
    hide ListsOk, PoolFresh, Append;
    forall k | 0 <= k < |m.fl| && OwnedBy(m, x, k) ensures r.fl[k] == m.fl[k] && !InPool(r.pool, k) {
      OutOfZone(m, l, x, k);
      assert !Zone(m, l, k) && !Zone(r, l, k);
    }
    hide InPool;
    if x in m.logs {
      assert OwnedBy(m, x, m.logs[x].blk);
      assert r.logs[x] == m.logs[x];
      forall j | 0 <= j < m.size && m.logs[x].pages[j].Some?
        ensures IsValid(r.fl, Ppn(r.logs[x].blk, r.logs[x].pages[j].value))
      {
        assert IsValid(m.fl, Ppn(m.logs[x].blk, m.logs[x].pages[j].value));
      }
    }
    if x < |m.dlist| && m.dlist[x].Some? { assert OwnedBy(m, x, m.dlist[x].value); }
  }

  /** A local step that leaves l in order keeps the invariant (but for the counters). */
  lemma LocalOk(m: Bast, r: Bast, l: nat)
    requires Inv(m) && PagesOk(r) && Local(m, r, l) && EntryOk(r, l)
    ensures Ownership(r) && forall x {:trigger EntryOk(r, x)} :: EntryOk(r, x)
    ensures forall x: nat, j: nat {:trigger Content(r, x, j)} :: x != l ==> Content(r, x, j) == Content(m, x, j)
  {
    forall x ensures EntryOk(r, x) {
      if x != l { LocalOther(m, r, l, x); }
    }
    forall x, j | x != l ensures Content(r, x, j) == Content(m, x, j) {
      LocalOther(m, r, l, x);
    }
    forall k: nat, l1: nat, l2: nat | OwnedBy(r, l1, k) && OwnedBy(r, l2, k) ensures l1 == l2 {
      if l1 != l2 {
        var x, y := if l1 == l then l2 else l1, if l1 == l then l1 else l2;
        LocalOther(m, r, l, x);
        assert EntryOk(r, x) && k < |m.fl| && !InPool(m.pool, k) by { assert EntryOk(m, x); }
        if y == l { assert Zone(r, l, k); } else { LocalOther(m, r, l, y); }
      }
    }
    forall k | 0 <= k < |r.fl| ensures Covered(r, k) {
      assert Covered(m, k);
      if Zone(m, l, k) {
        assert Zone(r, l, k);
      } else {
        var x :| OwnedBy(m, x, k);
        LocalOther(m, r, l, x);
        assert OwnedBy(r, x, k);
      }
    }
  }

  lemma {:induction false} MappedUpdate(d: seq<Option<nat>>, l: nat, v: Option<nat>)
    requires l < |d|
    ensures Mapped(d[l := v]) == Mapped(d) - (if d[l].Some? then 1 else 0) + (if v.Some? then 1 else 0)
  {
    if l > 0 {
      MappedUpdate(d[1..], l - 1, v);
      assert d[l := v][1..] == d[1..][l - 1 := v];
    }
  }

  lemma MapSizes<V>(m: map<nat, V>, l: nat, v: V)
    ensures |m[l := v]| == |m| + if l in m then 0 else 1
    ensures |m - {l}| == |m| - if l in m then 1 else 0
  {
    assert m[l := v].Keys == m.Keys + {l};
    assert (m - {l}).Keys == m.Keys - {l};
  }

  lemma {:induction false} MappedBound(d: seq<Option<nat>>, n: nat)
    requires forall l :: n <= l < |d| ==> d[l].None?
    ensures Mapped(d) <= n
  {
    if d != [] {
      if n == 0 { MappedBound(d[1..], 0); } else { MappedBound(d[1..], n - 1); }
    }
  }

  lemma {:induction false} MappedNone(d: seq<Option<nat>>)
    requires forall l :: 0 <= l < |d| ==> d[l].None?
    ensures Mapped(d) == 0
  {
    MappedBound(d, 0);
  }

  /** Every block has exactly one owner: the virgin area, the free list, or one logical
      block, which has it either as its log block or as its data block. */
  lemma OneOwner(m: Bast, k: nat)
    requires Inv(m) && k < |m.fl|
    ensures k >= m.pool.virgin ==> k !in m.pool.free && forall l :: !OwnedBy(m, l, k)
    ensures k in m.pool.free ==> k < m.pool.virgin && forall l :: !OwnedBy(m, l, k)
    ensures Owned(m.pool, k) <==> exists l :: OwnedBy(m, l, k)
    ensures forall l1, l2 :: OwnedBy(m, l1, k) && OwnedBy(m, l2, k) ==> l1 == l2
    ensures forall l :: l in m.logs && m.logs[l].blk == k ==> l < |m.dlist| && m.dlist[l] != Some(k)
  {
    forall l: nat ensures OwnedBy(m, l, k) ==> !InPool(m.pool, k) && k < m.pool.virgin {
      assert EntryOk(m, l);
    }
    forall l | l in m.logs ensures l < |m.dlist| && m.dlist[l] != Some(m.logs[l].blk) {
      assert EntryOk(m, l);
    }
    assert Covered(m, k);
  }

  // ---------------------------------------------------------------- each step keeps the invariant

  /** Only offset j of logical block l changed, and now holds v. */
  ghost predicate Changed(m: Bast, r: Bast, l: nat, j: nat, v: Option<Payload>) {
    SameElse(m, r, l, j) && Content(r, l, j) == v
  }

  predicate SameShape(m: Bast, r: Bast) {
    && r.size == m.size && r.limit == m.limit && |r.dlist| == |m.dlist| && |r.fl| == |m.fl|
    && r.pool.total == m.pool.total
  }

  ghost predicate SameElse(m: Bast, r: Bast, l: nat, j: nat) {
    forall x: nat, i: nat {:trigger Content(r, x, i)} :: x != l || i != j ==> Content(r, x, i) == Content(m, x, i)
  }

  /** What a step on l that stores nothing new must show. */
  ghost predicate Steady(m: Bast, r: Bast) {
    && Inv(r) && SameShape(m, r)
    && forall x: nat, j: nat {:trigger Content(r, x, j)} :: Content(r, x, j) == Content(m, x, j)
  }

  lemma SteadyTwice(m: Bast, e: Bast, r: Bast)
    requires Steady(m, e) && Steady(e, r)
    ensures Steady(m, r)
  {
    hide Inv, Content;
    forall x: nat, j: nat ensures Content(r, x, j) == Content(m, x, j) {
      assert Content(e, x, j) == Content(m, x, j);
    }
  }

  lemma SteadyIs(m: Bast, r: Bast)
    ensures Steady(m, r) ==> Inv(r) && SameShape(m, r)
    ensures Inv(m) ==> Steady(m, m)
  {
  }

  lemma AddLogEntry(m: Bast, l: nat)
    requires Inv(m) && !Dry(m.pool) && l !in m.logs && l < |m.dlist|
    ensures NextBlock(m.pool) < |m.fl| && m.fl[NextBlock(m.pool)].programmed == 0 < m.size
    ensures var r := AddLog(m, l); PagesOk(r) && EntryOk(r, l) && Local(m, r, l)
    ensures forall j: nat {:trigger Content(AddLog(m, l), l, j)} :: Content(AddLog(m, l), l, j) == Content(m, l, j)
  {
    hide Inv, Ownership, CountsOk;
    EntryAt(m, l);
    TakeEffect(m.pool, LOG);
    assert Fresh(m.fl[NextBlock(m.pool)]);
  }

  lemma AddLogPool(m: Bast)
    requires Inv(m) && !Dry(m.pool)
    ensures var p := TakeAs(m.pool, LOG);
            && Balance(p) == 0 && p.total == m.pool.total && Reserve(p) == Reserve(m.pool) - 1
            && p.logActive == m.pool.logActive + 1 && p.dataActive == m.pool.dataActive
  {
    TakeBalance(m.pool, LOG);
  }

  lemma AddLogOk(m: Bast, l: nat)
    requires Inv(m) && !Dry(m.pool) && l !in m.logs && l < |m.dlist| && |m.logs| < m.limit
    ensures Steady(m, AddLog(m, l)) && Reserve(AddLog(m, l).pool) == Reserve(m.pool) - 1
    ensures NextBlock(m.pool) < |m.fl| && m.fl[NextBlock(m.pool)].programmed == 0 < m.size
  {
    hide Inv, Local, EntryOk, PagesOk, Ownership, OwnedBy, InPool, Owned, Reserve, Balance, Content, ListsOk;
    AddLogEntry(m, l);
    AddLogPool(m);
    CountsAt(m);
    MapSizes(m.logs, l, AddLog(m, l).logs[l]);
    LocalOk(m, AddLog(m, l), l);
    InvFrom(AddLog(m, l));
    LocalShape(m, AddLog(m, l), l);
  }

  /** Releasing a block that is being erased keeps pages and pool in order. */
  lemma WipePagesOk(fl: Cells, size: nat, p: Pool, k: nat, t: BlockType)
    requires FlashOk(fl, size) && ListsOk(p) && PoolFresh(p, fl) && p.invalid == []
    requires k < |fl| && Owned(p, k)
    ensures FlashOk(Wipe(fl, k), size) && ListsOk(Release(p, k, t)) && PoolFresh(Release(p, k, t), Wipe(fl, k))
    ensures Release(p, k, t).invalid == [] && Fresh(Wipe(fl, k)[k])
  {
    EraseKeepsSound(fl[k], size);
    ReleaseEffect(p, k, t);
    forall j | 0 <= j < |fl| && InPool(Release(p, k, t), j) ensures Fresh(Wipe(fl, k)[j]) {
      assert j != k ==> InPool(p, j);
    }
  }

  lemma DropLogEntry(m: Bast, l: nat)
    requires Inv(m) && l in m.logs && forall j :: 0 <= j < m.size ==> LogPage(m, l, j) == None
    ensures m.logs[l].blk < |m.fl| && Owned(m.pool, m.logs[l].blk)
    ensures var r := DropLog(m, l); PagesOk(r) && EntryOk(r, l) && Local(m, r, l)
    ensures forall j: nat {:trigger Content(DropLog(m, l), l, j)} :: Content(DropLog(m, l), l, j) == Content(m, l, j)
  {
    hide Inv, Ownership, CountsOk;
    EntryAt(m, l);
    var r, k := DropLog(m, l), m.logs[l].blk;
    WipePagesOk(m.fl, m.size, m.pool, k, LOG);
    ReleaseEffect(m.pool, k, LOG);
    forall j ensures Content(r, l, j) == Content(m, l, j) {
      assert LogPage(m, l, j) == None && DataPage(m, l, j) == DataPage(r, l, j);
      assert DataPage(m, l, j).Some? ==> DataPage(m, l, j).value.b != k;
    }
  }

  lemma DropLogOk(m: Bast, l: nat)
    requires Inv(m) && l in m.logs && forall j :: 0 <= j < m.size ==> LogPage(m, l, j) == None
    ensures m.logs[l].blk < |m.fl|
    ensures Steady(m, DropLog(m, l)) && Reserve(DropLog(m, l).pool) == Reserve(m.pool) + 1
  {
    DropLogEntry(m, l);
    ReleaseEffect(m.pool, m.logs[l].blk, LOG);
    MapSizes(m.logs, l, m.logs[l]);
    hide Local, EntryOk, PagesOk, Ownership, OwnedBy;
    LocalOk(m, DropLog(m, l), l);
  }

  lemma DropDataOk(m: Bast, l: nat)
    requires Inv(m) && CanDrop(m, l)
    requires forall j {:trigger DataPage(m, l, j)} :: DataPage(m, l, j).Some? ==>
      !IsValid(m.fl, DataPage(m, l, j).value)
    ensures Steady(m, DropData(m, l)) && Reserve(DropData(m, l).pool) >= Reserve(m.pool)
  {
    assert EntryOk(m, l);
    var r := DropData(m, l);
    if m.dlist[l].Some? {
      var k := m.dlist[l].value;
      WipePagesOk(m.fl, m.size, m.pool, k, DATA);
      ReleaseEffect(m.pool, k, DATA);
      MappedUpdate(m.dlist, l, None);
      DropDataEntry(m, l);
      LocalOk(m, r, l);
      forall j ensures Content(r, l, j) == Content(m, l, j) {
        DropDataContent(m, l, j);
      }
    }
  }

  lemma DropDataEntry(m: Bast, l: nat)
    requires Inv(m) && l < |m.dlist| && m.dlist[l].Some? && m.dlist[l].value < |m.fl|
    ensures var r := DropData(m, l); EntryOk(r, l) && Local(m, r, l)
  {
    hide Inv, Ownership, CountsOk;
    EntryAt(m, l);
    var r, k := DropData(m, l), m.dlist[l].value;
    ReleaseEffect(m.pool, k, DATA);
    if l in m.logs {
      forall j | 0 <= j < m.size && r.logs[l].pages[j].Some?
        ensures IsValid(r.fl, Ppn(r.logs[l].blk, r.logs[l].pages[j].value))
      {
        assert IsValid(m.fl, Ppn(m.logs[l].blk, m.logs[l].pages[j].value));
      }
    }
  }

  lemma DropDataContent(m: Bast, l: nat, j: nat)
    requires Inv(m) && l < |m.dlist| && m.dlist[l].Some? && m.dlist[l].value < |m.fl|
    requires DataPage(m, l, j).Some? ==> !IsValid(m.fl, DataPage(m, l, j).value)
    ensures Content(DropData(m, l), l, j) == Content(m, l, j)
  {
    assert EntryOk(m, l);
    assert LogPage(DropData(m, l), l, j) == LogPage(m, l, j);
  }

  lemma SwitchPages(m: Bast, l: nat)
    requires Inv(m) && l in m.logs
    ensures CanDrop(m, l)
    ensures PagesOk(Switch(m, l)) && Balance(Switch(m, l).pool) == 0
    ensures Reserve(Switch(m, l).pool) >= Reserve(m.pool)
    ensures forall k: nat {:trigger InPool(Switch(m, l).pool, k)} :: InPool(Switch(m, l).pool, k) <==>
              InPool(m.pool, k) || m.dlist[l] == Some(k)
  {
    hide Inv, Ownership, CountsOk, FlashOk, Append, IsValid, Dry, NextBlock;
    CountsAt(m);
    EntryAt(m, l);
    var p := Promote(m.pool, DATA);
    assert forall j {:trigger InPool(p, j)} :: InPool(p, j) <==> InPool(m.pool, j);
    if m.dlist[l].Some? {
      WipePagesOk(m.fl, m.size, p, m.dlist[l].value, DATA);
      ReleaseEffect(p, m.dlist[l].value, DATA);
    }
  }

  lemma SwitchEntry(m: Bast, l: nat)
    requires Inv(m) && l in m.logs && IsSequential(m.logs[l])
    requires CanDrop(m, l)
    ensures EntryOk(Switch(m, l), l) && Local(m, Switch(m, l), l)
    ensures forall j: nat {:trigger Content(Switch(m, l), l, j)} :: Content(Switch(m, l), l, j) == Content(m, l, j)
  {
    hide Inv, Ownership, CountsOk, PagesOk, Release, Promote, InPool, Append;
    EntryAt(m, l);
    SwitchPages(m, l);
    SwitchContent(m, l);
  }

  lemma SwitchContent(m: Bast, l: nat)
    requires Inv(m) && l in m.logs && IsSequential(m.logs[l])
    requires CanDrop(m, l)
    ensures var k := m.logs[l].blk;
            k < |m.fl| && m.dlist[l] != Some(k) && forall j :: 0 <= j < m.size ==> IsValid(m.fl, Ppn(k, j))
    ensures forall j: nat {:trigger Content(Switch(m, l), l, j)} :: Content(Switch(m, l), l, j) == Content(m, l, j)
  {
    hide Inv, Ownership, CountsOk, ListsOk, PoolFresh, Release, Promote, InPool, Append;
    EntryAt(m, l);
    var r, k := Switch(m, l), m.logs[l].blk;
    forall j: nat | j < m.size ensures IsValid(m.fl, Ppn(k, j)) {
      assert m.logs[l].pages[j] == Some(j);
    }
    forall j: nat ensures Content(r, l, j) == Content(m, l, j) {
      assert j < m.size ==> LogPage(m, l, j) == Some(Ppn(k, j)) && IsValid(m.fl, Ppn(k, j));
    }
  }

  lemma SwitchCounts(m: Bast, l: nat)
    requires CanDrop(m, l) && l in m.logs
    ensures var r := Switch(m, l);
            && r.pool.logActive == m.pool.logActive - 1 && r.pool.total == m.pool.total
            && r.pool.dataActive == m.pool.dataActive + (if m.dlist[l].Some? then 0 else 1)
  {
  }

  /** A switch merge stores nothing new: the log block already holds every page in place. */
  lemma SwitchOk(m: Bast, l: nat)
    requires Inv(m) && l in m.logs && IsSequential(m.logs[l])
    ensures CanDrop(m, l)
    ensures Steady(m, Switch(m, l)) && Reserve(Switch(m, l).pool) >= Reserve(m.pool)
  {
    hide Inv, Local, EntryOk, PagesOk, Ownership, OwnedBy, Content, IsSequential, Reserve, Balance, InPool, Release;
    SwitchPages(m, l);
    SwitchEntry(m, l);
    CountsAt(m);
    var k := m.logs[l].blk;
    MapSizes(m.logs, l, m.logs[l]);
    MappedUpdate(m.dlist, l, Some(k));
    assert m.dlist[l := None][l := Some(k)] == m.dlist[l := Some(k)];
    LocalOk(m, Switch(m, l), l);
    SwitchCounts(m, l);
    InvFrom(Switch(m, l));
  }

  lemma SwitchOwns(m: Bast, l: nat)
    requires Inv(m) && l in m.logs
    ensures CanDrop(m, l) && (m.dlist[l].Some? ==> Owned(Promote(m.pool, DATA), m.dlist[l].value))
    ensures |m.logs[l].pages| == m.size
  {
    assert EntryOk(m, l);
  }

  // ---------------------------------------------------------------- full merge

  function Recycled(c: Cells, blk: nat, dk: Option<nat>): Cells
    requires blk < |c| && (dk.Some? ==> dk.value < |c|)
  {
    if dk.Some? then Wipe(Wipe(c, blk), dk.value) else Wipe(c, blk)
  }

  /** The pool after a full merge: one block taken, one or two released. */
  function MergedPool(p: Pool, blk: nat, dk: Option<nat>): Pool
    requires !Dry(p)
  {
    var q := Release(TakeAs(p, DATA), blk, LOG);
    if dk.Some? then Release(q, dk.value, DATA) else q
  }

  /** A full merge, in terms of the copy loop, the erases and the pool. */
  lemma MergeShape(m: Bast, l: nat, r: Bast)
    requires Inv(m) && l in m.logs && Merge(m, l) == Some(r)
    ensures !Dry(m.pool) && m.logs[l].blk < |m.fl| && CanDrop(m, l) && |m.logs[l].pages| == m.size
    ensures NextBlock(m.pool) < |m.fl| && CopyReady(m.fl, Sources(m, l), NextBlock(m.pool), 0)
    ensures var nb, blk, dk := NextBlock(m.pool), m.logs[l].blk, m.dlist[l];
            var c := CopyFrom(m.fl, Sources(m, l), nb, 0);
            && |c| == |m.fl| && Copied(m.fl, c, Sources(m, l), nb, 0)
            && r == m.(fl := Recycled(c, blk, dk), pool := MergedPool(m.pool, blk, dk),
                       logs := m.logs - {l}, dlist := m.dlist[l := Some(nb)])
  {
    hide Inv, CopyReady, Copied, Sources, CopyFrom, FlashOk, Wipe, TakeAs, Release;
    assert !Dry(m.pool);
    MergeReady(m, l);
    CopyEffect(m.fl, Sources(m, l), NextBlock(m.pool), 0);
  }

  /** The copy loop of a merge and the erases after it. */
  lemma MergeCopy(m: Bast, l: nat, r: Bast)
    requires Inv(m) && l in m.logs && Merge(m, l) == Some(r)
    ensures l < |m.dlist| && |Sources(m, l)| == m.size && NextBlock(m.pool) < |m.fl|
    ensures var nb, src, blk, dk := NextBlock(m.pool), Sources(m, l), m.logs[l].blk, m.dlist[l];
            && (forall j :: 0 <= j < m.size ==> src[j] == Source(m, l, j))
            && (forall k :: k != nb && !OwnedBy(m, l, k) ==> Untouched(src, 0, k))
            && blk < |m.fl| && blk != nb && (dk.Some? ==> dk.value < |m.fl| && dk.value != nb)
            && CopyReady(m.fl, src, nb, 0) && |CopyFrom(m.fl, src, nb, 0)| == |m.fl|
            && Copied(m.fl, CopyFrom(m.fl, src, nb, 0), src, nb, 0)
            && r.fl == Recycled(CopyFrom(m.fl, src, nb, 0), blk, dk)
  {
    hide Inv, Merge, CopyFrom, CopyReady, Copied, Recycled, MergedPool, FlashOk, PoolFresh, ListsOk, Append, IsValid;
    MergeShape(m, l, r);
    EntryAt(m, l);
    CountsAt(m);
  }

  /** The device after a full merge of l: nb is the new data block, the old blocks of l
      are erased, everything else is as before. */
  lemma MergeCells(m: Bast, l: nat, r: Bast)
    requires Inv(m) && l in m.logs && Merge(m, l) == Some(r)
    ensures var nb := NextBlock(m.pool);
            && nb < |r.fl| == |m.fl| && FlashOk(r.fl, m.size)
            && (forall j :: 0 <= j < m.size ==> CopiedAt(m.fl, r.fl, Source(m, l, j), Ppn(nb, j)))
            && (forall k :: 0 <= k < |m.fl| && k != nb && OwnedBy(m, l, k) ==> Fresh(r.fl[k]))
            && (forall k :: 0 <= k < |m.fl| && k != nb && !OwnedBy(m, l, k) ==> r.fl[k] == m.fl[k])
  {
    MergeCopy(m, l, r);
    hide Inv, Merge, CopyFrom, CopyReady, Copied, CopiedAt, Fresh, FlashOk, Source, Sources, Untouched, Recycled;
    var nb, src := NextBlock(m.pool), Sources(m, l);
    Recycle(m.fl, CopyFrom(m.fl, src, nb, 0), src, nb, m.logs[l].blk, m.dlist[l]);
    forall j | 0 <= j < m.size ensures CopiedAt(m.fl, r.fl, Source(m, l, j), Ppn(nb, j)) {
      assert CopiedAt(m.fl, r.fl, src[j], Ppn(nb, j));
    }
  }

  /** Erasing a block other than nb leaves the copies in nb alone. */
  lemma WipeKeepsCopies(fl: Cells, c: Cells, src: seq<Option<Ppn>>, nb: nat, k: nat)
    requires FlashOk(c, |src|) && nb < |c| && k < |c| && k != nb
    requires forall j {:trigger Ppn(nb, j)} :: 0 <= j < |src| ==> CopiedAt(fl, c, src[j], Ppn(nb, j))
    ensures var r := Wipe(c, k);
            && |r| == |c| && FlashOk(r, |src|) && Fresh(r[k]) && (forall x :: 0 <= x < |c| && x != k ==> r[x] == c[x])
            && forall j {:trigger Ppn(nb, j)} :: 0 <= j < |src| ==> CopiedAt(fl, r, src[j], Ppn(nb, j))
  {
    EraseKeepsSound(c[k], |src|);
    hide Sound, Fresh;
    forall j | 0 <= j < |src| ensures CopiedAt(fl, Wipe(c, k), src[j], Ppn(nb, j)) {
      assert CopiedAt(fl, c, src[j], Ppn(nb, j));
    }
  }

  /** Erasing the log and data blocks after the copy loop leaves the copies alone. */
  lemma Recycle(fl: Cells, c: Cells, src: seq<Option<Ppn>>, nb: nat, blk: nat, dk: Option<nat>)
    requires nb < |fl| && Copied(fl, c, src, nb, 0)
    requires blk < |fl| && blk != nb && (dk.Some? ==> dk.value < |fl| && dk.value != nb)
    ensures var r := Recycled(c, blk, dk);
            && |r| == |fl| && FlashOk(r, |src|)
            && (forall j {:trigger Ppn(nb, j)} :: 0 <= j < |src| ==> CopiedAt(fl, r, src[j], Ppn(nb, j)))
            && Fresh(r[blk]) && (dk.Some? ==> Fresh(r[dk.value]))
            && (forall k :: 0 <= k < |fl| && k != nb && k != blk && dk != Some(k) && Untouched(src, 0, k) ==>
                r[k] == fl[k])
  {
    hide FlashOk, CopiedAt, Kept, Untouched, Wipe, Fresh;
    WipeKeepsCopies(fl, c, src, nb, blk);
    if dk.Some? { WipeKeepsCopies(fl, Wipe(c, blk), src, nb, dk.value); }
  }

  lemma MergedPoolOk(p: Pool, blk: nat, dk: Option<nat>)
    requires ListsOk(p) && !Dry(p) && p.invalid == [] && !InPool(p, blk) && blk < p.total
    requires dk.Some? ==> !InPool(p, dk.value) && dk.value < p.total && dk.value != blk
    ensures var r := MergedPool(p, blk, dk);
            && ListsOk(r) && r.invalid == [] && Balance(r) == Balance(p) && r.total == p.total
            && r.logActive == p.logActive - 1 && r.dataActive == p.dataActive + (if dk.Some? then 0 else 1)
            && Reserve(r) >= Reserve(p)
            && forall k {:trigger InPool(r, k)} :: InPool(r, k) <==>
                 (InPool(p, k) && k != NextBlock(p)) || k == blk || dk == Some(k)
  {
    TakeEffect(p, DATA);
    TakeBalance(p, DATA);
    var p1 := TakeAs(p, DATA);
    ReleaseEffect(p1, blk, LOG);
    var p2 := Release(p1, blk, LOG);
    hide TakeAs;
    if dk.Some? {
      ReleaseEffect(p2, dk.value, DATA);
    }
  }

  lemma MergePool(m: Bast, l: nat, r: Bast)
    requires Inv(m) && l in m.logs && Merge(m, l) == Some(r)
    ensures !Dry(m.pool) && l < |m.dlist| && r.logs == m.logs - {l} && r.dlist == m.dlist[l := Some(NextBlock(m.pool))]
    ensures r.size == m.size && r.limit == m.limit && !InPool(r.pool, NextBlock(m.pool))
    ensures ListsOk(r.pool) && r.pool.invalid == [] && Balance(r.pool) == 0 && r.pool.total == m.pool.total
    ensures r.pool.logActive == m.pool.logActive - 1
    ensures r.pool.dataActive == m.pool.dataActive + if m.dlist[l].Some? then 0 else 1
    ensures Reserve(r.pool) >= Reserve(m.pool)
    ensures forall k {:trigger InPool(r.pool, k)} :: InPool(r.pool, k) <==>
              (InPool(m.pool, k) && k != NextBlock(m.pool)) || OwnedBy(m, l, k)
  {
    hide Inv, Merge, CopyFrom, CopyReady, Copied, Recycled, MergedPool, Sources, FlashOk, PoolFresh, Append, IsValid;
    MergeShape(m, l, r);
    EntryAt(m, l);
    CountsAt(m);
    hide ListsOk, InPool, Balance, Reserve, Dry;
    MergedPoolOk(m.pool, m.logs[l].blk, m.dlist[l]);
  }

  lemma MergeFresh(m: Bast, l: nat, r: Bast)
    requires Inv(m) && l in m.logs && Merge(m, l) == Some(r)
    ensures PoolFresh(r.pool, r.fl)
  {
    hide Inv, Merge, Reserve, InPool, OwnedBy, Fresh, FlashOk, ListsOk, CopiedAt;
    MergeCells(m, l, r);
    MergePool(m, l, r);
    EntryAt(m, l);
    forall k | 0 <= k < |r.fl| && InPool(r.pool, k) ensures Fresh(r.fl[k]) {
      assert !OwnedBy(m, l, k) ==> Fresh(m.fl[k]);
    }
  }

  lemma MergePages(m: Bast, l: nat, r: Bast)
    requires Inv(m) && l in m.logs && Merge(m, l) == Some(r)
    ensures PagesOk(r) && Local(m, r, l)
  {
    hide Inv, Merge, Reserve, InPool, PoolFresh, FlashOk, ListsOk, Fresh, Balance, Dry,
      CopiedAt, CopyFrom, CopyReady, Copied, Recycled, MergedPool;
    MergeShape(m, l, r);
    MergeCells(m, l, r);
    MergePool(m, l, r);
    MergeFresh(m, l, r);
    CountsAt(m);
  }

  lemma MergeEntry(m: Bast, l: nat, r: Bast)
    requires Inv(m) && l in m.logs && Merge(m, l) == Some(r)
    ensures EntryOk(r, l)
  {
    hide Inv, Merge, Reserve, InPool, ListsOk, FlashOk, Fresh, CopiedAt, Balance, IsValid;
    MergePool(m, l, r);
    MergeCells(m, l, r);
  }

  lemma MergeContent(m: Bast, l: nat, r: Bast, j: nat)
    requires Inv(m) && l in m.logs && Merge(m, l) == Some(r)
    ensures Content(r, l, j) == Content(m, l, j)
  {
    hide Inv, Merge, ListsOk, InPool, Reserve, Fresh, Balance;
    MergePool(m, l, r);
    MergeCells(m, l, r);
    if j < m.size {
      assert CopiedAt(m.fl, r.fl, Source(m, l, j), Ppn(NextBlock(m.pool), j));
    } else {
      PastEnd(m, l, j);
    }
  }

  /** Past the last page there is nothing. */
  lemma PastEnd(m: Bast, l: nat, j: nat)
    requires Inv(m) && j >= m.size
    ensures Content(m, l, j) == None
  {
    assert EntryOk(m, l);
  }

  /** What a full merge finds when it erases: both old blocks are still owned. */
  lemma MergeOwns(m: Bast, l: nat)
    requires Inv(m) && l in m.logs && !Dry(m.pool) && l < |m.dlist|
    ensures var p, b := TakeAs(m.pool, DATA), m.logs[l].blk;
            && Owned(p, b) && (m.dlist[l].Some? ==> Owned(Release(p, b, LOG), m.dlist[l].value))
  {
    assert EntryOk(m, l);
    TakeEffect(m.pool, DATA);
  }

  /** A full merge stores nothing new, and gives back at least the block it took. */
  lemma MergeOk(m: Bast, l: nat, r: Bast)
    requires Inv(m) && l in m.logs && Merge(m, l) == Some(r)
    ensures Steady(m, r) && Reserve(r.pool) >= Reserve(m.pool)
    ensures r.logs == m.logs - {l} && l < |m.dlist| && r.dlist == m.dlist[l := Some(NextBlock(m.pool))]
  {
    hide Inv, Merge, Local, EntryOk, PagesOk, Ownership, OwnedBy, Content, ListsOk, InPool, Reserve, Balance;
    MergePool(m, l, r);
    MergePages(m, l, r);
    MergeEntry(m, l, r);
    MapSizes(m.logs, l, m.logs[l]);
    MappedUpdate(m.dlist, l, Some(NextBlock(m.pool)));
    forall j: nat ensures Content(r, l, j) == Content(m, l, j) { MergeContent(m, l, r, j); }
    LocalOk(m, r, l);
    CountsAt(m);
    InvFrom(r);
    LocalShape(m, r, l);
  }

  lemma EvictOk(m: Bast, l: nat)
    requires Inv(m) && l in m.logs
    ensures !Dry(m.pool) ==> Evict(m, l).Some?
    ensures Evict(m, l).Some? ==> var r := Evict(m, l).value;
            && Steady(m, r) && Reserve(r.pool) >= Reserve(m.pool) && r.logs == m.logs - {l}
            && l < |m.dlist| && r.dlist[l].Some? && r.dlist == m.dlist[l := r.dlist[l]]
  {
    assert EntryOk(m, l);
    if IsSequential(m.logs[l]) {
      SwitchOk(m, l);
      assert Switch(m, l).dlist == m.dlist[l := Some(m.logs[l].blk)];
    } else if !Dry(m.pool) {
      hide Inv;
      MergeOk(m, l, Merge(m, l).value);
    }
  }

  // ---------------------------------------------------------------- host operations

  /** A log block for l, evicting the log block of v when the limit is reached. */
  function NewLog(m: Bast, l: nat, v: nat): Option<Bast>
    requires Inv(m) && (|m.logs| >= m.limit ==> v in m.logs)
  {
    match (if |m.logs| >= m.limit then Evict(m, v) else Some(m))
    case None => None
    case Some(e) => if Dry(e.pool) then None else Some(AddLog(e, l))
  }

  predicate HasRoom(m: Bast, l: nat) {
    l in m.logs && m.logs[l].blk < |m.fl| && m.fl[m.logs[l].blk].programmed < m.size
  }

  /** A log block of l with room for a page. */
  function Prepare(m: Bast, l: nat, v: nat): Option<Bast>
    requires Inv(m) && (|m.logs| >= m.limit && l !in m.logs ==> v in m.logs)
  {
    if l !in m.logs then NewLog(m, l, v)
    else if HasRoom(m, l) then Some(m)
    else
      EvictOk(m, l);
      MapSizes(m.logs, l, m.logs[l]);
      match Evict(m, l)
      case None => None
      case Some(e) => NewLog(e, l, v)
  }

  /** The page a log write invalidates: the data page if it is not EMPTY, else the page
      the log block had for the offset. */
  function Replaced(m: Bast, l: nat, j: nat): Option<Ppn> {
    match DataPage(m, l, j)
    case None => LogPage(m, l, j)
    case Some(p) => if InRange(m.fl, p) && StateAt(m.fl, p) != EMPTY then Some(p) else LogPage(m, l, j)
  }

  /** Appends d to the log block as the page for offset j. */
  function LogWrite(m: Bast, l: nat, j: nat, d: Payload): Bast
    requires Inv(m) && HasRoom(m, l) && j < m.size
  {
    LogWriteReady(m, l, j);
    var b := m.logs[l];
    var s := m.fl[b.blk].programmed;
    m.(fl := IssueWrite(m.fl, Ppn(b.blk, s), d, Replaced(m, l, j)),
       logs := m.logs[l := b.(pages := b.pages[j := Some(s)])])
  }

  lemma LogWriteReady(m: Bast, l: nat, j: nat)
    requires Inv(m) && HasRoom(m, l) && j < m.size
    ensures |m.logs[l].pages| == m.size
    ensures var p := Ppn(m.logs[l].blk, m.fl[m.logs[l].blk].programmed);
            && InRange(m.fl, p) && StateAt(m.fl, p) == EMPTY && Replaced(m, l, j) != Some(p)
    ensures Replaced(m, l, j).Some? ==> var q := Replaced(m, l, j).value;
            InRange(m.fl, q) && StateAt(m.fl, q) != EMPTY && OwnedBy(m, l, q.b)
  {
    hide Inv, Ownership, CountsOk;
    EntryAt(m, l);
    if LogPage(m, l, j).Some? { assert IsValid(m.fl, LogPage(m, l, j).value); }
  }

  function Write(m: Bast, l: nat, j: nat, d: Payload, v: nat): Option<Bast>
    requires Inv(m) && (|m.logs| >= m.limit && l !in m.logs ==> v in m.logs) && l < |m.dlist| && j < m.size
  {
    match Prepare(m, l, v)
    case None => None
    case Some(p) =>
      PrepareOk(m, l, v);
      Some(LogWrite(p, l, j, d))
  }

  /** The log half of a trim: the mapping goes, and a log block with no page left is erased. */
  function TrimLog(m: Bast, l: nat, j: nat): Bast
    requires Inv(m) && j < m.size
  {
    if LogPage(m, l, j).None? then m
    else
      assert EntryOk(m, l) && IsValid(m.fl, LogPage(m, l, j).value);
      var r := Unlog(m, l, j);
      if r.fl[m.logs[l].blk].state == INACTIVE then DropLog(r, l) else r
  }

  function Unlog(m: Bast, l: nat, j: nat): Bast
    requires LogPage(m, l, j).Some? && InRange(m.fl, LogPage(m, l, j).value)
  {
    var b := m.logs[l];
    m.(fl := Discard(m.fl, LogPage(m, l, j).value), logs := m.logs[l := b.(pages := b.pages[j := None])])
  }

  /** The data half: the page is invalidated whatever its state, and a data block with
      nothing but INVALID pages is erased. */
  function TrimData(m: Bast, l: nat, j: nat): Bast
    requires Inv(m) && j < m.size
  {
    if DataPage(m, l, j).None? then m
    else
      assert EntryOk(m, l);
      var r := m.(fl := Discard(m.fl, DataPage(m, l, j).value));
      if r.fl[m.dlist[l].value].state == INACTIVE then DropData(r, l) else r
  }

  function Trim(m: Bast, l: nat, j: nat): Bast
    requires Inv(m) && j < m.size
  {
    TrimLogOk(m, l, j);
    TrimData(TrimLog(m, l, j), l, j)
  }

  lemma AddLogRoom(m: Bast, l: nat)
    requires Inv(m) && !Dry(m.pool) && l !in m.logs && l < |m.dlist|
    ensures var r := AddLog(m, l); HasRoom(r, l) && r.logs.Keys == m.logs.Keys + {l} && r.dlist == m.dlist
    ensures var r := AddLog(m, l); l in r.logs && r.logs[l].blk == NextBlock(m.pool) && r.fl == m.fl
    ensures NextBlock(m.pool) < |m.fl| && m.fl[NextBlock(m.pool)].programmed == 0
  {
    AddLogEntry(m, l);
    hide Inv, Local, PagesOk;
  }

  lemma NewLogFrom(m: Bast, e: Bast, l: nat)
    requires Steady(m, e) && l !in e.logs && |e.logs| < e.limit && l < |m.dlist| && e.logs.Keys <= m.logs.Keys
    requires forall x :: 0 <= x < |m.dlist| && x < |e.dlist| && e.dlist[x].Some? ==> m.dlist[x].Some? || x in m.logs
    ensures Inv(e) && e.limit == m.limit && (Dry(e.pool) <==> Reserve(e.pool) == 0)
    ensures !Dry(e.pool) ==> var r := AddLog(e, l);
            && Steady(m, r) && HasRoom(r, l) && r.logs.Keys <= m.logs.Keys + {l}
            && (forall x :: 0 <= x < |m.dlist| && r.dlist[x].Some? ==> m.dlist[x].Some? || x in m.logs)
  {
    hide Inv, AddLog, Content, Steady, Reserve, Dry, HasRoom;
    SteadyIs(m, e);
    CountsAt(e);
    if !Dry(e.pool) {
      AddLogOk(e, l);
      AddLogRoom(e, l);
      SteadyTwice(m, e, AddLog(e, l));
      SteadyIs(m, AddLog(e, l));
    }
  }

  lemma NewLogOk(m: Bast, l: nat, v: nat)
    requires Inv(m) && (|m.logs| >= m.limit ==> v in m.logs) && l !in m.logs && l < |m.dlist|
    ensures Reserve(m.pool) >= 1 ==> NewLog(m, l, v).Some?
    ensures NewLog(m, l, v).Some? ==> var r := NewLog(m, l, v).value;
            && Steady(m, r) && HasRoom(r, l) && r.logs.Keys <= m.logs.Keys + {l}
            && (forall x :: 0 <= x < |m.dlist| && r.dlist[x].Some? ==> m.dlist[x].Some? || x in m.logs)
  {
    hide Inv, Evict, AddLog, Content, Steady, Reserve, Dry, HasRoom;
    CountsAt(m);
    if |m.logs| >= m.limit {
      EvictOk(m, v);
      MapSizes(m.logs, v, m.logs[v]);
      if Evict(m, v).Some? {
        SteadyIs(m, Evict(m, v).value);
        NewLogFrom(m, Evict(m, v).value, l);
      }
    } else {
      SteadyIs(m, m);
      NewLogFrom(m, m, l);
    }
  }

  lemma PrepareOk(m: Bast, l: nat, v: nat)
    requires Inv(m) && (|m.logs| >= m.limit && l !in m.logs ==> v in m.logs) && l < |m.dlist|
    ensures Reserve(m.pool) >= 1 ==> Prepare(m, l, v).Some?
    ensures Prepare(m, l, v).Some? ==> var r := Prepare(m, l, v).value;
            && Steady(m, r) && HasRoom(r, l) && r.logs.Keys <= m.logs.Keys + {l}
            && (forall x :: 0 <= x < |m.dlist| && r.dlist[x].Some? ==> m.dlist[x].Some? || x in m.logs)
  {
    hide Inv, Evict, NewLog, Content, Steady, Reserve, Dry, HasRoom;
    CountsAt(m);
    if l !in m.logs {
      NewLogOk(m, l, v);
    } else if HasRoom(m, l) {
      SteadyIs(m, m);
    } else {
      EvictOk(m, l);
      CountsAt(m);
      MapSizes(m.logs, l, m.logs[l]);
      if Evict(m, l).Some? {
        var e := Evict(m, l).value;
        SteadyIs(m, e);
        NewLogOk(e, l, v);
        if NewLog(e, l, v).Some? { SteadyTwice(m, e, NewLog(e, l, v).value); }
      }
    }
  }

  /** The device after a log write: page p is programmed, the replaced page is INVALID, other
      pages keep their state and data, and other blocks are untouched. */
  lemma LogWriteCells(m: Bast, l: nat, j: nat, d: Payload)
    requires Inv(m) && HasRoom(m, l) && j < m.size
    ensures var fl, repl := LogWrite(m, l, j, d).fl, Replaced(m, l, j);
            var p := Ppn(m.logs[l].blk, m.fl[m.logs[l].blk].programmed);
            && FlashOk(fl, m.size) && |fl| == |m.fl| && Append(fl[p.b])
            && InRange(m.fl, p) && StateAt(m.fl, p) == EMPTY && IsValid(fl, p) && DataAt(fl, p) == d
            && (forall q {:trigger InRange(fl, q)} :: InRange(fl, q) <==> InRange(m.fl, q))
            && (forall q {:trigger DataAt(fl, q)} :: InRange(m.fl, q) && q != p ==> DataAt(fl, q) == DataAt(m.fl, q))
            && (forall q {:trigger StateAt(fl, q)} :: InRange(m.fl, q) && q != p ==>
                  StateAt(fl, q) == if repl == Some(q) then INVALID else StateAt(m.fl, q))
            && (forall k :: 0 <= k < |fl| && !OwnedBy(m, l, k) ==> fl[k] == m.fl[k])
  {
    hide Inv, Ownership, CountsOk;
    EntryAt(m, l);
    LogWriteReady(m, l, j);
    assert Append(m.fl[m.logs[l].blk]);
    hide EntryOk, PoolFresh, ListsOk, Replaced, Append, FlashOk;
    var p, repl := Ppn(m.logs[l].blk, m.fl[m.logs[l].blk].programmed), Replaced(m, l, j);
    IssueWriteEffect(m.fl, m.size, p, d, repl);
    IssueWriteAppends(m.fl, m.size, p, d, repl, p.b);
  }

  /** The pages of a log write: p is programmed, and VALID pages other than the replaced
      one keep their state and data. */
  lemma LogWritePages(m: Bast, l: nat, j: nat, d: Payload)
    requires Inv(m) && HasRoom(m, l) && j < m.size
    ensures var r, p := LogWrite(m, l, j, d), Ppn(m.logs[l].blk, m.fl[m.logs[l].blk].programmed);
            && PagesOk(r) && Local(m, r, l) && Append(r.fl[p.b])
            && IsValid(r.fl, p) && DataAt(r.fl, p) == d && LogPage(r, l, j) == Some(p) && !IsValid(m.fl, p)
            && (forall q {:trigger IsValid(m.fl, q)} :: IsValid(m.fl, q) && Replaced(m, l, j) != Some(q) ==>
                IsValid(r.fl, q))
  {
    hide Inv, Ownership, CountsOk, IssueWrite, Append, FlashOk, ListsOk, Replaced, Fresh, StateAt, DataAt, InRange,
         InPool;
    EntryAt(m, l);
    LogWriteReady(m, l, j);
    LogWriteCells(m, l, j, d);
    var p, r := Ppn(m.logs[l].blk, m.fl[m.logs[l].blk].programmed), LogWrite(m, l, j, d);
    assert PoolFresh(r.pool, r.fl) by {
      forall k | 0 <= k < |r.fl| && InPool(r.pool, k) ensures Fresh(r.fl[k]) {
        assert !OwnedBy(m, l, k);
      }
    }
    forall q | IsValid(m.fl, q) && Replaced(m, l, j) != Some(q) ensures IsValid(r.fl, q) {
      assert q != p && InRange(r.fl, q) && StateAt(r.fl, q) == StateAt(m.fl, q);
    }
  }

  lemma LogWriteEntry(m: Bast, l: nat, j: nat, d: Payload)
    requires Inv(m) && HasRoom(m, l) && j < m.size
    ensures EntryOk(LogWrite(m, l, j, d), l)
  {
    hide Inv, Ownership, CountsOk, IssueWrite, Append, FlashOk, PoolFresh, ListsOk, Local, StateAt, DataAt, InRange,
         InPool;
    EntryAt(m, l);
    LogWritePages(m, l, j, d);
    LogWriteReady(m, l, j);
    var p, r := Ppn(m.logs[l].blk, m.fl[m.logs[l].blk].programmed), LogWrite(m, l, j, d);
    LocalShape(m, r, l);
    forall i | 0 <= i < m.size && r.logs[l].pages[i].Some? ensures IsValid(r.fl, Ppn(p.b, r.logs[l].pages[i].value)) {
      if i != j {
        assert IsValid(m.fl, Ppn(p.b, m.logs[l].pages[i].value));
        OtherSource(m, l, j, d, i);
      }
    }
    forall i | 0 <= i < m.size && i != j && m.logs[l].pages[i].Some? ensures m.logs[l].pages[i] != Some(p.i) {
      assert IsValid(m.fl, Ppn(p.b, m.logs[l].pages[i].value));
    }
  }

  /** Another offset keeps its source page, which is neither programmed nor replaced. */
  lemma OtherSource(m: Bast, l: nat, j: nat, d: Payload, i: nat)
    requires Inv(m) && HasRoom(m, l) && j < m.size && i != j
    ensures Source(LogWrite(m, l, j, d), l, i) == Source(m, l, i)
    ensures Source(m, l, i) != Some(Ppn(m.logs[l].blk, m.fl[m.logs[l].blk].programmed))
            || !InRange(m.fl, Source(m, l, i).value)
    ensures Source(m, l, i).Some? ==> Replaced(m, l, j) != Source(m, l, i)
  {
    LogWriteReady(m, l, j);
    assert EntryOk(m, l);
    hide IssueWrite, FlashOk, Ownership, CountsOk, ListsOk, PoolFresh;
    var r := LogWrite(m, l, j, d);
    assert LogPage(r, l, i) == LogPage(m, l, i) && DataPage(r, l, i) == DataPage(m, l, i);
    if LogPage(m, l, i).Some? {
      assert IsValid(m.fl, LogPage(m, l, i).value);
      if LogPage(m, l, j).Some? { assert m.logs[l].pages[i] != m.logs[l].pages[j]; }
    }
  }

  lemma LogWriteElsewhere(m: Bast, l: nat, j: nat, d: Payload, i: nat)
    requires Inv(m) && HasRoom(m, l) && j < m.size && i != j
    ensures Content(LogWrite(m, l, j, d), l, i) == Content(m, l, i)
  {
    hide Inv, IssueWrite, FlashOk, Source, Replaced, LogWrite, Append, OwnedBy;
    OtherSource(m, l, j, d, i);
    LogWriteCells(m, l, j, d);
    if Source(m, l, i).Some? {
      var q := Source(m, l, i).value;
      assert InRange(LogWrite(m, l, j, d).fl, q) <==> InRange(m.fl, q);
    }
  }

  lemma LogWriteOk(m: Bast, l: nat, j: nat, d: Payload)
    requires Inv(m) && HasRoom(m, l) && j < m.size
    ensures var r := LogWrite(m, l, j, d);
            && Inv(r) && SameShape(m, r) && r.dlist == m.dlist && r.pool == m.pool
            && r.logs.Keys == m.logs.Keys
            && Changed(m, r, l, j, Some(d))
  {
    LogWritePages(m, l, j, d);
    LogWriteEntry(m, l, j, d);
    var r := LogWrite(m, l, j, d);
    MapSizes(m.logs, l, r.logs[l]);
    assert r.logs.Keys == m.logs.Keys;
    assert Content(r, l, j) == Some(d);
    hide Local, EntryOk, PagesOk, Ownership, OwnedBy, Content;
    forall i: nat | i != j ensures Content(r, l, i) == Content(m, l, i) { LogWriteElsewhere(m, l, j, d, i); }
    LocalOk(m, r, l);
  }

  /** In a log block the constant-time allocation offers the page a scan would find. */
  lemma LogSlotIsScan(m: Bast, l: nat)
    requires Inv(m) && l in m.logs
    ensures m.logs[l].blk < |m.fl| && FreePage(m.fl[m.logs[l].blk]) == FirstEmpty(m.fl[m.logs[l].blk], 0)
  {
    assert EntryOk(m, l);
    FreePageIsScan(m.fl[m.logs[l].blk], 0);
  }

  /** A write leaves no VALID page for the offset in the data block. */
  lemma LogWriteSupersedes(m: Bast, l: nat, j: nat, d: Payload)
    requires Inv(m) && HasRoom(m, l) && j < m.size
    ensures var r := LogWrite(m, l, j, d);
            DataPage(r, l, j).Some? ==> !IsValid(r.fl, DataPage(r, l, j).value)
  {
    hide Inv, IssueWrite, Append, Ownership, CountsOk;
    EntryAt(m, l);
    LogWriteReady(m, l, j);
    LogWriteCells(m, l, j, d);
    if DataPage(m, l, j).Some? {
      assert StateAt(LogWrite(m, l, j, d).fl, DataPage(m, l, j).value) != VALID;
    }
  }

  /** Invalidating a page of l's own blocks that no log entry maps. */
  lemma DiscardPages(m: Bast, l: nat, q: Ppn)
    requires Inv(m) && InRange(m.fl, q) && OwnedBy(m, l, q.b)
    ensures var fl := Discard(m.fl, q);
            && FlashOk(fl, m.size) && |fl| == |m.fl| && PoolFresh(m.pool, fl)
            && (forall k :: 0 <= k < |fl| && k != q.b ==> fl[k] == m.fl[k])
            && (forall p {:trigger IsValid(fl, p)} :: IsValid(fl, p) <==> IsValid(m.fl, p) && p != q)
            && (forall p {:trigger InRange(fl, p)} :: InRange(fl, p) <==> InRange(m.fl, p))
            && (forall p {:trigger DataAt(fl, p)} :: InRange(m.fl, p) ==> DataAt(fl, p) == DataAt(m.fl, p))
            && (StateAt(m.fl, q) != EMPTY && Append(m.fl[q.b]) ==> Append(fl[q.b]))
            && (fl[q.b].state == INACTIVE <==> AllPages(fl[q.b], INVALID))
  {
    DiscardEffect(m.fl, m.size, q);
    assert EntryOk(m, l);
    var fl := Discard(m.fl, q);
    forall k | 0 <= k < |fl| && InPool(m.pool, k) ensures Fresh(fl[k]) {
      assert Fresh(m.fl[k]) && k != q.b;
    }
    forall p {:trigger IsValid(fl, p)} ensures IsValid(fl, p) <==> IsValid(m.fl, p) && p != q {
      assert InRange(fl, p) <==> InRange(m.fl, p);
    }
  }

  lemma UnlogEntry(m: Bast, l: nat, j: nat)
    requires Inv(m) && j < m.size && LogPage(m, l, j).Some?
    ensures IsValid(m.fl, LogPage(m, l, j).value) && m.logs[l].blk < |m.fl|
    ensures var r := Unlog(m, l, j);
            && PagesOk(r) && EntryOk(r, l) && Local(m, r, l)
            && (r.fl[m.logs[l].blk].state == INACTIVE ==> forall i :: 0 <= i < m.size ==> LogPage(r, l, i) == None)
  {
    hide Inv, Ownership, CountsOk;
    EntryAt(m, l);
    var q := LogPage(m, l, j).value;
    assert IsValid(m.fl, q);
    DiscardPages(m, l, q);
    var r := Unlog(m, l, j);
    hide Discard, Ownership, CountsOk, ListsOk;
    forall i | 0 <= i < m.size && r.logs[l].pages[i].Some? ensures IsValid(r.fl, Ppn(q.b, r.logs[l].pages[i].value)) {
      assert IsValid(m.fl, Ppn(q.b, m.logs[l].pages[i].value)) && m.logs[l].pages[i] != m.logs[l].pages[j];
    }
    if r.fl[q.b].state == INACTIVE {
      forall x: nat ensures !IsValid(r.fl, Ppn(q.b, x)) {}
    }
  }

  lemma UnlogContent(m: Bast, l: nat, j: nat, i: nat)
    requires Inv(m) && j < m.size && LogPage(m, l, j).Some? && i != j
    ensures InRange(m.fl, LogPage(m, l, j).value) && Content(Unlog(m, l, j), l, i) == Content(m, l, i)
  {
    hide Inv, Ownership, CountsOk;
    EntryAt(m, l);
    var q := LogPage(m, l, j).value;
    assert IsValid(m.fl, q);
    DiscardPages(m, l, q);
    var r := Unlog(m, l, j);
    hide Discard, Ownership, CountsOk, ListsOk, FlashOk, PoolFresh;
    assert LogPage(r, l, i) == LogPage(m, l, i) && DataPage(r, l, i) == DataPage(m, l, i);
    assert Source(m, l, i) != Some(q) by {
      if LogPage(m, l, i).Some? { assert m.logs[l].pages[i] != m.logs[l].pages[j]; }
    }
  }

  lemma UnlogOk(m: Bast, l: nat, j: nat)
    requires Inv(m) && j < m.size && LogPage(m, l, j).Some?
    ensures IsValid(m.fl, LogPage(m, l, j).value) && m.logs[l].blk < |m.fl|
    ensures var r := Unlog(m, l, j);
            && Inv(r) && SameShape(m, r) && r.dlist == m.dlist && r.pool == m.pool
            && LogPage(r, l, j) == None && r.logs.Keys == m.logs.Keys
            && (r.fl[m.logs[l].blk].state == INACTIVE ==> forall i :: 0 <= i < m.size ==> LogPage(r, l, i) == None)
            && SameElse(m, r, l, j)
  {
    UnlogEntry(m, l, j);
    var r := Unlog(m, l, j);
    MapSizes(m.logs, l, r.logs[l]);
    assert r.logs.Keys == m.logs.Keys;
    hide Local, EntryOk, PagesOk, Ownership, OwnedBy, Content;
    forall i: nat | i != j ensures Content(r, l, i) == Content(m, l, i) { UnlogContent(m, l, j, i); }
    LocalOk(m, r, l);
  }

  /** The log half of a trim touches no other page, even when it erases the log block. */
  lemma TrimLogOk(m: Bast, l: nat, j: nat)
    requires Inv(m) && j < m.size
    ensures LogPage(m, l, j).Some? ==> IsValid(m.fl, LogPage(m, l, j).value) && m.logs[l].blk < |m.fl|
    ensures var r := TrimLog(m, l, j);
            && Inv(r) && SameShape(m, r) && r.dlist == m.dlist
            && LogPage(r, l, j) == None && r.logs.Keys <= m.logs.Keys
            && SameElse(m, r, l, j)
  {
    if LogPage(m, l, j).Some? {
      UnlogOk(m, l, j);
      var r := Unlog(m, l, j);
      if r.fl[m.logs[l].blk].state == INACTIVE {
        DropLogOk(r, l);
      }
    }
  }

  /** The log half of a trim, in terms of its two steps. */
  lemma TrimLogUnfolds(m: Bast, l: nat, j: nat)
    requires Inv(m) && j < m.size
    ensures (l in m.logs ==> |m.logs[l].pages| == m.size) && (LogPage(m, l, j).None? ==> TrimLog(m, l, j) == m)
    ensures LogPage(m, l, j).Some? ==>
              InRange(m.fl, LogPage(m, l, j).value) && var r, k := Unlog(m, l, j), m.logs[l].blk;
              && k < |r.fl| && Owned(m.pool, k)
              && TrimLog(m, l, j) == if r.fl[k].state == INACTIVE then DropLog(r, l) else r
  {
    assert EntryOk(m, l);
    assert LogPage(m, l, j).Some? ==> IsValid(m.fl, LogPage(m, l, j).value);
  }

  /** The data half of a trim, in terms of its two steps. */
  lemma TrimDataUnfolds(m: Bast, l: nat, j: nat)
    requires Inv(m) && j < m.size
    ensures DataPage(m, l, j).None? ==> TrimData(m, l, j) == m
    ensures DataPage(m, l, j).Some? ==>
              && InRange(m.fl, DataPage(m, l, j).value)
              && var r, k := m.(fl := Discard(m.fl, DataPage(m, l, j).value)), m.dlist[l].value;
              && k < |r.fl| && Owned(m.pool, k)
              && TrimData(m, l, j) == if r.fl[k].state == INACTIVE then DropData(r, l) else r
  {
    hide Inv, Ownership, CountsOk;
    EntryAt(m, l);
  }

  lemma UndataOk(m: Bast, l: nat, j: nat)
    requires Inv(m) && j < m.size && DataPage(m, l, j).Some? && LogPage(m, l, j).None?
    ensures InRange(m.fl, DataPage(m, l, j).value) && l < |m.dlist| && m.dlist[l].value < |m.fl|
    ensures var r := m.(fl := Discard(m.fl, DataPage(m, l, j).value));
            && Inv(r) && Content(r, l, j) == None
            && (r.fl[m.dlist[l].value].state == INACTIVE ==> AllPages(r.fl[m.dlist[l].value], INVALID))
            && SameElse(m, r, l, j)
  {
    hide Inv, Ownership, CountsOk, Discard, ListsOk, PoolFresh, Append;
    EntryAt(m, l);
    var q := DataPage(m, l, j).value;
    DiscardPages(m, l, q);
    var r := m.(fl := Discard(m.fl, q));
    assert EntryOk(r, l) && Local(m, r, l) by {
      if l in m.logs {
        forall i | 0 <= i < m.size && r.logs[l].pages[i].Some?
          ensures IsValid(r.fl, Ppn(m.logs[l].blk, r.logs[l].pages[i].value))
        {
          assert IsValid(m.fl, Ppn(m.logs[l].blk, m.logs[l].pages[i].value));
        }
      }
    }
    LocalOk(m, r, l);
    CountsAt(m);
    assert Inv(r) by { InvFrom(r); }
    hide Local, EntryOk, PagesOk;
    forall i: nat | i != j ensures Content(r, l, i) == Content(m, l, i) {
      assert LogPage(r, l, i) == LogPage(m, l, i) && DataPage(r, l, i) == DataPage(m, l, i);
      assert Source(m, l, i) != Some(q);
    }
  }

  lemma TrimDataOk(m: Bast, l: nat, j: nat)
    requires Inv(m) && j < m.size && LogPage(m, l, j).None?
    ensures var r := TrimData(m, l, j);
            && Inv(r) && SameShape(m, r) && r.logs == m.logs
            && (forall x :: 0 <= x < |m.dlist| && r.dlist[x].Some? ==> m.dlist[x].Some?)
            && Changed(m, r, l, j, None)
  {
    if DataPage(m, l, j).Some? {
      UndataOk(m, l, j);
      var r := m.(fl := Discard(m.fl, DataPage(m, l, j).value));
      if r.fl[m.dlist[l].value].state == INACTIVE {
        DropDataOk(r, l);
      }
    }
  }

  // ---------------------------------------------------------------- refinement

  /** A write that completes stores d at (l, j) and nothing else, whatever it had to
      evict or merge; it completes whenever a block is left. */
  lemma WriteRefines(m: Bast, l: nat, j: nat, d: Payload, v: nat)
    requires Inv(m) && (|m.logs| >= m.limit && l !in m.logs ==> v in m.logs) && l < |m.dlist| && j < m.size
    ensures Reserve(m.pool) >= 1 ==> Write(m, l, j, d, v).Some?
    ensures Write(m, l, j, d, v).Some? ==> var r := Write(m, l, j, d, v).value;
            && Inv(r) && SameShape(m, r)
            && r.logs.Keys <= m.logs.Keys + {l}
            && (forall x :: 0 <= x < |m.dlist| && r.dlist[x].Some? ==> m.dlist[x].Some? || x in m.logs)
            && Changed(m, r, l, j, Some(d))
  {
    PrepareOk(m, l, v);
    if Prepare(m, l, v).Some? {
      hide Prepare, LogWrite, Content;
      LogWriteOk(Prepare(m, l, v).value, l, j, d);
    }
  }

  /** The log block of l holds offset j at page j, for every j. */
  predicate InPlace(m: Bast, l: nat) {
    l in m.logs && |m.logs[l].pages| == m.size && forall j :: 0 <= j < m.size ==> m.logs[l].pages[j] == Some(j)
  }

  /** Evicting l's log block gives back a block: it is in order, and l has a data block. */
  predicate Frees(m: Bast, l: nat) {
    InPlace(m, l) && l < |m.dlist| && m.dlist[l].Some?
  }

  /** A log block in order is switched, whatever the pool holds: it becomes the data block as it
      is, and a data block there was is erased and freed. */
  lemma EvictInOrder(m: Bast, l: nat)
    requires Inv(m) && l in m.logs && |m.logs[l].pages| == m.size
    requires forall j :: 0 <= j < m.size ==> m.logs[l].pages[j] == Some(j)
    ensures Evict(m, l).Some? && l < |m.dlist| && m.logs[l].blk < |m.fl|
    ensures var r := Evict(m, l).value;
            && r.dlist == m.dlist[l := Some(m.logs[l].blk)] && r.logs == m.logs - {l} && |r.fl| == |m.fl|
            && r.pool.free == m.pool.free + Listed(m.dlist[l])
            && forall k :: 0 <= k < |m.fl| ==>
                 if m.dlist[l] == Some(k) then AllPages(r.fl[k], EMPTY) else r.fl[k] == m.fl[k]
    ensures m.dlist[l] != Some(m.logs[l].blk)
  {
    EvictOk(m, l);
    assert EntryOk(m, l);
    if m.dlist[l].Some? { EraseKeepsSound(m.fl[m.dlist[l].value], m.size); }
    hide Inv, Merge, EntryOk, AllPages;
  }

  function Listed(k: Option<nat>): seq<nat> { if k.Some? then [k.value] else [] }

  /** Any other log block is merged into a new block, which becomes the data block, while the two
      old blocks are erased and freed; without a block left it cannot be evicted. */
  lemma EvictOutOfOrder(m: Bast, l: nat, j: nat)
    requires Inv(m) && l in m.logs && j < m.size && |m.logs[l].pages| == m.size && m.logs[l].pages[j] != Some(j)
    ensures Evict(m, l).None? <==> Dry(m.pool)
    ensures Evict(m, l).Some? ==> var r, nb := Evict(m, l).value, NextBlock(m.pool);
            && l < |m.dlist| && r.dlist == m.dlist[l := Some(nb)] && r.logs == m.logs - {l} && |r.fl| == |m.fl|
            && InPool(m.pool, nb) && r.pool.free ==
                 (if m.pool.virgin < m.pool.total then m.pool.free else m.pool.free[1..])
                 + [m.logs[l].blk] + Listed(m.dlist[l])
            && forall k :: 0 <= k < |m.fl| && k != nb ==>
                 if OwnedBy(m, l, k) then AllPages(r.fl[k], EMPTY) else r.fl[k] == m.fl[k]
  {
    EvictOk(m, l);
    hide Inv, Merge, CopiedAt, FlashOk, IsValid, Source, Steady, Reserve, CopyReady, Copied, Sources, CopyFrom;
    hide Recycled, MergedPool, InPool, ListsOk, Dry;
    CountsAt(m);
    if Evict(m, l).Some? {
      var r := Evict(m, l).value;
      MergeOk(m, l, r);
      MergeCells(m, l, r);
      MergeShape(m, l, r);
      MergedFree(m.pool, m.logs[l].blk, m.dlist[l]);
    }
  }

  lemma MergedFree(p: Pool, blk: nat, dk: Option<nat>)
    requires !Dry(p)
    ensures MergedPool(p, blk, dk).free == (if p.virgin < p.total then p.free else p.free[1..]) + [blk] + Listed(dk)
  {
  }

  lemma EvictExact(m: Bast, l: nat)
    requires Inv(m) && l in m.logs
    ensures Evict(m, l).None? <==> Dry(m.pool) && !InPlace(m, l)
    ensures Evict(m, l).Some? ==> var r := Evict(m, l).value;
            Inv(r) && r.limit == m.limit && |r.logs| == |m.logs| - 1 && l !in r.logs
            && (Dry(r.pool) <==> Dry(m.pool) && !Frees(m, l))
  {
    EvictOk(m, l);
    assert EntryOk(m, l);
    MapSizes(m.logs, l, m.logs[l]);
    if Evict(m, l).Some? { CountsAt(m); CountsAt(Evict(m, l).value); }
    hide Inv, Merge;
  }

  /** A write finds no block exactly when the pool is empty, the log block has no room, and
      the eviction it makes, if any, gives back no block. */
  lemma WriteFailsExactly(m: Bast, l: nat, j: nat, d: Payload, v: nat)
    requires Inv(m) && (|m.logs| >= m.limit && l !in m.logs ==> v in m.logs) && l < |m.dlist| && j < m.size
    ensures Write(m, l, j, d, v).None? <==>
            Dry(m.pool) && !HasRoom(m, l) && !(if l in m.logs then Frees(m, l) else |m.logs| >= m.limit && Frees(m, v))
  {
    if l in m.logs {
      EvictExact(m, l);
    } else if |m.logs| >= m.limit {
      EvictExact(m, v);
    }
    assert |m.logs| <= m.limit;
    hide Inv, Evict, Frees, AddLog, LogWrite;
  }

  lemma TrimRefines(m: Bast, l: nat, j: nat)
    requires Inv(m) && j < m.size
    ensures var r := Trim(m, l, j);
            && Inv(r) && SameShape(m, r)
            && r.logs.Keys <= m.logs.Keys
            && (forall x :: 0 <= x < |m.dlist| && r.dlist[x].Some? ==> m.dlist[x].Some?)
            && Changed(m, r, l, j, None)
  {
    TrimLogOk(m, l, j);
    TrimDataOk(TrimLog(m, l, j), l, j);
  }

  /** The pages a read or a trim at offset j looks at exist. */
  lemma SourcesInRange(m: Bast, l: nat, j: nat)
    requires Inv(m) && j < m.size
    ensures l in m.logs ==> |m.logs[l].pages| == m.size && Owned(m.pool, m.logs[l].blk) && m.logs[l].blk < |m.fl|
    ensures LogPage(m, l, j).Some? ==> IsValid(m.fl, LogPage(m, l, j).value)
    ensures DataPage(m, l, j).Some? ==> InRange(m.fl, DataPage(m, l, j).value) && Owned(m.pool, m.dlist[l].value)
    ensures |m.fl| > 0 ==> InRange(m.fl, Ppn(0, 0))
  {
    assert EntryOk(m, l);
    if LogPage(m, l, j).Some? { assert IsValid(m.fl, LogPage(m, l, j).value); }
  }

  /** A read of live data goes to the VALID page that holds it. A read of anything else goes
      to the EMPTY page at its place in the data block, if there is one, and else to page 0. */
  lemma ReadResolves(m: Bast, l: nat, j: nat)
    requires Inv(m) && j < m.size
    ensures Content(m, l, j).Some? ==>
              IsValid(m.fl, ReadAddress(m, l, j)) && DataAt(m.fl, ReadAddress(m, l, j)) == Content(m, l, j).value
    ensures Content(m, l, j).None? ==>
              ReadAddress(m, l, j) == if Strands(m, l, j) then Ppn(0, 0) else Source(m, l, j).value
    ensures Content(m, l, j).None? && !Strands(m, l, j) ==>
              InRange(m.fl, ReadAddress(m, l, j)) && StateAt(m.fl, ReadAddress(m, l, j)) == EMPTY
  {
    assert EntryOk(m, l);
    if LogPage(m, l, j).Some? { assert IsValid(m.fl, LogPage(m, l, j).value); }
  }

  /** Offset j of l has no page, or an INVALID one. */
  predicate Strands(m: Bast, l: nat, j: nat) {
    match Source(m, l, j)
    case None => true
    case Some(p) => InRange(m.fl, p) && StateAt(m.fl, p) == INVALID
  }

  /** p holds the live data of logical page (x, i). */
  predicate LiveAt(m: Bast, x: nat, i: nat, p: Ppn) {
    Source(m, x, i) == Some(p) && IsValid(m.fl, p)
  }

  /** p holds the live data of some logical page. */
  ghost predicate Shows(m: Bast, p: Ppn) {
    exists x: nat, i: nat :: LiveAt(m, x, i, p)
  }

  /** A read of an absent page returns the live data of some logical page, which is then another
      one, exactly when the offset has no page or an INVALID one and page 0 is live. */
  lemma AbsentRead(m: Bast, l: nat, j: nat)
    requires Inv(m) && j < m.size && Content(m, l, j).None?
    ensures Shows(m, ReadAddress(m, l, j)) <==> Strands(m, l, j) && Shows(m, Ppn(0, 0))
    ensures forall x: nat, i: nat :: LiveAt(m, x, i, ReadAddress(m, l, j)) ==> (x, i) != (l, j)
  {
    ReadResolves(m, l, j);
  }

  /** It happens: with one write to (0, 0) in a new drive of three one-page blocks, a read of
      logical block 1, never written, returns what was written. */
  lemma ReadsAnother(d: Payload)
    ensures Inv(NewBast(1, 1, 3)) && Run(NewBast(1, 1, 3), [HostWrite(0, 0, d, 0)]).Done?
    ensures var m := Run(NewBast(1, 1, 3), [HostWrite(0, 0, d, 0)]).m;
            && Content(m, 1, 0) == None && ReadAddress(m, 1, 0) == Ppn(0, 0)
            && LiveAt(m, 0, 0, Ppn(0, 0)) && DataAt(m.fl, Ppn(0, 0)) == d
  {
    var m := NewBast(1, 1, 3);
    NewBastOk(1, 1, 3);
    ReadsWritten(m, 0, 1, 0, d);
  }

  /** In a state without log or data blocks whose next block is 0, one write to l is what a read
      of any other logical block returns. */
  lemma ReadsWritten(m: Bast, l: nat, x: nat, j: nat, d: Payload)
    requires Inv(m) && m.logs == map[] && !Dry(m.pool) && NextBlock(m.pool) == 0
    requires l < |m.dlist| && x != l && j < m.size && forall k :: 0 <= k < |m.dlist| ==> m.dlist[k].None?
    ensures Run(m, [HostWrite(l, j, d, 0)]).Done?
    ensures var r := Run(m, [HostWrite(l, j, d, 0)]).m;
            && Content(r, x, j) == None && ReadAddress(r, x, j) == Ppn(0, 0)
            && LiveAt(r, l, j, Ppn(0, 0)) && DataAt(r.fl, Ppn(0, 0)) == d
  {
    hide Inv, Write, FlashOk, AddLog, InRange, DataAt, Changed, IsValid, Dry, NextBlock;
    CountsAt(m);
    var r := FirstWrite(m, l, j, d, 0);
    WriteRefines(m, l, j, d, 0);
    assert Legal(m, HostWrite(l, j, d, 0));
    assert [HostWrite(l, j, d, 0)][1..] == [];
    assert Source(r, x, j) == None;
  }

  /** A write below the log limit to a logical block without a log block goes to page 0 of the
      next block of the pool. */
  lemma FirstWrite(m: Bast, l: nat, j: nat, d: Payload, v: nat) returns (r: Bast)
    requires Inv(m) && l !in m.logs && |m.logs| < m.limit && !Dry(m.pool) && l < |m.dlist| && j < m.size
    ensures Write(m, l, j, d, v) == Some(r)
    ensures var p := Ppn(NextBlock(m.pool), 0); LogPage(r, l, j) == Some(p) && IsValid(r.fl, p) && DataAt(r.fl, p) == d
  {
    hide Inv, LogWrite, AddLog, Steady, PagesOk, Local, Append, HasRoom, InRange, DataAt;
    AddLogOk(m, l);
    AddLogRoom(m, l);
    var p := AddLog(m, l);
    SteadyIs(m, p);
    LogWritePages(p, l, j, d);
    assert Prepare(m, l, v) == Some(p);
    r := LogWrite(p, l, j, d);
  }

  datatype BastOp = HostWrite(l: nat, j: nat, d: Payload, v: nat) | HostTrim(lt: nat, jt: nat)

  /** A write names a logical block the map has and, if a log block must go, one that exists. */
  predicate Legal(m: Bast, op: BastOp) {
    match op
    case HostWrite(l, j, _, v) => l < |m.dlist| && j < m.size && (|m.logs| >= m.limit && l !in m.logs ==> v in m.logs)
    case HostTrim(l, j) => j < m.size
  }

  datatype Outcome = Done(m: Bast) | OutOfBlocks | NotLegal

  function Run(m: Bast, ops: seq<BastOp>): Outcome
    requires Inv(m)
    decreases |ops|
  {
    if ops == [] then Done(m)
    else if !Legal(m, ops[0]) then NotLegal
    else match ops[0]
      case HostWrite(l, j, d, v) =>
        WriteRefines(m, l, j, d, v);
        (match Write(m, l, j, d, v) case None => OutOfBlocks case Some(r) => Run(r, ops[1..]))
      case HostTrim(l, j) =>
        TrimRefines(m, l, j);
        Run(Trim(m, l, j), ops[1..])
  }

  type Store = map<(nat, nat), Payload>

  function PlainRun(c: Store, ops: seq<BastOp>): Store
    decreases |ops|
  {
    if ops == [] then c
    else match ops[0]
      case HostWrite(l, j, d, _) => PlainRun(c[(l, j) := d], ops[1..])
      case HostTrim(l, j) => PlainRun(c - {(l, j)}, ops[1..])
  }

  ghost predicate Refines(m: Bast, c: Store) {
    forall l: nat, j: nat {:trigger Content(m, l, j)} ::
      Content(m, l, j) == if (l, j) in c then Some(c[(l, j)]) else None
  }

  /** A new drive satisfies the invariant and holds nothing. */
  lemma NewBastOk(size: nat, limit: nat, n: nat)
    requires size > 0 && limit > 0
    ensures var m := NewBast(size, limit, n); Inv(m) && Refines(m, map[])
  {
    FreshBlockIsSound(size);
    MappedNone(NewBast(size, limit, n).dlist);
  }

  /** After every run of writes and trims, through appends, switch and full merges, evictions
      of any victims and trim-triggered erases, each logical page holds what the plain map
      holds. */
  lemma {:induction false} RunRefines(m: Bast, c: Store, ops: seq<BastOp>)
    requires Inv(m) && Refines(m, c) && Run(m, ops).Done?
    ensures Inv(Run(m, ops).m) && Refines(Run(m, ops).m, PlainRun(c, ops))
    decreases |ops|
  {
    hide Inv, Write, Trim, Content;
    if ops != [] {
      match ops[0]
      case HostWrite(l, j, d, v) =>
        WriteRefines(m, l, j, d, v);
        RunRefines(Write(m, l, j, d, v).value, c[(l, j) := d], ops[1..]);
      case HostTrim(l, j) =>
        TrimRefines(m, l, j);
        RunRefines(Trim(m, l, j), c - {(l, j)}, ops[1..]);
    }
  }

  lemma {:induction false} RunShape(m: Bast, ops: seq<BastOp>)
    requires Inv(m) && Run(m, ops).Done?
    ensures SameShape(m, Run(m, ops).m)
    decreases |ops|
  {
    if ops != [] {
      hide Inv, Write, Trim, Changed;
      match ops[0]
      case HostWrite(l, j, d, v) =>
        WriteRefines(m, l, j, d, v);
        RunShape(Write(m, l, j, d, v).value, ops[1..]);
      case HostTrim(l, j) =>
        TrimRefines(m, l, j);
        RunShape(Trim(m, l, j), ops[1..]);
    }
  }

  /** What read() returns after a run: the stored data for a page the plain map has; for one
      it has not, the data of another live page exactly under the condition of AbsentRead. */
  lemma RunReads(m: Bast, c: Store, ops: seq<BastOp>, l: nat, j: nat)
    requires Inv(m) && Refines(m, c) && Run(m, ops).Done? && j < m.size
    ensures var r, a := Run(m, ops).m, ReadAddress(Run(m, ops).m, l, j);
            if (l, j) in PlainRun(c, ops) then IsValid(r.fl, a) && DataAt(r.fl, a) == PlainRun(c, ops)[(l, j)]
            else Shows(r, a) <==> Strands(r, l, j) && Shows(r, Ppn(0, 0))
  {
    RunRefines(m, c, ops);
    RunShape(m, ops);
    var r := Run(m, ops).m;
    assert Content(r, l, j) == if (l, j) in PlainRun(c, ops) then Some(PlainRun(c, ops)[(l, j)]) else None;
    hide Run, PlainRun, Inv, Content, ReadAddress, Shows, Strands, Refines;
    ReadResolves(r, l, j);
    if Content(r, l, j).None? { AbsentRead(r, l, j); }
  }

  // ---------------------------------------------------------------- contents by logical page number

  function Stored(m: Bast, lpn: nat): Option<Payload>
    requires m.size > 0
  {
    Content(m, lpn / m.size, lpn % m.size)
  }

  /** A logical page is named by its block and offset. */
  lemma SamePage(n: nat, lpn: nat, size: nat)
    requires size > 0
    ensures n == lpn <==> n / size == lpn / size && n % size == lpn % size
  {
    assert n == n / size * size + n % size && lpn == lpn / size * size + lpn % size;
  }

  lemma StoredChanged(m: Bast, r: Bast, lpn: nat, v: Option<Payload>)
    requires m.size == r.size > 0 && Changed(m, r, lpn / m.size, lpn % m.size, v)
    ensures forall n: nat {:trigger Stored(r, n)} :: Stored(r, n) == if n == lpn then v else Stored(m, n)
  {
    hide Changed, Content;
    forall n: nat ensures Stored(r, n) == if n == lpn then v else Stored(m, n) {
      SamePage(n, lpn, m.size);
      StoredAt(m, r, n / m.size, n % m.size, lpn / m.size, lpn % m.size, v);
    }
  }

  lemma StoredAt(m: Bast, r: Bast, x: nat, i: nat, l: nat, j: nat, v: Option<Payload>)
    requires Changed(m, r, l, j, v)
    ensures Content(r, x, i) == if x == l && i == j then v else Content(m, x, i)
  {
  }
}
