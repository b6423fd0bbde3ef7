/** Block pools as values: the never-used (virgin) area, the free list, the list of
    blocks waiting for an erase, and the two activity counters. Blocks are counted
    where the source counts pages (simpleCurrentFree is virgin * BLOCK_SIZE). */
module Pools {
  import opened Flash

  datatype BlockType = LOG | DATA | LOG_SEQ

  datatype Pool = Pool(total: nat, virgin: nat, free: seq<nat>, invalid: seq<nat>,
                       dataActive: int, logActive: int, writing: int, out: bool)

  function NewPool(total: nat): Pool {
    Pool(total, 0, [], [], 0, 0, -2, false)
  }

  predicate InPool(p: Pool, k: nat) {
    k in p.free || p.virgin <= k < p.total
  }

  /** A block that has left the virgin area and is in neither list. */
  predicate Owned(p: Pool, k: nat) {
    k < p.virgin && k !in p.free && k !in p.invalid
  }

  ghost predicate NoDup(s: seq<nat>) {
    forall i, j :: 0 <= i < j < |s| ==> s[i] != s[j]
  }

  ghost predicate ListsOk(p: Pool) {
    && p.virgin <= p.total
    && NoDup(p.free) && NoDup(p.invalid)
    && (forall k :: k in p.free ==> k < p.virgin && k !in p.invalid)
    && (forall k :: k in p.invalid ==> k < p.virgin)
  }

  /** Every block that can be handed out is wholly EMPTY. */
  ghost predicate PoolFresh(p: Pool, fl: Cells) {
    |fl| == p.total && forall k :: 0 <= k < |fl| && InPool(p, k) ==> Fresh(fl[k])
  }

  predicate Dry(p: Pool) { p.virgin >= p.total && p.free == [] }

  /** Blocks that can still be handed out. */
  function Reserve(p: Pool): int { p.total - p.virgin + |p.free| }

  function NextBlock(p: Pool): nat
    requires !Dry(p)
  {
    if p.virgin < p.total then p.virgin else p.free[0]
  }

  /** get_page_block once any collection is over. */
  function Take(p: Pool): Pool
    requires !Dry(p)
  {
    if p.virgin < p.total then p.(virgin := p.virgin + 1, writing := p.virgin)
    else p.(free := p.free[1..], writing := p.free[0], out := false)
  }

  function CountIn(p: Pool, t: BlockType): Pool {
    match t
    case DATA => p.(dataActive := p.dataActive + 1)
    case LOG => p.(logActive := p.logActive + 1)
    case LOG_SEQ => p
  }

  function CountOut(p: Pool, t: BlockType): Pool {
    match t
    case DATA => p.(dataActive := p.dataActive - 1)
    case LOG => p.(logActive := p.logActive - 1)
    case LOG_SEQ => p
  }

  function TakeAs(p: Pool, t: BlockType): Pool
    requires !Dry(p)
  {
    CountIn(Take(p), t)
  }

  function Promote(p: Pool, t: BlockType): Pool {
    match t
    case DATA => p.(dataActive := p.dataActive + 1, logActive := p.logActive - 1)
    case LOG => p.(logActive := p.logActive + 1, dataActive := p.dataActive - 1)
    case LOG_SEQ => p
  }

  /** erase_and_invalidate: the erased block goes to the end of the free list. */
  function Release(p: Pool, k: nat, t: BlockType): Pool {
    CountOut(p.(free := p.free + [k]), t)
  }

  /** invalidate: the block waits for its erase. */
  function Retire(p: Pool, k: nat, t: BlockType): Pool {
    CountOut(p.(invalid := p.invalid + [k]), t)
  }

  /** insert_events, phase two: a collected block goes back to the free list. */
  function Reclaim(p: Pool, k: nat): Pool { p.(free := p.free + [k]) }

  /** insert_events, phase one: up to n blocks move from the back of the invalid list. */
  function Drain(p: Pool, n: nat): Pool
    decreases n
  {
    if n == 0 || p.invalid == [] then p else Drain(DrainOne(p), n - 1)
  }

  function DrainOne(p: Pool): Pool
    requires p.invalid != []
  {
    var last := |p.invalid| - 1;
    p.(free := p.free + [p.invalid[last]], invalid := p.invalid[..last])
  }

  /** The blocks Drain moves are erased on the way. */
  function DrainCells(fl: Cells, p: Pool, n: nat): Cells
    decreases n
  {
    if n == 0 || p.invalid == [] then fl
    else
      var k := p.invalid[|p.invalid| - 1];
      DrainCells(if k < |fl| then Wipe(fl, k) else fl, DrainOne(p), n - 1)
  }

  /** get_page_block for an FTL without phase two; gc says whether the usage ratio
      lets insert_events collect. */
  function Collected(p: Pool, gc: bool): Pool {
    if p.virgin < p.total then p
    else if |p.free| <= 1 && !p.out then
      if gc then Drain(p.(out := true), 5) else p.(out := true)
    else p
  }

  /** The pages of the device after get_page_block: those of the blocks it drained are erased. */
  function CollectedCells(fl: Cells, p: Pool, gc: bool): Cells {
    if p.virgin >= p.total && |p.free| <= 1 && !p.out && gc then DrainCells(fl, p.(out := true), 5) else fl
  }

  /** None where the source's assertion (free_list.size() != 0) fails. */
  function GetFree(p: Pool, t: BlockType, gc: bool): Option<Pool> {
    if Dry(Collected(p, gc)) then None else Some(TakeAs(Collected(p, gc), t))
  }

  // ---------------------------------------------------------------- lemmas

  lemma NoDupAppend(s: seq<nat>, k: nat)
    requires NoDup(s) && k !in s
    ensures NoDup(s + [k])
  {
  }

  /** Taking a block: it was in the pool, it no longer is, and nothing else changes. */
  lemma TakeEffect(p: Pool, t: BlockType)
    requires ListsOk(p) && !Dry(p)
    ensures var k := NextBlock(p);
            && InPool(p, k) && k < p.total && k !in p.invalid
            && ListsOk(TakeAs(p, t)) && Owned(TakeAs(p, t), k)
            && Reserve(TakeAs(p, t)) == Reserve(p) - 1
            && (forall j {:trigger InPool(TakeAs(p, t), j)} :: InPool(TakeAs(p, t), j) <==> InPool(p, j) && j != k)
  {
    if p.virgin >= p.total {
      DropFirst(p.free);
    }
  }

  /** Which block is taken, and what every field holds afterwards: the virgin area is used up
      first, then the free list from its front; only the latter lets the next shortage
      collect again. */
  lemma TakeExactly(p: Pool, t: BlockType)
    requires !Dry(p)
    ensures var k, r := NextBlock(p), TakeAs(p, t);
            && r.writing == k && r.total == p.total && r.invalid == p.invalid
            && r.dataActive == p.dataActive + (if t == DATA then 1 else 0)
            && r.logActive == p.logActive + (if t == LOG then 1 else 0)
            && (p.virgin < p.total ==> k == p.virgin == r.virgin - 1 && r.free == p.free && r.out == p.out)
            && (p.virgin >= p.total ==> r.virgin == p.virgin && p.free == [k] + r.free && !r.out)
  {
  }

  /** An erased block goes to the end of the free list and is counted out by type. */
  lemma ReleaseExactly(p: Pool, k: nat, t: BlockType)
    ensures var r := Release(p, k, t);
            && r == p.(free := p.free + [k], dataActive := r.dataActive, logActive := r.logActive)
            && r.dataActive == p.dataActive - (if t == DATA then 1 else 0)
            && r.logActive == p.logActive - (if t == LOG then 1 else 0)
  {
  }

  lemma ReleaseEffect(p: Pool, k: nat, t: BlockType)
    requires ListsOk(p) && Owned(p, k)
    ensures var p' := Release(p, k, t);
            && ListsOk(p') && Reserve(p') == Reserve(p) + 1
            && (forall j {:trigger InPool(p', j)} :: InPool(p', j) <==> InPool(p, j) || j == k)
  {
    NoDupAppend(p.free, k);
  }

  /** What the lists, the counters and the virgin area add up to. */
  function Balance(p: Pool): int {
    p.virgin - |p.free| - |p.invalid| - p.dataActive - p.logActive
  }

  lemma DrainOneEffect(p: Pool)
    requires ListsOk(p) && p.invalid != []
    ensures ListsOk(DrainOne(p)) && Balance(DrainOne(p)) == Balance(p) && DrainOne(p).total == p.total
  {
    var k := p.invalid[|p.invalid| - 1];
    DropLast(p.invalid);
    NoDupAppend(p.free, k);
    assert k in p.invalid && k !in DrainOne(p).invalid;
    forall j | j in DrainOne(p).free ensures j < p.virgin && j !in DrainOne(p).invalid {
      assert j in p.free || j == k;
    }
  }

  lemma DropLast(s: seq<nat>)
    requires NoDup(s) && s != []
    ensures var i := |s| - 1; NoDup(s[..i]) && forall k :: k in s[..i] <==> k in s && k != s[i]
  {
    var i := |s| - 1;
    assert s == s[..i] + [s[i]];
  }

  lemma DropFirst(s: seq<nat>)
    requires NoDup(s) && s != []
    ensures NoDup(s[1..]) && forall k :: k in s[1..] <==> k in s && k != s[0]
  {
    assert s == [s[0]] + s[1..];
  }

  /** A retired block waits at the end of the invalid list, and its own counter goes down. */
  lemma RetireEffect(p: Pool, k: nat, t: BlockType)
    requires ListsOk(p) && Owned(p, k)
    ensures var r := Retire(p, k, t);
            && r == p.(invalid := p.invalid + [k], dataActive := r.dataActive, logActive := r.logActive)
            && (t == LOG ==> r.logActive == p.logActive - 1 && r.dataActive == p.dataActive)
            && (t == DATA ==> r.dataActive == p.dataActive - 1 && r.logActive == p.logActive)
            && (t == LOG_SEQ ==> r.dataActive == p.dataActive && r.logActive == p.logActive)
            && ListsOk(r) && k in r.invalid && !InPool(r, k) && Reserve(r) == Reserve(p)
            && (forall j {:trigger InPool(r, j)} :: InPool(r, j) <==> InPool(p, j))
            && (forall j {:trigger Owned(r, j)} :: Owned(r, j) <==> Owned(p, j) && j != k)
  {
    NoDupAppend(p.invalid, k);
    var r := Retire(p, k, t);
    assert r.invalid[|p.invalid|] == k;
  }

  lemma ReclaimEffect(p: Pool, k: nat)
    requires ListsOk(p) && Owned(p, k)
    ensures ListsOk(Reclaim(p, k)) && Reserve(Reclaim(p, k)) == Reserve(p) + 1
    ensures forall j {:trigger InPool(Reclaim(p, k), j)} :: InPool(Reclaim(p, k), j) <==> InPool(p, j) || j == k
  {
    NoDupAppend(p.free, k);
  }

  function Reversed(s: seq<nat>): seq<nat> {
    if s == [] then [] else [s[|s| - 1]] + Reversed(s[..|s| - 1])
  }

  /** r has the last n blocks of p's invalid list, or all of them, at the end of its free list,
      last block first. */
  ghost predicate Drained(p: Pool, r: Pool, n: nat) {
    var left := if n < |p.invalid| then |p.invalid| - n else 0;
    r == p.(free := p.free + Reversed(p.invalid[left..]), invalid := p.invalid[..left])
  }

  lemma DrainedStep(p: Pool, r: Pool, n: nat)
    requires n != 0 && p.invalid != [] && Drained(DrainOne(p), r, n - 1)
    ensures Drained(p, r, n)
  {
    var d, last := DrainOne(p), |p.invalid| - 1;
    var left := if n < |p.invalid| then |p.invalid| - n else 0;
    assert p.invalid[left..][..last - left] == d.invalid[left..];
    assert d.invalid[..left] == p.invalid[..left];
  }

  lemma {:induction false} DrainExactly(p: Pool, n: nat)
    ensures Drained(p, Drain(p, n), n)
    decreases n
  {
    if n != 0 && p.invalid != [] {
      DrainExactly(DrainOne(p), n - 1);
      hide Drained;
      DrainedStep(p, Drain(p, n), n);
    } else {
      assert p.invalid[|p.invalid|..] == [] && p.invalid[..|p.invalid|] == p.invalid;
    }
  }

  /** A collection starts exactly when the virgin area is used up, at most one block is free and
      none was started since a block was last taken from the free list. */
  lemma CollectedExactly(p: Pool, gc: bool)
    ensures var r, starts := Collected(p, gc), p.virgin >= p.total && |p.free| <= 1 && !p.out;
            && (!starts ==> r == p)
            && (starts ==> r.out && Drained(p.(out := true), r, if gc then 5 else 0))
  {
    DrainExactly(p.(out := true), 5);
  }

  lemma CollectedEffect(p: Pool, gc: bool)
    requires ListsOk(p)
    ensures ListsOk(Collected(p, gc)) && Balance(Collected(p, gc)) == Balance(p) && Collected(p, gc).total == p.total
    ensures p.invalid == [] ==> Collected(p, gc) == p.(out := p.out || (p.virgin >= p.total && |p.free| <= 1))
  {
    DrainEffect(p.(out := true), 5);
  }

  lemma CollectedKeepsCounts(p: Pool, gc: bool)
    requires ListsOk(p)
    ensures Collected(p, gc).logActive == p.logActive
    ensures !Dry(Collected(p, gc)) ==> Take(Collected(p, gc)).logActive == p.logActive
  {
    DrainEffect(p.(out := true), 5);
  }

  /** While no block waits for an erase, get_free_block is just an allocation. */
  lemma QuietGet(p: Pool, t: BlockType, gc: bool)
    requires p.invalid == []
    ensures GetFree(p, t, gc) == if Dry(p) then None else Some(TakeAs(p, t))
    ensures Dry(Collected(p, gc)) <==> Dry(p)
    ensures !Dry(p) ==> NextBlock(Collected(p, gc)) == NextBlock(p)
  {
  }

  lemma {:induction false} DrainEffect(p: Pool, n: nat)
    requires ListsOk(p)
    ensures ListsOk(Drain(p, n)) && Balance(Drain(p, n)) == Balance(p)
    ensures Drain(p, n).logActive == p.logActive && Drain(p, n).dataActive == p.dataActive
    ensures Drain(p, n).virgin == p.virgin && Drain(p, n).total == p.total && Drain(p, n).out == p.out
    ensures |Drain(p, n).free| == |p.free| + if n < |p.invalid| then n else |p.invalid|
    decreases n
  {
    if n != 0 && p.invalid != [] {
      DrainOneEffect(p);
      DrainEffect(DrainOne(p), n - 1);
    }
  }

  /** The blocks the invalid-list phase moves are erased, and no other block is touched. */
  lemma {:induction false} DrainCellsEffect(fl: Cells, p: Pool, n: nat)
    requires ListsOk(p) && p.total == |fl|
    ensures var r := DrainCells(fl, p, n);
            && |r| == |fl|
            && forall k :: 0 <= k < |fl| ==>
                 r[k] == if k in p.invalid && k !in Drain(p, n).invalid then EraseBlock(fl[k]) else fl[k]
    ensures forall k :: k in Drain(p, n).invalid ==> k in p.invalid
    decreases n
  {
    hide ListsOk, Drain, DrainCells, DrainOne, EraseBlock;
    if n != 0 && p.invalid != [] {
      LastInvalid(p);
      DrainOneEffect(p);
      DrainUnfolds(fl, p, n);
      DrainCellsEffect(Wipe(fl, p.invalid[|p.invalid| - 1]), DrainOne(p), n - 1);
    } else {
      DrainUnfolds(fl, p, n);
    }
  }

  lemma DrainUnfolds(fl: Cells, p: Pool, n: nat)
    requires n != 0 && p.invalid != [] ==> p.invalid[|p.invalid| - 1] < |fl|
    ensures if n == 0 || p.invalid == [] then Drain(p, n) == p && DrainCells(fl, p, n) == fl
            else && Drain(p, n) == Drain(DrainOne(p), n - 1)
                 && DrainCells(fl, p, n) == DrainCells(Wipe(fl, p.invalid[|p.invalid| - 1]), DrainOne(p), n - 1)
  {
  }

  lemma LastInvalid(p: Pool)
    requires ListsOk(p) && p.invalid != []
    ensures var k := p.invalid[|p.invalid| - 1];
            && k < p.total && k in p.invalid
            && forall j :: j in DrainOne(p).invalid <==> j in p.invalid && j != k
  {
    assert p.invalid[|p.invalid| - 1] in p.invalid;
    DropLast(p.invalid);
  }

  // ---------------------------------------------------------------- all runs

  datatype PoolOp = Get(t: BlockType, gc: bool) | PromoteTo(t: BlockType) | Erased(k: nat, t: BlockType)
                  | Invalidated(k: nat, t: BlockType) | Cleaned(k: nat) | InvalidPhase

  /** Callers only give back blocks they own. */
  predicate Allowed(p: Pool, op: PoolOp) {
    match op
    case Get(t, gc) => !Dry(Collected(p, gc))
    case Erased(k, _) => Owned(p, k)
    case Invalidated(k, _) => Owned(p, k)
    case Cleaned(k) => Owned(p, k)
    case _ => true
  }

  function PoolStep(p: Pool, op: PoolOp): Pool
    requires Allowed(p, op)
  {
    match op
    case Get(t, gc) => GetFree(p, t, gc).value
    case PromoteTo(t) => Promote(p, t)
    case Erased(k, t) => Release(p, k, t)
    case Invalidated(k, t) => Retire(p, k, t)
    case Cleaned(k) => Reclaim(p, k)
    case InvalidPhase => Drain(p, 5)
  }

  function RunPool(p: Pool, ops: seq<PoolOp>): Option<Pool>
    decreases |ops|
  {
    if ops == [] then Some(p)
    else if Allowed(p, ops[0]) then RunPool(PoolStep(p, ops[0]), ops[1..])
    else None
  }

  /** What one operation adds to the balance: only operations on LOG_SEQ blocks, which
      no counter follows, and phase-two cleaning, which forgets to count the block out. */
  function Drift(op: PoolOp): int {
    match op
    case Get(LOG_SEQ, _) => 1
    case Erased(_, LOG_SEQ) => -1
    case Invalidated(_, LOG_SEQ) => -1
    case Cleaned(_) => -1
    case _ => 0
  }

  function TotalDrift(ops: seq<PoolOp>): int {
    if ops == [] then 0 else Drift(ops[0]) + TotalDrift(ops[1..])
  }

  lemma TakeBalance(p: Pool, t: BlockType)
    requires !Dry(p)
    ensures Balance(TakeAs(p, t)) == Balance(p) + if t == LOG_SEQ then 1 else 0
    ensures TakeAs(p, t).total == p.total
  {
  }

  /** What one operation does to each of the two counters. */
  lemma PoolStepCounts(p: Pool, op: PoolOp)
    requires Allowed(p, op)
    ensures PoolStep(p, op).dataActive - p.dataActive == match op
            case Get(t, _) => (if t == DATA then 1 else 0)
            case PromoteTo(t) => (if t == DATA then 1 else if t == LOG then -1 else 0)
            case Erased(_, t) => (if t == DATA then -1 else 0)
            case Invalidated(_, t) => (if t == DATA then -1 else 0)
            case _ => 0
    ensures PoolStep(p, op).logActive - p.logActive == match op
            case Get(t, _) => (if t == LOG then 1 else 0)
            case PromoteTo(t) => (if t == LOG then 1 else if t == DATA then -1 else 0)
            case Erased(_, t) => (if t == LOG then -1 else 0)
            case Invalidated(_, t) => (if t == LOG then -1 else 0)
            case _ => 0
  {
    match op
    case Get(t, gc) => CollectedExactly(p, gc);
    case InvalidPhase => DrainExactly(p, 5);
    case _ =>
  }

  lemma PoolStepEffect(p: Pool, op: PoolOp)
    requires ListsOk(p) && Allowed(p, op)
    ensures ListsOk(PoolStep(p, op)) && PoolStep(p, op).total == p.total
    ensures Balance(PoolStep(p, op)) == Balance(p) + Drift(op)
  {
    match op
    case Get(t, gc) =>
      CollectedEffect(p, gc);
      TakeEffect(Collected(p, gc), t);
      TakeBalance(Collected(p, gc), t);
    case PromoteTo(t) =>
    case Erased(k, t) => ReleaseEffect(p, k, t);
    case Invalidated(k, t) => RetireEffect(p, k, t);
    case Cleaned(k) => ReclaimEffect(p, k);
    case InvalidPhase => DrainEffect(p, 5);
  }

  /** Over every run in which callers give back only blocks they own, no list holds a
      block twice, and virgin + free + invalid + data_active + log_active ends at
      max_blocks exactly when the run's drift is zero. */
  lemma {:induction false} PoolConservation(p: Pool, ops: seq<PoolOp>)
    requires ListsOk(p) && RunPool(p, ops).Some?
    ensures var r := RunPool(p, ops).value;
            && ListsOk(r) && r.total == p.total
            && Balance(r) == Balance(p) + TotalDrift(ops)
            && (Balance(p) == 0 ==>
                 ((r.total - r.virgin) + |r.free| + |r.invalid| + r.dataActive + r.logActive == r.total
                  <==> TotalDrift(ops) == 0))
    decreases |ops|
  {
    if ops != [] {
      PoolStepEffect(p, ops[0]);
      PoolConservation(PoolStep(p, ops[0]), ops[1..]);
    }
  }
}

/** The block manager object. */
module Managers {
  import opened Flash
  import opened Pools
  import Device

  class BlockManager {
    const dev: Device.Ssd
    const maxBlocks: nat
    const maxLogBlocks: nat
    var virgin: nat
    var freeList: seq<nat>
    var invalidList: seq<nat>
    var dataActive: int
    var logActive: int
    var currentWritingBlock: int
    var outOfBlocks: bool

    ghost function View(): Pool
      reads this
    {
      Pool(maxBlocks, virgin, freeList, invalidList, dataActive, logActive, currentWritingBlock, outOfBlocks)
    }

    ghost predicate Valid()
      reads this, dev, dev.Repr
    {
      && dev.Valid() && this !in dev.Repr
      && maxBlocks == maxLogBlocks == |dev.cells|
      && ListsOk(View())
    }

    constructor (dev: Device.Ssd)
      requires dev.Valid()
      ensures Valid() && this.dev == dev && View() == NewPool(|dev.cells|) && fresh(this)
    {
      this.dev := dev;
      maxBlocks, maxLogBlocks := |dev.blocks|, |dev.blocks|;
      virgin, freeList, invalidList := 0, [], [];
      dataActive, logActive, currentWritingBlock, outOfBlocks := 0, 0, -2, false;
    }

    /** Erases the last block of the invalid list and frees it. */
    method EraseLastInvalid()
      requires Valid() && invalidList != []
      modifies this, dev.Repr
      ensures Valid() && View() == DrainOne(old(View()))
      ensures var k := old(invalidList[|invalidList| - 1]);
              k < |old(dev.cells)| && dev.cells == Wipe(old(dev.cells), k)
    {
      var last := |invalidList| - 1;
      assert invalidList[last] in invalidList;
      DrainOneEffect(View());
      dev.Erase(invalidList[last]);
      freeList := freeList + [invalidList[last]];
      invalidList := invalidList[..last];
    }

    /** insert_events, phase one: erases up to five blocks of the invalid list; gc says
        whether the usage ratio allows it. */
    method InsertEvents(gc: bool)
      requires Valid()
      modifies this, dev.Repr
      ensures Valid() && View() == if gc then Drain(old(View()), 5) else old(View())
      ensures dev.cells == if gc then DrainCells(old(dev.cells), old(View()), 5) else old(dev.cells)
    {
      hide Drain, DrainCells, ListsOk, Device.Ssd.Valid;
      if gc {
        DrainList();
      }
    }

    method DrainList()
      requires Valid()
      modifies this, dev.Repr
      ensures Valid() && View() == Drain(old(View()), 5) && dev.cells == DrainCells(old(dev.cells), old(View()), 5)
    {
      hide Drain, DrainCells, DrainOne, Wipe, ListsOk, Device.Ssd.Valid;
      ghost var p, fl := View(), dev.cells;
      var toErase := 5;
      while toErase != 0 && |invalidList| != 0
        invariant Valid() && 0 <= toErase <= 5
        invariant Drain(View(), toErase) == Drain(p, 5)
        invariant DrainCells(dev.cells, View(), toErase) == DrainCells(fl, p, 5)
        decreases toErase
      {
        LastInvalid(View());
        DrainUnfolds(dev.cells, View(), toErase);
        EraseLastInvalid();
        toErase := toErase - 1;
      }
      DrainUnfolds(dev.cells, View(), toErase);
    }

    /** get_page_block; ok is false where the source's assertion fails. */
    method GetPageBlock(gc: bool) returns (ok: bool, k: nat)
      requires Valid()
      modifies this, dev.Repr
      ensures ok <==> !Dry(Collected(old(View()), gc))
      ensures ok ==> Valid() && k == NextBlock(Collected(old(View()), gc)) && k < |dev.cells|
      ensures ok ==> View() == Take(Collected(old(View()), gc))
      ensures dev.cells == CollectedCells(old(dev.cells), old(View()), gc)
      ensures old(invalidList) == [] ==> dev.cells == old(dev.cells)
    {
      CollectedEffect(View(), gc);
      if virgin >= maxBlocks && |freeList| <= 1 && !outOfBlocks {
        outOfBlocks := true;
        InsertEvents(gc);
      }
      assert View() == Collected(old(View()), gc) && Valid();
      ok, k := PopBlock();
    }

    /** The allocation itself: the virgin area first, then the front of the free list. */
    method PopBlock() returns (ok: bool, k: nat)
      requires Valid()
      modifies this
      ensures ok <==> !Dry(old(View()))
      ensures ok ==> Valid() && k == NextBlock(old(View())) && k < |dev.cells| && View() == Take(old(View()))
    {
      if virgin < maxBlocks {
        TakeEffect(View(), LOG_SEQ);
        k := virgin;
        currentWritingBlock := k;
        virgin := virgin + 1;
      } else {
        if |freeList| == 0 {
          return false, 0;
        }
        TakeEffect(View(), LOG_SEQ);
        k := freeList[0];
        currentWritingBlock := k;
        freeList := freeList[1..];
        outOfBlocks := false;
      }
      ok := true;
    }

    /** get_free_block; ok is false where an assertion fails or bad_alloc is thrown. */
    method GetFreeBlock(t: BlockType, gc: bool) returns (ok: bool, k: nat)
      requires Valid()
      modifies this, dev.Repr
      ensures ok <==> !Dry(Collected(old(View()), gc)) && (t == LOG ==> old(logActive) <= maxLogBlocks)
      ensures ok ==> Valid() && k == NextBlock(Collected(old(View()), gc)) && k < |dev.cells|
      ensures ok ==> GetFree(old(View()), t, gc) == Some(View())
      ensures dev.cells == CollectedCells(old(dev.cells), old(View()), gc)
      ensures old(invalidList) == [] ==> dev.cells == old(dev.cells)
    {
      CollectedKeepsCounts(View(), gc);
      hide ListsOk, Device.Ssd.Valid, Collected, CollectedCells, NextBlock, Take;
      ok, k := GetPageBlock(gc);
      if !ok { return; }
      if t == LOG && logActive > maxLogBlocks { return false, k; }
      CountOn(t);
    }

    method CountOn(t: BlockType)
      requires Valid()
      modifies this`dataActive, this`logActive
      ensures Valid() && View() == CountIn(old(View()), t)
    {
      match t {
        case DATA => dataActive := dataActive + 1;
        case LOG => logActive := logActive + 1;
        case LOG_SEQ =>
      }
    }

    method PromoteBlock(t: BlockType)
      requires Valid()
      modifies this
      ensures Valid() && View() == Promote(old(View()), t)
    {
      match t {
        case DATA => dataActive, logActive := dataActive + 1, logActive - 1;
        case LOG => dataActive, logActive := dataActive - 1, logActive + 1;
        case LOG_SEQ =>
      }
    }

    method Invalidate(k: nat, t: BlockType)
      requires Valid() && Owned(View(), k)
      modifies this
      ensures Valid() && View() == Retire(old(View()), k, t)
    {
      NoDupAppend(invalidList, k);
      invalidList := invalidList + [k];
      CountOff(t);
    }

    method EraseAndInvalidate(k: nat, t: BlockType)
      requires Valid() && Owned(View(), k)
      modifies this, dev.Repr
      ensures Valid() && View() == Release(old(View()), k, t)
      ensures dev.cells == Wipe(old(dev.cells), k)
    {
      dev.Erase(k);
      NoDupAppend(freeList, k);
      freeList := freeList + [k];
      CountOff(t);
    }

    /** Phase two hands a cleaned block back after erasing it. */
    method EraseAndFree(k: nat)
      requires Valid() && Owned(View(), k)
      modifies this, dev.Repr
      ensures Valid() && View() == Reclaim(old(View()), k)
      ensures dev.cells == Wipe(old(dev.cells), k)
    {
      dev.Erase(k);
      NoDupAppend(freeList, k);
      freeList := freeList + [k];
    }

    method CountOff(t: BlockType)
      requires Valid()
      modifies this`dataActive, this`logActive
      ensures Valid() && View() == CountOut(old(View()), t)
    {
      match t {
        case DATA => dataActive := dataActive - 1;
        case LOG => logActive := logActive - 1;
        case LOG_SEQ =>
      }
    }
  }
}
