/** Flash cells as values: pages, blocks and whole devices, and the three things
    that can happen to them (program, invalidate, erase). The classes in Device.dfy
    are proved against these functions. */
module Flash {

  newtype byte = x: int | 0 <= x < 256

  /** The contents of one page. */
  type Payload = seq<byte>

  datatype Option<+T> = None | Some(value: T)

  datatype PageState = EMPTY | VALID | INVALID

  datatype BlockState = FREE | ACTIVE | INACTIVE

  /** A physical page: a block index and a page offset inside that block. */
  datatype Ppn = Ppn(b: nat, i: nat)

  /** `programmed` is the source's pages_valid: pages programmed since the last erase. */
  datatype BlockView = BlockView(st: seq<PageState>, data: seq<Payload>,
                                 programmed: nat, invalid: nat, state: BlockState)

  function NewBlock(size: nat): BlockView {
    BlockView(seq(size, _ => EMPTY), seq(size, _ => []), 0, 0, FREE)
  }

  function WritePage(b: BlockView, i: nat, d: Payload): BlockView
    requires i < |b.st| == |b.data|
  {
    b.(st := b.st[i := VALID], data := b.data[i := d],
       programmed := b.programmed + 1, state := ACTIVE)
  }

  function InvalidatePage(b: BlockView, i: nat): BlockView
    requires i < |b.st|
  {
    if b.st[i] == INVALID then b
    else b.(st := b.st[i := INVALID], invalid := b.invalid + 1,
            state := if b.invalid + 1 >= |b.st| then INACTIVE
                     else if b.programmed > 0 || b.invalid + 1 > 0 then ACTIVE else FREE)
  }

  function EraseBlock(b: BlockView): BlockView {
    b.(st := seq(|b.st|, _ => EMPTY), programmed := 0, invalid := 0, state := FREE)
  }

  /** Number of pages of block b in state s. */
  function Tally(b: BlockView, s: PageState): nat { multiset(b.st)[s] }

  ghost predicate AllPages(b: BlockView, s: PageState) {
    forall i :: 0 <= i < |b.st| ==> b.st[i] == s
  }

  /** The block's summary fields agree with its pages. */
  ghost predicate Sound(b: BlockView, size: nat) {
    && |b.st| == |b.data| == size > 0
    && b.invalid == Tally(b, INVALID)
    && (b.state == INACTIVE <==> AllPages(b, INVALID))
    && (b.state == FREE <==> b.programmed == 0 && b.invalid == 0)
  }

  /** Pages are programmed in order: exactly the first `programmed` ones are not EMPTY. */
  ghost predicate Append(b: BlockView) {
    && b.programmed <= |b.st|
    && forall i :: 0 <= i < |b.st| ==> (b.st[i] == EMPTY <==> b.programmed <= i)
  }

  ghost predicate Fresh(b: BlockView) {
    b.programmed == 0 && b.invalid == 0 && AllPages(b, EMPTY)
  }

  lemma {:induction false} FullTally(st: seq<PageState>, s: PageState)
    ensures multiset(st)[s] <= |st|
    ensures multiset(st)[s] == |st| <==> forall i :: 0 <= i < |st| ==> st[i] == s
  {
    if st != [] {
      FullTally(st[1..], s);
      assert st == [st[0]] + st[1..];
    }
  }

  /** Every page is in exactly one of the three states. */
  lemma {:induction false} TalliesSum(st: seq<PageState>)
    ensures multiset(st)[EMPTY] + multiset(st)[VALID] + multiset(st)[INVALID] == |st|
  {
    if st != [] {
      TalliesSum(st[1..]);
      assert st == [st[0]] + st[1..];
      assert multiset(st) == multiset{st[0]} + multiset(st[1..]);
      assert st[0] == EMPTY || st[0] == VALID || st[0] == INVALID;
    }
  }

  lemma WriteKeepsSound(b: BlockView, size: nat, i: nat, d: Payload)
    requires Sound(b, size) && i < size && b.st[i] == EMPTY
    ensures Sound(WritePage(b, i, d), size) && Tally(WritePage(b, i, d), EMPTY) == Tally(b, EMPTY) - 1
    ensures Append(b) && i == b.programmed ==> Append(WritePage(b, i, d))
  {
    assert WritePage(b, i, d).st[i] == VALID;
  }

  lemma InvalidateKeepsSound(b: BlockView, size: nat, i: nat)
    requires Sound(b, size) && i < size
    ensures Sound(InvalidatePage(b, i), size)
    ensures Tally(InvalidatePage(b, i), EMPTY) == Tally(b, EMPTY) - (if b.st[i] == EMPTY then 1 else 0)
    ensures Append(b) && b.st[i] != EMPTY ==> Append(InvalidatePage(b, i))
  {
    FullTally(InvalidatePage(b, i).st, INVALID);
  }

  lemma EraseKeepsSound(b: BlockView, size: nat)
    requires Sound(b, size)
    ensures Sound(EraseBlock(b), size) && Fresh(EraseBlock(b)) && Append(EraseBlock(b))
    ensures Tally(EraseBlock(b), EMPTY) == size
  {
    FullTally(EraseBlock(b).st, EMPTY);
    TalliesSum(EraseBlock(b).st);
    assert EraseBlock(b).st[0] == EMPTY;
  }

  lemma FreshBlockIsSound(size: nat)
    requires size > 0
    ensures Sound(NewBlock(size), size) && Fresh(NewBlock(size)) && Append(NewBlock(size))
  {
    FullTally(NewBlock(size).st, EMPTY);
    TalliesSum(NewBlock(size).st);
    assert NewBlock(size).st[0] == EMPTY;
  }

  // ---------------------------------------------------------------- one block, all runs

  datatype BlockOp = Write(i: nat, d: Payload) | Invalidate(j: nat) | Erase

  /** A block's life; None when a write meets a page that is not EMPTY, or an
      operation names a page the block does not have (the source's assertions). */
  function RunBlock(b: BlockView, ops: seq<BlockOp>): Option<BlockView>
    requires |b.st| == |b.data|
    decreases |ops|
  {
    if ops == [] then Some(b)
    else match ops[0]
      case Write(i, d) =>
        if i < |b.st| && b.st[i] == EMPTY then RunBlock(WritePage(b, i, d), ops[1..]) else None
      case Invalidate(j) =>
        if j < |b.st| then RunBlock(InvalidatePage(b, j), ops[1..]) else None
      case Erase => RunBlock(EraseBlock(b), ops[1..])
  }

  /** Invalidations since the last erase that hit an EMPTY page, `n` of them before ops. */
  function Strays(b: BlockView, ops: seq<BlockOp>, n: nat): nat
    requires |b.st| == |b.data|
    decreases |ops|
  {
    if ops == [] then n
    else match ops[0]
      case Write(i, d) =>
        if i < |b.st| && b.st[i] == EMPTY then Strays(WritePage(b, i, d), ops[1..], n) else n
      case Invalidate(j) =>
        if j < |b.st| then Strays(InvalidatePage(b, j), ops[1..], if b.st[j] == EMPTY then n + 1 else n) else n
      case Erase => Strays(EraseBlock(b), ops[1..], 0)
  }

  /** Over every run the summaries match the pages. pages_valid counts the non-EMPTY
      pages exactly when no invalidation since the last erase hit an EMPTY page. */
  lemma {:induction false} SummariesMatch(b: BlockView, size: nat, ops: seq<BlockOp>, n: nat)
    requires Sound(b, size) && b.programmed + n + Tally(b, EMPTY) == size && n <= b.invalid
    requires RunBlock(b, ops).Some?
    ensures var r := RunBlock(b, ops).value;
            && Sound(r, size)
            && (r.state == FREE <==> AllPages(r, EMPTY))
            && r.programmed + Strays(b, ops, n) + Tally(r, EMPTY) == size
            && (r.programmed == size - Tally(r, EMPTY) <==> Strays(b, ops, n) == 0)
    decreases |ops|
  {
    if ops == [] {
      FullTally(b.st, EMPTY);
      TalliesSum(b.st);
    } else {
      hide Tally, AllPages;
      match ops[0]
      case Write(i, d) =>
        WriteKeepsSound(b, size, i, d);
        SummariesMatch(WritePage(b, i, d), size, ops[1..], n);
      case Invalidate(j) =>
        InvalidateKeepsSound(b, size, j);
        SummariesMatch(InvalidatePage(b, j), size, ops[1..], if b.st[j] == EMPTY then n + 1 else n);
      case Erase =>
        EraseKeepsSound(b, size);
        SummariesMatch(EraseBlock(b), size, ops[1..], 0);
    }
  }

  // ---------------------------------------------------------------- devices

  type Cells = seq<BlockView>

  ghost predicate FlashOk(fl: Cells, size: nat) {
    size > 0 && forall k :: 0 <= k < |fl| ==> Sound(fl[k], size)
  }

  predicate InRange(fl: Cells, p: Ppn) {
    p.b < |fl| && p.i < |fl[p.b].st| && p.i < |fl[p.b].data|
  }

  function StateAt(fl: Cells, p: Ppn): PageState
    requires InRange(fl, p)
  {
    fl[p.b].st[p.i]
  }

  function DataAt(fl: Cells, p: Ppn): Payload
    requires InRange(fl, p)
  {
    fl[p.b].data[p.i]
  }

  predicate IsValid(fl: Cells, p: Ppn) {
    InRange(fl, p) && StateAt(fl, p) == VALID
  }

  /** Programming needs an erased page. */
  function Program(fl: Cells, p: Ppn, d: Payload): Cells
    requires InRange(fl, p) && |fl[p.b].st| == |fl[p.b].data| && StateAt(fl, p) == EMPTY
  {
    fl[p.b := WritePage(fl[p.b], p.i, d)]
  }

  function Discard(fl: Cells, p: Ppn): Cells
    requires InRange(fl, p)
  {
    fl[p.b := InvalidatePage(fl[p.b], p.i)]
  }

  function Wipe(fl: Cells, k: nat): Cells
    requires k < |fl|
  {
    fl[k := EraseBlock(fl[k])]
  }

  /** A WRITE event: the new page is programmed first, then the replaced one invalidated. */
  function IssueWrite(fl: Cells, p: Ppn, d: Payload, repl: Option<Ppn>): Cells
    requires InRange(fl, p) && |fl[p.b].st| == |fl[p.b].data| && StateAt(fl, p) == EMPTY
    requires repl.Some? ==> InRange(fl, repl.value)
  {
    if repl.Some? then Discard(Program(fl, p, d), repl.value) else Program(fl, p, d)
  }

  lemma ProgramEffect(fl: Cells, size: nat, p: Ppn, d: Payload)
    requires FlashOk(fl, size) && InRange(fl, p) && StateAt(fl, p) == EMPTY
    ensures var r := Program(fl, p, d);
            && FlashOk(r, size) && |r| == |fl| && IsValid(r, p) && DataAt(r, p) == d
            && (forall q {:trigger InRange(r, q)} :: InRange(r, q) <==> InRange(fl, q))
            && (forall q {:trigger DataAt(r, q)} :: InRange(fl, q) && q != p ==> DataAt(r, q) == DataAt(fl, q))
            && (forall q {:trigger StateAt(r, q)} :: InRange(fl, q) && q != p ==> StateAt(r, q) == StateAt(fl, q))
  {
    WriteKeepsSound(fl[p.b], size, p.i, d);
  }

  lemma DiscardEffect(fl: Cells, size: nat, q: Ppn)
    requires FlashOk(fl, size) && InRange(fl, q)
    ensures var r := Discard(fl, q);
            && FlashOk(r, size) && |r| == |fl|
            && (forall p {:trigger InRange(r, p)} :: InRange(r, p) <==> InRange(fl, p))
            && (forall p {:trigger DataAt(r, p)} :: InRange(fl, p) ==> DataAt(r, p) == DataAt(fl, p))
            && (forall p {:trigger StateAt(r, p)} :: InRange(fl, p) ==>
                  StateAt(r, p) == if p == q then INVALID else StateAt(fl, p))
            && (StateAt(fl, q) != EMPTY && Append(fl[q.b]) ==> Append(r[q.b]))
  {
    InvalidateKeepsSound(fl[q.b], size, q.i);
  }

  /** What a WRITE event does to every page of the device. */
  lemma IssueWriteEffect(fl: Cells, size: nat, p: Ppn, d: Payload, repl: Option<Ppn>)
    requires FlashOk(fl, size) && InRange(fl, p) && StateAt(fl, p) == EMPTY
    requires repl.Some? ==> InRange(fl, repl.value) && repl.value != p
    ensures var r := IssueWrite(fl, p, d, repl);
            && FlashOk(r, size) && |r| == |fl|
            && IsValid(r, p) && DataAt(r, p) == d
            && (forall q {:trigger InRange(r, q)} :: InRange(r, q) <==> InRange(fl, q))
            && (forall q {:trigger DataAt(r, q)} :: InRange(fl, q) && q != p ==> DataAt(r, q) == DataAt(fl, q))
            && (forall q {:trigger StateAt(r, q)} :: InRange(fl, q) && q != p ==>
                  StateAt(r, q) == if repl == Some(q) then INVALID else StateAt(fl, q))
  {
    ProgramEffect(fl, size, p, d);
    hide FlashOk, Program, Discard, StateAt, DataAt;
    if repl.Some? {
      DiscardEffect(Program(fl, p, d), size, repl.value);
    }
  }

  /** A WRITE event at the append point leaves every append-only block append-only. */
  lemma IssueWriteAppends(fl: Cells, size: nat, p: Ppn, d: Payload, repl: Option<Ppn>, k: nat)
    requires FlashOk(fl, size) && InRange(fl, p) && StateAt(fl, p) == EMPTY
    requires repl.Some? ==> InRange(fl, repl.value) && StateAt(fl, repl.value) != EMPTY
    requires k < |fl| && Append(fl[k]) && (k == p.b ==> p.i == fl[k].programmed)
    ensures Append(IssueWrite(fl, p, d, repl)[k])
    ensures IssueWrite(fl, p, d, repl)[k].programmed == fl[k].programmed + if k == p.b then 1 else 0
  {
    WriteKeepsSound(fl[p.b], size, p.i, d);
    if repl.Some? {
      InvalidateKeepsSound(Program(fl, p, d)[repl.value.b], size, repl.value.i);
    }
  }

  // ---------------------------------------------------------------- allocation inside a block

  /** Block::get_next_page: the first EMPTY page, found by scanning. */
  function FirstEmpty(b: BlockView, i: nat): Option<nat>
    requires i <= |b.st|
    decreases |b.st| - i
  {
    if i == |b.st| then None else if b.st[i] == EMPTY then Some(i) else FirstEmpty(b, i + 1)
  }

  /** Plane::get_free_page: constant time, None where the source's assertion fails. */
  function FreePage(b: BlockView): Option<nat> {
    if b.programmed < |b.st| then Some(b.programmed) else None
  }

  /** In an append-only block the counter and the scan give the same page, from any
      starting point up to the append point. */
  lemma {:induction false} FreePageIsScan(b: BlockView, i: nat)
    requires Append(b) && i <= b.programmed
    ensures FreePage(b) == FirstEmpty(b, i)
    decreases b.programmed - i
  {
    if i < b.programmed {
      FreePageIsScan(b, i + 1);
    }
  }

  /** The counter points at the first EMPTY page, or past the end when there is none. */
  ghost predicate InStep(b: BlockView) {
    && (forall i :: 0 <= i < |b.st| && i < b.programmed ==> b.st[i] != EMPTY)
    && (b.programmed < |b.st| ==> b.st[b.programmed] == EMPTY)
  }

  /** For every block, the two agree exactly when no page below the counter is EMPTY and the
      page at the counter, if there is one, is. */
  lemma FreePageExact(b: BlockView)
    ensures FreePage(b) == FirstEmpty(b, 0) <==> InStep(b)
  {
    FirstEmptyIs(b, 0);
  }

  /** What the scan from page i finds. */
  lemma {:induction false} FirstEmptyIs(b: BlockView, i: nat)
    requires i <= |b.st|
    ensures match FirstEmpty(b, i)
            case None => forall k :: i <= k < |b.st| ==> b.st[k] != EMPTY
            case Some(p) => i <= p < |b.st| && b.st[p] == EMPTY && forall k :: i <= k < p ==> b.st[k] != EMPTY
    decreases |b.st| - i
  {
    if i < |b.st| && b.st[i] != EMPTY { FirstEmptyIs(b, i + 1); }
  }

  /** Every write of the run goes to the page the counter names. */
  predicate WritesInOrder(b: BlockView, ops: seq<BlockOp>)
    requires |b.st| == |b.data|
    decreases |ops|
  {
    ops == [] ||
    match ops[0]
    case Write(i, d) => i == b.programmed < |b.st| && WritesInOrder(WritePage(b, i, d), ops[1..])
    case Invalidate(j) => j < |b.st| && WritesInOrder(InvalidatePage(b, j), ops[1..])
    case Erase => WritesInOrder(EraseBlock(b), ops[1..])
  }

  /** Page i has been invalidated since the last erase; `soFar` is what held before ops. */
  predicate Struck(ops: seq<BlockOp>, i: nat, soFar: bool)
    decreases |ops|
  {
    if ops == [] then soFar
    else match ops[0]
      case Write(_, _) => Struck(ops[1..], i, soFar)
      case Invalidate(j) => Struck(ops[1..], i, soFar || i == j)
      case Erase => Struck(ops[1..], i, false)
  }

  /** After every run that writes only at the counter, the constant-time allocation offers the
      page the scan finds exactly when the page it offers was not invalidated since the last
      erase. */
  lemma {:induction false} FreePageAfterRun(b: BlockView, ops: seq<BlockOp>, r: BlockView, soFar: bool)
    requires |b.st| == |b.data| && RunBlock(b, ops) == Some(r) && WritesInOrder(b, ops)
    requires forall i :: 0 <= i < |b.st| && i < b.programmed ==> b.st[i] != EMPTY
    requires b.programmed <= r.programmed < |b.st| ==> (soFar <==> b.st[r.programmed] != EMPTY)
    ensures FreePage(r) == FirstEmpty(r, 0) <==> (FreePage(r).Some? ==> !Struck(ops, r.programmed, soFar))
    decreases |ops|
  {
    if ops == [] {
      FreePageExact(b);
    } else {
      match ops[0]
      case Write(i, d) => FreePageAfterRun(WritePage(b, i, d), ops[1..], r, soFar);
      case Invalidate(j) => FreePageAfterRun(InvalidatePage(b, j), ops[1..], r, soFar || r.programmed == j);
      case Erase => FreePageAfterRun(EraseBlock(b), ops[1..], r, false);
    }
  }

  /** They can differ: a block whose only page was invalidated before it was ever written has
      no page to scan, but the counter still offers page 0. */
  lemma FreePageCanMiss()
    ensures var b := InvalidatePage(NewBlock(1), 0); FreePage(b) == Some(0) && FirstEmpty(b, 0) == None
  {
  }
}
