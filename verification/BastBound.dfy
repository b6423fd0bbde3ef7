/** How many blocks a BAST drive needs: the exact number from which on no run of host operations
    finds the pool empty. */
module BastBound {
  import opened Flash
  import opened Pools
  import opened BastSpec

  function Min(a: nat, b: nat): nat { if a < b then a else b }

  /** Only the first n logical blocks are in use. */
  ghost predicate HostBound(m: Bast, n: nat) {
    (forall l :: l in m.logs ==> l < n) && (forall l :: n <= l < |m.dlist| ==> m.dlist[l].None?)
  }

  /** Every write of the run is to one of the first n logical blocks. */
  predicate Within(ops: seq<BastOp>, n: nat) {
    forall op :: op in ops && op.HostWrite? ==> op.l < n
  }

  /** With one-page blocks a log block that holds a page is in order. */
  predicate InOrder(m: Bast) {
    m.size > 1 || forall l :: l in m.logs ==> IsSequential(m.logs[l])
  }

  /** A data block for each logical block, all the log blocks there can be, and one more for a
      full merge to copy into. One-page blocks in order never need a full merge. */
  predicate Enough(m: Bast, n: nat) {
    var use := n + Min(n, m.limit);
    use < m.pool.total || (use == m.pool.total && n <= |m.dlist| && m.size == 1 && InOrder(m))
  }

  // ---------------------------------------------------------------- counting

  lemma {:induction false} BelowSize(s: set<nat>, n: nat)
    requires forall x :: x in s ==> x < n
    ensures |s| <= n && (|s| == n <==> forall x: nat :: x < n ==> x in s)
    decreases n
  {
    if n == 0 {
      assert s == {};
    } else {
      var t := s - {n - 1};
      BelowSize(t, n - 1);
      assert |s| == |t| + if n - 1 in s then 1 else 0;
      assert forall x: nat :: x < n - 1 ==> (x in s <==> x in t);
      if n - 1 in s && |t| == n - 1 {
        forall x: nat | x < n ensures x in s { assert x == n - 1 || x in t; }
      }
    }
  }

  /** With n mapped entries, all below n, every entry below n is mapped. */
  lemma {:induction false} MappedFull(d: seq<Option<nat>>, n: nat)
    requires (forall l :: n <= l < |d| ==> d[l].None?) && n <= |d|
    ensures Mapped(d) <= n && (Mapped(d) == n <==> forall l :: 0 <= l < n ==> d[l].Some?)
  {
    if n == 0 {
      MappedBound(d, 0);
    } else {
      MappedFull(d[1..], n - 1);
      assert forall l :: 1 <= l < n ==> d[l] == d[1..][l - 1];
      assert forall l :: 0 <= l < n - 1 ==> d[1..][l] == d[l + 1];
    }
  }

  /** Blocks not handed out are those that are neither log nor data blocks. */
  lemma ReserveIs(m: Bast)
    requires Inv(m)
    ensures Reserve(m.pool) == m.pool.total - |m.logs| - Mapped(m.dlist) >= 0
    ensures Dry(m.pool) <==> |m.logs| + Mapped(m.dlist) == m.pool.total
  {
    CountsAt(m);
  }

  lemma ReserveBound(m: Bast, n: nat)
    requires Inv(m) && HostBound(m, n)
    ensures |m.logs| <= Min(n, m.limit) && Mapped(m.dlist) <= n
    ensures Reserve(m.pool) >= m.pool.total - n - Min(n, m.limit)
  {
    ReserveIs(m);
    CountsAt(m);
    hide Inv, Reserve;
    MappedBound(m.dlist, n);
    BelowSize(m.logs.Keys, n);
  }

  /** In an empty pool of just enough blocks everything below n is mapped and there are as many
      log blocks as there can be. */
  lemma DryIsFull(m: Bast, n: nat)
    requires Inv(m) && HostBound(m, n) && n <= |m.dlist| && Dry(m.pool)
    requires m.pool.total >= n + Min(n, m.limit)
    ensures |m.logs| == Min(n, m.limit) && forall l :: 0 <= l < n ==> m.dlist[l].Some?
  {
    ReserveIs(m);
    ReserveBound(m, n);
    hide Inv, Reserve, Dry;
    MappedFull(m.dlist, n);
  }

  // ---------------------------------------------------------------- what a write does to the maps

  /** The log block a write finds or makes: l's own if it has room, else a new one. */
  lemma PreparedLogs(m: Bast, l: nat, v: nat)
    requires Inv(m) && (|m.logs| >= m.limit && l !in m.logs ==> v in m.logs) && l < |m.dlist|
    requires Prepare(m, l, v).Some?
    ensures HasRoom(m, l) ==> Prepare(m, l, v).value == m
    ensures var p := Prepare(m, l, v).value;
            && |p.logs| == |m.logs| + (if l in m.logs || |m.logs| >= m.limit then 0 else 1) && |p.dlist| == |m.dlist|
            && (forall x :: x in p.logs && x != l ==> x in m.logs && p.logs[x] == m.logs[x])
            && (forall x :: 0 <= x < |m.dlist| && m.dlist[x].Some? ==> p.dlist[x].Some?)
    ensures !HasRoom(m, l) ==> var p := Prepare(m, l, v).value;
            && l in p.logs && p.logs[l].blk < |p.fl| && p.fl[p.logs[l].blk].programmed == 0
            && p.logs[l].pages == seq(m.size, _ => None) && (l in m.logs ==> p.dlist[l].Some?)
  {
    hide Inv, Evict, AddLog, Dry;
    CountsAt(m);
    if !HasRoom(m, l) && (l in m.logs || |m.logs| >= m.limit) {
      var x := if l in m.logs then l else v;
      PrepareEvicts(m, l, v, x);
      ExchangedLog(m, l, x);
    } else if !HasRoom(m, l) {
      AddedLog(m, l);
    }
  }

  lemma PrepareEvicts(m: Bast, l: nat, v: nat, x: nat)
    requires Inv(m) && !HasRoom(m, l) && l < |m.dlist|
    requires if l in m.logs then x == l else |m.logs| >= m.limit && v in m.logs && x == v
    requires Prepare(m, l, v).Some?
    ensures Evict(m, x).Some? && !Dry(Evict(m, x).value.pool)
    ensures Prepare(m, l, v) == Some(AddLog(Evict(m, x).value, l))
  {
    hide Inv, AddLog, Dry, Content, HasRoom;
    CountsAt(m);
    EvictOk(m, x);
    MapSizes(m.logs, x, m.logs[x]);
    hide Evict;
  }

  lemma ExchangedLog(m: Bast, l: nat, x: nat)
    requires Inv(m) && x in m.logs && (l in m.logs ==> x == l) && l < |m.dlist|
    requires Evict(m, x).Some? && !Dry(Evict(m, x).value.pool)
    ensures |m.logs| <= m.limit && |Evict(m, x).value.logs| == |m.logs| - 1
    ensures var p := AddLog(Evict(m, x).value, l);
            && |p.logs| == |m.logs| && |p.dlist| == |m.dlist|
            && (forall y :: y in p.logs && y != l ==> y in m.logs && p.logs[y] == m.logs[y])
            && (forall y :: 0 <= y < |m.dlist| && m.dlist[y].Some? ==> p.dlist[y].Some?)
            && l in p.logs && p.logs[l].blk < |p.fl| && p.fl[p.logs[l].blk].programmed == 0
            && p.logs[l].pages == seq(m.size, _ => None) && x < |p.dlist| && p.dlist[x].Some?
  {
    hide Inv, Evict, AddLog, Dry, Content;
    CountsAt(m);
    EvictOk(m, x);
    MapSizes(m.logs, x, m.logs[x]);
    SteadyIs(m, Evict(m, x).value);
    AddedLog(Evict(m, x).value, l);
  }

  lemma AddedLog(m: Bast, l: nat)
    requires Inv(m) && !Dry(m.pool) && l !in m.logs && l < |m.dlist|
    ensures var r := AddLog(m, l);
            && |r.logs| == |m.logs| + 1 && r.dlist == m.dlist && l in r.logs
            && r.logs[l].blk < |r.fl| && r.fl[r.logs[l].blk].programmed == 0
            && r.logs[l].pages == seq(m.size, _ => None)
            && (forall x :: x in r.logs && x != l ==> x in m.logs && r.logs[x] == m.logs[x])
  {
    hide Inv, Dry;
    AddLogRoom(m, l);
    MapSizes(m.logs, l, AddLog(m, l).logs[l]);
  }

  lemma LogWriteCount(m: Bast, l: nat, j: nat, d: Payload)
    requires Inv(m) && HasRoom(m, l) && j < m.size
    ensures var r, k := LogWrite(m, l, j, d), m.logs[l].blk;
            && k < |r.fl| && r.fl[k].programmed == m.fl[k].programmed + 1 && j < |m.logs[l].pages|
            && r.logs == m.logs[l := LogBlock(m.logs[l].pages[j := Some(m.fl[k].programmed)], k)]
            && r.dlist == m.dlist && r.pool == m.pool && |r.logs| == |m.logs| && |m.logs[l].pages| == m.size
  {
    hide Inv, Ownership, CountsOk, Replaced;
    EntryAt(m, l);
    LogWriteReady(m, l, j);
    assert Append(m.fl[m.logs[l].blk]);
    var p := Ppn(m.logs[l].blk, m.fl[m.logs[l].blk].programmed);
    IssueWriteAppends(m.fl, m.size, p, d, Replaced(m, l, j), p.b);
    MapSizes(m.logs, l, LogWrite(m, l, j, d).logs[l]);
  }

  /** The maps after a write: l's log block has one more page, and no data block is lost. */
  lemma WrittenLogs(m: Bast, l: nat, j: nat, d: Payload, v: nat)
    requires Inv(m) && Legal(m, HostWrite(l, j, d, v)) && BastSpec.Write(m, l, j, d, v).Some?
    ensures var r := BastSpec.Write(m, l, j, d, v).value;
            && |r.logs| == |m.logs| + (if l in m.logs || |m.logs| >= m.limit then 0 else 1) && |r.dlist| == |m.dlist|
            && l in r.logs && r.logs[l].blk < |r.fl|
            && (forall x :: x in r.logs && x != l ==> x in m.logs && r.logs[x] == m.logs[x])
            && (forall x :: 0 <= x < |m.dlist| && m.dlist[x].Some? ==> r.dlist[x].Some?)
    ensures HasRoom(m, l) ==> var r, s := BastSpec.Write(m, l, j, d, v).value, m.fl[m.logs[l].blk].programmed;
            && |m.logs[l].pages| == m.size && r.logs[l].pages == m.logs[l].pages[j := Some(s)]
            && r.fl[r.logs[l].blk].programmed == s + 1 && r.dlist == m.dlist
    ensures !HasRoom(m, l) ==> var r := BastSpec.Write(m, l, j, d, v).value;
            && r.logs[l].pages == seq(m.size, _ => None)[j := Some(0)]
            && r.fl[r.logs[l].blk].programmed == 1 && (l in m.logs ==> r.dlist[l].Some?)
  {
    PrepareOk(m, l, v);
    PreparedLogs(m, l, v);
    var p := Prepare(m, l, v).value;
    SteadyIs(m, p);
    LogWriteCount(p, l, j, d);
    hide Inv, Prepare, LogWrite, Steady;
  }

  // ---------------------------------------------------------------- enough blocks

  /** With enough blocks, no run ever finds the pool empty. */
  lemma {:induction false} NeverDry(m: Bast, n: nat, ops: seq<BastOp>)
    requires Inv(m) && HostBound(m, n) && Enough(m, n) && Within(ops, n)
    ensures Run(m, ops) != OutOfBlocks
    decreases |ops|
  {
    if ops != [] && Legal(m, ops[0]) {
      assert ops[0] in ops && forall op :: op in ops[1..] ==> op in ops;
      hide Inv, BastSpec.Write, Trim, HostBound, Legal, Enough;
      match ops[0]
      case HostWrite(l, j, d, v) =>
        BoundedWrite(m, n, l, j, d, v);
        NeverDry(BastSpec.Write(m, l, j, d, v).value, n, ops[1..]);
      case HostTrim(l, j) =>
        BoundedTrim(m, n, l, j);
        NeverDry(Trim(m, l, j), n, ops[1..]);
    }
  }

  lemma BoundedWrite(m: Bast, n: nat, l: nat, j: nat, d: Payload, v: nat)
    requires Inv(m) && HostBound(m, n) && Enough(m, n) && l < n && Legal(m, HostWrite(l, j, d, v))
    ensures Legal(m, HostWrite(l, j, d, v)) && l < |m.dlist| && j < m.size
    ensures (|m.logs| >= m.limit && l !in m.logs ==> v in m.logs)
    ensures BastSpec.Write(m, l, j, d, v).Some? && var r := BastSpec.Write(m, l, j, d, v).value;
            Inv(r) && HostBound(r, n) && Enough(r, n)
  {
    hide Inv, BastSpec.Write, Changed, Reserve, InOrder, Min;
    WriteRefines(m, l, j, d, v);
    ReserveBound(m, n);
    if n + Min(n, m.limit) == m.pool.total { OrderedWrite(m, n, l, j, d, v); }
  }

  lemma BoundedTrim(m: Bast, n: nat, l: nat, j: nat)
    requires Inv(m) && HostBound(m, n) && Enough(m, n) && Legal(m, HostTrim(l, j))
    ensures j < m.size && var r := Trim(m, l, j);
            Inv(r) && HostBound(r, n) && Enough(r, n)
  {
    hide Inv, Trim, Changed, InOrder;
    TrimRefines(m, l, j);
    if m.size == 1 && InOrder(m) { OrderedTrim(m, l, j); }
  }

  /** One-page blocks in order: a write completes and leaves them in order. */
  lemma OrderedWrite(m: Bast, n: nat, l: nat, j: nat, d: Payload, v: nat)
    requires Inv(m) && HostBound(m, n) && n <= |m.dlist| && m.size == 1 && InOrder(m)
    requires n + Min(n, m.limit) == m.pool.total
    requires l < n && Legal(m, HostWrite(l, j, d, v))
    ensures BastSpec.Write(m, l, j, d, v).Some? && InOrder(BastSpec.Write(m, l, j, d, v).value)
  {
    hide Inv, BastSpec.Write, Reserve, Dry, Local;
    CountsAt(m);
    WriteFailsExactly(m, l, j, d, v);
    if Dry(m.pool) {
      DryIsFull(m, n);
      forall x | x in m.logs ensures InPlace(m, x) { SwitchOwns(m, x); }
      if l !in m.logs && |m.logs| == n { BelowSize(m.logs.Keys, n); }
    }
    WrittenLogs(m, l, j, d, v);
  }

  lemma OrderedTrim(m: Bast, l: nat, j: nat)
    requires Inv(m) && m.size == 1 && InOrder(m) && Legal(m, HostTrim(l, j))
    ensures InOrder(Trim(m, l, j))
  {
    hide Inv, Ownership, CountsOk;
    TrimLogOk(m, l, j);
    TrimLogUnfolds(m, l, j);
    TrimDataUnfolds(TrimLog(m, l, j), l, j);
    if LogPage(m, l, j).Some? {
      UnlogEntry(m, l, j);
      DiscardPages(m, l, LogPage(m, l, j).value);
    }
  }

  // ---------------------------------------------------------------- not enough blocks

  /** The offset that the writes using up the pool go to. A log block filled with writes of
      offset 1 is not in order. */
  function Offset(m: Bast): nat { if m.size > 1 then 1 else 0 }

  /** How many pages fit into l's log block before it must be evicted. */
  function Slack(m: Bast, l: nat): nat {
    if l in m.logs && m.logs[l].blk < |m.fl| && m.fl[m.logs[l].blk].programmed <= m.size
    then m.size - m.fl[m.logs[l].blk].programmed
    else m.size + 1
  }

  lemma RunWrite(m: Bast, l: nat, j: nat, d: Payload, v: nat, ops: seq<BastOp>)
    requires Inv(m) && Legal(m, HostWrite(l, j, d, v))
    ensures BastSpec.Write(m, l, j, d, v).None? ==> Run(m, [HostWrite(l, j, d, v)] + ops) == OutOfBlocks
    ensures BastSpec.Write(m, l, j, d, v).Some? ==> var r := BastSpec.Write(m, l, j, d, v).value;
            Inv(r) && Run(m, [HostWrite(l, j, d, v)] + ops) == Run(r, ops)
  {
    WriteRefines(m, l, j, d, v);
    hide Inv, BastSpec.Write, Changed;
    assert ([HostWrite(l, j, d, v)] + ops)[1..] == ops;
  }
  lemma WriteKeepsBound(m: Bast, l: nat, j: nat, d: Payload, v: nat, n: nat)
    requires Inv(m) && HostBound(m, n) && l < n && Legal(m, HostWrite(l, j, d, v))
    requires BastSpec.Write(m, l, j, d, v).Some?
    ensures var r := BastSpec.Write(m, l, j, d, v).value; Inv(r) && SameShape(m, r) && HostBound(r, n)
  {
    hide Inv, BastSpec.Write, Changed;
    WriteRefines(m, l, j, d, v);
  }

  /** In an empty pool that no eviction refills, writing one offset of a logical block fills its
      log block out of order, and the full merge that follows finds no block. */
  lemma {:induction false} Fill(m: Bast, l: nat, n: nat, d: Payload) returns (ops: seq<BastOp>)
    requires Inv(m) && HostBound(m, n) && l < n <= |m.dlist| && l in m.logs && m.size > 1
    requires |m.logs| == Min(n, m.limit) && (forall x :: 0 <= x < n ==> m.dlist[x].Some?)
    requires m.pool.total <= n + Min(n, m.limit)
    ensures Within(ops, n) && Run(m, ops) == OutOfBlocks
    decreases StartInPlace(m, l), Slack(m, l)
  {
    hide Inv, BastSpec.Write, Reserve, Dry, Run, Slack, StartInPlace, HasRoom;
    FillStep(m, l, n, d);
    var op := HostWrite(l, 1, d, 0);
    if BastSpec.Write(m, l, 1, d, 0).None? {
      ops := [op];
      RunWrite(m, l, 1, d, 0, []);
      assert [op] + [] == [op];
    } else {
      var rest := Fill(BastSpec.Write(m, l, 1, d, 0).value, l, n, d);
      RunWrite(m, l, 1, d, 0, rest);
      ops := [op] + rest;
    }
  }

  /** One write of it: the log block has less room, or a switch has replaced it by a new one
        whose page for offset 0 will never be written. */
  lemma FillStep(m: Bast, l: nat, n: nat, d: Payload)
    requires Inv(m) && HostBound(m, n) && l < n <= |m.dlist| && l in m.logs && m.size > 1
    requires |m.logs| == Min(n, m.limit) && (forall x :: 0 <= x < n ==> m.dlist[x].Some?)
    requires m.pool.total <= n + Min(n, m.limit)
    ensures BastSpec.Write(m, l, 1, d, 0).Some? ==> var r := BastSpec.Write(m, l, 1, d, 0).value;
            && Inv(r) && SameShape(m, r) && HostBound(r, n) && l in r.logs && |r.logs| == |m.logs|
            && (forall x :: 0 <= x < n ==> r.dlist[x].Some?)
            && (StartInPlace(r, l) < StartInPlace(m, l)
                || (StartInPlace(r, l) == StartInPlace(m, l) && Slack(r, l) < Slack(m, l)))
  {
    hide Inv, BastSpec.Write, Reserve, Dry;
    ReserveIs(m);
    MappedFull(m.dlist, n);
    SwitchOwns(m, l);
    WriteFailsExactly(m, l, 1, d, 0);
    if BastSpec.Write(m, l, 1, d, 0).Some? {
      WrittenLogs(m, l, 1, d, 0);
      WriteKeepsBound(m, l, 1, d, 0, n);
    }
  }

  /** 1 while the log block of l maps offset 0, so that it can still be in order when full. */
  function StartInPlace(m: Bast, l: nat): nat {
    if l in m.logs && m.logs[l].pages != [] && m.logs[l].pages[0].Some? then 1 else 0
  }

  /** What is left to do before all of the first n blocks are mapped and all log blocks taken:
      k is the block being mapped. */
  function Left(m: Bast, k: nat, n: nat): int {
    if k < n then Slack(m, k) else n - |m.logs|
  }

  /** Without enough blocks, some run finds the pool empty: it maps the logical blocks one after
      another, takes as many log blocks as it can, and fills one of them. */
  lemma {:induction false} Exhaust(m: Bast, k: nat, n: nat, d: Payload) returns (ops: seq<BastOp>)
    requires Inv(m) && HostBound(m, n) && k <= n && 0 < n <= |m.dlist|
    requires forall x :: 0 <= x < k ==> m.dlist[x].Some?
    requires m.pool.total < n + Min(n, m.limit) || (m.pool.total == n + Min(n, m.limit) && m.size > 1)
    ensures Within(ops, n) && Run(m, ops) == OutOfBlocks
    decreases n - k, Left(m, k, n)
  {
    hide Inv, BastSpec.Write, Reserve, Dry, Run, Slack, Left, HostBound, StartInPlace, Min;
    if k < n && m.dlist[k].Some? {
      ops := Exhaust(m, k + 1, n, d);
    } else if k == n && |m.logs| == Min(n, m.limit) {
      var l := LogToFill(m, n);
      ops := Fill(m, l, n, d);
    } else {
      var l, v := NextWrite(m, k, n);
      ExhaustStep(m, k, n, l, d, v);
      var op := HostWrite(l, Offset(m), d, v);
      var rest := [];
      if BastSpec.Write(m, l, Offset(m), d, v).Some? {
        var r := BastSpec.Write(m, l, Offset(m), d, v).value;
        rest := Exhaust(r, if k < n && r.dlist[k].Some? then k + 1 else k, n, d);
      }
      RunWrite(m, l, Offset(m), d, v, rest);
      ops := [op] + rest;
    }
  }

  /** With every log block taken and every data block mapped, more than one page a block. */
  lemma LogToFill(m: Bast, n: nat) returns (l: nat)
    requires Inv(m) && HostBound(m, n) && 0 < n <= |m.dlist| && |m.logs| == Min(n, m.limit)
    requires forall x :: 0 <= x < n ==> m.dlist[x].Some?
    requires m.pool.total < n + Min(n, m.limit) || (m.pool.total == n + Min(n, m.limit) && m.size > 1)
    ensures l in m.logs && l < n && m.size > 1
  {
    hide Inv, Reserve;
    CountsAt(m);
    ReserveIs(m);
    MappedFull(m.dlist, n);
    l :| l in m.logs;
  }

  /** The logical block to write next, and the log block to evict if one must go. */
  lemma NextWrite(m: Bast, k: nat, n: nat) returns (l: nat, v: nat)
    requires Inv(m) && HostBound(m, n) && k <= n && (k == n ==> |m.logs| != Min(n, m.limit))
    ensures |m.logs| <= n && (|m.logs| >= m.limit ==> v in m.logs)
    ensures if k < n then l == k else l < n && l !in m.logs && |m.logs| < m.limit
  {
    hide Inv, Reserve;
    CountsAt(m);
    ReserveBound(m, n);
    BelowSize(m.logs.Keys, n);
    l, v := k, 0;
    if k == n { l :| l < n && l !in m.logs; }
    if |m.logs| >= m.limit { v :| v in m.logs; }
  }

  lemma ExhaustStep(m: Bast, k: nat, n: nat, l: nat, d: Payload, v: nat)
    requires Inv(m) && HostBound(m, n) && k <= n <= |m.dlist| && l < n && |m.logs| <= n
    requires (|m.logs| >= m.limit ==> v in m.logs) && forall x :: 0 <= x < k ==> m.dlist[x].Some?
    requires if k < n then l == k && m.dlist[k].None? else l !in m.logs && |m.logs| < m.limit
    ensures Legal(m, HostWrite(l, Offset(m), d, v))
    ensures BastSpec.Write(m, l, Offset(m), d, v).Some? ==>
              var r := BastSpec.Write(m, l, Offset(m), d, v).value;
              && Inv(r) && SameShape(m, r) && HostBound(r, n)
              && (forall x :: 0 <= x < k ==> r.dlist[x].Some?)
              && 0 <= Left(r, k, n) && (k == n || r.dlist[k].None? ==> Left(r, k, n) < Left(m, k, n))
  {
    hide Inv, BastSpec.Write;
    CountsAt(m);
    if BastSpec.Write(m, l, Offset(m), d, v).Some? {
      WrittenLogs(m, l, Offset(m), d, v);
      WriteKeepsBound(m, l, Offset(m), d, v, n);
      ReserveBound(BastSpec.Write(m, l, Offset(m), d, v).value, n);
    }
  }

  // ---------------------------------------------------------------- exactly enough blocks

  /** Runs of host operations on the first n logical blocks never find the pool empty exactly
      when there are enough blocks. */
  lemma NeverDryExactly(m: Bast, n: nat)
    requires Inv(m) && HostBound(m, n) && InOrder(m) && 0 < n <= |m.dlist|
    ensures (forall ops :: Within(ops, n) ==> Run(m, ops) != OutOfBlocks) <==> Enough(m, n)
  {
    if Enough(m, n) {
      forall ops | Within(ops, n) ensures Run(m, ops) != OutOfBlocks { NeverDry(m, n, ops); }
    } else {
      var ops := Exhaust(m, 0, n, []);
    }
  }

  /** So a new drive of `total` blocks serves n logical blocks with L log blocks for ever exactly
      when it has n + min(n, L) blocks, and one more if blocks have several pages. */
  lemma NewDriveExactly(size: nat, limit: nat, total: nat, n: nat)
    requires size > 0 && limit > 0 && 0 < n <= total
    ensures Inv(NewBast(size, limit, total))
    ensures (forall ops :: Within(ops, n) ==> Run(NewBast(size, limit, total), ops) != OutOfBlocks) <==>
            total >= n + Min(n, limit) + if size > 1 then 1 else 0
  {
    NewBastOk(size, limit, total);
    NeverDryExactly(NewBast(size, limit, total), n);
  }
}
