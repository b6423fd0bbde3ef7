/** Which pages BAST's writes and trims leave VALID, and which blocks trims give back. */
module BastPages {
  import opened Flash
  import opened Pools
  import opened BastSpec
  import opened BastBound

  // ---------------------------------------------------------------- one write

  /** An overwritten log page becomes INVALID when the data block has no page for the offset or an
      EMPTY one. Otherwise only the data page does, and the old log page stays VALID, mapped no more. */
  lemma LogWriteReplaces(m: Bast, l: nat, j: nat, d: Payload, q: Ppn)
    requires Inv(m) && HasRoom(m, l) && j < m.size && LogPage(m, l, j) == Some(q)
    ensures InRange(m.fl, q) && (DataPage(m, l, j).Some? ==> InRange(m.fl, DataPage(m, l, j).value))
    ensures var r := LogWrite(m, l, j, d);
            && InRange(r.fl, q) && (forall i :: LogPage(r, l, i) != Some(q))
            && StateAt(r.fl, q) == if DataPage(m, l, j).None? || StateAt(m.fl, DataPage(m, l, j).value) == EMPTY
                                   then INVALID else VALID
  {
    hide Inv, Ownership, CountsOk, IssueWrite, FlashOk, LogWrite;
    SourcesInRange(m, l, j);
    EntryAt(m, l);
    LogWriteReady(m, l, j);
    LogWriteCells(m, l, j, d);
    LogWriteCount(m, l, j, d);
    assert IsValid(m.fl, q);
  }

  /** The pages of the log block after a log write: the next one holds the new data, the replaced
      one is INVALID, the rest are as before. */
  lemma LogWriteStates(m: Bast, l: nat, j: nat, d: Payload, q: Ppn)
    requires Inv(m) && HasRoom(m, l) && j < m.size && DataPage(m, l, j).None?
    ensures IsValid(LogWrite(m, l, j, d).fl, q) <==>
              q == Ppn(m.logs[l].blk, m.fl[m.logs[l].blk].programmed)
              || (IsValid(m.fl, q) && LogPage(m, l, j) != Some(q))
  {
    hide Inv, Ownership, CountsOk, IssueWrite, FlashOk, LogWrite;
    EntryAt(m, l);
    LogWriteReady(m, l, j);
    LogWriteCells(m, l, j, d);
    assert InRange(LogWrite(m, l, j, d).fl, q) <==> InRange(m.fl, q);
  }

  /** Which log block a write evicts: l's own if that is full, the victim if l has none and the
      limit is reached, and else none. */
  lemma WriteEvicts(m: Bast, l: nat, j: nat, d: Payload, v: nat)
    requires Inv(m) && Legal(m, HostWrite(l, j, d, v)) && BastSpec.Write(m, l, j, d, v).Some?
    ensures var r := BastSpec.Write(m, l, j, d, v).value;
            if if l in m.logs then HasRoom(m, l) else |m.logs| < m.limit
            then r.logs.Keys == m.logs.Keys + {l} && r.dlist == m.dlist
            else var x := if l in m.logs then l else v;
                 && x in m.logs && Evict(m, x).Some?
                 && r.logs.Keys == m.logs.Keys - {x} + {l} && r.dlist == Evict(m, x).value.dlist
  {
    hide Inv, Evict, LogWrite, Steady, Prepare, HasRoom;
    var p := Prepare(m, l, v).value;
    PrepareOk(m, l, v);
    SteadyIs(m, p);
    PreparedKeys(m, l, v);
    LogWriteCount(p, l, j, d);
  }

  lemma PreparedKeys(m: Bast, l: nat, v: nat)
    requires Inv(m) && (|m.logs| >= m.limit && l !in m.logs ==> v in m.logs) && l < |m.dlist|
    requires Prepare(m, l, v).Some?
    ensures var p := Prepare(m, l, v).value;
            if if l in m.logs then HasRoom(m, l) else |m.logs| < m.limit
            then p.logs.Keys == m.logs.Keys + {l} && p.dlist == m.dlist
            else var x := if l in m.logs then l else v;
                 && x in m.logs && Evict(m, x).Some?
                 && p.logs.Keys == m.logs.Keys - {x} + {l} && p.dlist == Evict(m, x).value.dlist
  {
    hide Inv, Evict, Dry, Content;
    CountsAt(m);
    if !HasRoom(m, l) && (l in m.logs || |m.logs| >= m.limit) {
      var x := if l in m.logs then l else v;
      PrepareEvicts(m, l, v, x);
      EvictOk(m, x);
      SteadyIs(m, Evict(m, x).value);
      var e := Evict(m, x).value;
      assert e.logs.Keys == m.logs.Keys - {x};
      assert AddLog(e, l).logs.Keys == e.logs.Keys + {l};
    }
    hide Prepare;
  }

  // ---------------------------------------------------------------- one trim

  /** No page of q's block but q itself holds or may still hold data. */
  predicate LastOf(fl: Cells, q: Ppn) {
    q.b < |fl| && forall i :: 0 <= i < |fl[q.b].st| && i != q.i ==> fl[q.b].st[i] == INVALID
  }

  /** The log half of a trim: the page becomes INVALID and loses its mapping; when it was the last
      of its block, the log block is erased, freed and forgotten instead. */
  lemma TrimLogExactly(m: Bast, l: nat, j: nat, q: Ppn)
    requires Inv(m) && j < m.size && LogPage(m, l, j) == Some(q)
    ensures var r := TrimLog(m, l, j);
            && r.dlist == m.dlist && |r.fl| == |m.fl| && q.b < |m.fl|
            && (forall k :: 0 <= k < |m.fl| && k != q.b ==> r.fl[k] == m.fl[k])
            && if LastOf(m.fl, q)
               then r.logs == m.logs - {l} && AllPages(r.fl[q.b], EMPTY) && r.pool.free == m.pool.free + [q.b]
               else && r.logs == m.logs[l := LogBlock(m.logs[l].pages[j := None], q.b)] && r.pool == m.pool
                    && q.i < |m.fl[q.b].st| && r.fl[q.b].st == m.fl[q.b].st[q.i := INVALID]
  {
    hide Inv, Ownership, CountsOk, ListsOk, PoolFresh;
    EntryAt(m, l);
    assert IsValid(m.fl, q);
    TrimLogUnfolds(m, l, j);
    DiscardPages(m, l, q);
    var r := Unlog(m, l, j);
    hide EntryOk, OwnedBy;
    DiscardStates(m.fl, q);
    ReleaseExactly(r.pool, q.b, LOG);
    hide FlashOk, Discard, TrimLog;
  }

  lemma DiscardStates(fl: Cells, q: Ppn)
    requires InRange(fl, q)
    ensures Discard(fl, q)[q.b].st == fl[q.b].st[q.i := INVALID]
    ensures AllPages(Discard(fl, q)[q.b], INVALID) <==> LastOf(fl, q)
  {
    var was, st := fl[q.b].st, Discard(fl, q)[q.b].st;
    assert st == was[q.i := INVALID];
    assert AllPages(Discard(fl, q)[q.b], INVALID) ==> forall i :: 0 <= i < |was| && i != q.i ==> st[i] == was[i];
  }

  /** The data half does the same to the page in the data block and to that block. */
  lemma TrimDataExactly(m: Bast, l: nat, j: nat, q: Ppn)
    requires Inv(m) && j < m.size && DataPage(m, l, j) == Some(q) && LogPage(m, l, j).None?
    ensures var r := TrimData(m, l, j);
            && r.logs == m.logs && |r.fl| == |m.fl| && q.b < |m.fl|
            && (forall k :: 0 <= k < |m.fl| && k != q.b ==> r.fl[k] == m.fl[k])
            && if LastOf(m.fl, q)
               then && l < |m.dlist| && r.dlist == m.dlist[l := None]
                    && AllPages(r.fl[q.b], EMPTY) && r.pool.free == m.pool.free + [q.b]
               else && r.dlist == m.dlist && r.pool == m.pool
                    && q.i < |m.fl[q.b].st| && r.fl[q.b].st == m.fl[q.b].st[q.i := INVALID]
  {
    hide Inv, Ownership, CountsOk, ListsOk, PoolFresh;
    EntryAt(m, l);
    TrimDataUnfolds(m, l, j);
    DiscardPages(m, l, q);
    DiscardStates(m.fl, q);
    hide EntryOk, OwnedBy;
    ReleaseExactly(m.pool, q.b, DATA);
    hide FlashOk, Discard, TrimData;
  }

  // ---------------------------------------------------------------- all runs

  /** The VALID pages of l's log block are exactly the mapped ones. */
  ghost predicate Tidy(m: Bast, l: nat) {
    l in m.logs ==> forall s: nat {:trigger Ppn(m.logs[l].blk, s)} ::
      IsValid(m.fl, Ppn(m.logs[l].blk, s)) ==> Some(s) in m.logs[l].pages
  }

  lemma EvictOthers(m: Bast, v: nat, x: nat)
    requires Inv(m) && v in m.logs && x in m.logs && x != v && Evict(m, v).Some?
    ensures var r := Evict(m, v).value;
            && x in r.logs && r.logs[x] == m.logs[x] && |r.fl| == |m.fl|
            && m.logs[x].blk < |m.fl| && r.fl[m.logs[x].blk] == m.fl[m.logs[x].blk]
  {
    SwitchOwns(m, v);
    OutOfZone(m, v, x, m.logs[x].blk);
    hide Inv, Evict;
    if j :| 0 <= j < m.size && m.logs[v].pages[j] != Some(j) {
      EvictOutOfOrder(m, v, j);
    } else {
      EvictInOrder(m, v);
    }
  }

  /** A write to l leaves the log blocks of other logical blocks as they are, or evicts them. */
  lemma WriteOthers(m: Bast, l: nat, j: nat, d: Payload, v: nat, x: nat)
    requires Inv(m) && Legal(m, HostWrite(l, j, d, v)) && BastSpec.Write(m, l, j, d, v).Some? && x != l
    ensures var r := BastSpec.Write(m, l, j, d, v).value;
            x in r.logs ==> && x in m.logs && r.logs[x] == m.logs[x] && |r.fl| == |m.fl|
                            && m.logs[x].blk < |m.fl| && r.fl[m.logs[x].blk] == m.fl[m.logs[x].blk]
  {
    hide Inv, LogWrite, Steady, Prepare, Zone, PagesOk, IsValid, HasRoom;
    var r := BastSpec.Write(m, l, j, d, v).value;
    PrepareOk(m, l, v);
    var p := Prepare(m, l, v).value;
    SteadyIs(m, p);
    LogWriteOthers(p, l, j, d, x);
    if x in r.logs { PreparedOthers(m, l, v, x); }
  }

  lemma LogWriteOthers(m: Bast, l: nat, j: nat, d: Payload, x: nat)
    requires Inv(m) && HasRoom(m, l) && j < m.size && x != l
    ensures var r := LogWrite(m, l, j, d);
            && |r.fl| == |m.fl| && (x in r.logs ==> x in m.logs)
            && (x in m.logs ==> && r.logs[x] == m.logs[x] && m.logs[x].blk < |m.fl|
                                && r.fl[m.logs[x].blk] == m.fl[m.logs[x].blk])
  {
    hide Inv, LogWrite, PagesOk, IsValid, HasRoom;
    LogWritePages(m, l, j, d);
    LogWriteCount(m, l, j, d);
    if x in m.logs { OutOfZone(m, l, x, m.logs[x].blk); }
  }

  lemma PreparedOthers(m: Bast, l: nat, v: nat, x: nat)
    requires Inv(m) && (|m.logs| >= m.limit && l !in m.logs ==> v in m.logs) && l < |m.dlist| && x != l
    requires Prepare(m, l, v).Some? && x in Prepare(m, l, v).value.logs
    ensures var p := Prepare(m, l, v).value;
            && x in m.logs && p.logs[x] == m.logs[x] && |p.fl| == |m.fl|
            && m.logs[x].blk < |m.fl| && p.fl[m.logs[x].blk] == m.fl[m.logs[x].blk]
  {
    PreparedLogs(m, l, v);
    EntryAt(m, x);
    hide Inv, Evict, Dry, HasRoom;
    if !HasRoom(m, l) && (l in m.logs || |m.logs| >= m.limit) {
      var y := if l in m.logs then l else v;
      PrepareEvicts(m, l, v, y);
      EvictOk(m, y);
      EvictOthers(m, y, x);
    } else if !HasRoom(m, l) {
      AddedLog(m, l);
    }
  }

  lemma RoomTidy(m: Bast, l: nat, j: nat, d: Payload)
    requires Inv(m) && HasRoom(m, l) && j < m.size && Tidy(m, l) && DataPage(m, l, j).None?
    ensures Tidy(LogWrite(m, l, j, d), l)
  {
    LogWriteCount(m, l, j, d);
    hide Inv, LogWrite, IsValid;
    var r, k := LogWrite(m, l, j, d), m.logs[l].blk;
    forall s: nat | IsValid(r.fl, Ppn(k, s)) ensures Some(s) in r.logs[l].pages {
      LogWriteStates(m, l, j, d, Ppn(k, s));
      if s == m.fl[k].programmed {
        assert r.logs[l].pages[j] == Some(s);
      } else {
        var i :| 0 <= i < |m.logs[l].pages| && m.logs[l].pages[i] == Some(s);
        assert r.logs[l].pages[i] == Some(s);
      }
    }
  }

  lemma NewTidy(r: Bast, l: nat, j: nat)
    requires Inv(r) && l in r.logs && r.logs[l].blk < |r.fl| && r.fl[r.logs[l].blk].programmed == 1
    requires j < |r.logs[l].pages| && r.logs[l].pages[j] == Some(0)
    ensures Tidy(r, l)
  {
    hide Ownership, CountsOk;
    EntryAt(r, l);
  }

  /** A write keeps the log block of every logical block without a data block tidy. */
  lemma WriteTidy(m: Bast, l: nat, j: nat, d: Payload, v: nat, x: nat)
    requires Inv(m) && Legal(m, HostWrite(l, j, d, v)) && BastSpec.Write(m, l, j, d, v).Some?
    requires Tidy(m, x) && x < |m.dlist| && m.dlist[x].None?
    ensures var r := BastSpec.Write(m, l, j, d, v).value;
            x < |r.dlist| && (r.dlist[x].None? ==> Tidy(r, x))
  {
    hide Inv, LogWrite, BastSpec.Write, Changed;
    WrittenLogs(m, l, j, d, v);
    WriteRefines(m, l, j, d, v);
    if x != l {
      WriteOthers(m, l, j, d, v, x);
    } else if HasRoom(m, l) {
      WriteWithRoom(m, l, j, d, v);
      RoomTidy(m, l, j, d);
    } else {
      NewTidy(BastSpec.Write(m, l, j, d, v).value, l, j);
    }
  }

  lemma WriteWithRoom(m: Bast, l: nat, j: nat, d: Payload, v: nat)
    requires Inv(m) && HasRoom(m, l) && Legal(m, HostWrite(l, j, d, v))
    ensures BastSpec.Write(m, l, j, d, v) == Some(LogWrite(m, l, j, d))
  {
    hide Inv, LogWrite;
  }

  lemma TrimTidy(m: Bast, l: nat, j: nat, x: nat)
    requires Inv(m) && j < m.size && Tidy(m, x) && x < |m.dlist| && m.dlist[x].None?
    ensures var r := Trim(m, l, j); x < |r.dlist| && r.dlist[x].None? && Tidy(r, x)
  {
    TrimLogOk(m, l, j);
    var n := TrimLog(m, l, j);
    TrimDataOk(n, l, j);
    hide Inv, TrimLog, TrimData;
    TrimLogTidy(m, l, j, x);
    TrimDataTidy(n, l, j, x);
  }

  lemma TrimLogTidy(m: Bast, l: nat, j: nat, x: nat)
    requires Inv(m) && j < m.size && Tidy(m, x) && x < |m.dlist| && m.dlist[x].None?
    ensures var r := TrimLog(m, l, j); x < |r.dlist| && r.dlist[x].None? && Tidy(r, x)
  {
    hide Inv, TrimLog, LastOf, IsValid, Tidy;
    TrimLogUnfolds(m, l, j);
    if LogPage(m, l, j).Some? {
      var q, r := LogPage(m, l, j).value, TrimLog(m, l, j);
      TrimLogExactly(m, l, j, q);
      if x == l {
        EntryAt(m, l);
        TrimmedTidy(m, r, l, j, q);
      } else {
        if x in m.logs { OutOfZone(m, l, x, m.logs[x].blk); }
        TidyKept(m, r, x);
      }
    }
  }

  lemma TidyKept(m: Bast, r: Bast, x: nat)
    requires |r.fl| == |m.fl|
    requires x in r.logs ==> && x in m.logs && r.logs[x] == m.logs[x]
                             && m.logs[x].blk < |m.fl| && r.fl[m.logs[x].blk] == m.fl[m.logs[x].blk]
    ensures Tidy(m, x) ==> Tidy(r, x)
  {
  }

  lemma TrimmedTidy(m: Bast, r: Bast, l: nat, j: nat, q: Ppn)
    requires LogPage(m, l, j) == Some(q) && Tidy(m, l) && |r.fl| == |m.fl| && q.b < |m.fl| && q.i < |m.fl[q.b].st|
    requires FlashOk(m.fl, m.size)
    requires r.logs == m.logs - {l} ||
             (r.logs == m.logs[l := LogBlock(m.logs[l].pages[j := None], q.b)]
              && r.fl[q.b].st == m.fl[q.b].st[q.i := INVALID])
    ensures Tidy(r, l)
  {
    if l in r.logs {
      forall s: nat | IsValid(r.fl, Ppn(q.b, s)) ensures Some(s) in r.logs[l].pages {
        assert IsValid(m.fl, Ppn(q.b, s)) && s != q.i;
        var i :| 0 <= i < |m.logs[l].pages| && m.logs[l].pages[i] == Some(s);
        assert r.logs[l].pages[i] == Some(s);
      }
    }
  }

  lemma TrimDataTidy(m: Bast, l: nat, j: nat, x: nat)
    requires Inv(m) && j < m.size && Tidy(m, x) && x < |m.dlist| && m.dlist[x].None? && LogPage(m, l, j).None?
    ensures var r := TrimData(m, l, j); x < |r.dlist| && r.dlist[x].None? && Tidy(r, x)
  {
    TrimDataUnfolds(m, l, j);
    if DataPage(m, l, j).Some? {
      var q := DataPage(m, l, j).value;
      TrimDataExactly(m, l, j, q);
      if x in m.logs { OutOfZone(m, l, x, m.logs[x].blk); }
    }
    hide Inv, TrimData;
  }

  /** x has no data block now or after any operation of the run. */
  ghost predicate NoData(m: Bast, ops: seq<BastOp>, x: nat)
    requires Inv(m) && Run(m, ops).Done?
    decreases |ops|
  {
    && x < |m.dlist| && m.dlist[x].None?
    && if ops == [] then true else
       match ops[0]
       case HostWrite(l, j, d, v) =>
         WriteRefines(m, l, j, d, v);
         NoData(BastSpec.Write(m, l, j, d, v).value, ops[1..], x)
       case HostTrim(l, j) =>
         TrimRefines(m, l, j);
         NoData(Trim(m, l, j), ops[1..], x)
  }

  /** On every run, as long as x has no data block, the VALID pages of its log block are exactly
      the mapped ones. */
  lemma {:induction false} RunTidy(m: Bast, ops: seq<BastOp>, x: nat)
    requires Inv(m) && Run(m, ops).Done? && NoData(m, ops, x) && Tidy(m, x)
    ensures var r := Run(m, ops).m;
            x in r.logs ==> forall s: nat {:trigger Ppn(r.logs[x].blk, s)} ::
              IsValid(r.fl, Ppn(r.logs[x].blk, s)) <==> Some(s) in r.logs[x].pages
    decreases |ops|
  {
    hide Inv, BastSpec.Write, Trim, Tidy, Changed;
    if ops == [] {
      TidyExactly(m, x);
    } else {
      match ops[0]
      case HostWrite(l, j, d, v) =>
        WriteRefines(m, l, j, d, v);
        WriteTidy(m, l, j, d, v, x);
        assert BastSpec.Write(m, l, j, d, v).value.dlist[x].None?;
        RunTidy(BastSpec.Write(m, l, j, d, v).value, ops[1..], x);
      case HostTrim(l, j) =>
        TrimRefines(m, l, j);
        TrimTidy(m, l, j, x);
        RunTidy(Trim(m, l, j), ops[1..], x);
    }
  }

  lemma TidyExactly(m: Bast, x: nat)
    requires Inv(m) && Tidy(m, x)
    ensures x in m.logs ==> forall s: nat {:trigger Ppn(m.logs[x].blk, s)} ::
              IsValid(m.fl, Ppn(m.logs[x].blk, s)) <==> Some(s) in m.logs[x].pages
  {
    hide Ownership, CountsOk;
    EntryAt(m, x);
  }
}
