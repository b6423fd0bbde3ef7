/** The BAST object, proved against the state machine of BastSpec. */
module Basts {
  import opened Flash
  import opened Pools
  import opened BastSpec
  import Device
  import Managers

  class BastFtl {
    const dev: Device.Ssd
    const bm: Managers.BlockManager
    const blockSize: nat
    const logLimit: nat
    const dataList: array<Option<nat>>
    var logMap: map<nat, LogBlock>

    ghost predicate Separate()
      reads dev
    {
      && bm.dev == dev && dev.blockSize == blockSize && dataList.Length == |dev.cells|
      && {this, bm, dataList} !! dev.Repr
    }

    ghost function View(): Bast
      reads this, bm, dev, dataList
    {
      Bast(blockSize, logLimit, dev.cells, bm.View(), logMap, dataList[..])
    }

    ghost predicate Valid()
      reads this, bm, dataList, dev, dev.Repr
    {
      Separate() && dev.Valid() && bm.Valid() && Inv(View())
    }

    /** What the drive holds at a logical page. */
    ghost function Contents(lpn: nat): Option<Payload>
      requires Valid()
      reads this, bm, dataList, dev, dev.Repr
    {
      Stored(View(), lpn)
    }

    constructor (dev: Device.Ssd, bm: Managers.BlockManager, logLimit: nat)
      requires dev.Valid() && bm.Valid() && bm.dev == dev && logLimit > 0
      requires dev.cells == seq(|dev.cells|, _ => NewBlock(dev.blockSize)) && bm.View() == NewPool(|dev.cells|)
      ensures Valid() && View() == NewBast(dev.blockSize, logLimit, |dev.cells|)
      ensures forall lpn {:trigger Contents(lpn)} :: Contents(lpn) == None
    {
      this.dev, this.bm, this.logLimit, blockSize := dev, bm, logLimit, dev.blockSize;
      dataList := new Option<nat>[|dev.blocks|](_ => None);
      logMap := map[];
      new;
      NewBastOk(blockSize, logLimit, |dev.cells|);
      assert dataList[..] == seq(|dev.cells|, _ => None);
      assert View() == NewBast(blockSize, logLimit, |dev.cells|);
    }

    /** A WRITE event for the controller. */
    method Issue(p: Ppn, d: Payload, replace: Option<Ppn>)
      requires Separate() && dev.Valid() && bm.Valid() && InRange(dev.cells, p) && StateAt(dev.cells, p) == EMPTY
      requires replace.Some? ==> InRange(dev.cells, replace.value)
      modifies dev.Repr
      ensures dev.Valid() && bm.Valid() && Separate() && dev.cells == IssueWrite(old(dev.cells), p, d, replace)
    {
      hide ListsOk, Device.Ssd.Valid, IssueWrite;
      dev.Issue(p, d, replace);
    }

    /** A trim invalidates a page directly. */
    method InvalidatePage(p: Ppn)
      requires Separate() && dev.Valid() && bm.Valid() && InRange(dev.cells, p)
      modifies dev.Repr
      ensures dev.Valid() && bm.Valid() && Separate() && dev.cells == Discard(old(dev.cells), p)
    {
      hide ListsOk, Device.Ssd.Valid, Discard;
      dev.Invalidate(p);
    }

    /** Erases and frees the log block of l, and forgets it. */
    method EraseLog(l: nat)
      requires Separate() && dev.Valid() && bm.Valid() && l in logMap
      requires logMap[l].blk < |dev.cells| && Owned(bm.View(), logMap[l].blk)
      modifies this, bm, dev.Repr
      ensures dev.Valid() && bm.Valid() && Separate() && View() == DropLog(old(View()), l)
    {
      hide ListsOk, Device.Ssd.Valid;
      bm.EraseAndInvalidate(logMap[l].blk, LOG);
      logMap := logMap - {l};
    }

    /** Erases and frees the data block of l, if it has one. */
    method EraseData(l: nat)
      requires Separate() && dev.Valid() && bm.Valid() && CanDrop(View(), l)
      requires dataList[l].Some? ==> Owned(bm.View(), dataList[l].value)
      modifies bm, dataList, dev.Repr
      ensures dev.Valid() && bm.Valid() && Separate() && View() == DropData(old(View()), l)
    {
      hide ListsOk, Device.Ssd.Valid;
      if dataList[l].Some? {
        bm.EraseAndInvalidate(dataList[l].value, DATA);
        dataList[l] := None;
      }
    }

    /** is_sequential: if the log block holds its pages in order it becomes the data block. */
    method TrySwitch(l: nat) returns (sequential: bool)
      requires Valid() && l in logMap
      modifies this, bm, dataList, dev.Repr
      ensures |old(logMap)[l].pages| == blockSize
      ensures sequential <==> forall j :: 0 <= j < blockSize ==> old(logMap)[l].pages[j] == Some(j)
      ensures CanDrop(old(View()), l)
      ensures Valid() && View() == if sequential then Switch(old(View()), l) else old(View())
      ensures logMap == if sequential then old(logMap) - {l} else old(logMap)
    {
      SwitchOwns(View(), l);
      var b := logMap[l];
      hide Inv, ListsOk, Device.Ssd.Valid;
      sequential := true;
      var i := 0;
      while i < blockSize && sequential
        invariant 0 <= i <= blockSize
        invariant sequential <==> forall j :: 0 <= j < i ==> b.pages[j] == Some(j)
        invariant !sequential ==> !IsSequential(b)
      {
        sequential := b.pages[i] == Some(i);
        i := i + 1;
      }
      if sequential {
        SwitchOk(View(), l);
        SwitchNow(l);
      }
    }

    method SwitchNow(l: nat)
      requires Separate() && dev.Valid() && bm.Valid() && l in logMap && l < dataList.Length
      requires CanDrop(View(), l) && (dataList[l].Some? ==> Owned(Promote(bm.View(), DATA), dataList[l].value))
      modifies this, bm, dataList, dev.Repr
      ensures dev.Valid() && bm.Valid() && View() == Switch(old(View()), l)
      ensures logMap == old(logMap) - {l}
    {
      hide ListsOk, DropData, Device.Ssd.Valid;
      bm.PromoteBlock(DATA);
      EraseData(l);
      dataList[l] := Some(logMap[l].blk);
      logMap := logMap - {l};
    }

    /** random_merge: copies the live pages of both blocks into a new data block, then erases
        both. */
    method RandomMerge(l: nat, gc: bool) returns (ok: bool)
      requires Valid() && l in logMap
      modifies this, bm, dataList, dev.Repr
      ensures ok <==> Merge(old(View()), l).Some?
      ensures ok ==> Valid() && View() == Merge(old(View()), l).value && logMap == old(logMap) - {l}
    {
      hide Inv, ListsOk, EntryOk, CopyReady, FinishMerge, Device.Ssd.Valid, Release, Owned, TakeAs, Sources, Steady,
           CopyFrom;
      ghost var m := View();
      CountsAt(m);
      QuietGet(bm.View(), DATA, gc);
      if !Dry(bm.View()) {
        MergeReady(m, l);
        MergeOwns(m, l);
        MergeOk(m, l, Merge(m, l).value);
        SteadyIs(m, Merge(m, l).value);
      }
      var nb;
      ok, nb := bm.GetFreeBlock(DATA, gc);
      if !ok { return; }
      CopyLoop(l, nb, m);
      EndMerge(l, nb);
    }

    method EndMerge(l: nat, nb: nat)
      requires Separate() && dev.Valid() && bm.Valid()
      requires l in logMap && logMap[l].blk < |dev.cells| && CanDrop(View(), l)
      requires Owned(bm.View(), logMap[l].blk)
      requires dataList[l].Some? ==> Owned(Release(bm.View(), logMap[l].blk, LOG), dataList[l].value)
      modifies this, bm, dataList, dev.Repr
      ensures dev.Valid() && bm.Valid() && Separate() && View() == FinishMerge(old(View()), l, nb)
      ensures logMap == old(logMap) - {l}
    {
      hide ListsOk, Wipe, Release, Device.Ssd.Valid;
      EraseLog(l);
      EraseData(l);
      dataList[l] := Some(nb);
    }

    /** The copy loop of random_merge. */
    method CopyLoop(l: nat, nb: nat, ghost m: Bast)
      requires Separate() && dev.Valid() && bm.Valid() && l in logMap && l < dataList.Length
      requires m.fl == dev.cells && m.logs == logMap && m.dlist == dataList[..] && m.size == blockSize
      requires |logMap[l].pages| == blockSize && CopyReady(m.fl, Sources(m, l), nb, 0)
      modifies dev.Repr
      ensures dev.Valid() && bm.Valid() && Separate() && dev.cells == CopyFrom(m.fl, Sources(m, l), nb, 0)
    {
      hide ListsOk, Device.Ssd.Valid, FlashOk, CopyReady, CopyFrom, Sources;
      SourcesSize(m, l);
      var i := 0;
      while i < blockSize
        invariant 0 <= i <= blockSize && dev.Valid() && |dev.cells| == |m.fl|
        invariant CopyReady(dev.cells, Sources(m, l), nb, i)
        invariant CopyFrom(dev.cells, Sources(m, l), nb, i) == CopyFrom(m.fl, Sources(m, l), nb, 0)
      {
        CopyTurn(l, nb, i, m);
        i := i + 1;
      }
      CopyDone(dev.cells, Sources(m, l), nb);
    }

    /** One turn of the copy loop. */
    method CopyTurn(l: nat, nb: nat, i: nat, ghost m: Bast)
      requires Separate() && dev.Valid() && bm.Valid() && l in logMap && l < dataList.Length
      requires m.logs == logMap && m.dlist == dataList[..] && m.size == blockSize
      requires |logMap[l].pages| == blockSize && i < blockSize && CopyReady(dev.cells, Sources(m, l), nb, i)
      modifies dev.Repr
      ensures dev.Valid() && bm.Valid() && Separate() && |dev.cells| == |old(dev.cells)|
      ensures CopyReady(dev.cells, Sources(m, l), nb, i + 1)
      ensures CopyFrom(dev.cells, Sources(m, l), nb, i + 1) == CopyFrom(old(dev.cells), Sources(m, l), nb, i)
    {
      ghost var src := Sources(m, l);
      CopyStep(dev.cells, src, nb, i);
      var readAddress := if logMap[l].pages[i].Some? then Some(Ppn(logMap[l].blk, logMap[l].pages[i].value))
                         else if dataList[l].Some? then Some(Ppn(dataList[l].value, i)) else None;
      assert readAddress == src[i];
      hide ListsOk, Device.Ssd.Valid, FlashOk, CopyReady, Sources;
      if readAddress.Some? {
        var state := dev.GetState(readAddress.value);
        if state != EMPTY && state != INVALID {
          var payload := dev.Read(readAddress.value);
          Issue(Ppn(nb, i), payload, readAddress);
        }
      }
    }

    /** Switches the log block if it can, merges it otherwise. */
    method EvictLog(l: nat, gc: bool) returns (ok: bool)
      requires Valid() && l in logMap
      modifies this, bm, dataList, dev.Repr
      ensures ok <==> Evict(old(View()), l).Some?
      ensures ok ==> Valid() && View() == Evict(old(View()), l).value && logMap == old(logMap) - {l}
    {
      hide Inv, Merge, Switch;
      ok := TrySwitch(l);
      if !ok {
        ok := RandomMerge(l, gc);
      }
    }

    /** allocate_new_logblock; victim is the log block to evict at the limit. */
    method AllocateNewLogblock(l: nat, victim: nat, gc: bool) returns (ok: bool)
      requires Valid() && l !in logMap && l < dataList.Length && (|logMap| >= logLimit ==> victim in logMap)
      modifies this, bm, dataList, dev.Repr
      ensures ok <==> NewLog(old(View()), l, victim).Some?
      ensures ok ==> Valid() && View() == NewLog(old(View()), l, victim).value
    {
      NewLogOk(View(), l, victim);
      hide Inv, Evict, AddLog;
      ok := true;
      if |logMap| >= logLimit {
        EvictOk(View(), victim);
        ok := EvictLog(victim, gc);
        if !ok { return; }
      }
      ok := AddEmptyLog(l, gc);
    }

    method AddEmptyLog(l: nat, gc: bool) returns (ok: bool)
      requires Valid()
      modifies this, bm, dev.Repr
      ensures ok <==> !Dry(old(bm.View()))
      ensures ok ==> Separate() && dev.Valid() && bm.Valid() && View() == AddLog(old(View()), l)
    {
      QuietGet(bm.View(), LOG, gc);
      CountsAt(View());
      hide Inv, ListsOk, Device.Ssd.Valid;
      var k;
      ok, k := bm.GetFreeBlock(LOG, gc);
      if ok {
        logMap := logMap[l := LogBlock(seq(blockSize, _ => None), k)];
      }
    }

    /** read; the address is that of the page holding the data when the page is live. A read of
        an absent page is not turned into a no-op: it may return the data of another page. */
    method Read(lpn: nat) returns (address: Ppn, d: Payload)
      requires Valid() && |dev.cells| > 0
      requires lpn / blockSize < dataList.Length
      ensures address == ReadAddress(View(), lpn / blockSize, lpn % blockSize)
      ensures InRange(dev.cells, address) && d == DataAt(dev.cells, address)
      ensures Contents(lpn).Some? ==> IsValid(dev.cells, address) && d == Contents(lpn).value
      ensures Contents(lpn).None? ==>
                (Shows(View(), address) <==>
                 Strands(View(), lpn / blockSize, lpn % blockSize) && Shows(View(), Ppn(0, 0)))
    {
      hide Inv, ListsOk, FlashOk, Device.Ssd.Valid, Managers.BlockManager.Valid, Shows, Strands, ReadAddress, Content;
      CountsAt(View());
      var l, off := lpn / blockSize, lpn % blockSize;
      ReadResolves(View(), l, off);
      if Contents(lpn).None? { AbsentRead(View(), l, off); }
      address := Locate(l, off);
      d := dev.Read(address);
    }

    /** The page read goes to: the log page, else the data page, else page 0, and page 0 too if
        the page found is INVALID. */
    method Locate(l: nat, off: nat) returns (address: Ppn)
      requires Valid() && |dev.cells| > 0 && l < dataList.Length && off < blockSize
      ensures address == ReadAddress(View(), l, off) && InRange(dev.cells, address)
    {
      hide Inv, ListsOk, FlashOk, Device.Ssd.Valid, Managers.BlockManager.Valid, IsValid;
      SourcesInRange(View(), l, off);
      if l in logMap && logMap[l].pages[off].Some? {
        address := Ppn(logMap[l].blk, logMap[l].pages[off].value);
      } else if dataList[l].None? {
        address := Ppn(0, 0);
      } else {
        address := Ppn(dataList[l].value, off);
      }
      var s := dev.GetState(address);
      if s == INVALID {
        address := Ppn(0, 0);
      }
    }

    /** Gives l a log block with room for a page. */
    method PrepareLog(l: nat, victim: nat, gc: bool) returns (ok: bool)
      requires Valid() && l < dataList.Length
      requires |logMap| >= logLimit && l !in logMap ==> victim in logMap
      modifies this, bm, dataList, dev.Repr
      ensures ok <==> Prepare(old(View()), l, victim).Some?
      ensures ok ==> Valid() && View() == Prepare(old(View()), l, victim).value && HasRoom(View(), l)
    {
      PrepareOk(View(), l, victim);
      if l !in logMap {
        hide Inv, NewLog;
        ok := AllocateNewLogblock(l, victim, gc);
      } else {
        assert EntryOk(View(), l);
        EvictOk(View(), l);
        MapSizes(logMap, l, logMap[l]);
        CountsAt(View());
        hide Inv, NewLog, Evict, EntryOk;
        var numValid := dev.PagesProgrammed(logMap[l].blk);
        ok := true;
        if numValid >= blockSize {
          ok := EvictLog(l, gc);
          if !ok { return; }
          ok := AllocateNewLogblock(l, victim, gc);
        }
      }
    }

    /** The page a write at this offset invalidates. */
    method ReplacedPage(l: nat, off: nat) returns (r: Option<Ppn>)
      requires Separate() && dev.Valid() && l in logMap && l < dataList.Length && off < |logMap[l].pages|
      requires dataList[l].Some? ==> InRange(dev.cells, Ppn(dataList[l].value, off))
      ensures r == Replaced(View(), l, off)
    {
      var b := logMap[l];
      r := if b.pages[off].Some? then Some(Ppn(b.blk, b.pages[off].value)) else None;
      if dataList[l].Some? {
        var state := dev.GetState(Ppn(dataList[l].value, off));
        if state != EMPTY {
          r := Some(Ppn(dataList[l].value, off));
        }
      }
    }

    /** The next page of l's log block. */
    ghost function NextLogPage(l: nat): Ppn
      requires l in logMap && logMap[l].blk < |dev.cells|
      reads this, dev
    {
      Ppn(logMap[l].blk, dev.cells[logMap[l].blk].programmed)
    }

    method AppendToLog(l: nat, off: nat, d: Payload, replace: Option<Ppn>)
      requires Separate() && dev.Valid() && bm.Valid() && l in logMap && off < |logMap[l].pages|
      requires logMap[l].blk < |dev.cells| && InRange(dev.cells, NextLogPage(l))
        && StateAt(dev.cells, NextLogPage(l)) == EMPTY
      requires replace.Some? ==> InRange(dev.cells, replace.value)
      modifies this, dev.Repr
      ensures Separate() && dev.Valid() && bm.Valid()
      ensures var b, s := old(logMap)[l], old(NextLogPage(l)).i;
              View() == old(View()).(fl := IssueWrite(old(dev.cells), old(NextLogPage(l)), d, replace),
                                     logs := old(logMap)[l := b.(pages := b.pages[off := Some(s)])])
    {
      var b := logMap[l];
      var page := dev.GetFreePage(b.blk);
      hide IssueWrite, Managers.BlockManager.Valid, Device.Ssd.Valid;
      Issue(page.value, d, replace);
      logMap := logMap[l := b.(pages := b.pages[off := Some(page.value.i)])];
    }

    /** Appends the page to the log block of l and invalidates what it replaces. */
    method PutInLog(l: nat, off: nat, d: Payload)
      requires Valid() && HasRoom(View(), l) && off < blockSize && l < dataList.Length
      modifies this, dev.Repr
      ensures Valid() && View() == LogWrite(old(View()), l, off, d)
    {
      hide Inv, FlashOk, Managers.BlockManager.Valid, Device.Ssd.Valid, Changed, IssueWrite, Replaced, IsValid, Owned;
      LogWriteReady(View(), l, off);
      LogWriteOk(View(), l, off, d);
      SourcesInRange(View(), l, off);
      var replace := ReplacedPage(l, off);
      AppendToLog(l, off, d, replace);
    }

    /** ok is false exactly when an allocation finds no block, which cannot happen while one
        is left on entry. */
    method Write(lpn: nat, d: Payload, victim: nat, gc: bool) returns (ok: bool)
      requires Valid() && lpn / blockSize < dataList.Length
      requires |logMap| >= logLimit && lpn / blockSize !in logMap ==> victim in logMap
      modifies this, bm, dataList, dev.Repr
      ensures ok <==> BastSpec.Write(old(View()), lpn / blockSize, lpn % blockSize, d, victim).Some?
      ensures Reserve(old(bm.View())) >= 1 ==> ok
      ensures ok ==> Valid() && View() == BastSpec.Write(old(View()), lpn / blockSize, lpn % blockSize, d, victim).value
      ensures ok ==> forall n {:trigger Contents(n)} :: Contents(n) == if n == lpn then Some(d) else old(Contents(n))
    {
      var l, off := lpn / blockSize, lpn % blockSize;
      ghost var m := View();
      WriteRefines(m, l, off, d, victim);
      if BastSpec.Write(m, l, off, d, victim).Some? {
        StoredChanged(m, BastSpec.Write(m, l, off, d, victim).value, lpn, Some(d));
      }
      hide Inv, Prepare, LogWrite, Content, Stored, Changed;
      ok := PrepareLog(l, victim, gc);
      if !ok { return; }
      PutInLog(l, off, d);
    }

    method UnlogPage(l: nat, off: nat)
      requires Separate() && dev.Valid() && bm.Valid() && LogPage(View(), l, off).Some?
      requires InRange(dev.cells, LogPage(View(), l, off).value)
      modifies this, dev.Repr
      ensures dev.Valid() && bm.Valid() && Separate() && View() == Unlog(old(View()), l, off)
    {
      hide ListsOk, Device.Ssd.Valid;
      var b := logMap[l];
      InvalidatePage(Ppn(b.blk, b.pages[off].value));
      logMap := logMap[l := b.(pages := b.pages[off := None])];
    }

    lemma DevSize()
      requires dev.Valid()
      ensures |dev.blocks| == |dev.cells|
    {
    }

    /** The log half of a trim. */
    method TrimInLog(l: nat, off: nat)
      requires Valid() && off < blockSize
      modifies this, bm, dev.Repr
      ensures Valid() && View() == TrimLog(old(View()), l, off)
    {
      hide Inv, Managers.BlockManager.Valid, Device.Ssd.Valid, SameElse, DropLog, TrimLog, InRange, Discard, Owned,
           Content;
      TrimLogOk(View(), l, off);
      TrimLogUnfolds(View(), l, off);
      if l in logMap && logMap[l].pages[off].Some? {
        var k := logMap[l].blk;
        UnlogPage(l, off);
        DevSize();
        var state := dev.GetBlockState(k);
        if state == INACTIVE {
          EraseLog(l);
        }
      }
    }

    /** The data half. */
    method TrimInData(l: nat, off: nat)
      requires Valid() && off < blockSize && LogPage(View(), l, off).None? && l < dataList.Length
      modifies bm, dataList, dev.Repr
      ensures Valid() && View() == TrimData(old(View()), l, off)
    {
      hide Inv, Managers.BlockManager.Valid, Device.Ssd.Valid, Changed, Discard, DropData, TrimData, InRange, Owned;
      TrimDataOk(View(), l, off);
      TrimDataUnfolds(View(), l, off);
      if dataList[l].Some? {
        var k := dataList[l].value;
        InvalidatePage(Ppn(k, off));
        DevSize();
        var state := dev.GetBlockState(k);
        if state == INACTIVE {
          EraseData(l);
        }
      }
    }

    method Trim(lpn: nat)
      requires Valid() && lpn / blockSize < dataList.Length
      modifies this, bm, dataList, dev.Repr
      ensures Valid() && View() == BastSpec.Trim(old(View()), lpn / blockSize, lpn % blockSize)
      ensures forall n {:trigger Contents(n)} :: Contents(n) == if n == lpn then None else old(Contents(n))
    {
      var l, off := lpn / blockSize, lpn % blockSize;
      ghost var m := View();
      TrimLogOk(m, l, off);
      TrimRefines(m, l, off);
      StoredChanged(m, BastSpec.Trim(m, l, off), lpn, None);
      hide Inv, TrimLog, TrimData, Content, Stored, Changed;
      TrimInLog(l, off);
      TrimInData(l, off);
    }
  }
}
