/** The DFTL object, proved against the state machine of DftlSpec. Methods return, as a
    ghost result, the steps of that machine they took. */
module Dftls {
  import opened Flash
  import opened Pools
  import opened DftlSpec
  import opened DftlGc
  import opened PatchRuns
  import Device
  import Managers

  class DftlFtl {
    const dev: Device.Ssd
    const bm: Managers.BlockManager
    const blockSize: nat
    const totalCMTentries: nat
    var transMap: seq<MPage>
    var reverseTransMap: map<Ppn, nat>
    var cmt: int
    var currentDataPage: Option<Ppn>
    ghost var drift: nat

    ghost predicate Separate()
      reads dev
    {
      bm.dev == dev && dev.blockSize == blockSize && |dev.cells| > 1 && {this, bm} !! dev.Repr
    }

    ghost function View(): Dftl
      reads this, bm, dev
    {
      Dftl(blockSize, totalCMTentries, dev.cells, bm.View(), transMap, reverseTransMap, cmt, drift, currentDataPage)
    }

    /** The object, its device and its block manager are in order. */
    ghost predicate Ready()
      reads this, bm, dev, dev.Repr
    {
      Separate() && dev.Valid() && bm.Valid()
    }

    ghost predicate Valid()
      reads this, bm, dev, dev.Repr
    {
      Ready() && Inv(View())
    }

    /** What the drive holds at a logical page. */
    ghost function Contents(lpn: nat): Option<Payload>
      reads this, bm, dev
    {
      Content(View(), lpn)
    }

    constructor (dev: Device.Ssd, bm: Managers.BlockManager, pages: nat, cacheLimit: nat)
      requires dev.Valid() && bm.Valid() && bm.dev == dev && cacheLimit > 0 && |dev.cells| > 1
      requires dev.cells == seq(|dev.cells|, _ => NewBlock(dev.blockSize)) && bm.View() == NewPool(|dev.cells|)
      ensures Valid() && View() == NewDftl(dev.blockSize, cacheLimit, |dev.cells|, pages)
      ensures forall lpn: nat {:trigger Contents(lpn)} :: Contents(lpn) == None
    {
      this.dev, this.bm, blockSize, totalCMTentries := dev, bm, dev.blockSize, cacheLimit;
      transMap := seq(pages, _ => MPage(None, false, -1.0));
      reverseTransMap, cmt, currentDataPage, drift := map[], 0, None, 0;
      new;
      NewDftlOk(blockSize, totalCMTentries, |dev.cells|, pages);
    }

    // ---------------------------------------------------------------- collection

    /** get_free_data_page during collection. ok is false where the allocation would find no
        block or would enter insert_events a second time. */
    method AdvancePage() returns (ok: bool)
      requires Ready() && bm.invalidList == []
      modifies this`currentDataPage, bm, dev.Repr
      ensures ok <==> Advance(old(View())).Some?
      ensures ok ==> Ready() && View() == Advance(old(View())).value
    {
      hide Device.Ssd.Valid, ListsOk;
      if currentDataPage.None? || currentDataPage.value.i + 1 >= blockSize {
        if bm.virgin >= bm.maxBlocks && |bm.freeList| <= 1 && !bm.outOfBlocks {
          return false;
        }
        QuietGet(bm.View(), DATA, false);
        var k;
        ok, k := bm.GetFreeBlock(DATA, false);
        if ok {
          currentDataPage := Some(Ppn(k, 0));
        }
      } else {
        currentDataPage := Some(Ppn(currentDataPage.value.b, currentDataPage.value.i + 1));
        ok := true;
      }
    }

    /** Copies the VALID page src to the next free page. */
    method CopyPage(src: Ppn) returns (ok: bool)
      requires Ready() && bm.invalidList == [] && InRange(dev.cells, src)
      requires Advance(View()).Some? ==> var a := Advance(View()).value;
               a.cur.Some? && InRange(dev.cells, a.cur.value) && StateAt(dev.cells, a.cur.value) == EMPTY
      modifies this`currentDataPage, bm, dev.Repr
      ensures ok <==> Advance(old(View())).Some?
      ensures ok ==> Ready() && currentDataPage.Some?
      ensures ok ==> var a := Advance(old(View())).value;
              View() == a.(fl := IssueWrite(old(dev.cells), a.cur.value, DataAt(old(dev.cells), src), Some(src)))
    {
      hide Managers.BlockManager.Valid, Device.Ssd.Valid, IssueWrite;
      var payload := dev.Read(src);
      ok := AdvancePage();
      if !ok { return; }
      Issue(currentDataPage.value, payload, Some(src));
    }

    method Issue(p: Ppn, d: Payload, replace: Option<Ppn>)
      requires Ready() && InRange(dev.cells, p) && StateAt(dev.cells, p) == EMPTY
      requires replace.Some? ==> InRange(dev.cells, replace.value)
      modifies dev.Repr
      ensures Ready() && dev.cells == IssueWrite(old(dev.cells), p, d, replace)
    {
      hide ListsOk, Device.Ssd.Valid, IssueWrite;
      dev.Issue(p, d, replace);
    }

    /** The copy loop stands at page i: the device, pool and open block are those of `now`,
        the map and its inverse are still those of `base`. */
    ghost predicate Copying(base: Dftl, now: Dftl, pending: map<nat, Ppn>, index: map<Ppn, nat>, v: nat, i: nat)
      reads this, bm, dev, dev.Repr
    {
      && Ready() && View() == Unpatched(now, base)
      && Inv(now) && Swept(now, v, i) && i <= now.size == base.size && v < |now.fl|
      && Deferred(base, now, pending, index, v)
    }

    /** One iteration of the copy loop: a VALID page is copied and its patch recorded. */
    method CleanPage(v: nat, i: nat, pending: map<nat, Ppn>, ghost base: Dftl, ghost now: Dftl,
                     ghost index: map<Ppn, nat>)
      returns (ok: bool, pending': map<nat, Ppn>, ghost now': Dftl, ghost index': map<Ppn, nat>)
      requires Copying(base, now, pending, index, v, i) && i < now.size
      modifies this`currentDataPage, bm, dev.Repr
      ensures !ok ==> MoveAll(now, v, i) == None
      ensures ok ==> Copying(base, now', pending', index', v, i + 1) && MoveAll(now', v, i + 1) == MoveAll(now, v, i)
    {
      var src := Ppn(v, i);
      SweptInRange(now, v, i);
      if IsValid(now.fl, src) { CopyFollowsMove(base, now, pending, index, v, i); } else { SkipPage(now, v, i); }
      hide Inv, Managers.BlockManager.Valid, Device.Ssd.Valid, Deferred, Advance, Move, MoveAll, IssueWrite, Swept;
      ok, pending', now', index' := true, pending, now, index;
      var state := dev.GetState(src);
      if state != VALID { return; }
      ok := CopyPage(src);
      if !ok { return; }
      var owner := reverseTransMap[src];
      pending' := pending[owner := currentDataPage.value];
      index' := index[currentDataPage.value := owner];
      now' := Move(now, src).value;
    }

    /** The copy loop of cleanup_block. */
    method CopyPages(v: nat) returns (ok: bool, pending: map<nat, Ppn>, ghost now: Dftl, ghost index: map<Ppn, nat>)
      requires Valid() && Victim(View(), v)
      modifies this`currentDataPage, bm, dev.Repr
      ensures !ok ==> MoveAll(old(View()), v, 0) == None
      ensures ok ==> Copying(old(View()), now, pending, index, v, blockSize) && MoveAll(old(View()), v, 0) == Some(now)
    {
      hide Inv, Victim, Managers.BlockManager.Valid, Device.Ssd.Valid, Deferred, MoveAll, Swept, Room, Live;
      ghost var base := View();
      now, pending, index := base, map[], map[];
      VictimSwept(base, v);
      DeferredStart(base, v);
      var i := 0;
      ok := true;
      while i < blockSize
        invariant 0 <= i <= blockSize && Copying(base, now, pending, index, v, i)
        invariant MoveAll(now, v, i) == MoveAll(base, v, 0)
      {
        ok, pending, now, index := CleanPage(v, i, pending, base, now, index);
        if !ok { return; }
        i := i + 1;
      }
      MoveAllDone(now, v);
    }

    /** cleanup_block: copies every VALID page of v first, then patches the map in a batch.
        The outcome is that of moving the pages and their entries one by one. */
    method CleanupBlock(v: nat) returns (ok: bool)
      requires Valid() && Victim(View(), v)
      modifies this, bm, dev.Repr
      ensures ok <==> MoveAll(old(View()), v, 0).Some?
      ensures ok ==> Valid() && View() == MoveAll(old(View()), v, 0).value
    {
      hide Inv, Victim, Managers.BlockManager.Valid, Device.Ssd.Valid, Deferred, MoveAll, Swept;
      ghost var base := View();
      var pending;
      ghost var now, index;
      ok, pending, now, index := CopyPages(v);
      if ok {
        PatchMap(base, now, pending, index, v);
      }
    }

    /** The batch update at the end of cleanup_block. */
    method PatchMap(ghost base: Dftl, ghost now: Dftl, pending: map<nat, Ppn>, ghost index: map<Ppn, nat>, ghost v: nat)
      requires transMap == base.trans && reverseTransMap == base.rev && cmt == base.cmt
      requires Deferred(base, now, pending, index, v) && Inv(base) && Inv(now)
      modifies this`transMap, this`reverseTransMap, this`cmt
      ensures transMap == now.trans && reverseTransMap == now.rev && cmt == now.cmt
    {
      PatchReady(base, now, pending, index, v);
      hide Inv, Deferred, Patching, Inverse, Patched, CacheOk;
      PatchStart(base, now, pending, index, v);
      var left := pending.Keys;
      while left != {}
        invariant Patching(base, now, pending, index, left, transMap, reverseTransMap, cmt)
        decreases left
      {
        var u :| u in left;
        PatchEntry(base, now, pending, index, v, left, u);
        left := left - {u};
      }
      PatchDone(base, now, pending, index, v, transMap, reverseTransMap, cmt);
    }

    /** update_translation_map for one copied page, and the entry enters the cache. */
    method PatchEntry(ghost base: Dftl, ghost now: Dftl, pending: map<nat, Ppn>, ghost index: map<Ppn, nat>,
                      ghost v: nat, ghost left: set<nat>, u: nat)
      requires Inverse(pending, index, v, |base.trans|) && Patched(base.trans, now.trans, pending)
      requires Patching(base, now, pending, index, left, transMap, reverseTransMap, cmt) && u in left
      modifies this`transMap, this`reverseTransMap, this`cmt
      ensures Patching(base, now, pending, index, left - {u}, transMap, reverseTransMap, cmt)
    {
      PatchStep(base, now, pending, index, v, left, transMap, reverseTransMap, cmt, u);
      hide Inverse, Patched, Patching;
      cmt := if transMap[u].cached then cmt else cmt + 1;
      transMap := transMap[u := transMap[u].(ppn := Some(pending[u]), cached := true)];
      reverseTransMap := reverseTransMap[pending[u] := u];
    }

    lemma SsdShape()
      requires Ready()
      ensures dev.Valid() && |dev.blocks| == |dev.cells| > 1
    {
    }

    /** A block with the most INVALID pages, not counting `skip`; ties go either way. */
    method MostInvalid(skip: Option<nat>) returns (v: nat)
      requires Ready()
      ensures v < |dev.cells| && skip != Some(v)
      ensures forall k :: 0 <= k < |dev.cells| && skip != Some(k) ==> dev.cells[k].invalid <= dev.cells[v].invalid
    {
      hide Managers.BlockManager.Valid, Device.Ssd.Valid, Ready;
      SsdShape();
      v := if skip == Some(0) then 1 else 0;
      var most := dev.PagesInvalid(v);
      var k := v + 1;
      while k < |dev.blocks|
        invariant v < k <= |dev.blocks| && skip != Some(v) && most == dev.cells[v].invalid
        invariant forall j :: 0 <= j < k && skip != Some(j) ==> dev.cells[j].invalid <= most
      {
        if skip != Some(k) {
          var n := dev.PagesInvalid(k);
          if n == most {
            if * { v := k; }
          } else if n > most {
            v, most := k, n;
          }
        }
        k := k + 1;
      }
    }

    /** Cleans one victim, erases it and frees it. */
    method Reclaim(v: nat) returns (ok: bool)
      requires Valid() && Victim(View(), v)
      modifies this, bm, dev.Repr
      ensures ok <==> Collect(old(View()), v).Some?
      ensures ok ==> Valid() && View() == Collect(old(View()), v).value
    {
      CollectUnfolds(View(), v);
      hide Inv, Victim, ListsOk, MoveAll, Collect, Swept, Device.Ssd.Valid;
      ok := CleanupBlock(v);
      if ok {
        bm.EraseAndFree(v);
      }
    }

    /** insert_events; gc says whether the usage ratio lets it collect. It takes at most five
        turns, each for a block with the most INVALID pages among those not being written, and
        stops early only at one that may not be cleaned. ok is false where a cleaning cannot
        complete. */
    method InsertEvents(gc: bool) returns (ok: bool, ghost steps: seq<Step>, ghost turns: nat)
      requires Valid()
      modifies this, bm, dev.Repr
      ensures ok ==> Valid() && Run(old(View()), steps) == Some(View())
      ensures ok ==> Collection(old(View()), gc, steps, turns)
      ensures !ok ==> gc && Stuck(old(View()), steps)
      ensures ok && gc ==> forall v :: Dirtiest(old(View()), v) && Cleanable(old(View()), v) ==>
                steps != [] && steps[0] == Clean(v)
      ensures ok ==> |steps| <= 5 && forall s :: s in steps ==> s.Clean?
      ensures ok ==> Reserve(bm.View()) >= Reserve(old(bm.View())) && |transMap| == |old(transMap)|
      ensures Reserve(old(bm.View())) >= 2 ==> ok
    {
      ghost var m := View();
      RunNothing(m);
      QuietPool(m);
      NoTurn(m);
      hide Inv, ListsOk, Device.Ssd.Valid, Run, Reserve, Turns, Stuck, Dirtiest, Cleanable, Stops;
      ok, steps, turns := true, [], 0;
      if !gc { return; }
      bm.InsertEvents(true);
      assert View() == m;
      ok, steps, turns := CollectBlocks();
      if ok {
        forall v | Dirtiest(m, v) && Cleanable(m, v) ensures steps != [] && steps[0] == Clean(v) {
          CleansDirtiest(m, steps, turns, v);
        }
      }
    }

    /** Phase two of insert_events. */
    method CollectBlocks() returns (ok: bool, ghost steps: seq<Step>, ghost turns: nat)
      requires Valid()
      modifies this, bm, dev.Repr
      ensures ok ==> Valid() && Run(old(View()), steps) == Some(View())
      ensures ok ==> Collection(old(View()), true, steps, turns)
      ensures !ok ==> Stuck(old(View()), steps)
      ensures ok ==> |steps| <= 5 && forall s :: s in steps ==> s.Clean?
      ensures ok ==> Reserve(bm.View()) >= Reserve(old(bm.View())) && |transMap| == |old(transMap)|
      ensures Reserve(old(bm.View())) >= 2 ==> ok
    {
      hide Collecting, Inv, Run, Chosen, Cleanable, Stuck, Collection, Reserve, ListsOk, Device.Ssd.Valid, Cleans;
      hide Managers.BlockManager.Valid;
      ghost var m := View();
      CollectingStart();
      ok, steps, turns := true, [], 0;
      var toErase := 5;
      var it: nat, more := PickVictim(true);
      while toErase != 0 && more
        invariant Ready() && Collecting(m, steps, turns) && 0 <= turns == 5 - toErase
        invariant Chosen(View(), turns > 0, it) && it < |dev.cells| && (more <==> Cleanable(View(), it))
        decreases toErase
      {
        ok, steps := CleanUnlessWriting(it, m, steps, turns);
        if !ok { return; }
        it, more := PickVictim(false);
        toErase := toErase - 1;
        turns := turns + 1;
      }
      CollectingDone(m, steps, turns, it);
    }

    lemma CollectingStart()
      requires Valid()
      ensures Ready() && Inv(View()) && Collecting(View(), [], 0)
    {
      RunNothing(View());
      NoTurn(View());
      hide Inv, Run, Reserve, Managers.BlockManager.Valid, Device.Ssd.Valid;
    }

    lemma CollectingDone(m: Dftl, steps: seq<Step>, turns: nat, it: nat)
      requires Collecting(m, steps, turns)
      requires turns < 5 ==> Chosen(View(), turns > 0, it) && it < |dev.cells| && !Cleanable(View(), it)
      ensures Valid() && Inv(m) && Run(m, steps) == Some(View()) && Collection(m, true, steps, turns)
      ensures |steps| <= 5 && forall s :: s in steps ==> s.Clean?
      ensures Reserve(bm.View()) >= Reserve(m.pool) && |transMap| == |m.trans|
    {
      hide Inv, Run, Chosen, Cleanable, Reserve;
    }

    /** `steps` are what `turns` turns of the collection loop did to m. */
    ghost predicate Collecting(m: Dftl, steps: seq<Step>, turns: nat)
      reads this, bm, dev, dev.Repr
    {
      && Valid() && Inv(m) && Turns(m, steps, turns) && Run(m, steps) == Some(View())
      && Reserve(bm.View()) >= Reserve(m.pool) && |transMap| == |m.trans|
    }

    /** One turn of the collection loop; `before` is the run from m so far. */
    method CleanUnlessWriting(it: nat, ghost m: Dftl, ghost before: seq<Step>, ghost turns: nat)
      returns (ok: bool, ghost steps: seq<Step>)
      requires Collecting(m, before, turns) && turns < 5
      requires it < |dev.cells| && Chosen(View(), turns > 0, it) && Cleanable(View(), it)
      modifies this, bm, dev.Repr
      ensures ok ==> Ready() && Collecting(m, steps, turns + 1)
      ensures !ok ==> steps == before && Stuck(m, before)
      ensures Reserve(m.pool) >= 2 ==> ok
    {
      hide Inv, Managers.BlockManager.Valid, Device.Ssd.Valid, Run, Apply, Collect, Reserve, Direct, Room, SameContent;
      hide Turns, Stuck, Chosen, Cleanable, Victim;
      ok, steps := true, before;
      NextTurn(m, before, turns, View(), it);
      if bm.currentWritingBlock != it {
        CollectOk(View(), it);
        ok := Reclaim(it);
        if ok { steps := before + [Clean(it)]; }
      }
    }

    method MayClean(it: nat) returns (more: bool)
      requires Ready() && it < |dev.cells|
      ensures more <==> dev.cells[it].invalid > 0 && dev.cells[it].programmed == blockSize
    {
      var invalid := dev.PagesInvalid(it);
      var programmed := dev.PagesProgrammed(it);
      more := invalid > 0 && programmed == blockSize;
    }

    /** The last block in the order by INVALID pages; past the first choice, the one before
        it if that is being written. `more` says whether the block may be cleaned. */
    method PickVictim(first: bool) returns (it: nat, more: bool)
      requires Ready()
      ensures it < |dev.cells| && Chosen(View(), !first, it)
      ensures more <==> Cleanable(View(), it)
    {
      it := MostInvalid(None);
      if !first && bm.currentWritingBlock == it {
        it := MostInvalid(Some(it));
      }
      more := MayClean(it);
    }

    // ---------------------------------------------------------------- allocation

    /** The part of get_page_block that starts a collection when the free list is short. */
    method RefillPool(gc: bool) returns (ok: bool, ghost steps: seq<Step>)
      requires Valid()
      modifies this, bm, dev.Repr
      ensures ok ==> Valid() && Run(old(View()), steps) == Some(View())
      ensures ok ==> Refills(old(View()), gc, steps)
      ensures !ok ==> gc && Short(old(bm.View())) && exists ss :: Stuck(Marked(old(View())), ss)
      ensures ok ==> (forall s :: s in steps ==> s.Clean? || s.MarkOut?) && |transMap| == |old(transMap)|
      ensures ok ==> Reserve(bm.View()) >= Reserve(old(bm.View()))
      ensures Reserve(old(bm.View())) >= 2 ==> ok
    {
      ghost var m := View();
      RunNothing(m);
      MarkOutOk(m);
      RunOne(m, MarkOut);
      ok, steps := true, [];
      if bm.virgin >= bm.maxBlocks && |bm.freeList| <= 1 && !bm.outOfBlocks {
        bm.outOfBlocks := true;
        assert bm.Valid();
        hide Inv, ListsOk, Device.Ssd.Valid, Run, Collection, Stuck, Dirtiest, Cleanable;
        assert View() == Marked(m);
        ghost var s, turns;
        ok, s, turns := InsertEvents(gc);
        if ok {
          RunAppend(m, [MarkOut], s);
          steps := [MarkOut] + s;
          assert steps[1..] == s;
        }
      }
    }

    /** get_free_data_page for a host write: `collect` are the steps of insert_events, `refill`
        those of the allocation of a block, if it is `open`ed. */
    method GetFreeDataPage(gc: bool, gcAgain: bool)
      returns (ok: bool, ghost collect: seq<Step>, ghost refill: seq<Step>, ghost open: bool)
      requires Valid()
      modifies this, bm, dev.Repr
      ensures ok ==> Ready() && |transMap| == |old(transMap)|
      ensures ok ==> Allocates(old(View()), gc, gcAgain, collect, refill, open)
      ensures ok ==> Run(old(View()), collect + refill).Some?
      ensures ok ==> forall s :: s in collect + refill ==> s.Clean? || s.MarkOut?
      ensures ok ==> var m := Run(old(View()), collect + refill).value;
              (if open then !Dry(m.pool) else !NeedsBlock(m)) && View() == Allocated(m, open)
      ensures !ok ==> Fails(old(View()), gc, gcAgain)
      ensures !NeedsBlock(old(View())) ==> ok && !open && collect == [] && refill == []
      ensures Reserve(old(bm.View())) >= 2 ==> ok
    {
      hide Inv, Managers.BlockManager.Valid, Device.Ssd.Valid, Run, Reserve, Allocated, Collection, Stuck;
      hide RefusesBlock, Takes, Cleanable, Dirtiest, Dry, Turns;
      ghost var m := View();
      ok, collect, refill, open := true, [], [], false;
      RunNothing(m);
      if currentDataPage.None? || currentDataPage.value.i + 1 >= blockSize {
        ghost var turns;
        ok, collect, turns := InsertEvents(gc);
        if !ok { return; }
      }
      ghost var r := View();
      ok, refill, open := TakePage(gcAgain);
      RunAppend(m, collect, refill);
    }

    /** The page after the open one, or the first page of a new block. */
    method TakePage(gc: bool) returns (ok: bool, ghost steps: seq<Step>, ghost open: bool)
      requires Valid()
      modifies this, bm, dev.Repr
      ensures ok ==> Ready() && Run(old(View()), steps).Some? && |transMap| == |old(transMap)|
      ensures ok ==> Takes(old(View()), gc, steps, open)
      ensures ok ==> forall s :: s in steps ==> s.Clean? || s.MarkOut?
      ensures ok ==> var m := Run(old(View()), steps).value;
              (if open then !Dry(m.pool) else !NeedsBlock(m)) && View() == Allocated(m, open)
      ensures !ok ==> RefusesBlock(old(View()), gc)
      ensures open <==> NeedsBlock(old(View()))
      ensures !open ==> ok && steps == []
      ensures Reserve(old(bm.View())) >= 2 ==> ok
    {
      ok, steps, open := true, [], false;
      RunNothing(View());
      hide Inv, Managers.BlockManager.Valid, Device.Ssd.Valid, Run, Reserve, Dry, Refills, Refuses;
      if currentDataPage.None? || currentDataPage.value.i + 1 >= blockSize {
        open := true;
        ok, steps := OpenBlock(gc);
      } else {
        currentDataPage := Some(Ppn(currentDataPage.value.b, currentDataPage.value.i + 1));
      }
    }

    /** get_free_block for the next page of a host write. */
    method OpenBlock(gc: bool) returns (ok: bool, ghost steps: seq<Step>)
      requires Valid()
      modifies this, bm, dev.Repr
      ensures ok ==> Ready() && Run(old(View()), steps).Some? && |transMap| == |old(transMap)|
      ensures ok ==> Refills(old(View()), gc, steps)
      ensures ok ==> forall s :: s in steps ==> s.Clean? || s.MarkOut?
      ensures ok ==> var m := Run(old(View()), steps).value; !Dry(m.pool) && View() == Allocated(m, true)
      ensures !ok ==> Refuses(old(View()), gc)
      ensures Reserve(old(bm.View())) >= 2 ==> ok
    {
      hide Inv, ListsOk, Device.Ssd.Valid, Run, Refills, Stuck;
      ok, steps := RefillPool(gc);
      if !ok { return; }
      ghost var r := View();
      QuietPool(r);
      QuietGet(bm.View(), DATA, false);
      var k;
      ok, k := bm.GetFreeBlock(DATA, false);
      if ok {
        currentDataPage := Some(Ppn(k, 0));
      } else {
        assert Dry(r.pool);
      }
    }

    // ---------------------------------------------------------------- cached mapping table

    /** An entry the index by last visit could put first. */
    method FindLru() returns (v: nat)
      requires CacheOk(View()) && cmt >= totalCMTentries
      ensures Lru(View(), v)
    {
      SomeCached(View());
      var best: Option<nat> := None;
      var i := 0;
      while i < |transMap|
        invariant 0 <= i <= |transMap|
        invariant best.None? ==> forall u :: 0 <= u < i ==> !transMap[u].cached
        invariant best.Some? ==> best.value < i && transMap[best.value].cached
        invariant best.Some? ==> forall u :: 0 <= u < i && transMap[u].cached ==>
          transMap[best.value].last <= transMap[u].last
      {
        if transMap[i].cached {
          if best.None? || transMap[i].last < transMap[best.value].last {
            best := Some(i);
          } else if transMap[i].last == transMap[best.value].last {
            if * { best := Some(i); }
          }
        }
        i := i + 1;
      }
      v := best.value;
    }

    /** evict_page_from_cache: evicts least recently visited entries until there is room. */
    method EvictPages() returns (ghost steps: seq<Step>)
      requires Valid()
      modifies this`transMap, this`cmt
      ensures Valid() && Run(old(View()), steps) == Some(View()) && cmt < totalCMTentries
      ensures |transMap| == |old(transMap)| && (forall s :: s in steps ==> s.Dismiss?)
      ensures forall u :: 0 <= u < |transMap| && !old(transMap)[u].cached ==> transMap[u] == old(transMap)[u]
    {
      steps := [];
      ghost var m := View();
      RunNothing(m);
      hide Inv, Managers.BlockManager.Valid, Device.Ssd.Valid, Run, Lru;
      while cmt >= totalCMTentries
        invariant Valid() && Run(m, steps) == Some(View())
        invariant |transMap| == |m.trans| && (forall s :: s in steps ==> s.Dismiss?)
        invariant forall u :: 0 <= u < |transMap| && !m.trans[u].cached ==> transMap[u] == m.trans[u]
        decreases cmt - totalCMTentries
      {
        steps := EvictOne(m, steps);
      }
    }

    method EvictOne(ghost m: Dftl, ghost before: seq<Step>) returns (ghost steps: seq<Step>)
      requires Valid() && cmt >= totalCMTentries && Inv(m) && Run(m, before) == Some(View())
      modifies this`transMap, this`cmt
      ensures exists v: nat ::
                && Lru(old(View()), v)
                && transMap == old(transMap)[v := old(transMap)[v].(cached := false, last := -2.0)]
                && steps == before + [Dismiss(v)]
      ensures cmt == old(cmt) - 1
      ensures Valid() && Run(m, steps) == Some(View())
    {
      hide Inv, Run, SameContent, CacheOk, Lru, Managers.BlockManager.Valid, Device.Ssd.Valid, Apply;
      CacheDef(View());
      var v := FindLru();
      EvictRuns(m, before, View(), v);
      cmt := cmt - 1;
      transMap := transMap[v := transMap[v].(cached := false, last := -2.0)];
      steps := before + [Dismiss(v)];
    }

    /** A hit: the entry's visit time is renewed. */
    method Touch(lpn: nat, now: real) returns (ghost steps: seq<Step>)
      requires Valid() && lpn < |transMap| && transMap[lpn].cached
      modifies this`transMap
      ensures Valid() && Run(old(View()), steps) == Some(View()) && steps == [Visit(lpn, now)]
      ensures transMap == old(transMap)[lpn := old(transMap)[lpn].(cached := true, last := now)]
    {
      hide Inv, Run, SameContent, Managers.BlockManager.Valid, Device.Ssd.Valid, Apply;
      VisitRuns(View(), lpn, now);
      transMap := transMap[lpn := transMap[lpn].(last := now)];
      steps := [Visit(lpn, now)];
    }

    /** A miss with room in the cache: the entry is loaded. */
    method Load(lpn: nat, now: real) returns (ghost steps: seq<Step>)
      requires Valid() && lpn < |transMap| && !transMap[lpn].cached && cmt < totalCMTentries
      modifies this`transMap, this`cmt
      ensures Valid() && Run(old(View()), steps) == Some(View()) && steps == [Miss(lpn, now)]
      ensures cmt == old(cmt) + 1
      ensures transMap == old(transMap)[lpn := old(transMap)[lpn].(cached := true, last := now)]
    {
      hide Inv, Run, SameContent, Managers.BlockManager.Valid, Device.Ssd.Valid, Apply;
      MissRuns(View(), lpn, now);
      cmt := cmt + 1;
      transMap := transMap[lpn := transMap[lpn].(cached := true, last := now)];
      steps := [Miss(lpn, now)];
    }

    /** resolve_mapping: after it the entry is cached and was visited now. */
    method ResolveMapping(lpn: nat, now: real) returns (ghost steps: seq<Step>)
      requires Valid() && lpn < |transMap|
      modifies this`transMap, this`cmt
      ensures Valid() && Run(old(View()), steps) == Some(View()) && |transMap| == |old(transMap)|
      ensures Quiet(steps) && Resolves(old(View()), lpn, now, steps)
      ensures !old(transMap)[lpn].cached ==> cmt <= totalCMTentries
      ensures transMap[lpn].cached && transMap[lpn].last == now
    {
      hide Inv, Run, Managers.BlockManager.Valid, Device.Ssd.Valid;
      if transMap[lpn].cached {
        steps := Touch(lpn, now);
      } else {
        ghost var m := View();
        steps := EvictPages();
        ghost var s := Load(lpn, now);
        RunAppend(m, steps, s);
        assert (steps + s)[..|steps + s| - 1] == steps;
        steps := steps + s;
      }
    }

    // ---------------------------------------------------------------- host operations

    /** The state afterwards is that of the run `steps`, which writes and trims nothing. */
    method Read(lpn: nat, now: real) returns (r: Option<Payload>, ghost steps: seq<Step>)
      requires Valid() && lpn < |transMap|
      modifies this`transMap, this`cmt
      ensures Valid() && r == old(Contents(lpn))
      ensures Run(old(View()), steps) == Some(View()) && Resolves(old(View()), lpn, now, steps)
      ensures lpn < |transMap| && transMap[lpn].cached && transMap[lpn].last == now
      ensures forall n: nat {:trigger Contents(n)} :: Contents(n) == old(Contents(n))
    {
      ghost var m := View();
      steps := ResolveMapping(lpn, now);
      QuietRun(m, steps);
      MappedInRange(View(), lpn);
      hide Inv, Run;
      if transMap[lpn].ppn.None? {
        r := None;
      } else {
        var d := dev.Read(transMap[lpn].ppn.value);
        r := Some(d);
      }
      assert r == Content(View(), lpn);
    }

    /** The map update and the WRITE event of a host write, the page being allocated. */
    method PutPage(lpn: nat, d: Payload)
      requires Ready() && CanBind(View(), lpn)
      modifies this, dev.Repr
      ensures Ready() && View() == Bind(old(View()), lpn, d)
    {
      hide IssueWrite, Managers.BlockManager.Valid, Device.Ssd.Valid;
      var page := currentDataPage.value;
      var replace := transMap[lpn].ppn;
      transMap := transMap[lpn := transMap[lpn].(ppn := Some(page))];
      reverseTransMap := reverseTransMap[page := lpn];
      Issue(page, d, replace);
    }

    /** ok is false where an allocation fails or a collection would start inside another; with
        two blocks in reserve neither happens. Collection inside the allocation may move the
        very page being overwritten. The state afterwards is that of the steps of `trail`, which
        end with the write and trim nothing. */
    method Write(lpn: nat, d: Payload, now: real, gc: bool, gcAgain: bool) returns (ok: bool, ghost trail: Trail)
      requires Valid() && lpn < |transMap|
      modifies this, bm, dev.Repr
      ensures ok ==> Valid() && |transMap| == |old(transMap)| && drift == old(drift)
      ensures ok ==> Leads(old(View()), trail, lpn, now, gc, gcAgain)
      ensures ok ==> Run(old(View()), trail.Steps(lpn, d)) == Some(View()) && Writes(trail.Steps(lpn, d), lpn, d)
      ensures ok ==> transMap[lpn] == MPage(currentDataPage, true, now)
      ensures ok ==> forall n: nat {:trigger Contents(n)} ::
                Contents(n) == if n == lpn then Some(d) else old(Contents(n))
      ensures !ok ==> Ends(old(View()), trail, lpn, now, gc, gcAgain)
      ensures !NeedsBlock(old(View())) ==>
                ok && currentDataPage == Some(Ppn(old(currentDataPage).value.b, old(currentDataPage).value.i + 1))
      ensures Reserve(old(bm.View())) >= 2 ==> ok
    {
      hide Inv, Run, Bind, Writes, Allocated, CanBind, Managers.BlockManager.Valid, Device.Ssd.Valid;
      hide Resolves, Allocates, Fails, Reserve, Dry;
      ghost var m := View();
      ghost var s1 := ResolveMapping(lpn, now);
      ghost var c, f, open := [], [], false;
      RunNothing(View());
      ok, c, f, open := GetFreeDataPage(gc, gcAgain);
      trail := Trail(s1, c, f, open);
      if !ok { return; }
      assert c == [] ==> c + f == f;
      WriteDone(m, s1, c + f, open, lpn, d);
      PutPage(lpn, d);
    }

    method InvalidatePage(p: Ppn)
      requires Ready() && InRange(dev.cells, p)
      modifies dev.Repr
      ensures Ready() && dev.cells == Discard(old(dev.cells), p)
    {
      hide ListsOk, Device.Ssd.Valid, Discard;
      dev.Invalidate(p);
    }

    /** The page is invalidated and unmapped; a cached entry is counted out of the cache. */
    method Trim(lpn: nat)
      requires Valid() && lpn < |transMap|
      modifies this, dev.Repr
      ensures Valid() && View() == DftlSpec.Trim(old(View()), lpn)
      ensures forall n: nat {:trigger Contents(n)} :: Contents(n) == if n == lpn then None else old(Contents(n))
    {
      TrimOk(View(), lpn);
      MappedInRange(View(), lpn);
      hide Inv, Managers.BlockManager.Valid, Device.Ssd.Valid, DftlSpec.Trim;
      TrimPage(lpn);
    }

    method TrimPage(lpn: nat)
      requires Ready() && lpn < |transMap| && (transMap[lpn].ppn.Some? ==> InRange(dev.cells, transMap[lpn].ppn.value))
      modifies this, dev.Repr
      ensures Ready() && View() == DftlSpec.Trim(old(View()), lpn)
    {
      hide Managers.BlockManager.Valid, Device.Ssd.Valid, Discard;
      var current := transMap[lpn];
      if current.ppn.Some? {
        InvalidatePage(current.ppn.value);
        Unmap(lpn);
      }
    }

    /** The map part of a trim. The entry read before the cache flag was cleared is written
        back, so the flag stays set while cmt has been counted down. */
    method Unmap(lpn: nat)
      requires lpn < |transMap|
      modifies this`transMap, this`cmt, this`drift
      ensures transMap == old(transMap)[lpn := old(transMap)[lpn].(ppn := None)]
      ensures cmt == old(cmt) - (if old(transMap)[lpn].cached then 1 else 0)
      ensures drift == old(drift) + (if old(transMap)[lpn].cached then 1 else 0)
    {
      var current := transMap[lpn];
      if transMap[lpn].cached {
        cmt := cmt - 1;
        transMap := transMap[lpn := transMap[lpn].(cached := false, last := -2.0)];
        drift := drift + 1;
      }
      current := current.(ppn := None);
      transMap := transMap[lpn := current];
    }
  }
}
