/** The MNFTL object (revisions 1 to 3), proved against the state machine of MnSpec. */
module Mnftls {
  import opened Flash
  import opened Pools
  import opened MnMaps
  import opened MnSpec
  import Device
  import Managers

  class Mnftl {
    const P: nat
    const Q: nat
    const dev: Device.Ssd
    const bm: Managers.BlockManager
    var PMD: Pmd
    var PMT: Pmt
    /** Revision 3's reverse index. Revisions 1 and 2 have none: the scan never reads it. */
    var rmap: map<Ppn, Slot>
    var hasCurrentBlock: bool
    var currentBlock: nat
    var currentPageOffset: nat
    ghost var oob: map<Ppn, Row>
    ghost var stale: set<(nat, nat)>
    ghost var orphans: set<Ppn>

    ghost predicate Separate() {
      bm.dev == dev && this !in dev.Repr && bm !in dev.Repr && dev.blockSize == P
    }

    ghost function Tables(): Maps
      reads this
    {
      Maps(PMT, PMD, rmap, oob, stale, orphans)
    }

    ghost function View(): Mn
      reads this, bm, dev
    {
      Mn(Geometry(P, Q), dev.cells, bm.View(), Tables(), hasCurrentBlock, currentBlock, currentPageOffset)
    }

    ghost predicate Valid()
      reads this, bm, dev, dev.Repr
    {
      Separate() && dev.Valid() && bm.Valid() && Inv(View())
    }

    /** What the drive holds at a logical page. */
    ghost function Contents(lpn: nat): Option<Payload>
      requires Valid()
      reads this, bm, dev, dev.Repr
    {
      ReadLpn(View(), lpn)
    }

    constructor (dev: Device.Ssd, bm: Managers.BlockManager, oobSize: nat, entrySize: nat)
      requires dev.Valid() && bm.Valid() && bm.dev == dev
      requires 0 < entrySize <= oobSize
      requires dev.cells == seq(|dev.cells|, _ => NewBlock(dev.blockSize)) && bm.View() == NewPool(|dev.cells|)
      ensures Valid() && View() == NewMn(Geometry(dev.blockSize, oobSize / entrySize), |dev.cells|)
      ensures forall lpn {:trigger Contents(lpn)} :: Contents(lpn) == None
    {
      P, Q := dev.blockSize, oobSize / entrySize;
      this.dev, this.bm := dev, bm;
      PMD, PMT, rmap := map[], map[], map[];
      hasCurrentBlock, currentBlock, currentPageOffset := false, 0, 0;
      oob, stale, orphans := map[], {}, {};
      new;
      NewMnOk(Geometry(P, Q), |dev.cells|);
    }

    method AllocateNewCurrentBlock(gc: bool) returns (ok: bool)
      requires Valid()
      modifies this, bm, dev.Repr
      ensures ok <==> !Dry(old(bm.View()))
      ensures ok ==> bm.Valid() && View() == old(View()).(pool := TakeAs(old(bm.View()), DATA),
                       has := true, cur := NextBlock(old(bm.View())), off := 0)
    {
      QuietGet(bm.View(), DATA, gc);
      var k;
      ok, k := bm.GetFreeBlock(DATA, gc);
      if ok {
        currentBlock, hasCurrentBlock, currentPageOffset := k, true, 0;
      }
    }

    /** Opens a block if there is none or it is full. */
    method EnsureCurrentBlock(gc: bool) returns (ok: bool)
      requires Valid()
      modifies this, bm, dev.Repr
      ensures ok <==> Open(old(View())).Some?
      ensures ok ==> Valid() && View() == Open(old(View())).value && CanProgram(View())
    {
      OpenOk(View());
      ok := true;
      if !hasCurrentBlock || currentPageOffset == P {
        ok := AllocateNewCurrentBlock(gc);
      }
    }

    /** The page get_free_page offers in the current block. It is the first EMPTY one, at
        offset current_page_offset. */
    method AllocPageInCurrentBlock() returns (p: Ppn)
      requires Separate() && dev.Valid() && CanProgram(View())
      ensures p == NextPage(View())
      ensures CurrentOk(View()) ==>
        p == Ppn(currentBlock, currentPageOffset) && FirstEmpty(dev.cells[currentBlock], 0) == Some(p.i)
    {
      if CurrentOk(View()) { FreePageIsScan(dev.cells[currentBlock], 0); }
      var r := dev.GetFreePage(currentBlock);
      p := r.value;
    }

    method Read(lpn: nat) returns (r: Option<Payload>)
      requires Valid()
      ensures r == Contents(lpn)
    {
      var lbn, bo := lpn / P, lpn % P;
      var pmdIndex, mapSlot := bo / Q, bo % Q;
      SlotInRange(Geometry(P, Q), lpn);
      ReadIsEntry(View(), Slot(lbn, pmdIndex, mapSlot));
      if lbn !in PMD {
        return None;
      }
      if PMD[lbn][pmdIndex] == None {
        return None;
      }
      var ppn := PMT[lbn][pmdIndex][mapSlot];
      if ppn == None {
        return None;
      }
      assert ppn == Entry(PMT, Slot(lbn, pmdIndex, mapSlot));
      var d := dev.Read(ppn.value);
      r := Some(d);
    }

    method CreateTables(lbn: nat)
      requires Geometry(P, Q).Ok() && PMT.Keys == PMD.Keys
      modifies this`PMT, this`PMD
      ensures Tables() == AddRow(old(Tables()), Geometry(P, Q), lbn)
    {
      if lbn !in PMD {
        PMD := PMD[lbn := seq((P + Q - 1) / Q, _ => None)];
      }
      if lbn !in PMT {
        PMT := PMT[lbn := seq((P + Q - 1) / Q, _ => seq(Q, _ => None))];
      }
    }

    /** Points slot x at page p, which becomes the anchor of its PMT. */
    method StoreMapping(x: Slot, p: Ppn)
      requires Has(PMT, x) && x.l in PMD && x.d < |PMD[x.l]|
      modifies this`PMT, this`PMD, this`rmap, this`oob, this`stale
      ensures Tables() == Bind(old(Tables()), x, p)
    {
      var oldPpn := PMT[x.l][x.d][x.s];
      if oldPpn.Some? {
        rmap := rmap - {oldPpn.value};
      }
      PMT := PMT[x.l := PMT[x.l][x.d := PMT[x.l][x.d][x.s := Some(p)]]];
      PMD := PMD[x.l := PMD[x.l][x.d := Some(p)]];
      rmap := rmap[p := x];
      oob, stale := oob[p := PMT[x.l][x.d]], stale - {(x.l, x.d)};
    }

    method ClearMapping(x: Slot)
      requires Has(PMT, x)
      modifies this`PMT, this`rmap, this`stale, this`orphans
      ensures Tables() == Unbind(old(Tables()), x)
    {
      var oldPpn := PMT[x.l][x.d][x.s];
      if oldPpn.Some? {
        rmap := rmap - {oldPpn.value};
        PMT := PMT[x.l := PMT[x.l][x.d := PMT[x.l][x.d][x.s := None]]];
        stale, orphans := stale + {(x.l, x.d)}, orphans + {oldPpn.value};
      }
    }

    /** Programs the next page of the open current block for slot x. */
    method PlaceInSlot(x: Slot, d: Payload)
      requires Separate() && bm.Valid() && CanProgram(View())
      requires Has(PMT, x) && x.l in PMD && x.d < |PMD[x.l]|
      requires Entry(PMT, x).Some? ==> InRange(dev.cells, Entry(PMT, x).value)
      modifies this, dev.Repr
      ensures dev.Valid() && bm.Valid() && View() == Place(old(View()), x, d)
    {
      hide ListsOk, Device.Ssd.Valid, Bind, IssueWrite, CurrentOk;
      var newPpn := AllocPageInCurrentBlock();
      currentPageOffset := currentPageOffset + 1;
      var oldPpn := PMT[x.l][x.d][x.s];
      StoreMapping(x, newPpn);
      dev.Issue(newPpn, d, oldPpn);
    }

    /** ok is false exactly when a block is needed and none is left. */
    method Write(lpn: nat, d: Payload, gc: bool) returns (ok: bool)
      requires Valid()
      modifies this, bm, dev.Repr
      ensures ok <==> MnSpec.Write(old(View()), lpn, d).Some?
      ensures ok ==> Valid() && View() == MnSpec.Write(old(View()), lpn, d).value
      ensures ok ==> forall n {:trigger Contents(n)} :: Contents(n) == if n == lpn then Some(d) else old(Contents(n))
    {
      hide Inv, Open, Place, AddRow, MnSpec.Write, Managers.BlockManager.Valid, Device.Ssd.Valid, CanProgram, Has,
           Entry;
      Parts(View());
      var lbn, bo := lpn / P, lpn % P;
      WriteRefines(View(), lpn, d);
      ok := EnsureCurrentBlock(gc);
      if !ok { return; }
      WriteUnfolds(old(View()), lpn, d);
      CreateTables(lbn);
      PlaceInSlot(Slot(lbn, bo / Q, bo % Q), d);
    }

    method Trim(lpn: nat)
      requires Valid()
      modifies this
      ensures Valid() && View() == MnSpec.Trim(old(View()), lpn)
      ensures forall n {:trigger Contents(n)} :: Contents(n) == if n == lpn then None else old(Contents(n))
    {
      hide Inv, Managers.BlockManager.Valid, Device.Ssd.Valid, Unbind, Has;
      Parts(View());
      var lbn, bo := lpn / P, lpn % P;
      TrimRefines(View(), lpn);
      if lbn in PMD {
        TrimHas(View(), lpn);
        SlotRow(Tables(), Geometry(P, Q), SlotOf(Geometry(P, Q), lpn));
      }
      if lbn !in PMD {
        return;
      }
      if bo / Q < |PMD[lbn]| {
        ClearMapping(Slot(lbn, bo / Q, bo % Q));
      }
    }

    /** Revisions 1 and 2: looks for the page in every slot of every PMT. */
    method Scan(p: Ppn) returns (r: Option<Slot>)
      requires MapsOk(Tables(), Geometry(P, Q))
      ensures ScanFinds(Tables(), p, r)
    {
      var rows := PMT.Keys;
      while rows != {}
        invariant rows <= PMT.Keys
        invariant forall x :: Has(PMT, x) && x.l !in rows ==> Entry(PMT, x) != Some(p)
        decreases rows
      {
        var l :| l in rows;
        var pmts := PMT[l];
        for d := 0 to |pmts|
          invariant forall x :: Has(PMT, x) && x.l == l && x.d < d ==> Entry(PMT, x) != Some(p)
        {
          for s := 0 to |pmts[d]|
            invariant forall x :: Has(PMT, x) && x.l == l && x.d == d && x.s < s ==> Entry(PMT, x) != Some(p)
          {
            if pmts[d][s] == Some(p) {
              assert Entry(PMT, Slot(l, d, s)) == Some(p);
              return Some(Slot(l, d, s));
            }
          }
        }
        rows := rows - {l};
      }
      r := None;
    }

    /** Revision 3: one look at the reverse index. */
    method Lookup(p: Ppn) returns (r: Option<Slot>)
      requires MapsOk(Tables(), Geometry(P, Q))
      ensures ScanFinds(Tables(), p, r)
    {
      r := if p in rmap then Some(rmap[p]) else None;
      assert p in rmap ==> Entry(PMT, rmap[p]) == Some(p);
    }

    /** Points the slot of a moved page at its new place; byIndex selects the revision. */
    method RemapPage(src: Ppn, dst: Ppn, byIndex: bool)
      requires MapsOk(Tables(), Geometry(P, Q))
      modifies this`PMT, this`PMD, this`rmap, this`oob, this`stale, this`orphans
      ensures Tables() == Remap(old(Tables()), src, dst)
    {
      var r;
      if byIndex {
        r := Lookup(src);
      } else {
        r := Scan(src);
      }
      IndexEqualsScan(Tables(), Geometry(P, Q), src, dst, r);
      if r.Some? {
        StoreMapping(r.value, dst);
      } else {
        oob, orphans := oob[dst := []], if src in orphans then orphans - {src} + {dst} else orphans;
      }
    }

    /** One move of the relocation loop, the current block being open. */
    method CopyPage(src: Ppn, byIndex: bool)
      requires Separate() && bm.Valid() && MapsOk(Tables(), Geometry(P, Q))
      requires CanCopy(View(), src)
      modifies this, dev.Repr
      ensures dev.Valid() && bm.Valid() && View() == Copy(old(View()), src)
    {
      hide MapsOk, ListsOk, Device.Ssd.Valid;
      var data := dev.Read(src);
      var dst := AllocPageInCurrentBlock();
      currentPageOffset := currentPageOffset + 1;
      dev.Issue(dst, data, Some(src));
      RemapPage(src, dst, byIndex);
    }

    /** Moves the live pages of block v, then erases and frees it. Whichever way slots are
        found, the outcome is the same and no logical page changes. */
    method CleanupBlock(v: nat, byIndex: bool, gc: bool) returns (ok: bool)
      requires Valid() && Victim(View(), v)
      modifies this, bm, dev.Repr
      ensures ok <==> Collect(old(View()), v).Some?
      ensures ok ==> Valid() && View() == Collect(old(View()), v).value
      ensures ok ==> forall n {:trigger Contents(n)} :: Contents(n) == old(Contents(n))
    {
      hide Inv, Copy, Open, Managers.BlockManager.Valid, Device.Ssd.Valid, MapsOk, Moved, Relocate, Collect, Victim,
           Swept;
      ghost var m := View();
      CollectRefines(m, v);
      VictimUnswept(m, v);
      CollectUnfolds(m, v);
      var i := 0;
      while i < P
        invariant i <= P && Valid() && v < |dev.cells| && Swept(View(), v, i)
        invariant Relocate(View(), v, i) == Relocate(m, v, 0)
      {
        ok := CleanPage(v, i, byIndex, gc);
        if !ok { return; }
        i := i + 1;
      }
      RelocateDone(View(), v);
      bm.EraseAndFree(v);
      ok := true;
    }

    /** One turn of the relocation loop. */
    method CleanPage(v: nat, i: nat, byIndex: bool, gc: bool) returns (ok: bool)
      requires Valid() && i < P && v < |dev.cells| && Swept(View(), v, i)
      modifies this, bm, dev.Repr
      ensures !ok ==> Relocate(old(View()), v, i) == None
      ensures ok ==>
        Valid() && v < |dev.cells| && Swept(View(), v, i + 1)
          && Relocate(View(), v, i + 1) == Relocate(old(View()), v, i)
    {
      hide Inv, Copy, Open, Managers.BlockManager.Valid, Device.Ssd.Valid, MapsOk, Moved, Swept;
      RelocateUnfolds(View(), v, i);
      ok := true;
      var state := dev.GetState(Ppn(v, i));
      if state == VALID {
        if Open(View()).Some? { RelocateStep(View(), v, i); }
        ok := EnsureCurrentBlock(gc);
        if !ok { return; }
        Parts(View());
        CopyPage(Ppn(v, i), byIndex);
      }
    }
  }
}
