/** The simulated flash device: blocks that own page arrays, and the device that
    routes events to them. Each class has a value view, and each method is proved
    against the function of module Flash that says what it does to the view. */
module Device {
  import opened Flash

  class Block {
    const size: nat
    const pageState: array<PageState>
    const pageData: array<Payload>
    var pagesValid: nat
    var pagesInvalid: nat
    var blockState: BlockState

    ghost predicate Valid() {
      pageState.Length == pageData.Length == size > 0
    }

    ghost function View(): BlockView
      reads this, pageState, pageData
    {
      BlockView(pageState[..], pageData[..], pagesValid, pagesInvalid, blockState)
    }

    constructor (size: nat)
      requires size > 0
      ensures Valid() && this.size == size && View() == NewBlock(size)
      ensures fresh(this) && fresh(pageState) && fresh(pageData)
    {
      this.size := size;
      pageState := new PageState[size](_ => EMPTY);
      pageData := new Payload[size](_ => []);
      pagesValid, pagesInvalid, blockState := 0, 0, FREE;
    }

    /** A page must be EMPTY when it is programmed. */
    method Write(i: nat, d: Payload)
      requires Valid() && i < size && pageState[i] == EMPTY
      modifies this, pageState, pageData
      ensures View() == WritePage(old(View()), i, d)
    {
      pageData[i] := d;
      pageState[i] := VALID;
      pagesValid := pagesValid + 1;
      blockState := ACTIVE;
    }

    method InvalidatePage(i: nat)
      requires Valid() && i < size
      modifies this, pageState
      ensures View() == Flash.InvalidatePage(old(View()), i)
    {
      if pageState[i] == INVALID {
        return;
      }
      pageState[i] := INVALID;
      pagesInvalid := pagesInvalid + 1;
      blockState := if pagesInvalid >= size then INACTIVE
                    else if pagesValid > 0 || pagesInvalid > 0 then ACTIVE else FREE;
    }

    method Erase()
      requires Valid()
      modifies this, pageState
      ensures View() == EraseBlock(old(View()))
    {
      var i := 0;
      while i < size
        invariant 0 <= i <= size
        invariant forall j :: 0 <= j < i ==> pageState[j] == EMPTY
        invariant pageData[..] == old(pageData[..])
        modifies pageState
      {
        pageState[i] := EMPTY;
        i := i + 1;
      }
      pagesValid, pagesInvalid, blockState := 0, 0, FREE;
      assert pageState[..] == seq(size, _ => EMPTY);
    }

    /** Finds the first EMPTY page by scanning. */
    method GetNextPage() returns (r: Option<nat>)
      requires Valid()
      ensures r == FirstEmpty(View(), 0)
    {
      var i := 0;
      while i < size
        invariant 0 <= i <= size
        invariant FirstEmpty(View(), 0) == FirstEmpty(View(), i)
      {
        if pageState[i] == EMPTY {
          return Some(i);
        }
        i := i + 1;
      }
      return None;
    }

    /** The constant-time form of GetNextPage. */
    method GetFreePage() returns (r: Option<nat>)
      requires Valid()
      ensures r == FreePage(View())
      ensures r == FirstEmpty(View(), 0) <==> InStep(View())
    {
      FreePageExact(View());
      r := if pagesValid < size then Some(pagesValid) else None;
    }
  }

  class Ssd {
    const blocks: seq<Block>
    const blockSize: nat
    ghost const Repr: set<object>
    /** The pages of the whole device, as a value. */
    ghost var cells: Cells

    ghost predicate Owns(k: nat)
      requires k < |blocks|
    {
      && blocks[k] in Repr && blocks[k].pageState in Repr && blocks[k].pageData in Repr
      && blocks[k].Valid() && blocks[k].size == blockSize
    }

    /** Distinct blocks have distinct arrays. */
    ghost predicate Separate(j: nat, k: nat)
      requires j < |blocks| && k < |blocks|
    {
      && blocks[j] != blocks[k]
      && blocks[j].pageState != blocks[k].pageState
      && blocks[j].pageData != blocks[k].pageData
    }

    ghost predicate Valid()
      reads this, Repr
    {
      && this in Repr
      && |cells| == |blocks|
      && (forall k :: 0 <= k < |blocks| ==> Owns(k) && blocks[k].View() == cells[k])
      && (forall j, k :: 0 <= j < k < |blocks| ==> Separate(j, k))
      && FlashOk(cells, blockSize)
    }

    /** Changing the objects of block b leaves the views of the other blocks alone. */
    twostate lemma OthersKept(b: nat)
      requires b < |blocks| && old(Valid())
      requires forall o :: o in Repr - {blocks[b], blocks[b].pageState, blocks[b].pageData} ==> unchanged(o)
      ensures forall k :: 0 <= k < |blocks| && k != b ==> Owns(k) && blocks[k].View() == old(cells[k])
    {
      forall k | 0 <= k < |blocks| && k != b
        ensures Owns(k) && blocks[k].View() == old(cells[k])
      {
        assert old(Owns(k) && blocks[k].View() == cells[k]);
        assert if k < b then Separate(k, b) else Separate(b, k);
        var x: object, y: object, z: object := blocks[k], blocks[k].pageState, blocks[k].pageData;
        assert {x, y, z} <= Repr - {blocks[b], blocks[b].pageState, blocks[b].pageData};
        assert unchanged(x) && unchanged(y) && unchanged(z);
      }
    }

    constructor (n: nat, size: nat)
      requires size > 0
      ensures Valid() && fresh(Repr) && |blocks| == n && blockSize == size
      ensures cells == seq(n, _ => NewBlock(size))
    {
      var bs: seq<Block> := [];
      ghost var repr: set<object> := {};
      FreshBlockIsSound(size);
      while |bs| < n
        invariant |bs| <= n
        invariant fresh(repr)
        invariant forall k :: 0 <= k < |bs| ==> {bs[k], bs[k].pageState, bs[k].pageData} <= repr
        invariant forall k :: 0 <= k < |bs| ==> bs[k].Valid() && bs[k].size == size && bs[k].View() == NewBlock(size)
        invariant forall j, k :: 0 <= j < k < |bs| ==>
          bs[j] != bs[k] && bs[j].pageState != bs[k].pageState && bs[j].pageData != bs[k].pageData
      {
        var b := new Block(size);
        repr := repr + {b, b.pageState, b.pageData};
        bs := bs + [b];
      }
      blocks, blockSize := bs, size;
      Repr := repr + {this};
      cells := seq(n, _ => NewBlock(size));
    }

    /** A write event without a replaced page. */
    method Write(p: Ppn, d: Payload)
      requires Valid() && InRange(cells, p) && StateAt(cells, p) == EMPTY
      modifies Repr
      ensures Valid() && |cells| == |old(cells)| && cells == Program(old(cells), p, d)
    {
      WriteKeepsSound(cells[p.b], blockSize, p.i, d);
      assert Owns(p.b) && blocks[p.b].View() == cells[p.b];
      blocks[p.b].Write(p.i, d);
      OthersKept(p.b);
      cells := Program(cells, p, d);
    }

    method Invalidate(p: Ppn)
      requires Valid() && InRange(cells, p)
      modifies Repr
      ensures Valid() && |cells| == |old(cells)| && cells == Discard(old(cells), p)
    {
      InvalidateKeepsSound(cells[p.b], blockSize, p.i);
      assert Owns(p.b) && blocks[p.b].View() == cells[p.b];
      blocks[p.b].InvalidatePage(p.i);
      OthersKept(p.b);
      cells := Discard(cells, p);
    }

    method Erase(k: nat)
      requires Valid() && k < |blocks|
      modifies Repr
      ensures Valid() && |cells| == |old(cells)| && cells == Wipe(old(cells), k)
    {
      EraseKeepsSound(cells[k], blockSize);
      assert Owns(k) && blocks[k].View() == cells[k];
      blocks[k].Erase();
      OthersKept(k);
      cells := Wipe(cells, k);
    }

    /** Controller::issue on a WRITE event: the page is programmed, then the replaced
        page is invalidated. */
    method Issue(p: Ppn, d: Payload, repl: Option<Ppn>)
      requires Valid() && InRange(cells, p) && StateAt(cells, p) == EMPTY
      requires repl.Some? ==> InRange(cells, repl.value)
      modifies Repr
      ensures Valid() && |cells| == |old(cells)| && cells == IssueWrite(old(cells), p, d, repl)
    {
      Write(p, d);
      if repl.Some? {
        Invalidate(repl.value);
      }
    }

    /** Controller::issue on a READ event. */
    method Read(p: Ppn) returns (d: Payload)
      requires Valid() && InRange(cells, p)
      ensures d == DataAt(cells, p)
    {
      assert Owns(p.b) && blocks[p.b].View() == cells[p.b];
      d := blocks[p.b].pageData[p.i];
    }

    method GetState(p: Ppn) returns (s: PageState)
      requires Valid() && InRange(cells, p)
      ensures s == StateAt(cells, p)
    {
      assert Owns(p.b) && blocks[p.b].View() == cells[p.b];
      s := blocks[p.b].pageState[p.i];
    }

    method PagesProgrammed(k: nat) returns (n: nat)
      requires Valid() && k < |blocks|
      ensures n == cells[k].programmed
    {
      assert blocks[k].View() == cells[k];
      n := blocks[k].pagesValid;
    }

    method PagesInvalid(k: nat) returns (n: nat)
      requires Valid() && k < |blocks|
      ensures n == cells[k].invalid
    {
      assert blocks[k].View() == cells[k];
      n := blocks[k].pagesInvalid;
    }

    method GetBlockState(k: nat) returns (s: BlockState)
      requires Valid() && k < |blocks|
      ensures s == cells[k].state
    {
      assert blocks[k].View() == cells[k];
      s := blocks[k].blockState;
    }

    method GetFreePage(k: nat) returns (r: Option<Ppn>)
      requires Valid() && k < |blocks|
      ensures r == match FreePage(cells[k]) case None => None case Some(i) => Some(Ppn(k, i))
    {
      assert Owns(k) && blocks[k].View() == cells[k];
      var i := blocks[k].GetFreePage();
      r := match i case None => None case Some(o) => Some(Ppn(k, o));
    }
  }
}
