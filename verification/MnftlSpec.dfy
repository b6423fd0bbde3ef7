/** MNFTL's mapping tables as values: PMT (slot to physical page), PMD (one anchor
    page per PMT), and revision 3's reverse index. Three more fields follow what the
    paper's design relies on but the program does not store: what each page's spare
    area would hold, which PMTs were trimmed since one of their pages was programmed,
    and which pages a trim left VALID without a mapping. */
module MnMaps {
  import opened Flash
  import Division

  datatype Geometry = Geometry(P: nat, Q: nat) {
    predicate Ok() { P > 0 && Q > 0 }

    function NumPmd(): nat
      requires Ok()
    {
      (P + Q - 1) / Q
    }
  }

  datatype Slot = Slot(l: nat, d: nat, s: nat)

  type Row = seq<Option<Ppn>>
  type Pmt = map<nat, seq<Row>>
  type Pmd = map<nat, Row>

  /** Two conventions for `oob`, which the program does not store. A trimmed page that is
      moved has no PMT to record, so an empty row stands for its spare area. An erase leaves
      the record of the erased pages in place: they are EMPTY, no anchor that is in order
      names one, and programming a page overwrites its record. */
  datatype Maps = Maps(pmt: Pmt, pmd: Pmd, rmap: map<Ppn, Slot>,
                       oob: map<Ppn, Row>, stale: set<(nat, nat)>, orphans: set<Ppn>)

  const EMPTY_MAPS := Maps(map[], map[], map[], map[], {}, {})

  /** The logical block, PMD index and map slot of a logical page. */
  function SlotOf(g: Geometry, lpn: nat): Slot
    requires g.Ok()
  {
    Slot(lpn / g.P, lpn % g.P / g.Q, lpn % g.P % g.Q)
  }

  lemma SlotInRange(g: Geometry, lpn: nat)
    requires g.Ok()
    ensures SlotOf(g, lpn).d < g.NumPmd() && SlotOf(g, lpn).s < g.Q
  {
    var bo := lpn % g.P;
    Division.DivModUnique(bo + g.Q, bo / g.Q + 1, g.Q, bo % g.Q);
    DivMonotone(bo + g.Q, g.P + g.Q - 1, g.Q);
  }

  lemma DivMonotone(a: nat, b: nat, m: nat)
    requires a <= b && m > 0
    ensures a / m <= b / m
  {
    var k := a / m - b / m;
    assert k * m == (a - a % m) - (b - b % m) by { assert k * m == a / m * m - b / m * m; }
    if k >= 1 { Division.MultipleAtLeast(k, m); }
  }

  lemma SlotInjective(g: Geometry, x: nat, y: nat)
    requires g.Ok() && SlotOf(g, x) == SlotOf(g, y)
    ensures x == y
  {
    var ox, oy := x % g.P, y % g.P;
    assert x == x / g.P * g.P + ox && y == y / g.P * g.P + oy;
    assert ox == ox / g.Q * g.Q + ox % g.Q && oy == oy / g.Q * g.Q + oy % g.Q;
  }

  /** Logical block, PMD index and map slot are the digits of the logical page. */
  lemma SlotDigits(g: Geometry, lpn: nat)
    requires g.Ok()
    ensures var x := SlotOf(g, lpn);
            lpn == x.l * g.P + x.d * g.Q + x.s && x.s < g.Q && x.d * g.Q + x.s < g.P
  {
    var o := lpn % g.P;
    assert lpn == lpn / g.P * g.P + o && o == o / g.Q * g.Q + o % g.Q;
  }

  /** A logical block has as many PMTs of Q slots as its P pages need, and no more. */
  lemma EnoughPmts(g: Geometry)
    requires g.Ok()
    ensures g.P <= g.NumPmd() * g.Q < g.P + g.Q
  {
    var n := g.P + g.Q - 1;
    assert n == n / g.Q * g.Q + n % g.Q;
  }

  predicate Has(pmt: Pmt, x: Slot) {
    x.l in pmt && x.d < |pmt[x.l]| && x.s < |pmt[x.l][x.d]|
  }

  function Entry(pmt: Pmt, x: Slot): Option<Ppn> {
    if Has(pmt, x) then pmt[x.l][x.d][x.s] else None
  }

  function Update(pmt: Pmt, x: Slot, v: Option<Ppn>): Pmt
    requires Has(pmt, x)
  {
    pmt[x.l := pmt[x.l][x.d := pmt[x.l][x.d][x.s := v]]]
  }

  lemma EntryUpdate(pmt: Pmt, x: Slot, v: Option<Ppn>)
    requires Has(pmt, x)
    ensures forall y {:trigger Has(Update(pmt, x, v), y)} :: Has(Update(pmt, x, v), y) <==> Has(pmt, y)
    ensures forall y {:trigger Entry(Update(pmt, x, v), y)} ::
      Entry(Update(pmt, x, v), y) == if y == x then v else Entry(pmt, y)
  {
  }

  /** Creates the tables of a logical block seen for the first time. */
  function AddRow(m: Maps, g: Geometry, l: nat): Maps
    requires g.Ok()
  {
    if l in m.pmd then m
    else m.(pmd := m.pmd[l := seq(g.NumPmd(), _ => None)],
            pmt := m.pmt[l := seq(g.NumPmd(), _ => seq(g.Q, _ => None))])
  }

  /** Slot x moves to the page `new`, which becomes the anchor of its PMT. */
  function Bind(m: Maps, x: Slot, dst: Ppn): Maps
    requires Has(m.pmt, x) && x.l in m.pmd && x.d < |m.pmd[x.l]|
  {
    var src := Entry(m.pmt, x);
    var pmt := Update(m.pmt, x, Some(dst));
    m.(pmt := pmt,
       pmd := m.pmd[x.l := m.pmd[x.l][x.d := Some(dst)]],
       rmap := (if src.Some? then m.rmap - {src.value} else m.rmap)[dst := x],
       oob := m.oob[dst := pmt[x.l][x.d]],
       stale := m.stale - {(x.l, x.d)})
  }

  /** A trim: the slot is cleared; the page itself stays VALID. */
  function Unbind(m: Maps, x: Slot): Maps
    requires Has(m.pmt, x)
  {
    var src := Entry(m.pmt, x);
    if src.None? then m
    else m.(pmt := Update(m.pmt, x, None),
            rmap := m.rmap - {src.value},
            stale := m.stale + {(x.l, x.d)},
            orphans := m.orphans + {src.value})
  }

  /** Collection moved the page `src` to `dst`: revision 3's remap, by index. */
  function Remap(m: Maps, src: Ppn, dst: Ppn): Maps
    requires src in m.rmap ==> var x := m.rmap[src]; Has(m.pmt, x) && x.l in m.pmd && x.d < |m.pmd[x.l]|
  {
    if src in m.rmap then Bind(m, m.rmap[src], dst) else MoveOrphan(m, src, dst)
  }

  function MoveOrphan(m: Maps, src: Ppn, dst: Ppn): Maps {
    m.(oob := m.oob[dst := []],
       orphans := if src in m.orphans then m.orphans - {src} + {dst} else m.orphans)
  }

  // ---------------------------------------------------------------- invariants

  ghost predicate ShapeOk(m: Maps, g: Geometry)
    requires g.Ok()
  {
    && m.pmt.Keys == m.pmd.Keys
    && (forall l :: l in m.pmt ==> |m.pmt[l]| == |m.pmd[l]| == g.NumPmd())
    && (forall l, d :: l in m.pmt && 0 <= d < |m.pmt[l]| ==> |m.pmt[l][d]| == g.Q)
    && (forall t :: t in m.stale ==> t.0 in m.pmd && t.1 < |m.pmd[t.0]|)
  }

  /** The reverse index is the exact inverse of the PMT (so the PMT is injective). */
  ghost predicate Agree(m: Maps) {
    && (forall p {:trigger m.rmap[p]} :: p in m.rmap ==> Entry(m.pmt, m.rmap[p]) == Some(p))
    && (forall x {:trigger Entry(m.pmt, x)} :: Entry(m.pmt, x).Some? ==>
          Entry(m.pmt, x).value in m.rmap && m.rmap[Entry(m.pmt, x).value] == x)
    && m.orphans !! m.rmap.Keys
  }

  /** The recorded row differs from the current one in a way later trims cannot undo. */
  ghost predicate Diverged(rec: Row, row: Row) {
    |rec| != |row| || exists s :: 0 <= s < |rec| && rec[s].Some? && row[s] != rec[s]
  }

  /** The spare area of the anchor holds the PMT unless the PMT was trimmed since, and
      then it holds something else; an untrimmed PMT maps its own anchor. */
  ghost predicate AnchorOk(m: Maps, l: nat, d: nat)
    requires l in m.pmd && l in m.pmt && d < |m.pmd[l]| && d < |m.pmt[l]|
  {
    match m.pmd[l][d]
    case None => (l, d) !in m.stale && forall s :: 0 <= s < |m.pmt[l][d]| ==> m.pmt[l][d][s] == None
    case Some(a) =>
      && a in m.oob
      && if (l, d) in m.stale then Diverged(m.oob[a], m.pmt[l][d])
         else m.oob[a] == m.pmt[l][d] && a in m.rmap && m.rmap[a].l == l && m.rmap[a].d == d
  }

  ghost predicate MapsOk(m: Maps, g: Geometry) {
    && g.Ok() && ShapeOk(m, g) && Agree(m)
    && forall l, d :: l in m.pmd && 0 <= d < |m.pmd[l]| ==> AnchorOk(m, l, d)
  }

  lemma AddRowEntries(m: Maps, g: Geometry, l: nat)
    requires g.Ok() && ShapeOk(m, g)
    ensures ShapeOk(AddRow(m, g, l), g)
    ensures forall y {:trigger Entry(AddRow(m, g, l).pmt, y)} :: Entry(AddRow(m, g, l).pmt, y) == Entry(m.pmt, y)
    ensures forall d, s :: 0 <= d < g.NumPmd() && 0 <= s < g.Q ==> Has(AddRow(m, g, l).pmt, Slot(l, d, s))
  {
    hide Geometry.NumPmd;
    var r := AddRow(m, g, l);
    forall y ensures Entry(r.pmt, y) == Entry(m.pmt, y) {}
  }

  lemma AddRowAnchor(m: Maps, g: Geometry, l: nat, k: nat, d: nat)
    requires MapsOk(m, g) && k in AddRow(m, g, l).pmd && d < |AddRow(m, g, l).pmd[k]|
    requires k in AddRow(m, g, l).pmt && d < |AddRow(m, g, l).pmt[k]|
    ensures AnchorOk(AddRow(m, g, l), k, d)
  {
    if k in m.pmd { assert AnchorOk(m, k, d); }
  }

  lemma AddRowOk(m: Maps, g: Geometry, l: nat)
    requires MapsOk(m, g)
    ensures MapsOk(AddRow(m, g, l), g)
    ensures forall y {:trigger Entry(AddRow(m, g, l).pmt, y)} :: Entry(AddRow(m, g, l).pmt, y) == Entry(m.pmt, y)
    ensures forall d, s :: 0 <= d < g.NumPmd() && 0 <= s < g.Q ==> Has(AddRow(m, g, l).pmt, Slot(l, d, s))
  {
    hide Entry, AnchorOk, Has, Geometry.NumPmd;
    AddRowEntries(m, g, l);
    var r := AddRow(m, g, l);
    forall k, d | k in r.pmd && 0 <= d < |r.pmd[k]| ensures AnchorOk(r, k, d) {
      AddRowAnchor(m, g, l, k, d);
    }
  }

  /** The reverse index after a store. */
  lemma BindAgree(m: Maps, x: Slot, dst: Ppn)
    requires Agree(m) && Has(m.pmt, x) && x.l in m.pmd && x.d < |m.pmd[x.l]| && dst !in m.rmap && dst !in m.orphans
    ensures Agree(Bind(m, x, dst))
    ensures forall y {:trigger Entry(Bind(m, x, dst).pmt, y)} ::
              Entry(Bind(m, x, dst).pmt, y) == if y == x then Some(dst) else Entry(m.pmt, y)
  {
    EntryUpdate(m.pmt, x, Some(dst));
    hide Entry, Update, Has;
  }

  lemma BindShape(m: Maps, g: Geometry, x: Slot, dst: Ppn)
    requires g.Ok() && ShapeOk(m, g) && Has(m.pmt, x)
    ensures x.l in m.pmd && x.d < |m.pmd[x.l]| && ShapeOk(Bind(m, x, dst), g)
  {
    hide Geometry.NumPmd, Entry;
  }

  /** A stale anchor that is programmed again, now for another PMT, still differs from its own. */
  lemma Reprogrammed(m: Maps, g: Geometry, x: Slot, dst: Ppn, l: nat, d: nat)
    requires MapsOk(m, g) && Has(m.pmt, x) && dst !in m.rmap && (l, d) != (x.l, x.d)
    requires x.l in m.pmd && x.d < |m.pmd[x.l]|
    requires l in m.pmd && l in m.pmt && d < |m.pmd[l]| == |m.pmt[l]|
    ensures Diverged(Bind(m, x, dst).oob[dst], m.pmt[l][d])
  {
    hide Geometry.NumPmd, AnchorOk;
    assert Entry(m.pmt, Slot(l, d, x.s)) != Some(dst);
    assert Bind(m, x, dst).oob[dst][x.s] == Some(dst);
  }

  /** A store leaves the other rows and their anchors where they were. */
  lemma OtherRow(m: Maps, x: Slot, dst: Ppn, l: nat, d: nat)
    requires Has(m.pmt, x) && x.l in m.pmd && x.d < |m.pmd[x.l]| && (l, d) != (x.l, x.d)
    requires l in m.pmd && l in m.pmt && d < |m.pmd[l]| == |m.pmt[l]|
    ensures var r := Bind(m, x, dst);
            && l in r.pmd && l in r.pmt && d < |r.pmd[l]| == |r.pmt[l]|
            && r.pmd[l][d] == m.pmd[l][d] && r.pmt[l][d] == m.pmt[l][d] && ((l, d) in r.stale <==> (l, d) in m.stale)
  {
  }

  lemma BindAnchor(m: Maps, g: Geometry, x: Slot, dst: Ppn, l: nat, d: nat)
    requires MapsOk(m, g) && Has(m.pmt, x) && dst !in m.rmap && dst !in m.orphans
    requires x.l in m.pmd && x.d < |m.pmd[x.l]| && Agree(Bind(m, x, dst))
    requires l in m.pmd && l in m.pmt && d < |m.pmd[l]| == |m.pmt[l]|
    ensures AnchorOk(Bind(m, x, dst), l, d)
  {
    hide Geometry.NumPmd;
    assert AnchorOk(m, l, d);
    if (l, d) != (x.l, x.d) {
      if m.pmd[l][d] == Some(dst) { Reprogrammed(m, g, x, dst, l, d); }
      OtherRow(m, x, dst, l, d);
    }
  }

  lemma BindOk(m: Maps, g: Geometry, x: Slot, dst: Ppn)
    requires MapsOk(m, g) && Has(m.pmt, x) && dst !in m.rmap && dst !in m.orphans
    ensures MapsOk(Bind(m, x, dst), g)
    ensures forall y {:trigger Entry(Bind(m, x, dst).pmt, y)} ::
              Entry(Bind(m, x, dst).pmt, y) == if y == x then Some(dst) else Entry(m.pmt, y)
  {
    hide Entry, Update, AnchorOk, Agree, Geometry.NumPmd;
    BindShape(m, g, x, dst);
    BindAgree(m, x, dst);
    var r := Bind(m, x, dst);
    forall l, d | l in r.pmd && 0 <= d < |r.pmd[l]| ensures AnchorOk(r, l, d) {
      BindAnchor(m, g, x, dst, l, d);
    }
  }

  lemma UnbindAnchor(m: Maps, g: Geometry, x: Slot, l: nat, d: nat)
    requires MapsOk(m, g) && Has(m.pmt, x) && l in m.pmd && l in m.pmt && d < |m.pmd[l]| == |m.pmt[l]|
    requires Agree(Unbind(m, x))
    ensures AnchorOk(Unbind(m, x), l, d)
  {
    hide Geometry.NumPmd;
    var r := Unbind(m, x);
    assert AnchorOk(m, l, d);
    if (l, d) == (x.l, x.d) && Entry(m.pmt, x).Some? && m.pmd[l][d].Some? {
      var rec, row := m.oob[m.pmd[l][d].value], m.pmt[l][d];
      if (l, d) in m.stale {
        if |rec| == |row| {
          var s :| 0 <= s < |rec| && rec[s].Some? && row[s] != rec[s];
          assert r.pmt[l][d][s] != rec[s];
        }
      } else {
        assert rec[x.s].Some? && r.pmt[l][d][x.s] != rec[x.s];
      }
    }
  }

  lemma UnbindAgree(m: Maps, x: Slot)
    requires Agree(m) && Has(m.pmt, x)
    ensures Agree(Unbind(m, x))
    ensures forall y {:trigger Entry(Unbind(m, x).pmt, y)} ::
              Entry(Unbind(m, x).pmt, y) == if y == x then None else Entry(m.pmt, y)
  {
    EntryUpdate(m.pmt, x, None);
    hide Entry, Update, Has;
  }

  lemma UnbindOk(m: Maps, g: Geometry, x: Slot)
    requires MapsOk(m, g) && Has(m.pmt, x)
    ensures MapsOk(Unbind(m, x), g)
    ensures forall y {:trigger Entry(Unbind(m, x).pmt, y)} ::
              Entry(Unbind(m, x).pmt, y) == if y == x then None else Entry(m.pmt, y)
  {
    hide Entry, AnchorOk, Agree, Geometry.NumPmd;
    UnbindAgree(m, x);
    var r := Unbind(m, x);
    forall l, d | l in r.pmd && 0 <= d < |r.pmd[l]| ensures AnchorOk(r, l, d) {
      UnbindAnchor(m, g, x, l, d);
    }
  }

  lemma MoveOrphanOk(m: Maps, g: Geometry, src: Ppn, dst: Ppn)
    requires MapsOk(m, g) && dst !in m.rmap && dst !in m.orphans
    ensures MapsOk(MoveOrphan(m, src, dst), g)
  {
    var r := MoveOrphan(m, src, dst);
    forall l, d | l in r.pmd && 0 <= d < |r.pmd[l]| ensures AnchorOk(r, l, d) {
      assert AnchorOk(m, l, d);
      assert |r.pmt[l][d]| == g.Q;
    }
  }

  // ---------------------------------------------------------------- index against scan

  /** Revisions 1 and 2 find the slot of a moved page by scanning the PMT. */
  ghost predicate ScanFinds(m: Maps, p: Ppn, r: Option<Slot>) {
    match r
    case Some(x) => Has(m.pmt, x) && Entry(m.pmt, x) == Some(p)
    case None => forall x :: Entry(m.pmt, x) != Some(p)
  }

  /** The scan finds what the index holds, whatever the page: so the remap by index and
      the remap at any match of the scan build the same PMT and PMD. */
  lemma IndexEqualsScan(m: Maps, g: Geometry, src: Ppn, dst: Ppn, r: Option<Slot>)
    requires MapsOk(m, g) && ScanFinds(m, src, r)
    ensures r == if src in m.rmap then Some(m.rmap[src]) else None
    ensures Remap(m, src, dst).pmt == (if r.Some? then Bind(m, r.value, dst).pmt else m.pmt)
    ensures Remap(m, src, dst).pmd == (if r.Some? then Bind(m, r.value, dst).pmd else m.pmd)
  {
  }

  /** The anchor's spare area equals the PMT in RAM exactly when the PMT has not been
      trimmed since one of its pages was last programmed. */
  lemma AnchorHoldsPmt(m: Maps, g: Geometry, l: nat, d: nat, a: Ppn)
    requires MapsOk(m, g) && l in m.pmd && d < |m.pmd[l]| && m.pmd[l][d] == Some(a)
    ensures a in m.oob && (m.oob[a] == m.pmt[l][d] <==> (l, d) !in m.stale)
  {
    assert AnchorOk(m, l, d);
  }
}

/** MNFTL as a state machine over the device, the pool and the tables. */
module MnSpec {
  import opened Flash
  import opened Pools
  import opened MnMaps

  datatype Mn = Mn(g: Geometry, fl: Cells, pool: Pool, maps: Maps, has: bool, cur: nat, off: nat)

  function NewMn(g: Geometry, n: nat): Mn {
    Mn(g, seq(n, _ => NewBlock(g.P)), NewPool(n), EMPTY_MAPS, false, 0, 0)
  }

  ghost predicate CurrentOk(m: Mn) {
    m.has ==> && m.cur < |m.fl| && !InPool(m.pool, m.cur) && m.pool.writing == m.cur
              && Append(m.fl[m.cur]) && m.fl[m.cur].programmed == m.off
  }

  /** Tables, pages, blocks and pool agree: the VALID pages are exactly the mapped pages
      and the orphans of trims. */
  ghost predicate Inv(m: Mn) {
    && m.g.Ok() && FlashOk(m.fl, m.g.P) && MapsOk(m.maps, m.g)
    && ListsOk(m.pool) && PoolFresh(m.pool, m.fl) && m.pool.invalid == []
    && CurrentOk(m)
    && (forall p {:trigger IsValid(m.fl, p)} :: IsValid(m.fl, p) <==> p in m.maps.rmap || p in m.maps.orphans)
  }

  /** What a read of the slot returns: None when the read is turned into a no-op. */
  function ReadSlot(m: Mn, x: Slot): Option<Payload> {
    if x.l !in m.maps.pmd then None
    else if x.d >= |m.maps.pmd[x.l]| || m.maps.pmd[x.l][x.d].None? then None
    else match Entry(m.maps.pmt, x)
      case None => None
      case Some(p) => if InRange(m.fl, p) then Some(DataAt(m.fl, p)) else None
  }

  function ReadLpn(m: Mn, lpn: nat): Option<Payload>
    requires m.g.Ok()
  {
    ReadSlot(m, SlotOf(m.g, lpn))
  }

  // ---------------------------------------------------------------- steps

  /** The current block, or a newly allocated one when it is full or missing. */
  function Open(m: Mn): Option<Mn> {
    if m.has && m.off != m.g.P then Some(m)
    else if Dry(m.pool) then None
    else Some(m.(pool := TakeAs(m.pool, DATA), has := true, cur := NextBlock(m.pool), off := 0))
  }

  predicate CanProgram(m: Mn) {
    m.has && m.cur < |m.fl| && var b := m.fl[m.cur];
    b.programmed < |b.st| == |b.data| && b.st[b.programmed] == EMPTY
  }

  function NextPage(m: Mn): Ppn
    requires m.cur < |m.fl|
  {
    Ppn(m.cur, m.fl[m.cur].programmed)
  }

  /** A host write into slot x, the current block being open. */
  function Place(m: Mn, x: Slot, d: Payload): Mn
    requires CanProgram(m) && Has(m.maps.pmt, x) && x.l in m.maps.pmd && x.d < |m.maps.pmd[x.l]|
    requires Entry(m.maps.pmt, x).Some? ==> InRange(m.fl, Entry(m.maps.pmt, x).value)
  {
    m.(fl := IssueWrite(m.fl, NextPage(m), d, Entry(m.maps.pmt, x)),
       maps := Bind(m.maps, x, NextPage(m)),
       off := m.off + 1)
  }

  predicate CanCopy(m: Mn, p: Ppn) {
    && CanProgram(m) && InRange(m.fl, p)
    && (p in m.maps.rmap ==>
         var x := m.maps.rmap[p]; Has(m.maps.pmt, x) && x.l in m.maps.pmd && x.d < |m.maps.pmd[x.l]|)
  }

  /** Collection copies the VALID page p to the current block. */
  function Copy(m: Mn, p: Ppn): Mn
    requires CanCopy(m, p)
  {
    m.(fl := IssueWrite(m.fl, NextPage(m), DataAt(m.fl, p), Some(p)),
       maps := Remap(m.maps, p, NextPage(m)),
       off := m.off + 1)
  }

  function Write(m: Mn, lpn: nat, d: Payload): Option<Mn>
    requires Inv(m)
  {
    var x := SlotOf(m.g, lpn);
    match Open(m)
    case None => None
    case Some(o) =>
      OpenOk(m);
      var r := o.(maps := AddRow(o.maps, o.g, x.l));
      RowOk(o, x.l);
      SlotInRange(m.g, lpn);
      ReadIsEntry(r, x);
      Some(Place(r, x, d))
  }

  function Trim(m: Mn, lpn: nat): Mn
    requires Inv(m)
  {
    var x := SlotOf(m.g, lpn);
    if x.l !in m.maps.pmd then m
    else
      SlotInRange(m.g, lpn);
      m.(maps := Unbind(m.maps, x))
  }

  /** The victim conditions of insert_events: fully written, some page INVALID, not the
      block being written. */
  predicate Victim(m: Mn, v: nat) {
    v < |m.fl| && m.fl[v].invalid > 0 && m.fl[v].programmed == m.g.P && m.pool.writing != v
  }

  /** The relocation loop of cleanup_block from page i on. */
  function Relocate(m: Mn, v: nat, i: nat): Option<Mn>
    requires Inv(m) && v < |m.fl| && i <= m.g.P
    decreases m.g.P - i
  {
    if i == m.g.P then Some(m)
    else if !IsValid(m.fl, Ppn(v, i)) then Relocate(m, v, i + 1)
    else match Open(m)
      case None => None
      case Some(o) =>
        OpenOk(m);
        CopyOk(o, Ppn(v, i));
        Relocate(Copy(o, Ppn(v, i)), v, i + 1)
  }

  /** cleanup_block, the erase, and the return of the block to the free list. */
  function Collect(m: Mn, v: nat): Option<Mn>
    requires Inv(m) && Victim(m, v)
  {
    match Relocate(m, v, 0)
    case None => None
    case Some(r) =>
      RelocateOk(m, v, 0);
      Some(r.(fl := Wipe(r.fl, v), pool := Reclaim(r.pool, v)))
  }

  // ---------------------------------------------------------------- every step keeps the invariant

  ghost predicate SameReads(m: Mn, r: Mn) {
    forall x {:trigger ReadSlot(r, x)} :: ReadSlot(r, x) == ReadSlot(m, x)
  }

  /** r comes from m by moving pages: same size, reads and number of orphans, and no PMT
      has become stale. */
  ghost predicate Moved(m: Mn, r: Mn) {
    && r.g == m.g && |r.fl| == |m.fl| && SameReads(m, r)
    && |r.maps.orphans| == |m.maps.orphans| && r.maps.stale <= m.maps.stale
  }

  /** Mapped slots read the page they map; other slots read nothing. */
  lemma ReadIsEntry(m: Mn, x: Slot)
    requires Inv(m)
    ensures Entry(m.maps.pmt, x).Some? ==> x.l in m.maps.pmd && IsValid(m.fl, Entry(m.maps.pmt, x).value)
    ensures ReadSlot(m, x) == match Entry(m.maps.pmt, x) case None => None case Some(p) => Some(DataAt(m.fl, p))
  {
    if Has(m.maps.pmt, x) { assert AnchorOk(m.maps, x.l, x.d); }
    if Entry(m.maps.pmt, x).Some? { assert IsValid(m.fl, Entry(m.maps.pmt, x).value); }
  }

  lemma RowOk(m: Mn, l: nat)
    requires Inv(m)
    ensures var r := m.(maps := AddRow(m.maps, m.g, l)); Inv(r) && SameReads(m, r)
    ensures forall d, s :: 0 <= d < m.g.NumPmd() && 0 <= s < m.g.Q ==> Has(AddRow(m.maps, m.g, l).pmt, Slot(l, d, s))
  {
    var r := m.(maps := AddRow(m.maps, m.g, l));
    AddRowOk(m.maps, m.g, l);
    forall x ensures ReadSlot(r, x) == ReadSlot(m, x) {
      ReadIsEntry(m, x);
      ReadIsEntry(r, x);
    }
  }

  lemma OpenOk(m: Mn)
    requires Inv(m)
    ensures Open(m).None? <==> Dry(m.pool) && (m.has ==> m.off == m.g.P)
    ensures Open(m).Some? ==> var r := Open(m).value;
            && Inv(r) && CanProgram(r) && SameReads(m, r)
            && r.maps == m.maps && r.fl == m.fl && r.g == m.g
            && (forall v: nat {:trigger Victim(m, v)} :: Victim(m, v) ==> Victim(r, v))
  {
    if m.has && m.off != m.g.P {
      assert m.fl[m.cur].st[m.off] == EMPTY;
    } else if !Dry(m.pool) {
      var k := NextBlock(m.pool);
      TakeEffect(m.pool, DATA);
      assert Fresh(m.fl[k]) && m.fl[k].st[0] == EMPTY;
    }
  }

  /** The current block serves until its last page is used; then the next block of the pool does,
      from its first page on. */
  lemma OpenExactly(m: Mn)
    requires Inv(m) && Open(m).Some?
    ensures if m.has && m.off < m.g.P then Open(m).value == m
            else !Dry(m.pool) && Open(m).value ==
                 m.(pool := TakeAs(m.pool, DATA), has := true, cur := NextBlock(m.pool), off := 0)
  {
  }

  /** The page about to be programmed belongs to no slot, and writing to it touches
      neither the pool nor the append order of the current block. */
  lemma ProgramOk(m: Mn, d: Payload, repl: Option<Ppn>)
    requires Inv(m) && CanProgram(m) && (repl.Some? ==> IsValid(m.fl, repl.value))
    ensures NextPage(m) !in m.maps.rmap && NextPage(m) !in m.maps.orphans && repl != Some(NextPage(m))
    ensures var fl := IssueWrite(m.fl, NextPage(m), d, repl);
            && FlashOk(fl, m.g.P) && |fl| == |m.fl| && PoolFresh(m.pool, fl)
            && Append(fl[m.cur]) && fl[m.cur].programmed == m.off + 1
            && (forall q {:trigger IsValid(fl, q)} :: IsValid(fl, q) <==>
                  q == NextPage(m) || (IsValid(m.fl, q) && repl != Some(q)))
            && DataAt(fl, NextPage(m)) == d
            && (forall q {:trigger DataAt(fl, q)} :: IsValid(m.fl, q) ==>
                InRange(fl, q) && DataAt(fl, q) == DataAt(m.fl, q))
  {
    var page := NextPage(m);
    assert !IsValid(m.fl, page);
    IssueWriteEffect(m.fl, m.g.P, page, d, repl);
    IssueWriteAppends(m.fl, m.g.P, page, d, repl, m.cur);
    var fl := IssueWrite(m.fl, page, d, repl);
    forall k | 0 <= k < |fl| && InPool(m.pool, k) ensures Fresh(fl[k]) {
      assert Fresh(m.fl[k]) && (repl.Some? ==> repl.value.b != k);
    }
    forall q {:trigger IsValid(fl, q)} ensures IsValid(fl, q) <==> q == page || (IsValid(m.fl, q) && repl != Some(q)) {
      assert InRange(fl, q) <==> InRange(m.fl, q);
    }
    forall q {:trigger DataAt(fl, q)} | IsValid(m.fl, q) ensures InRange(fl, q) && DataAt(fl, q) == DataAt(m.fl, q) {
      assert InRange(fl, q) <==> InRange(m.fl, q);
    }
  }

  /** The parts of the invariant. */
  lemma Parts(m: Mn)
    requires Inv(m)
    ensures m.g.Ok() && MapsOk(m.maps, m.g) && ListsOk(m.pool) && PoolFresh(m.pool, m.fl) && m.pool.invalid == []
      && CurrentOk(m)
    ensures FlashOk(m.fl, m.g.P)
    ensures forall p {:trigger IsValid(m.fl, p)} :: IsValid(m.fl, p) <==> p in m.maps.rmap || p in m.maps.orphans
  {
  }

  lemma FromParts(m: Mn)
    requires m.g.Ok() && MapsOk(m.maps, m.g) && ListsOk(m.pool) && PoolFresh(m.pool, m.fl) && m.pool.invalid == []
      && CurrentOk(m)
    requires FlashOk(m.fl, m.g.P)
    requires forall p {:trigger IsValid(m.fl, p)} :: IsValid(m.fl, p) <==> p in m.maps.rmap || p in m.maps.orphans
    ensures Inv(m)
  {
  }

  /** Which pages are mapped after a store. */
  lemma BindPages(m: Maps, x: Slot, dst: Ppn)
    requires Agree(m) && Has(m.pmt, x) && x.l in m.pmd && x.d < |m.pmd[x.l]|
    ensures var r := Bind(m, x, dst);
            && r.orphans == m.orphans
            && forall p {:trigger p in r.rmap} ::
                 p in r.rmap <==> p == dst || (p in m.rmap && Entry(m.pmt, x) != Some(p))
    ensures Entry(m.pmt, x).Some? ==> Entry(m.pmt, x).value in m.rmap && Entry(m.pmt, x).value !in m.orphans
  {
  }

  lemma SlotRow(m: Maps, g: Geometry, x: Slot)
    requires MapsOk(m, g) && Has(m.pmt, x)
    ensures x.l in m.pmd && x.d < |m.pmd[x.l]| && Agree(m)
  {
  }

  lemma PlaceInv(m: Mn, x: Slot, d: Payload)
    requires Inv(m) && CanProgram(m) && Has(m.maps.pmt, x)
    ensures x.l in m.maps.pmd && x.d < |m.maps.pmd[x.l]|
    ensures Entry(m.maps.pmt, x).Some? ==> IsValid(m.fl, Entry(m.maps.pmt, x).value)
    ensures Inv(Place(m, x, d))
  {
    hide Inv, MapsOk, Agree, Has, Entry, FlashOk, PoolFresh, ListsOk, Append, IssueWrite, Bind, InPool;
    Parts(m);
    SlotRow(m.maps, m.g, x);
    ReadIsEntry(m, x);
    ProgramOk(m, d, Entry(m.maps.pmt, x));
    BindOk(m.maps, m.g, x, NextPage(m));
    BindPages(m.maps, x, NextPage(m));
    FromParts(Place(m, x, d));
  }

  lemma PlaceOk(m: Mn, x: Slot, d: Payload)
    requires Inv(m) && CanProgram(m) && Has(m.maps.pmt, x)
    ensures x.l in m.maps.pmd && x.d < |m.maps.pmd[x.l]|
    ensures Entry(m.maps.pmt, x).Some? ==> IsValid(m.fl, Entry(m.maps.pmt, x).value)
    ensures var r := Place(m, x, d);
            && Inv(r)
            && forall y {:trigger ReadSlot(r, y)} :: ReadSlot(r, y) == if y == x then Some(d) else ReadSlot(m, y)
  {
    PlaceInv(m, x, d);
    ProgramOk(m, d, Entry(m.maps.pmt, x));
    BindOk(m.maps, m.g, x, NextPage(m));
    var r := Place(m, x, d);
    forall y ensures ReadSlot(r, y) == if y == x then Some(d) else ReadSlot(m, y) {
      ReadIsEntry(m, y);
      ReadIsEntry(r, y);
    }
  }

  /** A mapped page is named by the slot the index holds for it. */
  lemma IndexedSlot(m: Maps, g: Geometry, p: Ppn)
    requires MapsOk(m, g) && p in m.rmap
    ensures var x := m.rmap[p];
            && Has(m.pmt, x) && x.l in m.pmd && x.d < |m.pmd[x.l]| && Entry(m.pmt, x) == Some(p)
            && Agree(m)
    ensures p !in m.orphans
  {
  }

  lemma CopyInv(m: Mn, p: Ppn)
    requires Inv(m) && CanProgram(m) && IsValid(m.fl, p)
    ensures CanCopy(m, p) && Inv(Copy(m, p))
    ensures p in m.maps.rmap ==> Entry(m.maps.pmt, m.maps.rmap[p]) == Some(p)
    ensures forall y {:trigger Entry(Copy(m, p).maps.pmt, y)} :: Entry(Copy(m, p).maps.pmt, y) ==
              if p in m.maps.rmap && y == m.maps.rmap[p] then Some(NextPage(m)) else Entry(m.maps.pmt, y)
  {
    hide Inv, MapsOk, Agree, Has, Entry, FlashOk, PoolFresh, ListsOk, Append, IssueWrite, Bind, InPool;
    Parts(m);
    ProgramOk(m, DataAt(m.fl, p), Some(p));
    if p in m.maps.rmap {
      IndexedSlot(m.maps, m.g, p);
      BindOk(m.maps, m.g, m.maps.rmap[p], NextPage(m));
      BindPages(m.maps, m.maps.rmap[p], NextPage(m));
    } else {
      MoveOrphanOk(m.maps, m.g, p, NextPage(m));
    }
    FromParts(Copy(m, p));
  }

  lemma CopyReads(m: Mn, p: Ppn)
    requires Inv(m) && CanProgram(m) && IsValid(m.fl, p)
    ensures CanCopy(m, p)
    ensures SameReads(m, Copy(m, p))
  {
    CopyInv(m, p);
    ProgramOk(m, DataAt(m.fl, p), Some(p));
    hide Inv, IssueWrite, FlashOk;
    var r := Copy(m, p);
    forall y ensures ReadSlot(r, y) == ReadSlot(m, y) {
      ReadIsEntry(m, y);
      ReadIsEntry(r, y);
    }
  }

  lemma CopyOk(m: Mn, p: Ppn)
    requires Inv(m) && CanProgram(m) && IsValid(m.fl, p)
    ensures CanCopy(m, p)
    ensures var r := Copy(m, p);
            && Inv(r) && Moved(m, r) && r.pool == m.pool
            && (forall q: Ppn {:trigger IsValid(r.fl, q)} :: q.b != m.cur && q != p ==>
                (IsValid(r.fl, q) <==> IsValid(m.fl, q)))
            && (p.b != m.cur ==> !IsValid(r.fl, p) && r.fl[p.b].programmed == m.fl[p.b].programmed
                                 && |r.fl[p.b].st| == |m.fl[p.b].st| == |r.fl[p.b].data|)
  {
    CopyInv(m, p);
    ProgramOk(m, DataAt(m.fl, p), Some(p));
    CopyReads(m, p);
  }

  /** Pages of block v below i hold nothing live, and v is neither pooled nor open. */
  ghost predicate Swept(m: Mn, v: nat, i: nat) {
    && v < |m.fl| && |m.fl[v].st| == |m.fl[v].data| == m.fl[v].programmed == m.g.P && m.pool.writing != v
    && forall j :: 0 <= j < i ==> !IsValid(m.fl, Ppn(v, j))
  }

  lemma VictimUnswept(m: Mn, v: nat)
    requires Inv(m) && Victim(m, v)
    ensures Swept(m, v, 0)
  {
  }

  lemma MovedTwice(m: Mn, o: Mn, r: Mn)
    requires Moved(m, o) && Moved(o, r)
    ensures Moved(m, r)
  {
    forall y ensures ReadSlot(r, y) == ReadSlot(m, y) { assert ReadSlot(o, y) == ReadSlot(m, y); }
  }

  lemma OpenMoves(m: Mn, v: nat)
    requires Inv(m) && Open(m).Some? && Swept(m, v, 0)
    ensures var o := Open(m).value; Moved(m, o) && o.g == m.g && o.fl == m.fl && o.pool.writing != v
  {
    OpenOk(m);
    OpenElsewhere(m, v);
  }

  /** One iteration of the relocation loop on a VALID page. */
  lemma RelocateStep(m: Mn, v: nat, i: nat)
    requires Inv(m) && Swept(m, v, i) && IsValid(m.fl, Ppn(v, i)) && Open(m).Some?
    ensures Inv(Open(m).value) && CanCopy(Open(m).value, Ppn(v, i))
    ensures var r := Copy(Open(m).value, Ppn(v, i));
            Inv(r) && Moved(m, r) && Swept(r, v, i + 1)
  {
    hide Inv, Open, Copy, CanProgram, Moved, MapsOk;
    OpenElsewhere(m, v);
    OpenMoves(m, v);
    var o := Open(m).value;
    CopyOk(o, Ppn(v, i));
    var r := Copy(o, Ppn(v, i));
    MovedTwice(m, o, r);
    forall j | 0 <= j < i + 1 ensures !IsValid(r.fl, Ppn(v, j)) {
      assert j < i ==> !IsValid(o.fl, Ppn(v, j));
    }
  }

  /** Relocation keeps the invariant and every read at every iteration, and empties the
      victim of VALID pages. */
  lemma {:induction false} RelocateOk(m: Mn, v: nat, i: nat)
    requires Inv(m) && i <= m.g.P && Swept(m, v, i)
    ensures Relocate(m, v, i).Some? ==> var r := Relocate(m, v, i).value;
            Inv(r) && Moved(m, r) && Swept(r, v, m.g.P)
    decreases m.g.P - i
  {
    hide Inv, Copy, Open;
    if i == m.g.P {
    } else if !IsValid(m.fl, Ppn(v, i)) {
      RelocateOk(m, v, i + 1);
    } else if Open(m).Some? {
      RelocateStep(m, v, i);
      RelocateOk(Copy(Open(m).value, Ppn(v, i)), v, i + 1);
    }
  }

  /** Pages left in the current block. */
  function Room(m: Mn): int {
    if m.has then m.g.P - m.off else 0
  }

  /** VALID pages of block v from i on. */
  function Live(m: Mn, v: nat, i: nat): (n: nat)
    requires v < |m.fl| && i <= |m.fl[v].st|
    ensures n <= |m.fl[v].st| - i
    decreases |m.fl[v].st| - i
  {
    if i == |m.fl[v].st| then 0 else (if m.fl[v].st[i] == VALID then 1 else 0) + Live(m, v, i + 1)
  }

  lemma {:induction false} LiveSame(m: Mn, r: Mn, v: nat, i: nat)
    requires v < |m.fl| && v < |r.fl| && i <= |m.fl[v].st| == |r.fl[v].st|
    requires forall j :: i <= j < |m.fl[v].st| ==> (m.fl[v].st[j] == VALID <==> r.fl[v].st[j] == VALID)
    ensures Live(m, v, i) == Live(r, v, i)
    decreases |m.fl[v].st| - i
  {
    if i < |m.fl[v].st| { LiveSame(m, r, v, i + 1); }
  }

  lemma {:induction false} LiveTally(m: Mn, v: nat, i: nat)
    requires v < |m.fl| && i <= |m.fl[v].st|
    ensures Live(m, v, i) == multiset(m.fl[v].st[i..])[VALID]
    decreases |m.fl[v].st| - i
  {
    if i < |m.fl[v].st| {
      LiveTally(m, v, i + 1);
      assert m.fl[v].st[i..] == [m.fl[v].st[i]] + m.fl[v].st[i + 1..];
    }
  }

  /** A victim has an INVALID page, so fewer pages must be copied than its erase gives back. */
  lemma VictimLive(m: Mn, v: nat)
    requires Inv(m) && Victim(m, v)
    ensures v < |m.fl| && Live(m, v, 0) + m.fl[v].invalid <= m.g.P && Live(m, v, 0) < m.g.P
  {
    hide MapsOk, ListsOk, PoolFresh, Append;
    LiveTally(m, v, 0);
    assert m.fl[v].st[0..] == m.fl[v].st;
    TalliesSum(m.fl[v].st);
  }

  /** What one copy costs: a page of the current block, or the first page of a new one. */
  lemma CopyCost(m: Mn, p: Ppn)
    requires Inv(m) && IsValid(m.fl, p)
    ensures Room(m) >= 0 && (Open(m).Some? <==> Room(m) > 0 || !Dry(m.pool))
    ensures Open(m).Some? ==> var o := Open(m).value;
            && Inv(o) && CanCopy(o, p) && var r := Copy(o, p);
            && Room(r) == (if Room(m) > 0 then Room(m) - 1 else m.g.P - 1)
            && (Room(m) > 0 ==> r.pool == m.pool)
            && (Room(m) == 0 ==> Reserve(r.pool) == Reserve(m.pool) - 1)
  {
    OpenOk(m);
    if Open(m).Some? {
      CopyInv(Open(m).value, p);
      if !(m.has && m.off != m.g.P) { TakeEffect(m.pool, DATA); }
    }
  }

  lemma OpenElsewhere(m: Mn, v: nat)
    requires Inv(m) && Swept(m, v, 0) && Open(m).Some?
    ensures Inv(Open(m).value) && CanProgram(Open(m).value) && Open(m).value.fl == m.fl && Open(m).value.cur != v
  {
    OpenOk(m);
    if !(m.has && m.off != m.g.P) {
      TakeEffect(m.pool, DATA);
      assert Fresh(m.fl[NextBlock(m.pool)]);
    }
  }

  /** Copying page i out of v leaves the later pages of v as they were. */
  lemma CopyLive(m: Mn, v: nat, i: nat)
    requires Inv(m) && Swept(m, v, i) && IsValid(m.fl, Ppn(v, i)) && Open(m).Some?
    ensures Inv(Open(m).value) && CanCopy(Open(m).value, Ppn(v, i))
    ensures var r := Copy(Open(m).value, Ppn(v, i));
            v < |r.fl| && |r.fl[v].st| == |m.fl[v].st| && Live(r, v, i + 1) == Live(m, v, i + 1)
  {
    hide Inv, Open, Copy, Live, CanProgram;
    OpenElsewhere(m, v);
    var o := Open(m).value;
    CopyOk(o, Ppn(v, i));
    var r := Copy(o, Ppn(v, i));
    forall j | i + 1 <= j < |m.fl[v].st| ensures m.fl[v].st[j] == VALID <==> r.fl[v].st[j] == VALID {
      assert IsValid(r.fl, Ppn(v, j)) <==> IsValid(o.fl, Ppn(v, j));
    }
    LiveSame(m, r, v, i + 1);
  }

  /** Relocation takes at most one block, and only when the current block has no room for
      every VALID page still to be copied; it fails only when there is then no block left. */
  lemma {:induction false} RelocateCost(m: Mn, v: nat, i: nat)
    requires Inv(m) && i <= m.g.P && Swept(m, v, i)
    ensures Relocate(m, v, i).Some? <==> Live(m, v, i) <= Room(m) || !Dry(m.pool)
    ensures Relocate(m, v, i).Some? ==>
              Reserve(Relocate(m, v, i).value.pool) == Reserve(m.pool) - (if Live(m, v, i) <= Room(m) then 0 else 1)
    decreases m.g.P - i
  {
    hide Inv, Open, Copy, Room, Dry, Reserve;
    RoomLeft(m);
    if i == m.g.P {
    } else if !IsValid(m.fl, Ppn(v, i)) {
      assert Swept(m, v, i + 1);
      RelocateCost(m, v, i + 1);
    } else {
      CopyCost(m, Ppn(v, i));
      if Open(m).Some? {
        RelocateStep(m, v, i);
        CopyLive(m, v, i);
        RelocateCost(Copy(Open(m).value, Ppn(v, i)), v, i + 1);
      }
    }
  }

  lemma RoomLeft(m: Mn)
    requires Inv(m)
    ensures Room(m) >= 0
  {
  }

  /** The pool after the relocation: untouched while the current block has room, and else without
      its next block, which is counted as a data block. */
  lemma {:induction false} RelocatePool(m: Mn, v: nat, i: nat)
    requires Inv(m) && i <= m.g.P && Swept(m, v, i) && Relocate(m, v, i).Some?
    ensures if Live(m, v, i) <= Room(m) then Relocate(m, v, i).value.pool == m.pool
            else !Dry(m.pool) && Relocate(m, v, i).value.pool == TakeAs(m.pool, DATA)
    decreases m.g.P - i
  {
    hide Inv, Open, Copy, Room, Dry, Reserve, TakeAs;
    RoomLeft(m);
    if i == m.g.P {
    } else if !IsValid(m.fl, Ppn(v, i)) {
      assert Swept(m, v, i + 1);
      RelocatePool(m, v, i + 1);
    } else {
      CopyCost(m, Ppn(v, i));
      CopyPool(m, Ppn(v, i));
      RelocateStep(m, v, i);
      CopyLive(m, v, i);
      RelocatePool(Copy(Open(m).value, Ppn(v, i)), v, i + 1);
    }
  }

  lemma CopyPool(m: Mn, p: Ppn)
    requires Inv(m) && IsValid(m.fl, p) && Open(m).Some?
    ensures Inv(Open(m).value) && CanCopy(Open(m).value, p)
    ensures if Room(m) > 0 then Copy(Open(m).value, p).pool == m.pool
            else !Dry(m.pool) && Copy(Open(m).value, p).pool == TakeAs(m.pool, DATA)
  {
    CopyCost(m, p);
    OpenExactly(m);
  }

  lemma WipeOk(m: Mn, v: nat)
    requires Inv(m) && Swept(m, v, m.g.P)
    ensures Owned(m.pool, v)
    ensures var r := m.(fl := Wipe(m.fl, v), pool := Reclaim(m.pool, v)); Inv(r) && Moved(m, r)
  {
    var r := m.(fl := Wipe(m.fl, v), pool := Reclaim(m.pool, v));
    assert InPool(m.pool, v) ==> Fresh(m.fl[v]);
    EraseKeepsSound(m.fl[v], m.g.P);
    ReclaimEffect(m.pool, v);
    forall p {:trigger IsValid(r.fl, p)} ensures IsValid(r.fl, p) <==> IsValid(m.fl, p) {
      assert p.b == v && p.i < m.g.P ==> !IsValid(m.fl, Ppn(v, p.i));
    }
    forall k | 0 <= k < |r.fl| && InPool(r.pool, k) ensures Fresh(r.fl[k]) {
      assert k != v ==> InPool(m.pool, k);
    }
    forall y ensures ReadSlot(r, y) == ReadSlot(m, y) {
      ReadIsEntry(m, y);
      ReadIsEntry(r, y);
    }
  }

  // ---------------------------------------------------------------- refinement of a plain map

  lemma WriteRefines(m: Mn, lpn: nat, d: Payload)
    requires Inv(m)
    ensures Write(m, lpn, d).None? <==> Dry(m.pool) && (m.has ==> m.off == m.g.P)
    ensures Write(m, lpn, d).None? <==> Open(m).None?
    ensures Write(m, lpn, d).Some? ==> var r := Write(m, lpn, d).value;
            && Inv(r) && r.g == m.g && r.maps.orphans == m.maps.orphans
            && forall n {:trigger ReadLpn(r, n)} :: ReadLpn(r, n) == if n == lpn then Some(d) else ReadLpn(m, n)
  {
    OpenOk(m);
    if Open(m).Some? {
      var x := SlotOf(m.g, lpn);
      var o := Open(m).value;
      RowOk(o, x.l);
      SlotInRange(m.g, lpn);
      var r := o.(maps := AddRow(o.maps, o.g, x.l));
      PlaceOk(r, x, d);
      forall n ensures ReadLpn(Place(r, x, d), n) == if n == lpn then Some(d) else ReadLpn(m, n) {
        if SlotOf(m.g, n) == x { SlotInjective(m.g, n, lpn); }
        assert ReadSlot(r, SlotOf(m.g, n)) == ReadSlot(o, SlotOf(m.g, n)) == ReadSlot(m, SlotOf(m.g, n));
      }
    }
  }

  /** The page a write takes: the next one of the current block while it has one, else the first
      of the next block of the pool; it becomes the anchor of its PMT. */
  lemma WriteTakes(m: Mn, lpn: nat, d: Payload)
    requires Inv(m) && Write(m, lpn, d).Some?
    ensures var r, x := Write(m, lpn, d).value, SlotOf(m.g, lpn);
            && r.has && r.off > 0 && Entry(r.maps.pmt, x) == Some(Ppn(r.cur, r.off - 1))
            && x.l in r.maps.pmd && x.d < |r.maps.pmd[x.l]| && r.maps.pmd[x.l][x.d] == Some(Ppn(r.cur, r.off - 1))
            && if m.has && m.off < m.g.P then r.cur == m.cur && r.off == m.off + 1 && r.pool == m.pool
               else !Dry(m.pool) && r.cur == NextBlock(m.pool) && r.off == 1 && r.pool == TakeAs(m.pool, DATA)
  {
    hide Inv, Write, FlashOk, Agree, IssueWrite;
    WriteRefines(m, lpn, d);
    WriteUnfolds(m, lpn, d);
    OpenExactly(m);
    Parts(Open(m).value);
    hide MapsOk, PoolFresh, ListsOk, Open, AddRow;
  }

  /** A write, seen as its last step on a state that has the block and the tables. */
  lemma WriteUnfolds(m: Mn, lpn: nat, d: Payload)
    requires Inv(m) && Open(m).Some?
    ensures m.g.Ok() && Inv(Open(m).value) && CanProgram(Open(m).value)
    ensures var o, x := Open(m).value, SlotOf(m.g, lpn);
            var r := o.(maps := AddRow(o.maps, m.g, x.l));
            && o.maps.pmt.Keys == o.maps.pmd.Keys && CanProgram(r)
            && Has(r.maps.pmt, x) && x.l in r.maps.pmd && x.d < |r.maps.pmd[x.l]|
            && (Entry(r.maps.pmt, x).Some? ==> InRange(r.fl, Entry(r.maps.pmt, x).value))
            && Write(m, lpn, d) == Some(Place(r, x, d))
  {
    OpenOk(m);
    var o, x := Open(m).value, SlotOf(m.g, lpn);
    RowOk(o, x.l);
    SlotInRange(m.g, lpn);
    ReadIsEntry(o.(maps := AddRow(o.maps, m.g, x.l)), x);
  }

  /** A trim clears its slot and no other. */
  lemma TrimReads(m: Mn, lpn: nat)
    requires Inv(m)
    ensures m.g.Ok() && Inv(Trim(m, lpn)) && Trim(m, lpn).g == m.g
    ensures var r := Trim(m, lpn);
            forall y {:trigger ReadSlot(r, y)} ::
              ReadSlot(r, y) == if y == SlotOf(m.g, lpn) then None else ReadSlot(m, y)
  {
    hide MapsOk, ListsOk, PoolFresh, FlashOk;
    var x := SlotOf(m.g, lpn);
    var r := Trim(m, lpn);
    if x.l in m.maps.pmd {
      SlotInRange(m.g, lpn);
      TrimHas(m, lpn);
      UnbindOk(m.maps, m.g, x);
      UnbindPages(m.maps, m.g, x);
    }
    forall y ensures ReadSlot(r, y) == if y == x then None else ReadSlot(m, y) {
      ReadIsEntry(m, y);
      ReadIsEntry(r, y);
    }
  }

  /** A trim touches no page of the device, no block and no PMD entry, whatever it leaves behind. */
  lemma TrimLeaves(m: Mn, lpn: nat)
    requires Inv(m)
    ensures var r := Trim(m, lpn);
            && r.fl == m.fl && r.pool == m.pool && r.maps.pmd == m.maps.pmd
            && r.has == m.has && r.cur == m.cur && r.off == m.off
            && forall y {:trigger Entry(r.maps.pmt, y)} ::
                 Entry(r.maps.pmt, y) == if y == SlotOf(m.g, lpn) then None else Entry(m.maps.pmt, y)
  {
    hide ListsOk, PoolFresh, FlashOk;
    var x := SlotOf(m.g, lpn);
    if x.l in m.maps.pmd {
      TrimHas(m, lpn);
      UnbindOk(m.maps, m.g, x);
    }
  }

  lemma TrimHas(m: Mn, lpn: nat)
    requires Inv(m) && SlotOf(m.g, lpn).l in m.maps.pmd
    ensures Has(m.maps.pmt, SlotOf(m.g, lpn))
  {
    SlotInRange(m.g, lpn);
  }

  /** Which pages are mapped, and which are orphans, after a slot is cleared. */
  lemma UnbindPages(m: Maps, g: Geometry, x: Slot)
    requires MapsOk(m, g) && Has(m.pmt, x)
    ensures var r := Unbind(m, x);
            && (forall p {:trigger p in r.rmap} :: p in r.rmap <==> p in m.rmap && Entry(m.pmt, x) != Some(p))
            && (forall p {:trigger p in r.orphans} :: p in r.orphans <==> p in m.orphans || Entry(m.pmt, x) == Some(p))
    ensures Entry(m.pmt, x).Some? ==> Entry(m.pmt, x).value in m.rmap && Entry(m.pmt, x).value !in m.orphans
  {
  }

  lemma TrimOrphans(m: Mn, lpn: nat)
    requires Inv(m)
    ensures |Trim(m, lpn).maps.orphans| == |m.maps.orphans| + (if ReadLpn(m, lpn).Some? then 1 else 0)
  {
    var x := SlotOf(m.g, lpn);
    ReadIsEntry(m, x);
    if x.l in m.maps.pmd {
      TrimHas(m, lpn);
      UnbindPages(m.maps, m.g, x);
      hide Inv, MapsOk;
    }
  }

  lemma TrimRefines(m: Mn, lpn: nat)
    requires Inv(m)
    ensures var r := Trim(m, lpn);
            && Inv(r) && r.g == m.g
            && |r.maps.orphans| == |m.maps.orphans| + (if ReadLpn(m, lpn).Some? then 1 else 0)
            && forall n {:trigger ReadLpn(r, n)} :: ReadLpn(r, n) == if n == lpn then None else ReadLpn(m, n)
  {
    hide Inv, ReadSlot, Unbind;
    TrimReads(m, lpn);
    TrimOrphans(m, lpn);
    var r := Trim(m, lpn);
    forall n ensures ReadLpn(r, n) == if n == lpn then None else ReadLpn(m, n) {
      if SlotOf(m.g, n) == SlotOf(m.g, lpn) { SlotInjective(m.g, n, lpn); }
    }
  }

  /** One turn of the relocation loop. */
  lemma RelocateUnfolds(m: Mn, v: nat, i: nat)
    requires Inv(m) && Swept(m, v, i) && i < m.g.P
    ensures v < |m.fl| && InRange(m.fl, Ppn(v, i)) && (IsValid(m.fl, Ppn(v, i)) <==> StateAt(m.fl, Ppn(v, i)) == VALID)
    ensures !IsValid(m.fl, Ppn(v, i)) ==> Swept(m, v, i + 1) && Relocate(m, v, i) == Relocate(m, v, i + 1)
    ensures IsValid(m.fl, Ppn(v, i)) ==>
              if Open(m).None? then Relocate(m, v, i) == None
              else Inv(Open(m).value) && CanCopy(Open(m).value, Ppn(v, i)) && var r := Copy(Open(m).value, Ppn(v, i));
                   Inv(r) && v < |r.fl| && r.g == m.g && Relocate(m, v, i) == Relocate(r, v, i + 1)
  {
    hide Inv, Open, Copy, SameReads;
    if IsValid(m.fl, Ppn(v, i)) && Open(m).Some? { RelocateStep(m, v, i); }
  }

  lemma RelocateDone(m: Mn, v: nat)
    requires Inv(m) && Swept(m, v, m.g.P)
    ensures v < |m.fl| && Owned(m.pool, v) && Relocate(m, v, m.g.P) == Some(m)
  {
    WipeOk(m, v);
  }

  /** A collection as the moves followed by the erase. */
  lemma CollectUnfolds(m: Mn, v: nat)
    requires Inv(m) && Victim(m, v)
    ensures v < |m.fl| && (Collect(m, v).Some? <==> Relocate(m, v, 0).Some?)
    ensures Collect(m, v).Some? ==> var c := Relocate(m, v, 0).value;
            v < |c.fl| && Collect(m, v) == Some(c.(fl := Wipe(c.fl, v), pool := Reclaim(c.pool, v)))
  {
    VictimUnswept(m, v);
    RelocateOk(m, v, 0);
  }

  /** A collection completes exactly when the current block has room for the victim's VALID
      pages or the pool has a block, and it never leaves the pool smaller than it found it. */
  lemma CollectProgress(m: Mn, v: nat)
    requires Inv(m) && Victim(m, v)
    ensures Collect(m, v).Some? <==> Live(m, v, 0) <= Room(m) || !Dry(m.pool)
    ensures Collect(m, v).Some? ==> Reserve(Collect(m, v).value.pool) ==
                                    Reserve(m.pool) + (if Live(m, v, 0) <= Room(m) then 1 else 0)
  {
    VictimUnswept(m, v);
    RelocateCost(m, v, 0);
    RelocateOk(m, v, 0);
    if Collect(m, v).Some? {
      ReclaimEffect(Relocate(m, v, 0).value.pool, v);
    }
  }

  /** The pool after a collection: that of the relocation, with the victim at the end of the free
      list, which no counter counts out. */
  lemma CollectPool(m: Mn, v: nat)
    requires Inv(m) && Victim(m, v) && Collect(m, v).Some?
    ensures if Live(m, v, 0) <= Room(m)
            then Collect(m, v).value.pool == m.pool.(free := m.pool.free + [v])
            else !Dry(m.pool) && var p := TakeAs(m.pool, DATA);
                 Collect(m, v).value.pool == p.(free := p.free + [v])
  {
    VictimUnswept(m, v);
    CollectUnfolds(m, v);
    hide Inv, Relocate, Collect, Live, Room, TakeAs;
    RelocatePool(m, v, 0);
  }

  lemma CollectRefines(m: Mn, v: nat)
    requires Inv(m) && Victim(m, v)
    ensures Collect(m, v).Some? ==> var r := Collect(m, v).value;
            && Inv(r) && Moved(m, r) && Fresh(r.fl[v]) && InPool(r.pool, v)
            && forall n {:trigger ReadLpn(r, n)} :: ReadLpn(r, n) == ReadLpn(m, n)
  {
    RelocateOk(m, v, 0);
    if Relocate(m, v, 0).Some? {
      var c := Relocate(m, v, 0).value;
      WipeOk(c, v);
      EraseKeepsSound(c.fl[v], m.g.P);
      var r := Collect(m, v).value;
      forall n ensures ReadLpn(r, n) == ReadLpn(m, n) {
        assert ReadSlot(r, SlotOf(m.g, n)) == ReadSlot(c, SlotOf(m.g, n)) == ReadSlot(m, SlotOf(m.g, n));
      }
    }
  }

  datatype MnOp = HostWrite(lpn: nat, d: Payload) | HostTrim(lpn: nat) | Gc(v: nat)

  /** Runs a sequence of operations; None where an allocation finds no block. A Gc whose
      victim does not qualify does nothing. */
  function Run(m: Mn, ops: seq<MnOp>): Option<Mn>
    requires Inv(m)
    decreases |ops|
  {
    if ops == [] then Some(m)
    else match ops[0]
      case HostWrite(lpn, d) =>
        WriteRefines(m, lpn, d);
        (match Write(m, lpn, d) case None => None case Some(r) => Run(r, ops[1..]))
      case HostTrim(lpn) =>
        TrimRefines(m, lpn);
        Run(Trim(m, lpn), ops[1..])
      case Gc(v) =>
        if !Victim(m, v) then Run(m, ops[1..])
        else
          CollectRefines(m, v);
          match Collect(m, v) case None => None case Some(r) => Run(r, ops[1..])
  }

  type Store = map<nat, Payload>

  /** The plain map the device is meant to be. */
  function PlainRun(c: Store, ops: seq<MnOp>): Store
    decreases |ops|
  {
    if ops == [] then c
    else match ops[0]
      case HostWrite(lpn, d) => PlainRun(c[lpn := d], ops[1..])
      case HostTrim(lpn) => PlainRun(c - {lpn}, ops[1..])
      case Gc(_) => PlainRun(c, ops[1..])
  }

  /** Trims of pages that held data. */
  function LiveTrims(c: Store, ops: seq<MnOp>): nat
    decreases |ops|
  {
    if ops == [] then 0
    else match ops[0]
      case HostWrite(lpn, d) => LiveTrims(c[lpn := d], ops[1..])
      case HostTrim(lpn) => (if lpn in c then 1 else 0) + LiveTrims(c - {lpn}, ops[1..])
      case Gc(_) => LiveTrims(c, ops[1..])
  }

  ghost predicate Refines(m: Mn, c: Store)
    requires m.g.Ok()
  {
    forall lpn {:trigger ReadLpn(m, lpn)} :: ReadLpn(m, lpn) == if lpn in c then Some(c[lpn]) else None
  }

  /** After every run of writes, trims and collections, each logical page reads what the
      plain map holds; and the VALID pages without a mapping are as many as the trims of
      live pages: no collection ever reclaims a trimmed page. */
  lemma {:induction false} RunRefines(m: Mn, c: Store, ops: seq<MnOp>)
    requires Inv(m) && Refines(m, c) && Run(m, ops).Some?
    ensures var r := Run(m, ops).value;
            && Inv(r) && Refines(r, PlainRun(c, ops))
            && |r.maps.orphans| == |m.maps.orphans| + LiveTrims(c, ops)
    decreases |ops|
  {
    hide Inv, Write, Trim, Collect;
    if ops != [] {
      match ops[0]
      case HostWrite(lpn, d) =>
        WriteRefines(m, lpn, d);
        RunRefines(Write(m, lpn, d).value, c[lpn := d], ops[1..]);
      case HostTrim(lpn) =>
        TrimRefines(m, lpn);
        RunRefines(Trim(m, lpn), c - {lpn}, ops[1..]);
      case Gc(v) =>
        if Victim(m, v) {
          CollectRefines(m, v);
          RunRefines(Collect(m, v).value, c, ops[1..]);
        } else {
          RunRefines(m, c, ops[1..]);
        }
    }
  }

  // ---------------------------------------------------------------- anchors

  /** An anchor whose PMT was not trimmed since its last program is a VALID page mapped by
      that PMT, and its spare area holds the PMT; after a trim it holds something else. */
  lemma AnchorSound(m: Mn, l: nat, d: nat, a: Ppn)
    requires Inv(m) && l in m.maps.pmd && d < |m.maps.pmd[l]| && m.maps.pmd[l][d] == Some(a)
    ensures a in m.maps.oob && (m.maps.oob[a] == m.maps.pmt[l][d] <==> (l, d) !in m.maps.stale)
    ensures (l, d) !in m.maps.stale ==>
              IsValid(m.fl, a) && exists s :: 0 <= s < |m.maps.pmt[l][d]| && m.maps.pmt[l][d][s] == Some(a)
  {
    AnchorHoldsPmt(m.maps, m.g, l, d, a);
    assert AnchorOk(m.maps, l, d);
    if (l, d) !in m.maps.stale {
      assert IsValid(m.fl, a) && Entry(m.maps.pmt, m.maps.rmap[a]) == Some(a);
    }
  }

  /** A trim of a live page leaves its PMT with an anchor whose spare area differs from it. */
  lemma TrimBreaksAnchor(m: Mn, lpn: nat)
    requires Inv(m) && ReadLpn(m, lpn).Some?
    ensures var t, x := Trim(m, lpn).maps, SlotOf(m.g, lpn);
            && x.l in t.pmd && x.l in t.pmt && x.d < |t.pmd[x.l]| && x.d < |t.pmt[x.l]|
            && t.pmd[x.l][x.d].Some? && var a := t.pmd[x.l][x.d].value;
            a in t.oob && t.oob[a] != t.pmt[x.l][x.d]
  {
    var r, x := Trim(m, lpn), SlotOf(m.g, lpn);
    ReadIsEntry(m, x);
    TrimRefines(m, lpn);
    AnchorHoldsPmt(r.maps, m.g, x.l, x.d, r.maps.pmd[x.l][x.d].value);
  }

  /** Every anchor is a VALID page mapped by its PMT, and its spare area equals the PMT. */
  ghost predicate AnchorsSound(m: Mn) {
    forall l: nat, d: nat, a: Ppn :: AnchoredAt(m.maps, l, d, a) ==> SoundAt(m, l, d, a)
  }

  ghost predicate SoundAt(m: Mn, l: nat, d: nat, a: Ppn)
    requires AnchoredAt(m.maps, l, d, a)
  {
    && IsValid(m.fl, a) && a in m.maps.oob && m.maps.oob[a] == m.maps.pmt[l][d]
    && exists s :: 0 <= s < |m.maps.pmt[l][d]| && m.maps.pmt[l][d][s] == Some(a)
  }

  predicate AnchoredAt(t: Maps, l: nat, d: nat, a: Ppn) {
    l in t.pmd && d < |t.pmd[l]| && t.pmd[l][d] == Some(a) && l in t.pmt && d < |t.pmt[l]|
  }

  /** All anchors are sound exactly when no PMT was trimmed since one of its pages was
      programmed. */
  lemma SoundIffUntrimmed(m: Mn)
    requires Inv(m)
    ensures AnchorsSound(m) <==> m.maps.stale == {}
  {
    if m.maps.stale == {} {
      forall l: nat, d: nat, a: Ppn | AnchoredAt(m.maps, l, d, a) ensures SoundAt(m, l, d, a) {
        AnchorSound(m, l, d, a);
      }
    } else {
      var t :| t in m.maps.stale;
      assert AnchorOk(m.maps, t.0, t.1);
      var a := m.maps.pmd[t.0][t.1].value;
      AnchorSound(m, t.0, t.1, a);
      assert AnchoredAt(m.maps, t.0, t.1, a) && !SoundAt(m, t.0, t.1, a);
    }
  }

  /** On runs without trims every anchor stays sound, through every collection. */
  lemma AnchorsWithoutTrims(m: Mn, ops: seq<MnOp>)
    requires Inv(m) && AnchorsSound(m) && Run(m, ops).Some?
    requires forall op :: op in ops ==> !op.HostTrim?
    ensures AnchorsSound(Run(m, ops).value)
  {
    SoundIffUntrimmed(m);
    NoneStale(m, ops);
    SoundIffUntrimmed(Run(m, ops).value);
  }

  lemma {:induction false} NoneStale(m: Mn, ops: seq<MnOp>)
    requires Inv(m) && m.maps.stale == {} && Run(m, ops).Some?
    requires forall op :: op in ops ==> !op.HostTrim?
    ensures Inv(Run(m, ops).value) && Run(m, ops).value.maps.stale == {}
    decreases |ops|
  {
    if ops != [] {
      assert ops[0] in ops && forall op :: op in ops[1..] ==> op in ops;
      match ops[0]
      case HostWrite(lpn, d) =>
        WriteUnstale(m, lpn, d);
        hide Inv, Write, Collect;
        NoneStale(Write(m, lpn, d).value, ops[1..]);
      case HostTrim(_) =>
      case Gc(v) =>
        hide Inv, Write, Collect;
        if Victim(m, v) {
          CollectRefines(m, v);
          NoneStale(Collect(m, v).value, ops[1..]);
        } else {
          NoneStale(m, ops[1..]);
        }
    }
  }

  lemma WriteUnstale(m: Mn, lpn: nat, d: Payload)
    requires Inv(m) && m.maps.stale == {}
    ensures Write(m, lpn, d).Some? ==> Inv(Write(m, lpn, d).value) && Write(m, lpn, d).value.maps.stale == {}
  {
    WriteRefines(m, lpn, d);
    if Write(m, lpn, d).Some? {
      WriteUnfolds(m, lpn, d);
      hide Inv;
    }
  }

  /** A new drive satisfies the invariant and reads as the empty map. */
  lemma NewMnOk(g: Geometry, n: nat)
    requires g.Ok()
    ensures Inv(NewMn(g, n)) && Refines(NewMn(g, n), map[]) && AnchorsSound(NewMn(g, n))
  {
    FreshBlockIsSound(g.P);
  }
}
