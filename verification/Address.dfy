/** Quotients and remainders. */
module Division {
  lemma MultipleAtLeast(k: int, m: int)
    requires k >= 1 && m >= 0
    ensures k * m >= m
  {
    assert k * m == (k - 1) * m + m;
    assert (k - 1) * m >= 0;
  }

  lemma NoMultipleBetween(k: int, m: int)
    requires m > 0 && -m < k * m < m
    ensures k == 0
  {
    if k >= 1 { MultipleAtLeast(k, m); }
    if k <= -1 { MultipleAtLeast(-k, m); }
  }

  /** If n is q*m + r with a low digit r, then q and r are its quotient and remainder. */
  lemma DivModUnique(n: nat, q: nat, m: nat, r: nat)
    requires r < m && n == q * m + r
    ensures n / m == q && n % m == r
  {
    var a, b := n / m, n % m;
    assert n == a * m + b && 0 <= b < m;
    assert (q - a) * m == b - r by { assert (q - a) * m == q * m - a * m; }
    NoMultipleBetween(q - a, m);
  }
}

/** Linear page addresses and their five-level decomposition. The other modules
    name a page by (block index, page offset); LinearIsPair shows that this loses
    nothing below the device size. */
module Addresses {
  import opened Division

  /** Sizes of one package, die, plane and block, and the number of packages. */
  datatype Dims = Dims(ssd: nat, package: nat, die: nat, plane: nat, block: nat) {
    predicate Positive() { ssd > 0 && package > 0 && die > 0 && plane > 0 && block > 0 }

    function Blocks(): nat { ssd * package * die * plane }

    function Pages(): nat { Blocks() * block }
  }

  datatype Fields = Fields(package: nat, die: nat, plane: nat, block: nat, page: nat)

  predicate Within(g: Dims, f: Fields) {
    f.package < g.ssd && f.die < g.package && f.plane < g.die && f.block < g.plane && f.page < g.block
  }

  /** The linear address made of the given fields. */
  function Compose(g: Dims, f: Fields): nat {
    BuildIndex(g, f) * g.block + f.page
  }

  /** The block's physical_address: each constructor (device, package, die, plane) adds
      its own stride. */
  function PhysicalAddress(g: Dims, f: Fields): nat {
    g.package * g.die * g.plane * g.block * f.package
    + g.die * g.plane * g.block * f.die
    + g.plane * g.block * f.plane
    + f.block * g.block
  }

  /** Position of the block in construction order (packages, dies, planes, blocks). */
  function BuildIndex(g: Dims, f: Fields): nat {
    ((f.package * g.package + f.die) * g.die + f.plane) * g.plane + f.block
  }

  class Address {
    const dims: Dims
    var package: nat
    var die: nat
    var plane: nat
    var block: nat
    var page: nat
    var realAddress: nat

    constructor (dims: Dims)
      requires dims.Positive()
      ensures this.dims == dims && Decomposed() && realAddress == 0
    {
      this.dims := dims;
      package, die, plane, block, page, realAddress := 0, 0, 0, 0, 0, 0;
    }

    function View(): Fields
      reads this
    {
      Fields(package, die, plane, block, page)
    }

    /** The fields are the digits of the linear address (modulo the device size). */
    ghost predicate Decomposed()
      reads this
    {
      && dims.Positive()
      && Within(dims, View())
      && Compose(dims, View()) == realAddress % dims.Pages()
    }

    method SetLinearAddress(a: nat)
      requires dims.Positive()
      modifies this
      ensures realAddress == a && Decomposed()
    {
      var rest := a;
      realAddress := rest;
      page := rest % dims.block;
      rest := rest / dims.block;
      block := rest % dims.plane;
      rest := rest / dims.plane;
      plane := rest % dims.die;
      rest := rest / dims.die;
      die := rest % dims.package;
      rest := rest / dims.package;
      package := rest % dims.ssd;
      DigitsCompose(dims, a);
    }

    /** operator+= */
    method Advance(i: nat)
      requires Decomposed()
      modifies this
      ensures realAddress == old(realAddress) + i && Decomposed()
    {
      SetLinearAddress(realAddress + i);
    }
  }

  /** Taking four digits off a number built from five gives them back. */
  lemma FourSteps(f: Fields, g: Dims, c3: nat, c2: nat, c1: nat, n: nat)
    requires Within(g, f)
    requires c3 == f.package * g.package + f.die && c2 == c3 * g.die + f.plane
    requires c1 == c2 * g.plane + f.block && n == c1 * g.block + f.page
    ensures n / g.block == c1 && n % g.block == f.page
    ensures c1 / g.plane == c2 && c1 % g.plane == f.block
    ensures c2 / g.die == c3 && c2 % g.die == f.plane
    ensures c3 / g.package == f.package && c3 % g.package == f.die && f.package % g.ssd == f.package
  {
    DivModUnique(n, c1, g.block, f.page);
    DivModUnique(c1, c2, g.plane, f.block);
    DivModUnique(c2, c3, g.die, f.plane);
    DivModUnique(c3, f.package, g.package, f.die);
    DivModUnique(f.package, 0, g.ssd, f.package);
  }

  /** One more low digit: n = x*m + lo keeps the number of whole multiples k. */
  lemma Regroup(n: nat, x: nat, k: nat, p: nat, c: nat, m: nat, lo: nat)
    requires n == x * m + lo && x == k * p + c
    ensures n == k * (p * m) + (c * m + lo)
  {
    assert x * m == (k * p) * m + c * m;
    assert (k * p) * m == k * (p * m);
  }

  /** The digits of a recompose to a modulo the device size. */
  lemma DigitsCompose(g: Dims, a: nat)
    requires g.Positive()
    ensures g.Pages() > 0
    ensures Compose(g, Digits(g, a)) == a % g.Pages()
  {
    var f := Digits(g, a);
    ComposeInRange(g, f);
    var k := DigitsSum(g, a);
    DivModUnique(a, k, g.Pages(), Compose(g, f));
  }

  /** a is a whole number of device sizes and its recomposed digits. */
  lemma DigitsSum(g: Dims, a: nat) returns (k: nat)
    requires g.Positive()
    ensures a == k * g.Pages() + Compose(g, Digits(g, a))
  {
    var f := Digits(g, a);
    hide Compose, Dims.Pages;
    var a1, r1 := QuoRem(a, g.block);
    var a2, r2 := QuoRem(a1, g.plane);
    var a3, r3 := QuoRem(a2, g.die);
    var a4, r4 := QuoRem(a3, g.package);
    var a5, r5 := QuoRem(a4, g.ssd);
    assert f == Fields(r5, r4, r3, r2, r1);
    SumUp(g, f, a, a1, a2, a3, a4, a5);
    k := a5;
  }

  lemma QuoRem(n: nat, m: nat) returns (q: nat, r: nat)
    requires m > 0
    ensures q == n / m && r == n % m && n == q * m + r
  {
    q, r := n / m, n % m;
  }

  lemma SumUp(g: Dims, f: Fields, a: nat, a1: nat, a2: nat, a3: nat, a4: nat, k: nat)
    requires a == a1 * g.block + f.page && a1 == a2 * g.plane + f.block && a2 == a3 * g.die + f.plane
    requires a3 == a4 * g.package + f.die && a4 == k * g.ssd + f.package
    ensures a == k * g.Pages() + Compose(g, f)
  {
    Regroup(a3, a4, k, g.ssd, f.package, g.package, f.die);
    var c3 := f.package * g.package + f.die;
    Regroup(a2, a3, k, g.ssd * g.package, c3, g.die, f.plane);
    var c2 := c3 * g.die + f.plane;
    Regroup(a1, a2, k, g.ssd * g.package * g.die, c2, g.plane, f.block);
    var c1 := c2 * g.plane + f.block;
    Regroup(a, a1, k, g.Blocks(), c1, g.block, f.page);
  }

  function Digits(g: Dims, a: nat): Fields
    requires g.Positive()
  {
    Fields(a / g.block / g.plane / g.die / g.package % g.ssd,
           a / g.block / g.plane / g.die % g.package,
           a / g.block / g.plane % g.die,
           a / g.block % g.plane,
           a % g.block)
  }

  /** Below the device size, recomposing the fields gives the address back. */
  lemma DigitsThenCompose(g: Dims, a: nat)
    requires g.Positive() && a < g.Pages()
    ensures Within(g, Digits(g, a)) && Compose(g, Digits(g, a)) == a
  {
    DigitsCompose(g, a);
    DivModUnique(a, 0, g.Pages(), a);
  }

  /** So no two addresses below the device size are routed to the same page. */
  lemma RoutingIsInjective(g: Dims, a: nat, b: nat)
    requires g.Positive() && a < g.Pages() && b < g.Pages()
    ensures Digits(g, a) == Digits(g, b) <==> a == b
  {
    DigitsThenCompose(g, a);
    DigitsThenCompose(g, b);
  }

  /** And every page of the device has an address below the device size. */
  lemma ComposeThenDigits(g: Dims, f: Fields)
    requires g.Positive() && Within(g, f)
    ensures Compose(g, f) < g.Pages() && Digits(g, Compose(g, f)) == f
  {
    ComposeInRange(g, f);
    var c3 := f.package * g.package + f.die;
    var c2 := c3 * g.die + f.plane;
    var c1 := c2 * g.plane + f.block;
    FourSteps(f, g, c3, c2, c1, Compose(g, f));
  }

  lemma DigitInRange(hi: nat, lo: nat, q: nat, m: nat)
    requires hi < q && lo < m
    ensures hi * m + lo < q * m
  {
    assert hi * m <= (q - 1) * m;
    assert (q - 1) * m == q * m - m;
  }

  lemma ComposeInRange(g: Dims, f: Fields)
    requires Within(g, f)
    ensures BuildIndex(g, f) < g.Blocks() && Compose(g, f) < g.Pages()
  {
    DigitInRange(f.package, f.die, g.ssd, g.package);
    DigitInRange(f.package * g.package + f.die, f.plane, g.ssd * g.package, g.die);
    DigitInRange((f.package * g.package + f.die) * g.die + f.plane, f.block, g.ssd * g.package * g.die, g.plane);
    DigitInRange(BuildIndex(g, f), f.page, g.Blocks(), g.block);
  }

  /** An address is routed to the block whose physical_address is a - a % BLOCK_SIZE,
      and that block is the (a / BLOCK_SIZE)-th one constructed: the position
      update_block computes. So (a / BLOCK_SIZE, a % BLOCK_SIZE) names the page. */
  lemma LinearIsPair(g: Dims, a: nat)
    requires g.Positive() && a < g.Pages()
    ensures var f := Digits(g, a);
            && PhysicalAddress(g, f) == a - a % g.block
            && BuildIndex(g, f) == PhysicalAddress(g, f) / g.block == a / g.block
            && PhysicalAddress(g, f) == BuildIndex(g, f) * g.block
            && f.page == a % g.block
  {
    var f := Digits(g, a);
    DigitsThenCompose(g, a);
    PhysicalIsBuild(g, f);
    HighDigit(a, BuildIndex(g, f), g.block, f.page, PhysicalAddress(g, f));
  }

  lemma HighDigit(a: nat, q: nat, m: nat, r: nat, base: nat)
    requires r < m && a == q * m + r && base == q * m
    ensures a / m == q && a % m == r && base == a - a % m && base / m == q
  {
    DivModUnique(a, q, m, r);
    DivModUnique(base, q, m, 0);
  }

  /** Scaling one more digit by a stride. */
  lemma Stride(x: nat, m: nat, y: nat, s: nat)
    ensures (x * m + y) * s == x * (m * s) + y * s
  {
    assert (x * m + y) * s == (x * m) * s + y * s;
    assert (x * m) * s == x * (m * s);
  }

  lemma Reorder2(a: nat, b: nat, x: nat)
    ensures a * b * x == x * (a * b)
  {
  }

  lemma Reorder3(a: nat, b: nat, c: nat, x: nat)
    ensures a * b * c * x == x * (a * (b * c))
  {
    Reorder2(a * b, c, x);
    assert a * b * c == a * (b * c);
  }

  lemma Reorder4(a: nat, b: nat, c: nat, d: nat, x: nat)
    ensures a * b * c * d * x == x * (a * (b * (c * d)))
  {
    Reorder3(a, b, c * d, x);
    assert a * b * c * d == a * b * (c * d);
  }

  lemma PhysicalIsBuild(g: Dims, f: Fields)
    ensures PhysicalAddress(g, f) == BuildIndex(g, f) * g.block
  {
    var s2 := g.plane * g.block;
    var s3 := g.die * s2;
    var c3 := f.package * g.package + f.die;
    var c2 := c3 * g.die + f.plane;
    Stride(c2, g.plane, f.block, g.block);
    Stride(c3, g.die, f.plane, s2);
    Stride(f.package, g.package, f.die, s3);
    Reorder4(g.package, g.die, g.plane, g.block, f.package);
    Reorder3(g.die, g.plane, g.block, f.die);
    Reorder2(g.plane, g.block, f.plane);
  }
}
