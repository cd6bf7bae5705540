/** Request sizes to size classes: 8 tiny, 24 small, 6 medium and 3 large, then Huge. */
module SizeClass {
  import opened Bits

  const CLASSES: nat := 41
  const MEDIUM_FIRST: nat := 32
  const SMALL_FIRST: nat := 8
  const HUGE: nat := 0xffff_ffff

  const SIZES: seq<nat> := [
    8, 16, 24, 32, 40, 48, 56, 64,
    80, 96, 112, 128,
    160, 192, 224, 256,
    320, 384, 448, 512,
    640, 768, 896, 1024,
    1280, 1536, 1792, 2048,
    2560, 3072, 3584, 4096,
    8192, 16384, 32768, 65536, 131072, 262144,
    524288, 1048576, 2097152]

  function SizeOf(c: nat): nat
    requires c < CLASSES
  {
    SIZES[c]
  }

  /** Four classes per power of two, told apart by the two bits below the leading one. */
  function SmallClass(request: nat): nat
    requires 64 < request <= 4096
  {
    var msb := Msb(request - 1);
    SmallMsb(request);
    var sub := ((request - 1) / Pow2(msb - 2)) % 4;
    SMALL_FIRST + (msb - 6) * 4 + sub
  }

  /** One class per power of two. */
  function LargeClass(request: nat): nat
    requires 4096 < request
  {
    MsbAtLeast(request - 1, 12);
    SmallPowers();
    var c := MEDIUM_FIRST + Msb(request - 1) - 12;
    if c > 40 then HUGE else c
  }

  function ClassOf(request: nat): nat {
    if request <= 64 then
      var coerced := request + (if request == 0 then 1 else 0);
      (coerced + 7) / 8 - 1
    else if request > 4096 then LargeClass(request)
    else SmallClass(request)
  }

  lemma SmallPowers()
    ensures Pow2(4) == 16 && Pow2(5) == 32 && Pow2(6) == 64 && Pow2(7) == 128 && Pow2(8) == 256
    ensures Pow2(9) == 512 && Pow2(10) == 1024 && Pow2(11) == 2048 && Pow2(12) == 4096
  {}

  lemma LargePowers()
    ensures Pow2(13) == 8192 && Pow2(14) == 16384 && Pow2(15) == 32768 && Pow2(16) == 65536
    ensures Pow2(17) == 131072 && Pow2(18) == 262144
    ensures Pow2(19) == 524288 && Pow2(20) == 1048576 && Pow2(21) == 2097152
  {}

  lemma SmallMsb(request: nat)
    requires 64 < request <= 4096
    ensures 6 <= Msb(request - 1) <= 11
    ensures Pow2(Msb(request - 1)) < request <= 2 * Pow2(Msb(request - 1))
  {
    SmallPowers();
    MsbAtLeast(request - 1, 6);
    MsbAtLeast(request - 1, 12);
    MsbBounds(request - 1);
  }

  /** The class fits the request and the one below does not. */
  ghost predicate Fits(request: nat, c: nat) {
    && c < CLASSES && request <= SizeOf(c)
    && (c > 0 ==> SizeOf(c - 1) < request)
  }

  /** Group `g` of the small classes runs in steps of a quarter power of two. */
  lemma SmallSizes(g: nat, q: nat)
    requires g < 6 && 4 <= q < 8
    ensures SizeOf(4 + 4 * g + q) == (q + 1) * Pow2(g + 4)
    ensures SizeOf(3 + 4 * g + q) == q * Pow2(g + 4)
  {
    hide Pow2;
    SmallPowers();
    if g < 3 {
      assert g == 0 || g == 1 || g == 2;
    } else {
      assert g == 3 || g == 4 || g == 5;
    }
  }

  lemma Quarter(x: nat, u: nat) returns (q: nat)
    requires u > 0 && 4 * u <= x < 8 * u
    ensures q == x / u && 4 <= q < 8 && q * u <= x < (q + 1) * u
    ensures 4 * ((q + 1) * u - (x + 1)) < x + 1
  {
    q := if x < 5 * u then 4 else if x < 6 * u then 5 else if x < 7 * u then 6 else 7;
    QuotientIs(x, u, q);
  }

  lemma FourTimes(k: nat)
    ensures Pow2(k + 2) == 4 * Pow2(k)
  {}

  lemma SmallClassIs(request: nat, q: nat)
    requires 64 < request <= 4096 && 4 <= q < 8 && 6 <= Msb(request - 1) <= 11
    requires q == (request - 1) / Pow2(Msb(request - 1) - 2)
    ensures SmallClass(request) == 4 * Msb(request - 1) - 20 + q
  {}

  lemma SmallFits(request: nat)
    requires 64 < request <= 4096
    ensures Fits(request, SmallClass(request))
    ensures 4 * (SizeOf(SmallClass(request)) - request) < request
    ensures SMALL_FIRST <= SmallClass(request) < MEDIUM_FIRST
  {
    hide SizeOf, Pow2, Msb, SmallClass;
    SmallMsb(request);
    var msb := Msb(request - 1);
    FourTimes(msb - 2);
    var q := Quarter(request - 1, Pow2(msb - 2));
    SmallClassIs(request, q);
    SmallSizes(msb - 6, q);
  }

  lemma LargeFits(request: nat)
    requires 4096 < request
    ensures request <= 2097152 ==> Fits(request, LargeClass(request))
    ensures request > 2097152 ==> LargeClass(request) == HUGE
  {
    SmallPowers();
    LargePowers();
    MsbBounds(request - 1);
    MsbAtLeast(request - 1, 12);
    MsbAtLeast(request - 1, 21);
  }

  lemma Adjacent(i: nat)
    requires i < CLASSES - 1
    ensures SizeOf(i) < SizeOf(i + 1)
  {}

  lemma {:induction false} Increasing(i: nat, j: nat)
    requires i < j < CLASSES
    ensures SizeOf(i) < SizeOf(j)
  {
    hide SizeOf;
    Adjacent(j - 1);
    if i < j - 1 {
      Increasing(i, j - 1);
    }
  }

  lemma FitsIsLeast(request: nat, c: nat)
    requires Fits(request, c)
    ensures forall d :: 0 <= d < c ==> SizeOf(d) < request
  {
    hide SizeOf;
    forall d | 0 <= d < c
      ensures SizeOf(d) < request
    {
      if d < c - 1 {
        Increasing(d, c - 1);
      }
    }
  }

  lemma TinyFits(request: nat)
    requires request <= 64
    ensures Fits(request, ClassOf(request))
  {
    hide SizeOf;
    var c := ClassOf(request);
    TinySizes(c);
    if c > 0 {
      TinySizes(c - 1);
    }
  }

  lemma TinySizes(c: nat)
    requires c < SMALL_FIRST
    ensures SizeOf(c) == 8 * (c + 1)
  {}

  lemma ClassFits(request: nat)
    requires request <= 2097152
    ensures Fits(request, ClassOf(request))
  {
    hide SizeOf;
    if request > 4096 {
      LargeFits(request);
    } else if request > 64 {
      SmallFits(request);
    } else {
      TinyFits(request);
    }
  }

  /**
   For every request: the class is the smallest that holds it, requests beyond
   the table are Huge, and a small class wastes under a quarter of the request.
   */
  lemma ClassIsLeast(request: nat)
    ensures request <= 2097152 ==>
      && ClassOf(request) < CLASSES && request <= SizeOf(ClassOf(request))
      && (forall c :: 0 <= c < ClassOf(request) ==> SizeOf(c) < request)
    ensures request > 2097152 ==> ClassOf(request) == HUGE
    ensures 64 < request <= 4096 ==> 4 * (SizeOf(ClassOf(request)) - request) < request
  {
    hide SizeOf;
    if request > 2097152 {
      LargeFits(request);
    } else {
      ClassFits(request);
      FitsIsLeast(request, ClassOf(request));
      if 64 < request <= 4096 {
        SmallFits(request);
      }
    }
  }

  lemma ClassIsMonotone(r: nat, r': nat)
    requires r <= r'
    ensures ClassOf(r) <= ClassOf(r')
  {
    hide ClassOf, SizeOf;
    ClassIsLeast(r);
    ClassIsLeast(r');
  }
}
