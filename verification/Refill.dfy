/** The integer moving average and the refill controller that sizes batches with it. */
module Refill {
  import opened Bits
  import opened SizeClass

  const BATCH_MIN: nat := 8
  const BATCH_MAX: nat := 64
  const TARGET_MICROS: nat := 100

  // ---------------------------------------------------------------------
  // The moving average
  // ---------------------------------------------------------------------

  function Ema(e: nat, demand: nat): nat {
    (3 * e + demand) / 4
  }

  function EmaAfter(e: nat, d: nat, n: nat): nat
    decreases n
  {
    if n == 0 then e else EmaAfter(Ema(e, d), d, n - 1)
  }

  /** One step moves towards the demand without crossing it, and stalls just below it. */
  lemma EmaStep(e: nat, d: nat)
    ensures e <= d ==> e <= Ema(e, d) <= d
    ensures e >= d ==> d <= Ema(e, d) <= e
    ensures Ema(e, d) == e <==> e <= d <= e + 3
  {}

  /** Under constant demand the average settles within three below it, from any start. */
  lemma {:induction false} EmaSettles(e: nat, d: nat, n: nat)
    requires n >= (if e <= d then d - e else e - d)
    ensures EmaAfter(e, d, n) <= d <= EmaAfter(e, d, n) + 3
    ensures e <= d ==> e <= EmaAfter(e, d, n)
    ensures e >= d ==> EmaAfter(e, d, n) == d
    decreases n
  {
    EmaStep(e, d);
    if n > 0 {
      if Ema(e, d) == e {
        EmaStays(e, d, n);
      } else {
        EmaSettles(Ema(e, d), d, n - 1);
      }
    }
  }

  lemma {:induction false} EmaStays(e: nat, d: nat, n: nat)
    requires Ema(e, d) == e
    ensures EmaAfter(e, d, n) == e
  {
    if n > 0 {
      EmaStays(e, d, n - 1);
    }
  }

  // ---------------------------------------------------------------------
  // The controller
  // ---------------------------------------------------------------------

  function Clamp(n: nat): nat {
    if n < BATCH_MIN then BATCH_MIN else if n > BATCH_MAX then BATCH_MAX else n
  }

  /** Slots expected to be asked for within the target hold time at the recent rate. */
  function Expected(ema: nat, elapsed: nat, ticksPerMicro: nat): nat
    requires elapsed > 0
  {
    (ema * (TARGET_MICROS * ticksPerMicro)) % 0x1_0000_0000_0000_0000 / elapsed
  }

  /** The product does not exceed 64 bits. */
  predicate NoWrap(ema: nat, ticksPerMicro: nat) {
    ema * (TARGET_MICROS * ticksPerMicro) < 0x1_0000_0000_0000_0000
  }

  /** More demand or a shorter interval never makes the batch smaller. */
  lemma BatchFollowsRate(e: nat, e': nat, t: nat, t': nat, ticksPerMicro: nat)
    requires e <= e' && 0 < t' <= t && NoWrap(e', ticksPerMicro)
    ensures NoWrap(e, ticksPerMicro)
    ensures Clamp(Expected(e, t, ticksPerMicro)) <= Clamp(Expected(e', t', ticksPerMicro))
  {
    var ticks := TARGET_MICROS * ticksPerMicro;
    MulMono(e, e', ticks);
    QuotientMono(e * ticks, e' * ticks, t, t');
  }

  lemma QuotientMono(x: nat, y: nat, t: nat, t': nat)
    requires x <= y && 0 < t' <= t
    ensures x / t <= y / t'
  {
    var q := x / t;
    assert q * t <= x;
    MulMono(t', t, q);
    assert q * t' <= y;
    AtLeastQuotient(y, t', q);
  }

  lemma AtLeastQuotient(y: nat, t: nat, q: nat)
    requires t > 0 && q * t <= y
    ensures q <= y / t
  {
    var d := y / t;
    assert y < d * t + t == (d + 1) * t;
    SmallerFactor(q, d + 1, t);
  }

  lemma SmallerFactor(a: nat, b: nat, u: nat)
    requires a * u < b * u
    ensures a < b
  {
    if b <= a {
      MulMono(b, a, u);
    }
  }

  lemma ExpectedIs(e: nat, t: nat, ticksPerMicro: nat)
    requires 0 < t && NoWrap(e, ticksPerMicro)
    ensures Expected(e, t, ticksPerMicro) == e * (100 * ticksPerMicro) / t
  {}

  lemma ClampCovers(q: nat, t: nat, wanted: nat)
    requires 0 < t && q == wanted / t
    ensures Clamp(q) > 8 ==> Clamp(q) * t <= wanted
    ensures Clamp(q) < 64 ==> wanted < (Clamp(q) + 1) * t
  {
    var batch := Clamp(q);
    assert q * t <= wanted < q * t + t == (q + 1) * t;
    hide Clamp;
    if batch <= q {
      MulMono(batch, q, t);
    }
    if q <= batch {
      MulMono(q + 1, batch + 1, t);
    }
  }

  /**
   Between its bounds the batch is what the hold time of 100 microseconds
   calls for at the rate of the last interval: as many slots as it covers,
   and one more would be too many.
   */
  lemma BatchCoversHoldTime(e: nat, t: nat, ticksPerMicro: nat)
    requires 0 < t && NoWrap(e, ticksPerMicro)
    ensures var batch, wanted := Clamp(Expected(e, t, ticksPerMicro)), e * (100 * ticksPerMicro);
            && (batch > 8 ==> batch * t <= wanted)
            && (batch < 64 ==> wanted < (batch + 1) * t)
  {
    ExpectedIs(e, t, ticksPerMicro);
    hide Expected;
    ClampCovers(Expected(e, t, ticksPerMicro), t, e * (100 * ticksPerMicro));
  }

  datatype ClassState = ClassState(ema: nat, batch: nat, last: nat)

  class Controller {
    var perClass: seq<ClassState>

    ghost predicate Valid()
      reads this
    {
      |perClass| == CLASSES && forall c :: 0 <= c < CLASSES ==> BATCH_MIN <= perClass[c].batch <= BATCH_MAX
    }

    /** No demand seen so far has moved the average of class `c`. */
    ghost predicate Cold(c: nat)
      reads this
    {
      c < |perClass| && perClass[c].ema == 0 && perClass[c].batch == BATCH_MIN
    }

    constructor ()
      ensures Valid() && forall c :: 0 <= c < CLASSES ==> Cold(c)
    {
      perClass := seq(CLASSES, _ => ClassState(0, BATCH_MIN, 0));
    }

    /**
     `now` is the clock and `ticksPerMicro` its rate. Whatever they read, the
     batch stays within its bounds, and a class that only ever reports a
     demand of one never leaves the minimum.
     */
    method ComputeBatch(c: nat, demand: nat, now: nat, ticksPerMicro: nat) returns (batch: nat)
      requires Valid()
      modifies this
      ensures Valid() && BATCH_MIN <= batch <= BATCH_MAX
      ensures c >= CLASSES ==> batch == BATCH_MIN && perClass == old(perClass)
      ensures c < CLASSES ==>
        && perClass == old(perClass)[c := ClassState(Ema(old(perClass)[c].ema, demand) % 0x1_0000_0000, batch, now)]
        && (old(perClass)[c].last == 0 || now <= old(perClass)[c].last ==> batch == old(perClass)[c].batch)
        && (0 < old(perClass)[c].last < now ==>
              batch == Clamp(Expected(perClass[c].ema, now - old(perClass)[c].last, ticksPerMicro)))
      ensures old(Cold(c)) && demand == 1 ==> batch == BATCH_MIN && Cold(c)
    {
      if c >= CLASSES {
        return BATCH_MIN;
      }
      var state := perClass[c];
      var elapsed := if state.last == 0 || now <= state.last then 0 else now - state.last;
      var ema := Ema(state.ema, demand) % 0x1_0000_0000;
      if elapsed > 0 {
        var target := TARGET_MICROS * ticksPerMicro;
        var numerator := (ema * target) % 0x1_0000_0000_0000_0000;
        var computed := numerator / elapsed;
        if computed > BATCH_MAX {
          computed := BATCH_MAX;
        }
        batch := computed;
        if ema == 0 {
          ZeroNumerator(target, elapsed);
        }
      } else {
        batch := state.batch;
      }
      if batch < BATCH_MIN {
        batch := BATCH_MIN;
      }
      if batch > BATCH_MAX {
        batch := BATCH_MAX;
      }
      perClass := perClass[c := ClassState(ema, batch, now)];
    }
  }

  lemma ZeroNumerator(target: nat, elapsed: nat)
    requires elapsed > 0
    ensures ((0 * target) % 0x1_0000_0000_0000_0000) / elapsed == 0
  {}
}
