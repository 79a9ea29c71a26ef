/** The LED indication sequencer of src/led.rs: a count of LED toggles paced by
    a clock divider. Each call of `tick` either advances the divider or, when the
    divider wraps, performs one more toggle; once every toggle is done, each
    wrap reports that the toggling cycle has ended. The sequencer drives no pin:
    its fields are private, nothing reads `current_toggle`, and no code in the
    firmware calls `Led`. */
module LedSequencer {
  import opened Prelude

  /** The two counters `tick` and `reset` change: `current_toggle` and
      `divider_current_cycle`. */
  datatype Counters = Counters(toggle: nat, cycle: nat)

  /** The counters stay within the configuration they are paced by. */
  predicate Bounded(c: Counters, nbrToggles: nat, divider: nat)
  {
    c.toggle <= nbrToggles && c.cycle <= divider
  }

  /** One `tick` of a sequencer configured with `nbrToggles` toggles and the
      given `divider`: whether the toggling cycle has ended, and the new counters. */
  function Step(c: Counters, nbrToggles: nat, divider: nat): (r: (bool, Counters))
    ensures Bounded(c, nbrToggles, divider) ==> Bounded(r.1, nbrToggles, divider)
    ensures c.cycle < divider ==> !r.0 && r.1 == Counters(c.toggle, c.cycle + 1)
    ensures c.cycle >= divider ==> r.1.cycle == 0
    ensures r.0 <==> c.cycle >= divider && c.toggle >= nbrToggles
    ensures r.1.toggle == if c.cycle >= divider && c.toggle < nbrToggles then c.toggle + 1 else c.toggle
  {
    if c.cycle < divider then (false, c.(cycle := c.cycle + 1))
    else if c.toggle < nbrToggles then (false, Counters(c.toggle + 1, 0))
    else (true, c.(cycle := 0))
  }

  /** The counters after `k` ticks from `c`. */
  function Run(c: Counters, nbrToggles: nat, divider: nat, k: nat): Counters
    decreases k
  {
    if k == 0 then c else Step(Run(c, nbrToggles, divider, k - 1), nbrToggles, divider).1
  }

  /** Whether the `m`-th tick from `c` (counting from 1) reports the end of the cycle. */
  function EndsOn(c: Counters, nbrToggles: nat, divider: nat, m: nat): bool
    requires m >= 1
  {
    Step(Run(c, nbrToggles, divider, m - 1), nbrToggles, divider).0
  }

  /** Ticks compose: `a` ticks followed by `b` ticks are `a + b` ticks. */
  lemma {:induction false} RunAdditive(c: Counters, n: nat, d: nat, a: nat, b: nat)
    ensures Run(Run(c, n, d, a), n, d, b) == Run(c, n, d, a + b)
    decreases b
  {
    if b > 0 {
      RunAdditive(c, n, d, a, b - 1);
    }
  }

  /** Closed form of the counters from a fresh sequence: after `q` full divider
      periods and `r` further ticks, `min(q, n)` toggles are done and the divider
      stands at `r`. */
  lemma {:induction false} RunFromZero(n: nat, d: nat, q: nat, r: nat)
    requires r <= d
    ensures Run(Counters(0, 0), n, d, q * (d + 1) + r) == Counters(if q < n then q else n, r)
    decreases q, r
  {
    if r > 0 {
      RunFromZero(n, d, q, r - 1);
    } else if q > 0 {
      RunFromZero(n, d, q - 1, d);
      assert (q - 1) * (d + 1) + d + 1 == q * (d + 1);
    }
  }

  /** From a fresh sequence, tick number `q * (d + 1) + r + 1` reports the end of
      the cycle exactly when it completes a divider period (`r == d`) after all
      `n` toggles are done (`q >= n`). */
  lemma EndsOnFromZero(n: nat, d: nat, q: nat, r: nat)
    requires r <= d
    ensures EndsOn(Counters(0, 0), n, d, q * (d + 1) + r + 1) <==> r == d && q >= n
  {
    RunFromZero(n, d, q, r);
  }

  /** From a fresh sequence the first end of the cycle is reported on tick
      `(d + 1) * (n + 1)`, and on no earlier tick. */
  lemma FirstEnd(n: nat, d: nat, m: nat)
    requires 1 <= m <= (d + 1) * (n + 1)
    ensures EndsOn(Counters(0, 0), n, d, m) <==> m == (d + 1) * (n + 1)
  {
    var q, r := Divide(m - 1, d + 1);
    EndsOnFromZero(n, d, q, r);
    if r == d && q >= n {
      MulMonotone(n + 1, q + 1, d + 1);
      assert m == (q + 1) * (d + 1);
    }
    if m == (d + 1) * (n + 1) {
      EndsOnFromZero(n, d, n, d);
      assert m == n * (d + 1) + d + 1;
    }
  }

  /** After the first end, the toggle count stays at `n` and every `(d + 1)`-th
      tick reports the end again, until `reset`. */
  lemma EndsRepeat(n: nat, d: nat, q: nat)
    requires q >= n
    ensures Run(Counters(0, 0), n, d, (q + 1) * (d + 1)).toggle == n
    ensures EndsOn(Counters(0, 0), n, d, (q + 1) * (d + 1))
    ensures forall m :: (q + 1) * (d + 1) < m < (q + 2) * (d + 1) ==> !EndsOn(Counters(0, 0), n, d, m)
  {
    RunFromZero(n, d, q + 1, 0);
    EndsOnFromZero(n, d, q, d);
    assert q * (d + 1) + d + 1 == (q + 1) * (d + 1);
    forall m | (q + 1) * (d + 1) < m < (q + 2) * (d + 1)
      ensures !EndsOn(Counters(0, 0), n, d, m)
    {
      var r := m - (q + 1) * (d + 1) - 1;
      assert (q + 2) * (d + 1) == (q + 1) * (d + 1) + d + 1;
      EndsOnFromZero(n, d, q + 1, r);
    }
  }

  /** `reset` zeroes the toggle count and leaves the divider where it stood: from
      a divider at `c`, the first end of the new cycle is reported on tick
      `(d + 1) * (n + 1) - c`, and on no earlier tick. */
  lemma EndAfterReset(n: nat, d: nat, c: nat, m: nat)
    requires c <= d
    requires 1 <= m <= (d + 1) * (n + 1) - c
    ensures EndsOn(Counters(0, c), n, d, m) <==> m == (d + 1) * (n + 1) - c
  {
    RunFromZero(n, d, 0, c);
    RunAdditive(Counters(0, 0), n, d, c, m - 1);
    FirstEnd(n, d, c + m);
  }

  /** With two blinks (four toggles) and a divider of 4, the first end of the
      cycle is reported on tick 25. */
  lemma TwoBlinksDividerFour(m: nat)
    requires 1 <= m <= 25
    ensures EndsOn(Counters(0, 0), 4, 4, m) <==> m == 25
  {
    FirstEnd(4, 4, m);
  }

  /** Multiplication by a natural number is monotone; a helper for `FirstEnd`. */
  lemma MulMonotone(a: nat, b: nat, k: nat)
    requires a <= b
    ensures a * k <= b * k
  {
    assert b * k == a * k + (b - a) * k;
  }

  /** Euclidean division of `x` by `k`, without `/` and `%`. */
  lemma {:induction false} Divide(x: nat, k: nat) returns (q: nat, r: nat)
    requires k > 0
    ensures x == q * k + r && r < k
    decreases x
  {
    if x < k {
      q, r := 0, x;
    } else {
      q, r := Divide(x - k, k);
      q := q + 1;
    }
  }

  /** The sequencer `Led` of src/led.rs; its fields are `u8`. */
  class Led {
    var nbrToggles: U8
    var currentToggle: U8
    /** Slows the blinking down: `tick` toggles once every `divider + 1` calls. */
    var divider: U8
    var dividerCurrentCycle: U8

    ghost function Counts(): Counters
      reads this
    {
      Counters(currentToggle, dividerCurrentCycle)
    }

    ghost predicate Valid()
      reads this
    {
      Bounded(Counts(), nbrToggles, divider)
    }

    /** `Led::new`: `nbr_blinks` blinks take twice as many toggles; `nbr_blinks * 2`
        must fit in a `u8`. */
    constructor (nbrBlinks: U8, divider: U8)
      requires nbrBlinks <= 127
      ensures nbrToggles == 2 * nbrBlinks && this.divider == divider
      ensures Counts() == Counters(0, 0)
      ensures Valid()
    {
      nbrToggles := nbrBlinks * 2;
      currentToggle := 0;
      this.divider := divider;
      dividerCurrentCycle := 0;
    }

    /** `reset`: begins a fresh toggling cycle; the divider is left where it stands. */
    method Reset()
      requires Valid()
      modifies this
      ensures Valid()
      ensures Counts() == Counters(0, old(dividerCurrentCycle))
      ensures nbrToggles == old(nbrToggles) && divider == old(divider)
    {
      currentToggle := 0;
    }

    /** `tick`: returns true when the toggling cycle has ended. */
    method Tick() returns (ended: bool)
      requires Valid()
      modifies this
      ensures Valid()
      ensures (ended, Counts()) == Step(old(Counts()), nbrToggles, divider)
      ensures nbrToggles == old(nbrToggles) && divider == old(divider)
    {
      if dividerCurrentCycle < divider {
        dividerCurrentCycle := dividerCurrentCycle + 1;
      } else {
        dividerCurrentCycle := 0;
        if currentToggle < nbrToggles {
          currentToggle := currentToggle + 1;
        } else {
          return true;
        }
      }
      return false;
    }
  }
}
