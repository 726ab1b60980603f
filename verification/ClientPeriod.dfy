/** The period of the client's timer: the greatest common divisor of everything that is due periodically. */
module ClientPeriod {
  const MIN_PERIOD_MS: nat := 5
  const PING_INTERVAL_MS: nat := 3000

  ghost predicate Divides(d: nat, n: nat) {
    exists k: nat :: n == d * k
  }

  function Gcd(a: nat, b: nat): nat
    decreases b
  {
    if b == 0 then a else Gcd(b, a % b)
  }

  lemma DividesSum(d: nat, a: nat, b: nat, q: nat)
    requires Divides(d, a) && Divides(d, b)
    ensures Divides(d, a * q + b)
  {
    var i: nat, j: nat :| a == d * i && b == d * j;
    assert a * q + b == d * (i * q + j);
  }

  lemma DividesRest(d: nat, a: nat, b: nat)
    requires d > 0 && b > 0 && Divides(d, a) && Divides(d, b)
    ensures Divides(d, a % b)
  {
    var i: nat, j: nat :| a == d * i && b == d * j;
    var q := a / b;
    assert a % b == a - b * q == d * i - d * j * q == d * (i - j * q);
    assert i - j * q >= 0;
  }

  /** It divides both, and every common divisor divides it. */
  lemma {:induction false} GcdGreatest(a: nat, b: nat, d: nat)
    requires a > 0 || b > 0
    ensures Gcd(a, b) > 0 && Divides(Gcd(a, b), a) && Divides(Gcd(a, b), b)
    ensures d > 0 && Divides(d, a) && Divides(d, b) ==> Divides(d, Gcd(a, b))
    decreases b
  {
    hide Divides;
    if b == 0 {
      DividesSelf(a);
    } else {
      var q, r := a / b, a % b;
      GcdGreatest(b, r, d);
      DividesSum(Gcd(b, r), b, r, q);
      DivMod(a, b);
      if d > 0 && Divides(d, a) && Divides(d, b) {
        DividesRest(d, a, b);
      }
    }
  }

  lemma DividesSelf(a: nat)
    ensures Divides(a, a) && Divides(a, 0)
  {
    assert a == a * 1 && 0 == a * 0;
  }

  lemma DivMod(a: nat, b: nat)
    requires b > 0
    ensures b * (a / b) + a % b == a
  {
  }

  lemma DividesTrans(d: nat, a: nat, b: nat)
    requires Divides(d, a) && Divides(a, b)
    ensures Divides(d, b)
  {
    var i: nat, j: nat :| a == d * i && b == a * j;
    assert b == d * (i * j);
  }

  /** A positive multiple of the minimum is not below it. */
  lemma AtLeast(n: nat)
    requires n > 0 && Divides(MIN_PERIOD_MS, n)
    ensures n >= MIN_PERIOD_MS
  {
  }

  /** The common period of a starting one and some more. */
  function GcdAll(start: nat, periods: seq<nat>): nat {
    if periods == [] then start else Gcd(GcdAll(start, periods[..|periods| - 1]), periods[|periods| - 1])
  }

  ghost predicate Periods(periods: seq<nat>) {
    forall i :: 0 <= i < |periods| ==> periods[i] > 0 && Divides(MIN_PERIOD_MS, periods[i])
  }

  lemma {:induction false} GcdAllDivides(start: nat, periods: seq<nat>)
    requires start > 0 && Divides(MIN_PERIOD_MS, start) && Periods(periods)
    ensures var g := GcdAll(start, periods);
            && g > 0 && Divides(MIN_PERIOD_MS, g) && Divides(g, start)
            && forall i :: 0 <= i < |periods| ==> Divides(g, periods[i])
  {
    if periods == [] {
      DividesSelf(start);
    } else {
      var n := |periods| - 1;
      var before, last := periods[..n], periods[n];
      GcdAllDivides(start, before);
      var h := GcdAll(start, before);
      GcdGreatest(h, last, MIN_PERIOD_MS);
      var g := Gcd(h, last);
      DividesTrans(g, h, start);
      forall i | 0 <= i < |periods|
        ensures Divides(g, periods[i])
      {
        if i < n {
          assert periods[i] == before[i];
          DividesTrans(g, h, periods[i]);
        }
      }
    }
  }

  /** Every divisor common to the start and to all periods divides it. */
  lemma {:induction false} GcdAllGreatest(start: nat, periods: seq<nat>, d: nat)
    requires start > 0 && d > 0 && Divides(d, start)
    requires forall i :: 0 <= i < |periods| ==> Divides(d, periods[i])
    ensures GcdAll(start, periods) > 0 && Divides(d, GcdAll(start, periods))
  {
    hide Divides;
    if periods != [] {
      var n := |periods| - 1;
      GcdAllGreatest(start, periods[..n], d);
      GcdGreatest(GcdAll(start, periods[..n]), periods[n], d);
    }
  }
}
