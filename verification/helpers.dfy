/** What several modules share. */
module Helpers {

  datatype Option<T> = None | Some(value: T)

  /** Remainder, by repeated subtraction. */
  function Rem(n: nat, period: nat): (r: nat)
    requires period > 0
    ensures r < period
  {
    if n < period then n else Rem(n - period, period)
  }

  lemma {:induction false} RemPlus(n: nat, d: nat, period: nat)
    requires period > 0 && Rem(n, period) + d <= period
    ensures Rem(n + d, period) == if Rem(n, period) + d < period then Rem(n, period) + d else 0
  {
    if n >= period {
      RemPlus(n - period, d, period);
      assert n + d >= period && (n + d) - period == (n - period) + d;
    }
  }

  lemma {:induction false} RemAdds(n: nat, d: nat, period: nat)
    requires period > 0
    ensures Rem(n + d, period) == Rem(Rem(n, period) + d, period)
  {
    if n >= period {
      RemAdds(n - period, d, period);
      assert (n + d) - period == (n - period) + d;
    }
  }
}
