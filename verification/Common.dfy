/** What several of the models share. */
module Common {

  datatype Option<T> = None | Some(value: T)

  /** The quotient and remainder are the only numbers of that kind. */
  lemma Quotient(x: int, d: nat, q: int, r: nat)
    requires d > 0 && x == d * q + r && r < d
    ensures x / d == q && x % d == r
  {
    var (q', r') := (x / d, x % d);
    assert d * (q - q') == r' - r;
    var gap := if q > q' then q - q' else q' - q;
    assert gap == 0 || d * gap >= d;
  }
}
