/** A cell of a pandas column of floats: `None` stands for NaN, `Some(x)` for a number.
    The helpers reproduce how pandas propagates NaN through arithmetic and comparisons. */
module Optional {

  datatype Option<+T> = None | Some(value: T) {

    /** `fillna(default)` on a single cell. */
    function GetOr(default: T): T
    {
      match this
      case Some(v) => v
      case None => default
    }
  }

  /** `a * b` on two float cells: NaN on either side gives NaN. */
  function Times(a: Option<real>, b: Option<real>): Option<real>
  {
    if a.Some? && b.Some? then Some(a.value * b.value) else None
  }

  /** `a - b` where only `a` may be NaN. */
  function Minus(a: Option<real>, b: real): Option<real>
  {
    if a.Some? then Some(a.value - b) else None
  }

  /** `a > b` on float cells: any comparison with NaN is False. */
  predicate Greater(a: Option<real>, b: Option<real>) {
    a.Some? && b.Some? && a.value > b.value
  }

  /** `a < b` where only `a` may be NaN: NaN compares False. */
  predicate Less(a: Option<real>, b: real) {
    a.Some? && a.value < b
  }
}
