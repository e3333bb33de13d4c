/** SQL values: NULL is `None`, and comparisons are three-valued (ISO/IEC 9075-2). */
module Sql {

  datatype Option<+T> = None | Some(value: T)

  /** A truth value. A WHERE clause, an IF condition or a CHECK keeps a row only when it is `True`. */
  datatype Tri = True | False | Unknown {

    predicate Holds() {
      True?
    }

    function Not(): Tri {
      match this
      case True => False
      case False => True
      case Unknown => Unknown
    }

    function And(other: Tri): Tri {
      if False? || other.False? then False else if True? && other.True? then True else Unknown
    }

    function Or(other: Tri): Tri {
      Not().And(other.Not()).Not()
    }
  }

  function Bool(b: bool): Tri {
    if b then True else False
  }

  /** `a = b` */
  function Eq<T(==)>(a: Option<T>, b: Option<T>): Tri {
    if a.None? || b.None? then Unknown else Bool(a.value == b.value)
  }

  /** `a <= b` on numbers and timestamps */
  function Le(a: Option<int>, b: Option<int>): Tri {
    if a.None? || b.None? then Unknown else Bool(a.value <= b.value)
  }

  function Coalesce<T>(a: Option<T>, default: T): T {
    if a.Some? then a.value else default
  }

  /** `COALESCE(a, '') <> ''` */
  predicate Present(a: Option<string>) {
    Coalesce(a, "") != ""
  }
}
