/** The traits policy `seq_traits` instantiated for `char`: the element operations the view is generic over. */
module CharTraits {

  /** `seq_traits::eq`: equal elements are not ordered either way by `lt`. */
  predicate Eq(a: char, b: char): (r: bool)
    ensures r ==> !Lt(a, b) && !Lt(b, a)
  {
    a == b
  }

  /** `seq_traits::lt`: irreflexive, asymmetric and total on elements. */
  predicate Lt(a: char, b: char): (r: bool)
    ensures r ==> a != b
    ensures r ==> !(b < a)
    ensures !r ==> a == b || b < a
  {
    a < b
  }
}
