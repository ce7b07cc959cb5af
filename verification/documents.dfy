/**
 * The shape ambiguity of an XML document after it is turned into nested
 * dictionaries: a repeated child element comes back as a list, a child that
 * occurs once comes back as a bare record, and a missing child is absent.
 * Every list-valued field the pages read is coerced back into a sequence.
 */
module Documents {
  import opened Wrappers

  /** A child element after parsing: one record, or a list of records. */
  datatype OneOrMany<T> = Single(item: T) | Many(items: seq<T>)

  /** `x = d.get(key, [])` followed by `if isinstance(x, dict): x = [x]`: a missing key is the
      empty list, a single record becomes a one-element list, a list passes through unchanged. */
  function AsList<T>(node: Option<OneOrMany<T>>): (r: seq<T>)
    ensures node.None? ==> r == []
    ensures node.Some? && node.value.Single? ==> r == [node.value.item]
    ensures node.Some? && node.value.Many? ==> r == node.value.items
  {
    match node
    case None => []
    case Some(Single(x)) => [x]
    case Some(Many(xs)) => xs
  }

  /** How the XML parser presents `n` repeated child elements: absent for none, a bare record for
      exactly one, a list for two or more. */
  function Shape<T>(xs: seq<T>): (node: Option<OneOrMany<T>>)
    ensures node.None? <==> |xs| == 0
    ensures node.Some? && node.value.Single? <==> |xs| == 1
  {
    if |xs| == 0 then None
    else if |xs| == 1 then Some(Single(xs[0]))
    else Some(Many(xs))
  }

  /** Coercion undoes the parser's shaping: one record yields a list of length 1, N records a list
      of length N, in document order. */
  lemma AsListOfShape<T>(xs: seq<T>)
    ensures AsList(Shape(xs)) == xs
    ensures |AsList(Shape(xs))| == |xs|
  {
    if |xs| == 1 {
      assert xs == [xs[0]];
    }
  }
}
