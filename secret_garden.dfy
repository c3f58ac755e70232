/** `secret_garden`: a fixed list of numbers with a parallel list of their names,
    and `visit`, which hands them to a visitor one call at a time. */
module SecretGarden {

  /** The visitor's arity, which `visit` detects at compile time: a `PairVisitor`
      can be called with `(const int&, const std::string&)`, any other visitor is
      an `ElementVisitor`. */
  datatype Visitor = ElementVisitor | PairVisitor

  /** One call of the visitor, with its arguments. */
  datatype Call = Element(datum: int) | Pair(datum: int, meta: string)

  class Garden {
    const data: seq<int> := [0, 1, 2, 3, 4, 5]
    const metaData: seq<string> := ["zero", "one", "two", "three", "four", "five"]

    constructor ()
    {
    }

    /** `visit(invocable)`: the calls it makes, in order. A pair visitor gets
        `(data[i], metaData[i])` for each index `i` in increasing order; any other
        visitor gets each element of `data` in order and sees no name. */
    method Visit(v: Visitor) returns (trace: seq<Call>)
      ensures |trace| == |data|
      ensures v == PairVisitor ==>
                forall i :: 0 <= i < |data| ==> trace[i] == Pair(data[i], metaData[i])
      ensures v == ElementVisitor ==>
                forall i :: 0 <= i < |data| ==> trace[i] == Element(data[i])
    {
      trace := [];
      if v == PairVisitor {
        for i := 0 to |data|
          invariant |trace| == i
          invariant forall k :: 0 <= k < i ==> trace[k] == Pair(data[k], metaData[k])
        {
          trace := trace + [Pair(data[i], metaData[i])];
        }
      } else {
        for i := 0 to |data|
          invariant |trace| == i
          invariant forall k :: 0 <= k < i ==> trace[k] == Element(data[k])
        {
          trace := trace + [Element(data[i])];
        }
      }
    }
  }
}
