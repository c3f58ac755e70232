/** C++ types as values.

    The programs being modelled compute with types at compile time. Here a type is
    an ordinary value: an unqualified type (`Tag`) together with the cv/reference
    qualification it is written with (`Qual`). Decaying a type keeps the tag. */
module CppTypes {

  /** An unqualified type: what `std::decay_t` leaves of a parameter type. */
  datatype Tag =
    | Void | Bool | Char | Short | Int | Long | Float | Double
    | Class(name: string)        // a class type: a member pointer's `C`, a closure type
    | TupleOf(elems: seq<Tag>)   // `std::tuple<elems...>`

  /** How a parameter type is qualified: `T`, `const T`, `T&`, `const T&`, `T&&`. */
  datatype Qual = Plain | Const | LRef | ConstLRef | RRef

  datatype Type = Type(base: Tag, qual: Qual)

  /** `std::decay_t`, restricted to stripping const and reference qualifiers. */
  function Decay(t: Type): Tag
  {
    t.base
  }

  /** `std::decay_t<Args>...`: decay applied to every entry of a parameter list. */
  function DecayAll(ts: seq<Type>): seq<Tag>
  {
    seq(|ts|, i requires 0 <= i < |ts| => Decay(ts[i]))
  }

  /** The type a parameter has once a function type is formed from it: a top-level
      `const` on a by-value parameter is deleted (`void(const int)` is the type
      `void(int)`), while references keep their qualifiers. */
  function AsParameter(t: Type): (p: Type)
    ensures p.base == t.base && p.qual != Const
    ensures t.qual != Const ==> p == t
  {
    if t.qual == Const then Type(t.base, Plain) else t
  }

  /** The parameter list of the function type `R(ts...)`. */
  function ParameterList(ts: seq<Type>): seq<Type>
  {
    seq(|ts|, i requires 0 <= i < |ts| => AsParameter(ts[i]))
  }

  /** Deleting top-level const does not change what a parameter list decays to. */
  lemma DecayIgnoresParameterAdjustment(ts: seq<Type>)
    ensures DecayAll(ParameterList(ts)) == DecayAll(ts)
  {
    assert forall i :: 0 <= i < |ts| ==> DecayAll(ParameterList(ts))[i] == DecayAll(ts)[i];
  }

  /** Whether `T x(65)` (direct initialisation from an int) is well formed. A
      one-element tuple forwards the int to its element; any other tuple arity has
      no constructor taking a single int. */
  predicate InitFromInt(t: Tag)
  {
    match t
    case Void => false
    case TupleOf(es) => |es| == 1 && InitFromInt(es[0])
    case _ => true
  }

  /** Whether `T{65}` (list initialisation from the literal 65) is well formed.
      `bool{65}` is a narrowing conversion and is rejected; the arithmetic types
      all hold 65 exactly. */
  predicate BraceInitFromSeed(t: Tag)
  {
    t != Bool && InitFromInt(t)
  }
}
