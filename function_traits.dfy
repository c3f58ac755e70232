/** `function_traits`: the parameter list of a callable type, as declared (`args`)
    and with const/reference qualifiers stripped (`args_decay`). */
module FunctionTraits {
  import opened CppTypes

  /** The callable forms `function_traits` has a specialisation for. */
  datatype Callable =
    | Function(ret: Type, params: seq<Type>)                                  // R(Args...)
    | FunctionPointer(ret: Type, params: seq<Type>)                           // R(*)(Args...)
    | MemberFunctionPointer(cls: string, ret: Type, params: seq<Type>, isConst: bool)  // R(C::*)(Args...) [const]
    | MemberObjectPointer(cls: string, field: Type)                           // R C::*
    | FunctionObject(cls: string, callRet: Type, callParams: seq<Type>, callIsConst: bool)
      // a class F whose single, non-template operator() has the given signature
    | LvalueRef(target: Callable)                                             // F&
    | RvalueRef(target: Callable)                                             // F&&

  /** The two member types of a `function_traits` instance. */
  datatype Shape = Shape(args: seq<Type>, argsDecay: seq<Tag>)

  /** The implicit receiver `C&` that member pointers put in front of the parameters. */
  function Receiver(cls: string): Type
  {
    Type(Class(cls), LRef)
  }

  /** `drop_first`: only the specialisation for a non-empty tuple exists, so using
      it on an empty list does not compile. */
  function DropFirst<T>(s: seq<T>): (r: seq<T>)
    requires |s| > 0
    ensures |r| == |s| - 1
    ensures forall i :: 0 <= i < |r| ==> r[i] == s[i + 1]
  {
    s[1..]
  }

  /** `drop_first<std::tuple<T, Args...>>::type` is `std::tuple<Args...>`. */
  lemma DropFirstUndoesPrepend<T>(x: T, s: seq<T>)
    ensures DropFirst([x] + s) == s
  {
    assert ([x] + s)[1..] == s;
  }

  /** Dropping the receiver and decaying can be done in either order. */
  lemma DropFirstCommutesWithDecay(s: seq<Type>)
    requires |s| > 0
    ensures DropFirst(DecayAll(s)) == DecayAll(DropFirst(s))
  {
  }

  /** How many specialisation steps a callable is from the base case `R(Args...)`;
      every delegation in `Traits` goes to a smaller rank. */
  function Rank(c: Callable): nat
  {
    match c
    case Function(_, _) => 0
    case FunctionPointer(_, _) => 1
    case MemberFunctionPointer(_, _, _, _) => 1
    case MemberObjectPointer(_, _) => 1
    case FunctionObject(_, _, _, _) => 2
    case LvalueRef(f) => Rank(f) + 1
    case RvalueRef(f) => Rank(f) + 1
  }

  /** `function_traits<c>`: each case delegates exactly as its specialisation
      inherits. Whatever the form, `args` has one entry per declared parameter plus
      the receiver of a member pointer, and `args_decay` is the pointwise decay of
      `args`. */
  function Traits(c: Callable): (s: Shape)
    ensures |s.args| == |ExposedReceiver(c)| + |DeclaredParams(c)|
    ensures |s.argsDecay| == |s.args|
    ensures forall i :: 0 <= i < |s.args| ==> s.argsDecay[i] == Decay(s.args[i])
    decreases Rank(c)
  {
    match c
    case Function(_, ps) =>
      Shape(ParameterList(ps), DecayAll(ParameterList(ps)))
    case FunctionPointer(r, ps) =>
      Traits(Function(r, ps))
    case MemberFunctionPointer(cls, r, ps, _) =>
      Traits(Function(r, [Receiver(cls)] + ps))
    case MemberObjectPointer(cls, f) =>
      Traits(Function(f, [Receiver(cls)]))
    case FunctionObject(cls, r, ps, k) =>
      var call := Traits(MemberFunctionPointer(cls, r, ps, k));
      Shape(DropFirst(call.args), DropFirst(call.argsDecay))
    case LvalueRef(f) =>
      Traits(f)
    case RvalueRef(f) =>
      Traits(f)
  }

  /** The parameters written in the callable's own signature, the receiver not included. */
  function DeclaredParams(c: Callable): seq<Type>
  {
    match c
    case Function(_, ps) => ps
    case FunctionPointer(_, ps) => ps
    case MemberFunctionPointer(_, _, ps, _) => ps
    case MemberObjectPointer(_, _) => []
    case FunctionObject(_, _, ps, _) => ps
    case LvalueRef(f) => DeclaredParams(f)
    case RvalueRef(f) => DeclaredParams(f)
  }

  /** The receiver a member pointer exposes in front of its parameters (none otherwise). */
  function ExposedReceiver(c: Callable): seq<Type>
  {
    match c
    case MemberFunctionPointer(cls, _, _, _) => [Receiver(cls)]
    case MemberObjectPointer(cls, _) => [Receiver(cls)]
    case LvalueRef(f) => ExposedReceiver(f)
    case RvalueRef(f) => ExposedReceiver(f)
    case _ => []
  }

  /** A plain function type: `args` is its parameter list with any top-level const
      deleted, and `args_decay` is the decay of the declared list. */
  lemma FunctionShape(r: Type, ps: seq<Type>)
    ensures Traits(Function(r, ps)).args == ParameterList(ps)
    ensures forall i :: 0 <= i < |ps| ==> Traits(Function(r, ps)).args[i].qual != Const
    ensures Traits(Function(r, ps)).argsDecay == DecayAll(ps)
  {
    DecayIgnoresParameterAdjustment(ps);
  }

  /** `function_traits<void(const int)>::args` is `std::tuple<int>`. */
  lemma TopLevelConstDeleted()
    ensures Traits(Function(Type(Void, Plain), [Type(Int, Const)])).args == [Type(Int, Plain)]
    ensures Traits(Function(Type(Void, Plain), [Type(Int, ConstLRef)])).args == [Type(Int, ConstLRef)]
  {
    FunctionShape(Type(Void, Plain), [Type(Int, Const)]);
    FunctionShape(Type(Void, Plain), [Type(Int, ConstLRef)]);
  }

  /** A function pointer has the shape of the function type it points to. */
  lemma FunctionPointerShape(r: Type, ps: seq<Type>)
    ensures Traits(FunctionPointer(r, ps)) == Traits(Function(r, ps))
  {
  }

  /** The receiver is not affected by deleting top-level const. */
  lemma ParameterListWithReceiver(cls: string, ps: seq<Type>)
    ensures ParameterList([Receiver(cls)] + ps) == [Receiver(cls)] + ParameterList(ps)
  {
    var l, rr := ParameterList([Receiver(cls)] + ps), [Receiver(cls)] + ParameterList(ps);
    assert forall i :: 1 <= i < |l| ==> l[i] == AsParameter(ps[i - 1]) == rr[i];
    assert l[0] == rr[0];
  }

  /** A member function pointer, const or not, keeps the receiver `C&` in front. */
  lemma MemberFunctionPointerShape(cls: string, r: Type, ps: seq<Type>, k: bool)
    ensures Traits(MemberFunctionPointer(cls, r, ps, k)).args == [Receiver(cls)] + ParameterList(ps)
    ensures Traits(MemberFunctionPointer(cls, r, ps, k)).argsDecay == DecayAll([Receiver(cls)] + ps)
    ensures Traits(MemberFunctionPointer(cls, r, ps, k)) == Traits(MemberFunctionPointer(cls, r, ps, !k))
  {
    assert Traits(MemberFunctionPointer(cls, r, ps, k)) == Traits(Function(r, [Receiver(cls)] + ps));
    assert Traits(MemberFunctionPointer(cls, r, ps, !k)) == Traits(Function(r, [Receiver(cls)] + ps));
    FunctionShape(r, [Receiver(cls)] + ps);
    ParameterListWithReceiver(cls, ps);
  }

  /** A member object pointer has exactly the receiver `C&` as its argument list. */
  lemma MemberObjectPointerShape(cls: string, f: Type)
    ensures Traits(MemberObjectPointer(cls, f)).args == [Receiver(cls)]
    ensures Traits(MemberObjectPointer(cls, f)).argsDecay == [Class(cls)]
  {
    assert Traits(MemberObjectPointer(cls, f)) == Traits(Function(f, [Receiver(cls)]));
    FunctionShape(f, [Receiver(cls)]);
    assert ParameterList([Receiver(cls)]) == [Receiver(cls)];
  }

  /** A function object exposes its `operator()`'s parameters with the receiver
      dropped, in both `args` and `args_decay`. */
  lemma FunctionObjectShape(cls: string, r: Type, ps: seq<Type>, k: bool)
    ensures Traits(FunctionObject(cls, r, ps, k)).args == ParameterList(ps)
    ensures Traits(FunctionObject(cls, r, ps, k)).argsDecay == DecayAll(ps)
    ensures Traits(FunctionObject(cls, r, ps, k)).args
         == DropFirst(Traits(MemberFunctionPointer(cls, r, ps, k)).args)
  {
    var call := Traits(MemberFunctionPointer(cls, r, ps, k));
    MemberFunctionPointerShape(cls, r, ps, k);
    DropFirstUndoesPrepend(Receiver(cls), ParameterList(ps));
    DropFirstCommutesWithDecay([Receiver(cls)] + ps);
    assert DropFirst([Receiver(cls)] + ps) == ps;
    assert Traits(FunctionObject(cls, r, ps, k)) == Shape(DropFirst(call.args), DropFirst(call.argsDecay));
  }

  /** `args_decay` is the decay of `args`, as one list. */
  lemma ArgsDecayIsDecayOfArgs(c: Callable)
    ensures Traits(c).argsDecay == DecayAll(Traits(c).args)
  {
    var s := Traits(c);
    assert forall i :: 0 <= i < |s.args| ==> s.argsDecay[i] == DecayAll(s.args)[i];
  }

  /** Every form at once: `args` is the exposed receiver followed by the declared
      parameters (top-level const deleted), so a function object's receiver never
      shows, and `args_decay` is the decay of the receiver and declared parameters. */
  lemma {:induction false} TraitsArgs(c: Callable)
    ensures Traits(c).args == ExposedReceiver(c) + ParameterList(DeclaredParams(c))
    ensures Traits(c).argsDecay == DecayAll(ExposedReceiver(c) + DeclaredParams(c))
    decreases c
  {
    match c {
      case Function(r, ps) =>
        FunctionShape(r, ps);
        assert ExposedReceiver(c) + DeclaredParams(c) == ps;
        assert ExposedReceiver(c) + ParameterList(DeclaredParams(c)) == ParameterList(ps);
      case FunctionPointer(r, ps) =>
        FunctionShape(r, ps);
        assert ExposedReceiver(c) + DeclaredParams(c) == ps;
        assert ExposedReceiver(c) + ParameterList(DeclaredParams(c)) == ParameterList(ps);
      case MemberFunctionPointer(cls, r, ps, k) =>
        MemberFunctionPointerShape(cls, r, ps, k);
      case MemberObjectPointer(cls, f) =>
        MemberObjectPointerShape(cls, f);
        assert ExposedReceiver(c) + DeclaredParams(c) == [Receiver(cls)];
        assert ParameterList(DeclaredParams(c)) == [];
      case FunctionObject(cls, r, ps, k) =>
        FunctionObjectShape(cls, r, ps, k);
        assert ExposedReceiver(c) + DeclaredParams(c) == ps;
        assert ExposedReceiver(c) + ParameterList(DeclaredParams(c)) == ParameterList(ps);
      case LvalueRef(f) =>
        TraitsArgs(f);
        ReferenceShape(f);
      case RvalueRef(f) =>
        TraitsArgs(f);
        ReferenceShape(f);
    }
  }

  /** `F&` and `F&&` have the shape of `F`. */
  lemma ReferenceShape(f: Callable)
    ensures Traits(LvalueRef(f)) == Traits(f)
    ensures Traits(RvalueRef(f)) == Traits(f)
  {
  }
}
