/** `some_tuple_wrapper<Args...>`: one value per distinct type, looked up by type,
    and two ways of calling a callback with stored values: with the types named by
    the caller (`execute`) or with the types read off the callback's own
    parameter list (`execute_freedom`).

    Everything the C++ rejects at compile time is a precondition here. The stored
    tuple is never changed after construction, so the wrapper is a value and every
    operation a function of it. A callback is modelled by the list of calls it
    receives, one `Invocation` per call. */
module TupleWrapper {
  import opened CppTypes
  import opened FunctionTraits

  // ---------------------------------------------------------------------------
  // is_unique

  /** `is_unique<Ts...>`: the head differs from every later entry, and the rest is
      unique; the empty list is unique. */
  predicate IsUnique<T(==)>(ts: seq<T>)
  {
    |ts| == 0 || (ts[0] !in ts[1..] && IsUnique(ts[1..]))
  }

  /** `is_unique` holds exactly when no two positions hold the same type. */
  lemma {:induction false} IsUniqueIffDistinct<T>(ts: seq<T>)
    ensures IsUnique(ts) <==> forall i, j :: 0 <= i < j < |ts| ==> ts[i] != ts[j]
  {
    if |ts| > 0 {
      var rest := ts[1..];
      IsUniqueIffDistinct(rest);
      if IsUnique(ts) {
        forall i, j | 0 <= i < j < |ts| ensures ts[i] != ts[j] {
          if i == 0 {
            assert ts[j] == rest[j - 1];
          } else {
            assert ts[i] == rest[i - 1] && ts[j] == rest[j - 1];
          }
        }
      }
      if forall i, j :: 0 <= i < j < |ts| ==> ts[i] != ts[j] {
        forall i, j | 0 <= i < j < |rest| ensures rest[i] != rest[j] {
          assert rest[i] == ts[i + 1] && rest[j] == ts[j + 1];
        }
      }
    }
  }

  // ---------------------------------------------------------------------------
  // The stored tuple

  /** The literal every slot is initialised from: `Args{ 65 }...`. */
  const Seed: int := 65

  /** A value of type `ty` built from the integer literal `seed` (`ty{seed}`);
      `Seeded(Char, 65)` is 'A'. */
  datatype Value = Seeded(ty: Tag, seed: int)

  datatype Slot = Slot(tag: Tag, value: Value)

  /** The wrapper's `_data` tuple, one slot per type in `Args...`. */
  datatype Wrapper = Wrapper(slots: seq<Slot>)

  /** One call of the callback, with its positional arguments. */
  datatype Invocation = Invocation(args: seq<Value>)

  /** The type list `Args...` of a tuple. */
  function Tags(slots: seq<Slot>): seq<Tag>
  {
    seq(|slots|, i requires 0 <= i < |slots| => slots[i].tag)
  }

  /** What the class guarantees of every instance: `static_assert(is_unique<Args...>)`,
      and each slot holds a value of its own type. */
  predicate Valid(w: Wrapper)
  {
    IsUnique(Tags(w.slots)) &&
    forall i :: 0 <= i < |w.slots| ==> w.slots[i].value.ty == w.slots[i].tag
  }

  /** Instantiating `some_tuple_wrapper<args...>`: compiles only when the types are
      unique and each accepts `{65}`; every slot then holds its type's value of 65. */
  function Make(args: seq<Tag>): (w: Wrapper)
    requires IsUnique(args)
    requires forall t :: t in args ==> BraceInitFromSeed(t)
    ensures Valid(w)
    ensures Tags(w.slots) == args
    ensures forall s :: s in w.slots ==> s.value == Seeded(s.tag, Seed)
  {
    var w := Wrapper(seq(|args|, i requires 0 <= i < |args| => Slot(args[i], Seeded(args[i], Seed))));
    assert Tags(w.slots) == args;
    w
  }

  /** A slot whose type is `t`, found by walking the tuple (`std::get<T>`). */
  function Lookup(slots: seq<Slot>, t: Tag): (v: Value)
    requires t in Tags(slots)
    ensures Slot(t, v) in slots
  {
    if slots[0].tag == t then
      slots[0].value
    else
      assert t in Tags(slots[1..]) by {
        var k :| 0 <= k < |slots| && Tags(slots)[k] == t;
        assert Tags(slots[1..])[k - 1] == t;
      }
      Lookup(slots[1..], t)
  }

  /** In a valid wrapper a type names at most one slot. */
  lemma UniqueTagDeterminesValue(w: Wrapper, t: Tag, v: Value)
    requires Valid(w)
    requires Slot(t, v) in w.slots
    ensures forall s :: s in w.slots && s.tag == t ==> s.value == v
  {
    IsUniqueIffDistinct(Tags(w.slots));
    var i :| 0 <= i < |w.slots| && w.slots[i] == Slot(t, v);
    forall s | s in w.slots && s.tag == t ensures s.value == v {
      var j :| 0 <= j < |w.slots| && w.slots[j] == s;
      assert Tags(w.slots)[i] == Tags(w.slots)[j];
    }
  }

  // ---------------------------------------------------------------------------
  // Accessors

  /** `get<T>()`: the value of the one slot whose type is `t`. */
  function Get(w: Wrapper, t: Tag): (v: Value)
    requires Valid(w)
    requires t in Tags(w.slots)
    ensures Slot(t, v) in w.slots
    ensures forall s :: s in w.slots && s.tag == t ==> s.value == v
  {
    var v := Lookup(w.slots, t);
    UniqueTagDeterminesValue(w, t, v);
    v
  }

  /** `get<Ts...>()` for a count other than one: one entry per requested type, in
      the requested order; a type may be requested more than once. */
  function GetMany(w: Wrapper, ts: seq<Tag>): (r: seq<Value>)
    requires Valid(w)
    requires |ts| != 1
    requires forall t :: t in ts ==> t in Tags(w.slots)
    ensures |r| == |ts|
    ensures forall i :: 0 <= i < |ts| ==> Slot(ts[i], r[i]) in w.slots
  {
    seq(|ts|, i requires 0 <= i < |ts| => Get(w, ts[i]))
  }

  /** `get(std::tuple<Ts...>)`, as intended: always a tuple with one entry per
      requested type, a single request included. */
  function GetTuple(w: Wrapper, ts: seq<Tag>): (r: seq<Value>)
    requires Valid(w)
    requires forall t :: t in ts ==> t in Tags(w.slots)
    ensures |r| == |ts|
    ensures forall i :: 0 <= i < |ts| ==> Slot(ts[i], r[i]) in w.slots
  {
    if |ts| == 1 then [Get(w, ts[0])] else GetMany(w, ts)
  }

  /** Every slot holds its type's value of the seed. */
  lemma GetOfMade(args: seq<Tag>, t: Tag)
    requires IsUnique(args)
    requires forall u :: u in args ==> BraceInitFromSeed(u)
    requires t in args
    ensures Get(Make(args), t) == Seeded(t, Seed)
  {
  }

  // ---------------------------------------------------------------------------
  // Dispatch

  /** `execute<Ts...>(invocable)`: the types must be unique; the callback is called
      once, with the value of the slot for each `ts[i]` at position `i`. */
  function Execute(w: Wrapper, ts: seq<Tag>): (calls: seq<Invocation>)
    requires Valid(w)
    requires IsUnique(ts)
    requires forall t :: t in ts ==> t in Tags(w.slots)
    ensures |calls| == 1
    ensures |calls[0].args| == |ts|
    ensures forall i :: 0 <= i < |ts| ==> Slot(ts[i], calls[0].args[i]) in w.slots
  {
    [Invocation(seq(|ts|, i requires 0 <= i < |ts| => Get(w, ts[i])))]
  }

  /** What `execute_freedom` demands of a callable: its decayed parameter list is
      unique, non-empty, and names only stored types. */
  predicate CanExecuteFreedom(w: Wrapper, c: Callable)
  {
    var ds := Traits(c).argsDecay;
    IsUnique(ds) && |ds| != 0 && forall t :: t in ds ==> t in Tags(w.slots)
  }

  /** `execute_freedom(invocable)`: the callback is called once, its `i`-th
      argument being the slot for the decay of its `i`-th declared parameter. */
  function ExecuteFreedom(w: Wrapper, c: Callable): (calls: seq<Invocation>)
    requires Valid(w)
    requires CanExecuteFreedom(w, c)
    ensures |calls| == 1
    ensures |calls[0].args| == |Traits(c).args|
    ensures forall i :: 0 <= i < |Traits(c).args| ==>
              Slot(Decay(Traits(c).args[i]), calls[0].args[i]) in w.slots
  {
    [Invocation(GetTuple(w, Traits(c).argsDecay))]
  }

  /** Inferred mode is explicit mode with the callable's decayed parameter list. */
  lemma ExecuteFreedomIsExecute(w: Wrapper, c: Callable)
    requires Valid(w)
    requires CanExecuteFreedom(w, c)
    ensures ExecuteFreedom(w, c) == Execute(w, Traits(c).argsDecay)
  {
    var ds := Traits(c).argsDecay;
    var a, b := ExecuteFreedom(w, c)[0].args, Execute(w, ds)[0].args;
    forall i | 0 <= i < |ds| ensures a[i] == b[i] {
      UniqueTagDeterminesValue(w, ds[i], a[i]);
    }
    assert a == b;
  }

  /** Two valid wrappers holding the same slots, in whatever declaration order,
      call the callback with the same arguments. */
  lemma ExecuteIgnoresSlotOrder(w1: Wrapper, w2: Wrapper, ts: seq<Tag>)
    requires Valid(w1) && Valid(w2)
    requires forall s :: s in w1.slots <==> s in w2.slots
    requires IsUnique(ts)
    requires forall t :: t in ts ==> t in Tags(w1.slots)
    ensures forall t :: t in ts ==> t in Tags(w2.slots)
    ensures Execute(w1, ts) == Execute(w2, ts)
  {
    forall t | t in ts ensures t in Tags(w2.slots) {
      var v := Get(w1, t);
      var j :| 0 <= j < |w2.slots| && w2.slots[j] == Slot(t, v);
      assert Tags(w2.slots)[j] == t;
    }
    var a, b := Execute(w1, ts)[0].args, Execute(w2, ts)[0].args;
    forall i | 0 <= i < |ts| ensures a[i] == b[i] {
      UniqueTagDeterminesValue(w2, ts[i], b[i]);
    }
    assert a == b;
  }

  /** Instantiating the wrapper with the same types in another order gives the same
      slots. */
  lemma MakeSlotsIgnoreOrder(a: seq<Tag>, b: seq<Tag>)
    requires IsUnique(a) && forall t :: t in a ==> BraceInitFromSeed(t)
    requires IsUnique(b) && forall t :: t in b ==> BraceInitFromSeed(t)
    requires forall t :: t in a <==> t in b
    ensures forall s :: s in Make(a).slots <==> s in Make(b).slots
  {
    forall s ensures s in Make(a).slots ==> s in Make(b).slots {
      if s in Make(a).slots {
        var i :| 0 <= i < |a| && Make(a).slots[i] == s;
        assert a[i] in b;
        var j :| 0 <= j < |b| && b[j] == a[i];
        assert Make(b).slots[j] == s;
      }
    }
    forall s ensures s in Make(b).slots ==> s in Make(a).slots {
      if s in Make(b).slots {
        var j :| 0 <= j < |b| && Make(b).slots[j] == s;
        assert b[j] in a;
        var i :| 0 <= i < |a| && a[i] == b[j];
        assert Make(a).slots[i] == s;
      }
    }
  }

  /** `execute_freedom` passes arguments in the callable's declared order, whatever
      order the wrapper declares its types in. */
  lemma ExecuteFreedomIgnoresDeclarationOrder(a: seq<Tag>, b: seq<Tag>, c: Callable)
    requires IsUnique(a) && forall t :: t in a ==> BraceInitFromSeed(t)
    requires IsUnique(b) && forall t :: t in b ==> BraceInitFromSeed(t)
    requires forall t :: t in a <==> t in b
    requires CanExecuteFreedom(Make(a), c)
    ensures CanExecuteFreedom(Make(b), c)
    ensures ExecuteFreedom(Make(a), c) == ExecuteFreedom(Make(b), c)
  {
    var w1, w2 := Make(a), Make(b);
    MakeSlotsIgnoreOrder(a, b);
    ExecuteIgnoresSlotOrder(w1, w2, Traits(c).argsDecay);
    ExecuteFreedomIsExecute(w1, c);
    ExecuteFreedomIsExecute(w2, c);
  }

  // ---------------------------------------------------------------------------
  // get(std::tuple<Ts...>) as written

  /** The elements of a tuple-typed value: `std::tuple<X>{65}` holds `X` built from 65. */
  function Elements(v: Value): (es: seq<Value>)
    requires v.ty.TupleOf?
    ensures |es| == |v.ty.elems|
  {
    seq(|v.ty.elems|, i requires 0 <= i < |v.ty.elems| => Seeded(v.ty.elems[i], v.seed))
  }

  /** A tuple-typed value is never the same list as the one-element tuple holding it. */
  lemma ElementsAreNotTheWrappedValue(v: Value)
    requires v.ty.TupleOf?
    ensures Elements(v) != [v]
  {
    var es := v.ty.elems;
    if |es| == 1 {
      assert es[0] < TupleOf(es);
      assert Elements(v)[0].ty == es[0] != v.ty;
    }
  }

  /** `get(std::tuple<Ts...>)` as written: the single-request result is wrapped only
      when its type is not already a tuple, so a request for a slot whose type is
      itself a `std::tuple` returns that slot's elements instead of the slot. It
      agrees with the intended `GetTuple` exactly when the request is not a single
      tuple type. */
  function GetTupleAsWritten(w: Wrapper, ts: seq<Tag>): (r: seq<Value>)
    requires Valid(w)
    requires forall t :: t in ts ==> t in Tags(w.slots)
    ensures !(|ts| == 1 && ts[0].TupleOf?) ==> r == GetTuple(w, ts)
    ensures |ts| == 1 && ts[0].TupleOf? ==> r != GetTuple(w, ts)
  {
    if |ts| == 1 then
      var v := Get(w, ts[0]);
      if ts[0].TupleOf? then
        ElementsAreNotTheWrappedValue(v);
        Elements(v)
      else
        [v]
    else
      GetMany(w, ts)
  }

  /** The input that shows it: a wrapper over `std::tuple<int>` asked for
      `std::tuple<std::tuple<int>>` hands back the int inside instead of the slot. */
  lemma GetTupleAsWrittenUnwrapsTupleSlot()
    ensures Make([TupleOf([Int])]).slots == [Slot(TupleOf([Int]), Seeded(TupleOf([Int]), Seed))]
    ensures GetTupleAsWritten(Make([TupleOf([Int])]), [TupleOf([Int])]) == [Seeded(Int, Seed)]
    ensures GetTuple(Make([TupleOf([Int])]), [TupleOf([Int])]) == [Seeded(TupleOf([Int]), Seed)]
  {
    var w := Make([TupleOf([Int])]);
    assert Tags(w.slots)[0] == TupleOf([Int]);
    assert w.slots[0] == Slot(TupleOf([Int]), Seeded(TupleOf([Int]), Seed));
  }

  // ---------------------------------------------------------------------------
  // The calls the demonstration program makes

  /** On a freshly instantiated wrapper, `execute<Ts...>` passes, for each `Ts[i]`,
      that type's value of 65. */
  lemma ExecuteOnMade(args: seq<Tag>, ts: seq<Tag>)
    requires IsUnique(args) && forall t :: t in args ==> BraceInitFromSeed(t)
    requires IsUnique(ts) && forall t :: t in ts ==> t in args
    ensures Execute(Make(args), ts)
         == [Invocation(seq(|ts|, i requires 0 <= i < |ts| => Seeded(ts[i], Seed)))]
  {
    var w := Make(args);
    var got := Execute(w, ts)[0].args;
    var want := seq(|ts|, i requires 0 <= i < |ts| => Seeded(ts[i], Seed));
    forall i | 0 <= i < |ts| ensures got[i] == want[i] {
      assert Slot(ts[i], got[i]) in w.slots;
    }
    assert got == want;
  }

  /** The type list of the demonstration's `some_tuple_wrapper<int, double, float, char, short>`. */
  const DemoArgs: seq<Tag> := [Int, Double, Float, Char, Short]

  lemma DemoArgsInstantiate()
    ensures IsUnique(DemoArgs)
    ensures forall t :: t in DemoArgs ==> BraceInitFromSeed(t)
  {
    assert DemoArgs[1..] == [Double, Float, Char, Short];
    assert DemoArgs[2..] == [Float, Char, Short];
    assert DemoArgs[3..] == [Char, Short];
    assert DemoArgs[4..] == [Short];
  }

  /** `execute<char, short>` calls back once with ('A', 65). */
  lemma DemoExecute()
    ensures IsUnique(DemoArgs) && forall t :: t in DemoArgs ==> BraceInitFromSeed(t)
    ensures IsUnique([Char, Short])
    ensures Execute(Make(DemoArgs), [Char, Short])
         == [Invocation([Seeded(Char, Seed), Seeded(Short, Seed)])]
  {
    DemoArgsInstantiate();
    var ts := [Char, Short];
    assert ts[1..] == [Short];
    ExecuteOnMade(DemoArgs, ts);
    assert seq(|ts|, i requires 0 <= i < |ts| => Seeded(ts[i], Seed))
        == [Seeded(Char, Seed), Seeded(Short, Seed)];
  }

  /** Explicit mode on the demonstration wrapper with the decayed parameter list of
      the `(const char&, const double&, const int&)` closure; `main` makes this call
      only through `execute_freedom`, and `DemoExecuteFreedomTriple` rests on it. */
  lemma DemoExecuteTriple()
    ensures IsUnique(DemoArgs) && forall t :: t in DemoArgs ==> BraceInitFromSeed(t)
    ensures IsUnique([Char, Double, Int])
    ensures Execute(Make(DemoArgs), [Char, Double, Int])
         == [Invocation([Seeded(Char, Seed), Seeded(Double, Seed), Seeded(Int, Seed)])]
  {
    DemoArgsInstantiate();
    var ts := [Char, Double, Int];
    assert ts[1..] == [Double, Int] && ts[2..] == [Int];
    ExecuteOnMade(DemoArgs, ts);
    assert seq(|ts|, i requires 0 <= i < |ts| => Seeded(ts[i], Seed))
        == [Seeded(Char, Seed), Seeded(Double, Seed), Seeded(Int, Seed)];
  }

  /** `execute_freedom` with a `(char, short)` closure behaves as `execute<char, short>`. */
  lemma DemoExecuteFreedomPair()
    ensures IsUnique(DemoArgs) && forall t :: t in DemoArgs ==> BraceInitFromSeed(t)
    ensures CanExecuteFreedom(Make(DemoArgs),
              FunctionObject("closure", Type(Void, Plain), [Type(Char, Plain), Type(Short, Plain)], true))
    ensures ExecuteFreedom(Make(DemoArgs),
              FunctionObject("closure", Type(Void, Plain), [Type(Char, Plain), Type(Short, Plain)], true))
         == [Invocation([Seeded(Char, Seed), Seeded(Short, Seed)])]
  {
    DemoExecute();
    var w := Make(DemoArgs);
    var ps := [Type(Char, Plain), Type(Short, Plain)];
    var c := FunctionObject("closure", Type(Void, Plain), ps, true);
    FunctionObjectShape("closure", Type(Void, Plain), ps, true);
    assert Traits(c).argsDecay == [Char, Short];
    ExecuteFreedomIsExecute(w, c);
  }

  /** `execute_freedom` with a `(const char&, const double&, const int&)` closure
      passes the char, double and int slots in that order. */
  lemma DemoExecuteFreedomTriple()
    ensures IsUnique(DemoArgs) && forall t :: t in DemoArgs ==> BraceInitFromSeed(t)
    ensures CanExecuteFreedom(Make(DemoArgs),
              FunctionObject("closure", Type(Void, Plain),
                [Type(Char, ConstLRef), Type(Double, ConstLRef), Type(Int, ConstLRef)], true))
    ensures ExecuteFreedom(Make(DemoArgs),
              FunctionObject("closure", Type(Void, Plain),
                [Type(Char, ConstLRef), Type(Double, ConstLRef), Type(Int, ConstLRef)], true))
         == [Invocation([Seeded(Char, Seed), Seeded(Double, Seed), Seeded(Int, Seed)])]
  {
    DemoExecuteTriple();
    var w := Make(DemoArgs);
    var ps := [Type(Char, ConstLRef), Type(Double, ConstLRef), Type(Int, ConstLRef)];
    var c := FunctionObject("closure", Type(Void, Plain), ps, true);
    FunctionObjectShape("closure", Type(Void, Plain), ps, true);
    assert Traits(c).argsDecay == [Char, Double, Int];
    ExecuteFreedomIsExecute(w, c);
  }
}
