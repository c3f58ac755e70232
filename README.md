# Function traits and a type-indexed tuple wrapper, in Dafny

This project models two small C++ compile-time utilities and the loop example that
goes with them.

- `function_traits` reads a callable's parameter list off its type. The forms are a
  function type, a function pointer, a member function pointer (const or not), a
  member object pointer, a function object (through its `operator()`), and `F&` /
  `F&&` around any of them. Each gives `args` (the declared parameter types) and
  `args_decay` (the same types with const and reference qualifiers stripped).
- `some_tuple_wrapper<Args...>` stores one value per distinct type, each built from
  the literal 65. `get<T>` looks a value up by its type. `get<Ts...>` and
  `get(std::tuple<Ts...>)` return several values. `execute<Ts...>` calls a callback
  with the values for the types the caller names. `execute_freedom` calls it with the
  values for the callback's own decayed parameter types, in the callback's order.
- `secret_garden::visit` walks six numbers and their names. It calls a visitor once
  per number, or once per (number, name) pair when the visitor takes two arguments.

Types are values here. `CppTypes.Tag` is an unqualified type: a few fundamental
types, a class type, or a `std::tuple`. `CppTypes.Type` adds a qualifier (plain,
`const`, `&`, `const&`, `&&`), and decay keeps only the tag.
`FunctionTraits.Callable` lists the callable forms. These compile-time rejections
become preconditions (one more is listed under "Left out"):

- a duplicate type in `Args...` or in `execute<Ts...>`;
- a requested type that is not stored;
- an empty or duplicated decayed parameter list in `execute_freedom`;
- `drop_first` of an empty list;
- a type that cannot be brace-initialised from 65.

The wrapper's tuple is never changed after construction, so the wrapper is a
datatype and its operations are functions. A callback is modelled by the list of
calls it receives (`Invocation`). `visit` is a loop in the source, so it is a method
of the class `SecretGarden.Garden` that returns the visitor's call trace.

The receiver is not hidden uniformly, and the model follows the code on this. A
member function pointer and a member object pointer keep the receiver `C&` at the
front of `args` (src/function_traits.hpp:33-44). Only the function-object path drops
it, through `drop_first` (src/function_traits.hpp:47-56). So a member object pointer
has `args == [C&]`, not an empty list.

## Model

| member | source | states |
|---|---|---|
| `SecretGarden.Garden.Visit` | src/main.cpp:13-30 | A pair visitor is called once per index `i`, in increasing order, with (`data[i]`, `metaData[i]`). Any other visitor is called once per element of `data`, in order, and never gets a name. There is exactly one call per element. |
| `TupleWrapper.IsUniqueIffDistinct` | src/main.cpp:49-59 | `is_unique` (and `is_tuple_unique`, which applies it to a tuple's type list) is true exactly when no two positions hold the same type. The empty list is unique. |
| `TupleWrapper.Make` | src/main.cpp:62-64 | The wrapper can only be instantiated with unique types that accept `{65}`. Every instance is valid: its slot types are the `Args` in order, pairwise distinct, and every slot holds its type's value built from 65. |
| `TupleWrapper.GetOfMade` | src/main.cpp:109 | Every slot of an instance is initialised from the same seed 65. |
| `TupleWrapper.MakeSlotsIgnoreOrder` | src/main.cpp:108-109 | Instantiating with the same types in another order produces the same set of (type, value) slots. |
| `TupleWrapper.Lookup` | src/main.cpp:76 | `std::get<T>` on the tuple returns the value of a slot whose type is `T`. This slot exists whenever `T` is stored. |
| `TupleWrapper.UniqueTagDeterminesValue` | src/main.cpp:64 | In a valid wrapper, at most one slot has a given type, so a type determines its value. |
| `TupleWrapper.Get` | src/main.cpp:74-77 | `get<T>()` returns the value of the one slot whose type is `T`. It is defined only when `T` is stored. |
| `TupleWrapper.GetMany` | src/main.cpp:79-83 | `get<Ts...>()` for a count other than 1 returns one entry per requested type. Entry `i` is the slot value for `Ts[i]`, so the requested order is kept. Duplicates are not rejected. |
| `TupleWrapper.GetTuple` | src/main.cpp:85-93 | `get(std::tuple<Ts...>)` always returns a tuple with one entry per requested type, the slot value for `Ts[i]` at position `i`. A single request is wrapped in a one-element tuple (the corrected behaviour; see Findings). |
| `TupleWrapper.Execute` | src/main.cpp:67-72 | `execute<Ts...>` requires unique `Ts`, all stored. It calls the callback exactly once. The call has one argument per entry of `Ts`, and argument `i` is the slot value for `Ts[i]`. |
| `TupleWrapper.ExecuteFreedom` | src/main.cpp:95-106 | `execute_freedom` requires the callable's decayed parameter list to be unique, non-empty and all stored. It calls the callback exactly once, with one argument per declared parameter. Argument `i` is the slot for the decay of parameter `i`. |
| `TupleWrapper.ExecuteFreedomIsExecute` | src/main.cpp:95-106 | `execute_freedom` on a callable is `execute` with that callable's `args_decay`. |
| `TupleWrapper.ExecuteIgnoresSlotOrder` | src/main.cpp:67-72 | Two valid wrappers that hold the same slots, in any declaration order, both accept the request and call back with the same arguments. |
| `TupleWrapper.ExecuteFreedomIgnoresDeclarationOrder` | src/main.cpp:95-106 | Wrappers over the same types in different orders call an inferred-mode callback identically, in the callable's declared order. |
| `TupleWrapper.GetTupleAsWritten` | src/main.cpp:85-93 | The code as written agrees with `GetTuple` on every request that is not a single tuple type, and differs from it on every single request for a tuple-typed slot. |
| `TupleWrapper.GetTupleAsWrittenUnwrapsTupleSlot` | src/main.cpp:85-93 | For a wrapper over `std::tuple<int>`, `get(std::tuple<std::tuple<int>>)` as written returns the int inside the slot, not the slot. |
| `TupleWrapper.ExecuteOnMade` | src/main.cpp:67-72 | On a freshly instantiated wrapper, `execute<Ts...>` passes, for each `Ts[i]`, that type's value built from 65, in the requested order. |
| `TupleWrapper.DemoArgsInstantiate` | src/main.cpp:129 | `some_tuple_wrapper<int, double, float, char, short>` satisfies the wrapper's static requirements. |
| `TupleWrapper.DemoExecute` | src/main.cpp:131-132 | `execute<char, short>` calls back once with ('A', 65). |
| `TupleWrapper.DemoExecuteFreedomPair` | src/main.cpp:134-135 | `execute_freedom` with a `(char, short)` closure calls back once with ('A', 65). |
| `TupleWrapper.DemoExecuteFreedomTriple` | src/main.cpp:137-140 | A `(const char&, const double&, const int&)` closure is called with the char, double and int slots, in its declared order and not the wrapper's. |
| `FunctionTraits.DropFirst` | src/function_traits.hpp:9-16 | `drop_first` exists only for a non-empty list. It yields one entry fewer, with entry `i` being input entry `i + 1`, so the rest keeps its order. |
| `FunctionTraits.DropFirstUndoesPrepend` | src/function_traits.hpp:13-16 | `drop_first<tuple<T, Args...>>` is `tuple<Args...>`. |
| `FunctionTraits.DropFirstCommutesWithDecay` | src/function_traits.hpp:53-55 | Dropping the receiver from `args_decay` gives the decay of `args` with its receiver dropped. |
| `FunctionTraits.Traits` | src/function_traits.hpp:19-62 | For every callable form, `args` has one entry per declared parameter, plus one for a member pointer's receiver. `args_decay` has the same length and is the pointwise decay of `args`. |
| `FunctionTraits.ArgsDecayIsDecayOfArgs` | src/function_traits.hpp:28-29 | For every callable form, `args_decay` is `std::decay_t` applied to each entry of `args`. |
| `FunctionTraits.TraitsArgs` | src/function_traits.hpp:19-62 | For every form, `args` is the exposed receiver (`C&` for member pointers, nothing otherwise) followed by the declared parameters with top-level const deleted, and `args_decay` is the decay of the receiver and parameters. |
| `FunctionTraits.FunctionShape` | src/function_traits.hpp:26-30 | For `R(Args...)`, `args` is `Args` as the function type holds them: a top-level `const` on a by-value parameter is deleted, so no entry is `const T`. `args_decay` is the decay of `Args`. |
| `FunctionTraits.TopLevelConstDeleted` | src/function_traits.hpp:26-28 | `function_traits<void(const int)>::args` is `std::tuple<int>`, while `void(const int&)` keeps `const int&`. |
| `FunctionTraits.FunctionPointerShape` | src/function_traits.hpp:23-24 | `R(*)(Args...)` has the shape of `R(Args...)`. |
| `FunctionTraits.MemberFunctionPointerShape` | src/function_traits.hpp:33-40 | A member function pointer has `args` = `C&` followed by its parameters (top-level const deleted), and `args_decay` is their decay. Const-qualification does not change the shape. The receiver is not dropped. |
| `FunctionTraits.MemberObjectPointerShape` | src/function_traits.hpp:43-44 | A member object pointer has `args` = `[C&]` and `args_decay` = `[C]`. |
| `FunctionTraits.FunctionObjectShape` | src/function_traits.hpp:47-56 | A function object's `args` is `drop_first` of its `operator()`'s member-pointer shape, which is its declared parameters with top-level const deleted. `args_decay` is their decay. |
| `FunctionTraits.ReferenceShape` | src/function_traits.hpp:58-62 | `F&` and `F&&` have the shape of `F`. |

## Left out

- `main`'s `printf` output (src/main.cpp:113-143) is not modelled. Its calls are restated as the `Demo*` lemmas.
- `std::invoke` and `std::apply` are not modelled: a callback is the list of argument lists it receives. What the callback does with them is not modelled.
- The `std::is_invocable_v` detection in `visit` is not modelled. It becomes the `Visitor` datatype: `PairVisitor` for a visitor callable with `(const int&, const std::string&)`, `ElementVisitor` for any other.
- `std::decay_t` is modelled only as stripping const and references. Array-to-pointer and function-to-pointer decay, and `volatile`, are not modelled.
- The numeric conversion of 65 into each type (the char 'A', the float 65.0) is not modelled. A stored value is the abstract `Seeded(type, 65)`.
- Class types are assumed to accept `{65}`. Whether a given class has such a constructor is not modelled.
- Overloaded or template `operator()` is not modelled: such a callable has no `function_traits` at all.
- A static `operator()` is not modelled. A function object's `operator()` is always a member function.
- `is_tuple` is not modelled as its own member. It is used only in `get(std::tuple<Ts...>)`, where it becomes the test `TupleOf?` on the requested type.
- Slot types and requested types are unqualified. A wrapper over `const int` and requests such as `get<const int>` are not modelled.
- `get` returns const references in C++. The model returns values, so aliasing is not modelled. The tuple is never modified, so this makes no observable difference.
- `secret_garden`'s lists are the fixed constants of the source. A `metaData` shorter than `data` cannot arise, so it is not modelled.
- `TupleWrapper.ExecuteFreedom` does not require what src/main.cpp:97-102 also needs: each decayed parameter type must be default-constructible, in a constant expression, because `args_decay{}` is built there. A callable taking a class without such a constructor is rejected by C++ but accepted by `CanExecuteFreedom`, because class types are not modelled beyond their names.
- `TupleWrapper.ExecuteFreedom` uses the corrected `GetTuple`. With the code as written, a callable with a single `std::tuple<X>` parameter gets `X` instead of the tuple, which C++ converts back to the same tuple.

## Findings

| source | as written | input that shows it | evidently intended | confidence | as-written member | corrected member |
|---|---|---|---|---|---|---|
| src/main.cpp:85-93 | A single request is wrapped in a tuple only when its result type is not already a `std::tuple`. | `some_tuple_wrapper<std::tuple<int>>` with `get(std::tuple<std::tuple<int>>{})` returns the slot's contents `std::tuple<int>{65}`, not a one-element tuple holding the slot. | A single request is always wrapped: one entry, the slot itself. | medium, not executed | `TupleWrapper.GetTupleAsWritten`, `TupleWrapper.GetTupleAsWrittenUnwrapsTupleSlot` | `TupleWrapper.GetTuple` |
