# SingletonCRTP in Dafny

A model of `SingletonCRTP<T>` from singleton-crtp.h. A derived type `T` inherits it publicly to get a per-type
static slot, `instance`. The slot holds null or a pointer to one object of `T`. The header offers these operations:

- `CreateSingleton(args...)` builds a `T` only when the slot is empty, asserts the "main constructor" completion
  check on the stored object, and returns it.
- `GetInstance()` asserts that the slot is populated and returns it.
- `operator*` and `operator->` return the stored object without any check.
- The protected base constructor stores the object under construction in the slot.
- The virtual base destructor clears the slot.

The completion check works like this. `IMainCtor` gives a type a `bool IsMainCtorCalled` that starts `false`. The
trait `has_MainCtor` detects that member. The two `CheckIsMainCtorCalled` overloads either report the flag or
answer `true`.

Files:

- `main_ctor.dfy` (module `MainCtor`, pure): the constructor path a call selects (`CtorPath`), the flag it leaves
  behind, and the completion check as the compiler resolves the overloads.
- `slot_model.dfy` (module `SlotModel`, pure): the slot of one `T` as a state machine over values.
  - Objects are numbered in construction order, so a new object is the one with id `|flags|`.
  - A failing assert becomes an `Aborted` reply.
  - `Run` plays a sequence of calls and stops at the first abort.
- `slot_properties.dfy` (module `SlotProperties`): lemmas about sequences of calls.
- `singleton_crtp.dfy` (module `SingletonCrtp`, imperative): `Obj` stands for an object of `T`, and one
  `Singleton` object per type holds `instance`.
  - Every method changes only its own `Singleton`.
  - Identity is reference equality, and a new object is `fresh`.
  - Each method ties its new state or its reply to the value model through `Abstract()`.

The header's comment promises the singleton pattern for `T` (lines 51-54), yet line 136 overwrites the slot
whenever any object of `T` is constructed. The model follows the code: `Construct` overwrites the slot. Likewise
the code allows a new `CreateSingleton` after the destructor has cleared the slot, and the model allows it too.

## Model

| member | source | states |
|---|---|---|
| MainCtor.FlagAfterConstruction | singleton-crtp.h:16-18 | after construction, the flag can be true only for a type with the member, and for such a type it is true exactly when the chosen constructor set it (it starts as `false`) |
| MainCtor.CheckIsMainCtorCalled | singleton-crtp.h:24-48 | the check fails exactly when the type has the member and the flag is false; types without the member always pass |
| MainCtor.CheckAfterConstruction | singleton-crtp.h:16-18 | right after construction, the check passes iff the type lacks the member or the chosen constructor set the flag |
| SlotModel.Construct | singleton-crtp.h:135-137 | building any object of `T` stores it in the slot, whatever the slot held; it gets a new id; earlier objects keep their flags |
| SlotModel.Create | singleton-crtp.h:75-81 | an empty slot gets a newly built object, while a populated slot is left as it is; the reply is the stored object if the completion check passes on it, and an abort otherwise |
| SlotModel.GetInstance | singleton-crtp.h:87-90 | the reply is the stored object exactly when the slot is populated; otherwise the assert aborts |
| SlotModel.Deref | singleton-crtp.h:96-122 | `operator*`/`operator->` give the same object `GetInstance` returns |
| SlotModel.Destroy | singleton-crtp.h:142-145 | the slot becomes empty; the trait and the record of built objects are unchanged |
| SlotModel.Run | singleton-crtp.h:148-152 | over any call sequence the slot only ever points at an object that was constructed; there is at most one reply per call |
| SlotProperties.SecondCreateIsNoOp | singleton-crtp.h:75-81 | a second `CreateSingleton` with any arguments changes nothing and gives the same reply (same object) as the first |
| SlotProperties.PopulatedCreateIgnoresArguments | singleton-crtp.h:76-80 | on a populated slot the arguments have no effect and the state is unchanged |
| SlotProperties.CheckRunsOnEveryCreate | singleton-crtp.h:76-79 | the completion check also runs when nothing is built: a stored object with a false flag makes every `CreateSingleton` abort |
| SlotProperties.GetAfterCreate | singleton-crtp.h:75-122 | after a `CreateSingleton` that returned, `GetInstance` and the dereference operators give that same object |
| SlotProperties.ConstructReplacesStored | singleton-crtp.h:135-137 | constructing another object of `T` replaces the stored one; later `GetInstance` and `CreateSingleton` answer with the new object |
| SlotProperties.DestroyEmptiesSlot | singleton-crtp.h:142-145 | after the destructor `GetInstance` aborts, and a later `CreateSingleton` populates the slot with a new object |
| SlotProperties.PopulatedSlotIsStable | singleton-crtp.h:75-90 | on a populated slot, any sequence of `CreateSingleton`/`GetInstance` calls leaves the state as it was, and every reply is the stored object or a completion-check abort; if the stored object passes, every call returns it |
| SlotProperties.RunOnlyAppends | singleton-crtp.h:74-145 | over any call sequence, objects are only added, earlier objects keep their flags, and every object handed out was constructed |
| SlotProperties.CreateAfterDestroyIsFresh | singleton-crtp.h:142-145 | after any history and the destructor, `CreateSingleton` builds the next object in construction order, distinct from every object built before or during that history, from the one removed, and from everything handed out before |
| SlotProperties.TypeWithoutMemberAlwaysPasses | singleton-crtp.h:46-48 | for a type without the member, a `CreateSingleton` on an empty slot (the first, or one after the destructor) succeeds with whatever constructor, and the next returns the same object |
| SlotProperties.TypeWithMemberNeedsMainCtor | singleton-crtp.h:16-18 | for an `IMainCtor` type, a `CreateSingleton` on an empty slot succeeds exactly when the chosen constructor sets the flag; otherwise it aborts although the object is built and stored |
| SingletonCrtp.Obj.constructor | singleton-crtp.h:16-18 | a new object of `T` starts with `IMainCtor`'s `false` flag, which the chosen constructor may set |
| SingletonCrtp.Singleton.constructor | singleton-crtp.h:151-152 | the static slot starts null |
| SingletonCrtp.Singleton.Register | singleton-crtp.h:135-137 | the base constructor stores the object under construction, overwriting the slot; in the value model the slot now names the newest object, whose flag is appended |
| SingletonCrtp.Singleton.Construct | singleton-crtp.h:135-137 | constructing an object of `T` yields a fresh object that is now in the slot, with the flag its constructor left |
| SingletonCrtp.Singleton.CreateSingleton | singleton-crtp.h:75-81 | on a null slot, builds a fresh object and stores it; otherwise changes nothing (`unchanged(this)`); returns the stored object iff the completion check passes and aborts otherwise; agrees with `SlotModel.Create` |
| SingletonCrtp.Singleton.GetInstance | singleton-crtp.h:87-90 | returns the stored object when the slot is non-null and aborts otherwise; changes nothing |
| SingletonCrtp.Singleton.Deref | singleton-crtp.h:112-122 | `operator*` returns the stored object; it requires a non-null slot because the source does not check |
| SingletonCrtp.Singleton.Arrow | singleton-crtp.h:96-106 | `operator->` returns the stored object (the one `SlotModel.Deref` names), not the object it is called on |
| SingletonCrtp.Singleton.Destroy | singleton-crtp.h:142-145 | the slot becomes null, and the record of constructed objects is kept |
| SingletonCrtp.IndependentSlots | singleton-crtp.h:148-152 | each derived type has its own slot: operations on one type's slot leave another type's `Singleton` entirely unchanged |

## Left out

- The compile-time parts are left out: the `Type` cv/reference/extent stripping (line 63), the `static_assert` that `T` is a class (line 67) and the SFINAE mechanics of `has_MainCtor`. The trait becomes one boolean per type. In the source, it is true only when the member is named `IsMainCtorCalled` and declared exactly `bool`.
- The deleted copy and move constructors and assignments (lines 124-129) are left out. The model simply has no copy or move operation.
- The `delete instance` in the destructor (line 143) is left out. It deletes the stored object from inside a base destructor, which recursively destroys it again when that object is the one being destroyed. Only the effect on the slot is modelled.
- The variadic constructor arguments and their forwarding (lines 74-77) are reduced to a `CtorPath`. It records only whether the chosen constructor sets the completion flag.
- A type that declares its own `IsMainCtorCalled` with an initialiser other than `IMainCtor`'s `false` is not distinguished. The path's final flag value stands for it.
- In C++ the base constructor stores the pointer before the derived constructor body runs. In the model the object is built first and then registered. Code in a derived constructor that reads the slot during construction is not modelled.
- Building `NDEBUG` compiles the asserts out. Then `GetInstance` returns null, and `CreateSingleton` returns the object whatever the flag. The model always treats a failing assert as an abort.
- The const overloads of `operator*` and `operator->` (lines 104-106, 120-122) behave exactly like the non-const ones. Each pair is modelled once.
- Nothing in the model changes an object's completion flag after construction, because the header never writes it.
- Exceptions out of the `new`-expression at line 77 are not modelled; the model assumes construction always completes. In C++, if allocation throws `std::bad_alloc`, `instance` stays null and the exception leaves `CreateSingleton`. If a constructor of `T` throws after line 136 stored `this`, unwinding runs the base destructor (lines 142-145). So `SlotModel.Create` and `SingletonCrtp.Singleton.CreateSingleton` promise a populated slot afterwards only for construction that completes.
- Thread safety is not modelled. The source has no synchronisation and the model is sequential.
