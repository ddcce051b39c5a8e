/**
 * The "main constructor" completion check of singleton-crtp.h.
 *
 * A derived type T may carry a `bool IsMainCtorCalled` member, normally by
 * inheriting IMainCtor, whose default member initialiser is `false`. The
 * has_MainCtor trait tells at compile time whether T has that member; the
 * two CheckIsMainCtorCalled overloads then either read the flag of the given
 * object or answer `true` unconditionally. This module is pure: the trait is
 * a boolean, and the overload resolution a case split on it.
 */
module MainCtor {

  /** The constructor of T that the arguments forwarded by CreateSingleton
      select, reduced to what the singleton can observe of it: whether that
      constructor (or the chain it delegates to) sets IsMainCtorCalled. */
  datatype CtorPath = CtorPath(setsMainCtorFlag: bool)

  /** IMainCtor's default member initialiser for IsMainCtorCalled. */
  const InitialMainCtorFlag: bool := false

  /** The value of IsMainCtorCalled once T's constructor has returned. A type
      without the member has no flag; its value is then irrelevant and kept at
      the initial value. */
  function FlagAfterConstruction(hasMainCtor: bool, path: CtorPath): (flag: bool)
    ensures flag ==> hasMainCtor
    ensures hasMainCtor ==> (flag <==> path.setsMainCtorFlag)
  {
    if hasMainCtor && path.setsMainCtorFlag then true else InitialMainCtorFlag
  }

  /** The overload selected when has_MainCtor<T> holds: it reports the flag. */
  function CheckWithMember(isMainCtorCalled: bool): bool
  {
    isMainCtorCalled
  }

  /** The variadic fallback overload, selected for every other type. */
  function CheckFallback(): bool
  {
    true
  }

  /** CheckIsMainCtorCalled(instance) as the compiler resolves it for T:
      it fails exactly when T has the member and the flag is still false. */
  function CheckIsMainCtorCalled(hasMainCtor: bool, isMainCtorCalled: bool): (passed: bool)
    ensures !passed <==> hasMainCtor && !isMainCtorCalled
  {
    if hasMainCtor then CheckWithMember(isMainCtorCalled) else CheckFallback()
  }

  /** Right after construction, the check passes for a type without the
      member whatever constructor ran, and for a type with it exactly when the
      chosen constructor set the flag: starting from IMainCtor's `false`, no
      other path can make it pass. */
  lemma CheckAfterConstruction(hasMainCtor: bool, path: CtorPath)
    ensures CheckIsMainCtorCalled(hasMainCtor, FlagAfterConstruction(hasMainCtor, path))
            <==> !hasMainCtor || path.setsMainCtorFlag
  {
  }
}
