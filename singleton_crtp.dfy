/**
 * SingletonCRTP<T> as objects: one `Singleton` per derived type T holds the
 * static `instance` pointer, and `Obj` stands for an object of T. Identity of
 * the singleton is reference equality; a newly built object is `fresh`.
 * Every method is specified against the value model in SlotModel through
 * Abstract(), which numbers the objects of T in construction order.
 */
module SingletonCrtp {
  import opened MainCtor
  import M = SlotModel

  /** An object of the derived type T. */
  class Obj {
    /** has_MainCtor<T>: whether T has a `bool IsMainCtorCalled` member. */
    const hasMainCtor: bool
    /** IsMainCtorCalled, meaningful only when hasMainCtor holds. */
    var isMainCtorCalled: bool

    /** T's constructor selected by the forwarded arguments: IMainCtor's
        initialiser runs first, then the chosen path may set the flag. */
    constructor (hasMainCtor: bool, path: CtorPath)
      ensures this.hasMainCtor == hasMainCtor
      ensures isMainCtorCalled == FlagAfterConstruction(hasMainCtor, path)
    {
      this.hasMainCtor := hasMainCtor;
      isMainCtorCalled := InitialMainCtorFlag;
      if hasMainCtor && path.setsMainCtorFlag {
        isMainCtorCalled := true;
      }
    }
  }

  /** The completion flags of the given objects, in order. */
  ghost function Flags(objs: seq<Obj>): (flags: seq<bool>)
    reads set o | o in objs
    ensures |flags| == |objs|
    ensures forall i :: 0 <= i < |objs| ==> flags[i] == objs[i].isMainCtorCalled
  {
    if objs == [] then []
    else Flags(objs[..|objs| - 1]) + [objs[|objs| - 1].isMainCtorCalled]
  }

  /** The per-type static state of SingletonCRTP<T>. */
  class Singleton {
    /** has_MainCtor<T>, fixed for the type. */
    const hasMainCtor: bool
    /** `static Type* instance`. */
    var instance: Obj?
    /** Every object of T constructed so far, in construction order. */
    ghost var objs: seq<Obj>

    ghost predicate Valid()
      reads this
    {
      && (instance != null ==> instance in objs)
      && (forall i, j :: 0 <= i < j < |objs| ==> objs[i] != objs[j])
      && (forall i :: 0 <= i < |objs| ==> objs[i].hasMainCtor == hasMainCtor)
    }

    /** The position of an object of T in construction order. */
    ghost function IdOf(o: Obj): (id: nat)
      reads this
      requires Valid() && o in objs
      ensures id < |objs| && objs[id] == o
    {
      var i :| 0 <= i < |objs| && objs[i] == o; i
    }

    /** The slot as a value of the model. */
    ghost function Abstract(): (s: M.State)
      reads this, set o | o in objs
      requires Valid()
      ensures M.Valid(s)
    {
      M.State(hasMainCtor, if instance == null then M.Empty else M.Holds(IdOf(instance)), Flags(objs))
    }

    /** A reply about objects of T matches the model's reply about ids. */
    ghost predicate Corresponds(r: M.Reply<Obj>, m: M.Reply<M.ObjId>)
      reads this
    {
      match m
      case Object(id) => id < |objs| && r == M.Object(objs[id])
      case Done => r == M.Done
      case Aborted(f) => r == M.Aborted(f)
    }

    /** Static initialisation of `instance` to nullptr. */
    constructor (hasMainCtor: bool)
      ensures Valid() && this.hasMainCtor == hasMainCtor
      ensures instance == null && objs == []
      ensures Abstract() == M.Init(hasMainCtor)
    {
      this.hasMainCtor := hasMainCtor;
      instance := null;
      objs := [];
    }

    /** The protected base constructor: the object of T under construction
        stores itself in the slot, overwriting whatever was there. */
    method Register(o: Obj)
      requires Valid() && o !in objs && o.hasMainCtor == hasMainCtor
      modifies this
      ensures Valid()
      ensures instance == o && objs == old(objs) + [o]
      ensures Abstract() == old(Abstract()).(slot := M.Holds(|old(objs)|),
                                             flags := old(Abstract()).flags + [o.isMainCtorCalled])
    {
      ghost var before := Flags(objs);
      instance := o;
      objs := objs + [o];
      assert objs[..|objs| - 1] == old(objs);
      assert Flags(objs) == before + [o.isMainCtorCalled];
      assert IdOf(o) == |old(objs)|;
    }

    /** Constructing an object of T along `path`, by CreateSingleton or by any
        other code: a new object, which the base constructor registers. */
    method Construct(path: CtorPath) returns (o: Obj)
      requires Valid()
      modifies this
      ensures Valid() && fresh(o)
      ensures instance == o && objs == old(objs) + [o]
      ensures o.hasMainCtor == hasMainCtor
      ensures o.isMainCtorCalled == FlagAfterConstruction(hasMainCtor, path)
      ensures Abstract() == M.Construct(old(Abstract()), path)
    {
      ghost var before := Flags(objs);
      o := new Obj(hasMainCtor, path);
      assert Flags(old(objs)) == before;
      Register(o);
    }

    /** CreateSingleton(args...): build an object only when the slot is
        empty, then assert the completion check on the stored object and
        return it. */
    method CreateSingleton(path: CtorPath) returns (r: M.Reply<Obj>)
      requires Valid()
      modifies this
      ensures Valid() && instance != null
      ensures old(instance) == null ==> fresh(instance) && objs == old(objs) + [instance]
      ensures old(instance) != null ==> unchanged(this)
      ensures r.Object? <==> CheckIsMainCtorCalled(hasMainCtor, instance.isMainCtorCalled)
      ensures r.Object? ==> r.obj == instance
      ensures !r.Object? ==> r == M.Aborted(M.MainCtorNotCalled)
      ensures Abstract() == M.Create(old(Abstract()), path).state
      ensures Corresponds(r, M.Create(old(Abstract()), path).reply)
    {
      if instance == null {
        var o := Construct(path);
        instance := o;
      }
      if CheckIsMainCtorCalled(hasMainCtor, instance.isMainCtorCalled) {
        r := M.Object(instance);
      } else {
        r := M.Aborted(M.MainCtorNotCalled);
      }
    }

    /** GetInstance(): assert that the slot is populated and return it. */
    method GetInstance() returns (r: M.Reply<Obj>)
      requires Valid()
      ensures r.Object? <==> instance != null
      ensures r.Object? ==> r.obj == instance
      ensures !r.Object? ==> r == M.Aborted(M.NotCreated)
      ensures Corresponds(r, M.GetInstance(Abstract()))
    {
      if instance == null {
        r := M.Aborted(M.NotCreated);
      } else {
        r := M.Object(instance);
      }
    }

    /** operator* (both the const and the non-const overload): the stored
        object, unchecked. */
    method Deref() returns (o: Obj)
      requires Valid() && instance != null
      ensures o == instance
      ensures o == objs[M.Deref(Abstract())]
    {
      o := instance;
    }

    /** operator-> (both overloads): the address of `**this`, i.e. of the
        stored object, not of the object it is called on. */
    method Arrow() returns (o: Obj)
      requires Valid() && instance != null
      ensures o == instance
      ensures o == objs[M.Deref(Abstract())]
    {
      o := Deref();
    }

    /** The virtual base destructor, run when any object of T is destroyed:
        the slot becomes null. */
    method Destroy()
      requires Valid()
      modifies this
      ensures Valid() && instance == null && objs == old(objs)
      ensures Abstract() == M.Destroy(old(Abstract()))
    {
      instance := null;
    }
  }

  /** Each derived type has its own slot: whatever happens to the slot of one
      type, the slot of another keeps its object. */
  method IndependentSlots(a: Singleton, b: Singleton, path: CtorPath)
    requires a != b && a.Valid() && b.Valid()
    modifies a
    ensures unchanged(b)
  {
    var _ := a.CreateSingleton(path);
    a.Destroy();
    var o := a.Construct(path);
  }
}
