/**
 * The static slot `SingletonCRTP<T>::instance` of one derived type T, as a
 * state machine over values.
 *
 * Objects of T are named by the order in which they were constructed: the
 * i-th object ever built has id i, and `flags[i]` is its IsMainCtorCalled.
 * A newly built object therefore always has the id `|flags|`, which no
 * earlier object has; this is how "a new object" reads in this model.
 * The two asserts of the source become Aborted replies: a failing assert
 * ends the process, so a run of calls stops there.
 */
module SlotModel {
  import opened MainCtor

  type ObjId = nat

  /** `instance`: null, or a pointer to one object of T. */
  datatype Slot = Empty | Holds(id: ObjId)

  /** Which of the source's asserts failed. */
  datatype Failure =
    | NotCreated         // GetInstance on a null slot
    | MainCtorNotCalled  // CreateSingleton found the completion flag false

  /** What a call hands back: an object, nothing (a destructor), or an abort. */
  datatype Reply<T> = Object(obj: T) | Done | Aborted(failure: Failure)

  /** The slot of T, the trait has_MainCtor<T>, and the completion flag of
      every T object constructed so far. */
  datatype State = State(hasMainCtor: bool, slot: Slot, flags: seq<bool>)

  /** The slot only ever points at an object that was constructed. */
  predicate Valid(s: State)
  {
    s.slot.Holds? ==> s.slot.id < |s.flags|
  }

  /** Static initialisation: `instance` starts as nullptr. */
  function Init(hasMainCtor: bool): State
  {
    State(hasMainCtor, Empty, [])
  }

  /** Whether the completion check passes on the object in a populated slot. */
  predicate StoredPasses(s: State)
    requires Valid(s) && s.slot.Holds?
  {
    CheckIsMainCtorCalled(s.hasMainCtor, s.flags[s.slot.id])
  }

  /** Constructing any object of T: the derived constructor runs along
      `path`, and the protected base constructor stores `this` in the slot,
      whatever the slot held before. */
  function Construct(s: State, path: CtorPath): (r: State)
    requires Valid(s)
    ensures Valid(r) && r.hasMainCtor == s.hasMainCtor
    ensures r.slot == Holds(|s.flags|)
    ensures |r.flags| == |s.flags| + 1 && r.flags[..|s.flags|] == s.flags
    ensures r.flags[|s.flags|] == FlagAfterConstruction(s.hasMainCtor, path)
  {
    State(s.hasMainCtor, Holds(|s.flags|), s.flags + [FlagAfterConstruction(s.hasMainCtor, path)])
  }

  /** The new state and the reply of one call. */
  datatype Step = Step(state: State, reply: Reply<ObjId>)

  /** CreateSingleton(args...): builds an object only when the slot is empty,
      then asserts the completion check on the stored object and returns it. */
  function Create(s: State, path: CtorPath): (r: Step)
    requires Valid(s)
    ensures Valid(r.state) && r.state.slot.Holds?
    ensures s.slot.Empty? ==> r.state == Construct(s, path)
    ensures s.slot.Holds? ==> r.state == s
    ensures r.reply == Object(r.state.slot.id) <==> StoredPasses(r.state)
    ensures r.reply != Object(r.state.slot.id) ==> r.reply == Aborted(MainCtorNotCalled)
  {
    var s' := if s.slot.Empty? then Construct(s, path) else s;
    if CheckIsMainCtorCalled(s'.hasMainCtor, s'.flags[s'.slot.id]) then
      Step(s', Object(s'.slot.id))
    else
      Step(s', Aborted(MainCtorNotCalled))
  }

  /** GetInstance(): asserts that the slot is populated and returns it. */
  function GetInstance(s: State): (r: Reply<ObjId>)
    ensures r.Object? <==> s.slot.Holds?
    ensures r.Object? ==> r.obj == s.slot.id
    ensures !r.Object? ==> r == Aborted(NotCreated)
  {
    match s.slot
    case Empty => Aborted(NotCreated)
    case Holds(id) => Object(id)
  }

  /** operator* and operator->: the stored object, with no check, so only
      defined on a populated slot. */
  function Deref(s: State): (id: ObjId)
    requires s.slot.Holds?
    ensures GetInstance(s) == Object(id)
  {
    s.slot.id
  }

  /** The base destructor: the slot becomes null. No object is forgotten. */
  function Destroy(s: State): (r: State)
    requires Valid(s)
    ensures Valid(r) && r.slot == Empty
    ensures r.hasMainCtor == s.hasMainCtor && r.flags == s.flags
  {
    s.(slot := Empty)
  }

  /** One call on the slot of T. */
  datatype Call =
    | CreateCall(path: CtorPath)
    | GetCall
    | ConstructCall(path: CtorPath)
    | DestroyCall

  function Apply(s: State, c: Call): (r: Step)
    requires Valid(s)
    ensures Valid(r.state)
  {
    match c
    case CreateCall(path) => Create(s, path)
    case GetCall => Step(s, GetInstance(s))
    case ConstructCall(path) => Step(Construct(s, path), Object(|s.flags|))
    case DestroyCall => Step(Destroy(s), Done)
  }

  /** The final state and the replies of a sequence of calls; the run stops
      after the first aborted call. */
  datatype Trace = Trace(state: State, replies: seq<Reply<ObjId>>)

  function Run(s: State, calls: seq<Call>): (t: Trace)
    requires Valid(s)
    ensures Valid(t.state)
    ensures |t.replies| <= |calls|
    decreases |calls|
  {
    if calls == [] then Trace(s, [])
    else
      var st := Apply(s, calls[0]);
      if st.reply.Aborted? then Trace(st.state, [st.reply])
      else
        var rest := Run(st.state, calls[1..]);
        Trace(rest.state, [st.reply] + rest.replies)
  }
}
