/**
 * What the slot of SingletonCRTP<T> guarantees across calls: identity of
 * the stored object, the completion check on every CreateSingleton, the
 * overwrite by any construction, and freshness after destruction.
 */
module SlotProperties {
  import opened MainCtor
  import opened SlotModel

  /** A second CreateSingleton, with any arguments, is a no-op that gives
      the same reply as the first: the same object, or the same abort. */
  lemma SecondCreateIsNoOp(s: State, first: CtorPath, second: CtorPath)
    requires Valid(s)
    ensures Create(Create(s, first).state, second) == Create(s, first)
  {
  }

  /** On a populated slot the forwarded arguments have no effect at all. */
  lemma PopulatedCreateIgnoresArguments(s: State, p: CtorPath, q: CtorPath)
    requires Valid(s) && s.slot.Holds?
    ensures Create(s, p) == Create(s, q)
    ensures Create(s, p).state == s
  {
  }

  /** The completion check also runs when nothing is built: a stored object
      whose flag is false makes every later CreateSingleton abort. */
  lemma CheckRunsOnEveryCreate(s: State, p: CtorPath)
    requires Valid(s) && s.slot.Holds? && !StoredPasses(s)
    ensures Create(s, p) == Step(s, Aborted(MainCtorNotCalled))
  {
  }

  /** GetInstance after a CreateSingleton that returned hands out that very
      object, and operator* / operator-> reach it too. */
  lemma GetAfterCreate(s: State, p: CtorPath)
    requires Valid(s) && Create(s, p).reply.Object?
    ensures GetInstance(Create(s, p).state) == Create(s, p).reply
    ensures Deref(Create(s, p).state) == Create(s, p).reply.obj
  {
  }

  /** Constructing another T object directly replaces the stored pointer:
      afterwards GetInstance and CreateSingleton answer with the new object. */
  lemma ConstructReplacesStored(s: State, p: CtorPath, q: CtorPath)
    requires Valid(s) && s.slot.Holds?
    ensures GetInstance(Construct(s, p)) == Object(|s.flags|)
    ensures GetInstance(Construct(s, p)) != GetInstance(s)
    ensures Create(Construct(s, p), q).state == Construct(s, p)
  {
  }

  /** After the destructor, GetInstance's assert fails until a CreateSingleton
      builds a new object. */
  lemma DestroyEmptiesSlot(s: State, p: CtorPath)
    requires Valid(s)
    ensures GetInstance(Destroy(s)) == Aborted(NotCreated)
    ensures GetInstance(Create(Destroy(s), p).state) == Object(|s.flags|)
  {
  }

  /** Calls that only create or get. */
  predicate OnlyCreateAndGet(calls: seq<Call>)
  {
    forall i :: 0 <= i < |calls| ==> calls[i].CreateCall? || calls[i].GetCall?
  }

  /** Once the slot is populated, no sequence of CreateSingleton and
      GetInstance calls changes it: every reply is the stored object, except
      an abort by the completion check; when the stored object passes the
      check, every call returns it. */
  lemma {:induction false} PopulatedSlotIsStable(s: State, calls: seq<Call>)
    requires Valid(s) && s.slot.Holds? && OnlyCreateAndGet(calls)
    ensures Run(s, calls).state == s
    ensures forall i :: 0 <= i < |Run(s, calls).replies| ==>
              Run(s, calls).replies[i] == Object(s.slot.id) ||
              Run(s, calls).replies[i] == Aborted(MainCtorNotCalled)
    ensures StoredPasses(s) ==>
              |Run(s, calls).replies| == |calls| &&
              forall i :: 0 <= i < |calls| ==> Run(s, calls).replies[i] == Object(s.slot.id)
    decreases |calls|
  {
    if calls != [] {
      var st := Apply(s, calls[0]);
      assert st.state == s;
      if !st.reply.Aborted? {
        assert OnlyCreateAndGet(calls[1..]) by {
          forall i | 0 <= i < |calls[1..]|
            ensures calls[1..][i].CreateCall? || calls[1..][i].GetCall?
          {
            assert calls[1..][i] == calls[i + 1];
          }
        }
        PopulatedSlotIsStable(s, calls[1..]);
      }
    }
  }

  /** A run never forgets an object: the flags of the objects built before
      stay as they were, new ones are appended, and every object a call hands
      out is one that was constructed. */
  lemma {:induction false} RunOnlyAppends(s: State, calls: seq<Call>)
    requires Valid(s)
    ensures Run(s, calls).state.hasMainCtor == s.hasMainCtor
    ensures s.flags <= Run(s, calls).state.flags
    ensures forall i :: 0 <= i < |Run(s, calls).replies| && Run(s, calls).replies[i].Object? ==>
              Run(s, calls).replies[i].obj < |Run(s, calls).state.flags|
    decreases |calls|
  {
    if calls != [] {
      var st := Apply(s, calls[0]);
      assert s.flags <= st.state.flags;
      if !st.reply.Aborted? {
        RunOnlyAppends(st.state, calls[1..]);
      }
    }
  }

  /** Whatever happened before, a CreateSingleton after the destructor
      builds the next object in construction order: one distinct from every
      object built before or during the earlier calls, from the one the
      destructor removed, and from every object any earlier call handed out. */
  lemma CreateAfterDestroyIsFresh(s: State, calls: seq<Call>, p: CtorPath)
    requires Valid(s)
    ensures var t := Run(s, calls);
            var c := Create(Destroy(t.state), p);
            c.state.slot.Holds? &&
            c.state.slot.id == |t.state.flags| &&
            |s.flags| <= c.state.slot.id &&
            (t.state.slot.Holds? ==> c.state.slot.id != t.state.slot.id) &&
            forall i :: 0 <= i < |t.replies| && t.replies[i].Object? ==>
              t.replies[i].obj != c.state.slot.id
  {
    RunOnlyAppends(s, calls);
  }

  /** A type without an IsMainCtorCalled member (a logger, say): a
      CreateSingleton on an empty slot, the first one or one after the
      destructor, builds a new object and passes whatever constructor ran,
      and the next CreateSingleton returns the same object. */
  lemma TypeWithoutMemberAlwaysPasses(s: State, p: CtorPath, q: CtorPath)
    requires Valid(s) && s.slot.Empty? && !s.hasMainCtor
    ensures Create(s, p).reply == Object(|s.flags|)
    ensures Create(Create(s, p).state, q).reply == Object(|s.flags|)
  {
  }

  /** A type inheriting IMainCtor: a CreateSingleton on an empty slot passes
      exactly when the constructor the arguments select sets the flag; through
      any other constructor it aborts, even though the new object is built and
      stored. */
  lemma TypeWithMemberNeedsMainCtor(s: State, p: CtorPath)
    requires Valid(s) && s.slot.Empty? && s.hasMainCtor
    ensures Create(s, p).reply.Object? <==> p.setsMainCtorFlag
    ensures !p.setsMainCtorFlag ==> Create(s, p).reply == Aborted(MainCtorNotCalled)
    ensures Create(s, p).state.slot == Holds(|s.flags|)
  {
  }
}
