/**
 * The container's state as a value and each operation of
 * MollysLodge/Container.cs as a function from the state before the call to
 * its result and the state after it. The class in module Containers is
 * proved to follow these functions; the lemmas here relate several calls.
 */
module ContainerModel {
  import opened Wrappers
  import opened Activators

  /** The error kinds the container raises. */
  datatype Error = InvalidArgument | NotRegistered | AlreadyResolved

  /** The registry (`factories`) and the list of every produced instance (`tracked`). */
  datatype State<K(==), !V> = State(reg: map<K, Activator<V>>, tracked: seq<V>)

  /** A freshly constructed container. */
  function Empty<K(==), V>(): State<K, V>
  {
    State(map[], [])
  }

  /** True when `k` has an entry whose instance has already been produced. */
  predicate IsEvaluated<K(==), V>(s: State<K, V>, k: K)
  {
    k in s.reg && s.reg[k].Done?
  }

  /** Every evaluated entry of `s` is still present, with the same value, in `t`. */
  ghost predicate KeepsEvaluated<K, V>(s: State<K, V>, t: State<K, V>)
  {
    forall j :: j in s.reg && s.reg[j].Done? ==> j in t.reg && t.reg[j] == s.reg[j]
  }

  /** No entry of `t` is evaluated unless it was already evaluated, with that value, in `s`. */
  ghost predicate EvaluatesNothing<K, V>(s: State<K, V>, t: State<K, V>)
  {
    forall j :: j in t.reg && t.reg[j].Done? ==> j in s.reg && s.reg[j] == t.reg[j]
  }

  /** Every cached instance is among the tracked ones, so teardown can reach it. */
  ghost predicate Owned<K, V>(s: State<K, V>)
  {
    forall j :: j in s.reg && s.reg[j].Done? ==> s.reg[j].value in s.tracked
  }

  /**
   * `Register` (Container.cs:31-50). The evaluated check comes before the
   * null check; a failure changes nothing; otherwise the result is true
   * exactly when the new pending activator is installed, which happens when
   * the key is absent or overwriting is asked for.
   */
  function RegisterStep<K(==), V>(s: State<K, V>, k: K, factory: Option<Factory<V>>, overwriteExisting: bool)
    : (out: (Result<bool, Error>, State<K, V>))
    ensures out.0 == Failure(AlreadyResolved) <==> IsEvaluated(s, k)
    ensures out.0 == Failure(InvalidArgument) <==> !IsEvaluated(s, k) && factory.None?
    ensures out.0.Success? <==> !IsEvaluated(s, k) && factory.Some?
    ensures out.0.Failure? ==> out.1 == s
    ensures out.0.Success? ==> out.0.value == (k !in s.reg || overwriteExisting)
    ensures out.0 == Success(true) ==> k in out.1.reg && out.1.reg[k] == Pending(factory.value, [])
    ensures out.0 == Success(false) ==> out.1 == s
    ensures out.1.tracked == s.tracked
    ensures out.1.reg - {k} == s.reg - {k}
    ensures KeepsEvaluated(s, out.1) && EvaluatesNothing(s, out.1)
  {
    if IsEvaluated(s, k) then (Failure(AlreadyResolved), s)
    else if factory.None? then (Failure(InvalidArgument), s)
    else
      var activator := Pending(factory.value, []);
      if k !in s.reg || overwriteExisting then (Success(true), s.(reg := s.reg[k := activator]))
      else (Success(false), s)
  }

  /**
   * `Decorate` (Container.cs:52-69). Errors are checked in the order
   * evaluated, null decorator, absent key; a failure changes nothing. On
   * success the entry stays pending and, when read, yields `g` of exactly
   * the instance the entry would have yielded before, tracking that inner
   * instance before the outer one.
   */
  function DecorateStep<K(==), V>(s: State<K, V>, k: K, g: Option<Decorator<V>>)
    : (out: (Outcome<Error>, State<K, V>))
    ensures out.0 == Fail(AlreadyResolved) <==> IsEvaluated(s, k)
    ensures out.0 == Fail(InvalidArgument) <==> !IsEvaluated(s, k) && g.None?
    ensures out.0 == Fail(NotRegistered) <==> k !in s.reg && g.Some?
    ensures out.0.Fail? ==> out.1 == s
    ensures out.0.Pass? ==>
      k in s.reg && k in out.1.reg && out.1.reg[k].Pending? &&
      Resolved(out.1.reg[k]) == g.value(Resolved(s.reg[k])) &&
      Evaluation(out.1.reg[k]) == Evaluation(s.reg[k]) + [g.value(Resolved(s.reg[k]))]
    ensures out.1.tracked == s.tracked
    ensures out.1.reg.Keys == s.reg.Keys
    ensures out.1.reg - {k} == s.reg - {k}
    ensures KeepsEvaluated(s, out.1) && EvaluatesNothing(s, out.1)
  {
    if IsEvaluated(s, k) then (Fail(AlreadyResolved), s)
    else if g.None? then (Fail(InvalidArgument), s)
    else if k !in s.reg then (Fail(NotRegistered), s)
    else (Pass, s.(reg := s.reg[k := Decorated(s.reg[k], g.value)]))
  }

  /**
   * Reading the activator of a registered key (`activator.Value`,
   * Container.cs:80). A pending entry runs its chain once, appends every
   * produced value to the end of the tracked list and becomes evaluated
   * with the outermost value; an evaluated entry yields its cached value
   * and changes nothing.
   */
  function Force<K(==), V>(s: State<K, V>, k: K): (out: (V, State<K, V>))
    requires k in s.reg
    ensures k in out.1.reg && out.1.reg[k] == Done(out.0)
    ensures s.reg[k].Done? ==> out.0 == s.reg[k].value && out.1 == s
    ensures s.reg[k].Pending? ==>
      out.1.tracked == s.tracked + Produced(s.reg[k].base, s.reg[k].layers) &&
      out.1.tracked[|out.1.tracked| - 1] == out.0
    ensures out.1.reg - {k} == s.reg - {k}
    ensures out.1.reg.Keys == s.reg.Keys
    ensures KeepsEvaluated(s, out.1)
  {
    var a := s.reg[k];
    var v := Resolved(a);
    (v, State(s.reg[k := Done(v)], s.tracked + Evaluation(a)))
  }

  /**
   * `TryResolve` (Container.cs:71-83): an absent key gives false with the
   * default value and changes nothing; a present key gives true and the
   * entry's instance.
   */
  function TryResolveStep<K(==), V>(s: State<K, V>, k: K, default: V): (out: (bool, V, State<K, V>))
    ensures out.0 <==> k in s.reg
    ensures !out.0 ==> out.1 == default && out.2 == s
    ensures out.0 ==> (out.1, out.2) == Force(s, k)
  {
    if k !in s.reg then (false, default, s)
    else
      var (v, t) := Force(s, k);
      (true, v, t)
  }

  /**
   * `Resolve` (Container.cs:13-21): `NotRegistered` for an absent key,
   * with nothing changed; otherwise what `TryResolve` gives.
   */
  function ResolveStep<K(==), V>(s: State<K, V>, k: K): (out: (Result<V, Error>, State<K, V>))
    ensures out.0 == Failure(NotRegistered) <==> k !in s.reg
    ensures k !in s.reg ==> out.1 == s
    ensures k in s.reg ==> out.0 == Success(Force(s, k).0) && out.1 == Force(s, k).1
  {
    if k !in s.reg then (Failure(NotRegistered), s)
    else
      var (v, t) := Force(s, k);
      (Success(v), t)
  }

  /** A call that changes the container's state. */
  datatype Op<K, !V> =
    | RegisterOp(key: K, factory: Option<Factory<V>>, overwriteExisting: bool)
    | DecorateOp(key: K, decorator: Option<Decorator<V>>)
    | ResolveOp(key: K)

  /** The state after one call; `Resolve` and `TryResolve` change the state alike. */
  function Step<K(==), V>(s: State<K, V>, op: Op<K, V>): State<K, V>
  {
    match op
    case RegisterOp(k, f, o) => RegisterStep(s, k, f, o).1
    case DecorateOp(k, g) => DecorateStep(s, k, g).1
    case ResolveOp(k) => if k in s.reg then Force(s, k).1 else s
  }

  /** The state after a sequence of calls, first to last. */
  function Run<K(==), V>(s: State<K, V>, ops: seq<Op<K, V>>): State<K, V>
    decreases |ops|
  {
    if ops == [] then s else Run(Step(s, ops[0]), ops[1..])
  }

  /** Already resolved is a hard lock: an evaluated entry keeps its instance through any calls. */
  lemma {:induction false} RunKeepsEvaluated<K, V>(s: State<K, V>, ops: seq<Op<K, V>>)
    ensures KeepsEvaluated(s, Run(s, ops))
    decreases |ops|
  {
    if ops != [] {
      var t := Step(s, ops[0]);
      RunKeepsEvaluated(t, ops[1..]);
    }
  }

  /** The tracked list only grows at its end, whatever the calls. */
  lemma {:induction false} RunExtendsTracked<K, V>(s: State<K, V>, ops: seq<Op<K, V>>)
    ensures s.tracked <= Run(s, ops).tracked
    decreases |ops|
  {
    if ops != [] {
      var t := Step(s, ops[0]);
      RunExtendsTracked(t, ops[1..]);
    }
  }

  /** Every cached instance stays reachable from the tracked list, whatever the calls. */
  lemma {:induction false} RunPreservesOwned<K, V>(s: State<K, V>, ops: seq<Op<K, V>>)
    requires Owned(s)
    ensures Owned(Run(s, ops))
    decreases |ops|
  {
    if ops != [] {
      var t := Step(s, ops[0]);
      forall j | j in t.reg && t.reg[j].Done?
        ensures t.reg[j].value in t.tracked
      {
        if ops[0].ResolveOp? && ops[0].key == j && s.reg[j].Pending? {
          assert t.reg[j].value == t.tracked[|t.tracked| - 1];
        } else {
          assert j in s.reg && s.reg[j] == t.reg[j];
        }
      }
      RunPreservesOwned(t, ops[1..]);
    }
  }

  /** `n` calls of `Resolve` (or `TryResolve`) on the same key. */
  function Resolves<K, V>(k: K, n: nat): (ops: seq<Op<K, V>>)
    ensures |ops| == n && forall i :: 0 <= i < n ==> ops[i] == ResolveOp(k)
  {
    seq(n, _ => ResolveOp(k))
  }

  /** Resolving an evaluated entry again and again changes nothing. */
  lemma {:induction false} ResolvesEvaluatedIdle<K, V>(s: State<K, V>, k: K, n: nat)
    requires IsEvaluated(s, k)
    ensures Run(s, Resolves(k, n)) == s
    decreases n
  {
    if n > 0 {
      var ops := Resolves<K, V>(k, n);
      assert ops[0] == ResolveOp(k);
      assert Step(s, ops[0]) == s;
      assert ops[1..] == Resolves(k, n - 1);
      ResolvesEvaluatedIdle(s, k, n - 1);
    }
  }

  /**
   * Registering a factory and then resolving its key any positive number
   * of times runs the factory exactly once: the tracked list gains exactly
   * its one value, and the entry caches that value.
   */
  lemma {:induction false} RegisterThenResolvesRunsOnce<K, V>(s: State<K, V>, k: K, f: Factory<V>, overwriteExisting: bool, n: nat)
    requires RegisterStep(s, k, Some(f), overwriteExisting).0 == Success(true)
    requires n > 0
    ensures Run(RegisterStep(s, k, Some(f), overwriteExisting).1, Resolves(k, n)).tracked == s.tracked + [f()]
    ensures var t := Run(RegisterStep(s, k, Some(f), overwriteExisting).1, Resolves(k, n));
      k in t.reg && t.reg[k] == Done(f())
  {
    var r := RegisterStep(s, k, Some(f), overwriteExisting).1;
    var ops := Resolves<K, V>(k, n);
    assert ops[0] == ResolveOp(k);
    var t := Step(r, ops[0]);
    assert t == Force(r, k).1;
    assert t.tracked == s.tracked + [f()];
    assert ops[1..] == Resolves(k, n - 1);
    ResolvesEvaluatedIdle(t, k, n - 1);
  }
}
