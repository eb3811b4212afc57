/**
 * The `Container` class of MollysLodge/Container.cs: a registry from type
 * keys to activators that it updates in place, and an append-only list of
 * every instance its activators have produced. Each method is proved to
 * follow the matching step function of module ContainerModel.
 */
module Containers {
  import opened Wrappers
  import opened Activators
  import opened ContainerModel

  class Container<K(==), !V> {
    /** The value `default(T)` that `TryResolve` hands out for an unregistered key. */
    const Default: V
    /** `factories`: the activator registered for each key. */
    var reg: map<K, Activator<V>>
    /** `tracked`: every produced instance, in the order produced. */
    var tracked: seq<V>

    /** The container's state as a value. */
    function Snapshot(): State<K, V>
      reads this
    {
      State(reg, tracked)
    }

    constructor (default: V)
      ensures Default == default
      ensures Snapshot() == Empty()
    {
      Default := default;
      reg := map[];
      tracked := [];
    }

    /** Installs, overwrites or keeps the entry for `key` (Container.cs:31-50). */
    method Register(key: K, factory: Option<Factory<V>>, overwriteExisting: bool := true) returns (r: Result<bool, Error>)
      modifies this`reg
      ensures (r, Snapshot()) == RegisterStep(old(Snapshot()), key, factory, overwriteExisting)
    {
      if key in reg && reg[key].Done? {
        return Failure(AlreadyResolved);
      }
      if factory.None? {
        return Failure(InvalidArgument);
      }
      var activator := Pending(factory.value, []);
      if key !in reg {
        reg := reg[key := activator];
        r := Success(true);
      } else if overwriteExisting {
        reg := reg[key := activator];
        r := Success(true);
      } else {
        r := Success(false);
      }
    }

    /** Wraps the pending entry for `key` with one more decorator (Container.cs:52-69). */
    method Decorate(key: K, factory: Option<Decorator<V>>) returns (r: Outcome<Error>)
      modifies this`reg
      ensures (r, Snapshot()) == DecorateStep(old(Snapshot()), key, factory)
    {
      if key in reg && reg[key].Done? {
        return Fail(AlreadyResolved);
      }
      if factory.None? {
        return Fail(InvalidArgument);
      }
      if key !in reg {
        return Fail(NotRegistered);
      }
      reg := reg[key := Decorated(reg[key], factory.value)];
      r := Pass;
    }

    /** Appends a produced instance to `tracked` and hands it back (Container.cs:85-90). */
    method Track(v: V) returns (r: V)
      modifies this`tracked
      ensures r == v
      ensures tracked == old(tracked) + [v]
    {
      tracked := tracked + [v];
      r := v;
    }

    /**
     * Runs a pending chain the way the nested activators of Container.cs:43
     * and :68 do: the inner chain first, then the outermost decorator on its
     * value, tracking each value as it is produced.
     */
    method Evaluate(base: Factory<V>, layers: seq<Decorator<V>>) returns (v: V)
      modifies this`tracked
      ensures tracked == old(tracked) + Produced(base, layers)
      ensures v == Produced(base, layers)[|layers|]
      decreases |layers|
    {
      if layers == [] {
        v := Track(base());
      } else {
        var inner := Evaluate(base, layers[..|layers| - 1]);
        v := Track(layers[|layers| - 1](inner));
      }
    }

    /** Looks `key` up and, when present, reads its activator (Container.cs:71-83). */
    method TryResolve(key: K) returns (found: bool, result: V)
      modifies this
      ensures (found, result, Snapshot()) == TryResolveStep(old(Snapshot()), key, Default)
    {
      if key !in reg {
        return false, Default;
      }
      found := true;
      match reg[key]
      case Done(v) =>
        result := v;
      case Pending(base, layers) =>
        result := Evaluate(base, layers);
        reg := reg[key := Done(result)];
    }

    /** `TryResolve`, failing with `NotRegistered` when nothing is found (Container.cs:13-21). */
    method Resolve(key: K) returns (r: Result<V, Error>)
      modifies this
      ensures (r, Snapshot()) == ResolveStep(old(Snapshot()), key)
    {
      var found, result := TryResolve(key);
      if !found {
        return Failure(NotRegistered);
      }
      r := Success(result);
    }

    /**
     * Releases the tracked instances that pass the release test, in tracked
     * order (Container.cs:23-29). It reads the state and leaves it as it is,
     * so a second call releases the same instances again.
     */
    method Dispose(isReleasable: V -> bool) returns (released: seq<V>)
      ensures released == Releases(tracked, isReleasable)
    {
      var t := tracked;
      released := [];
      for i := 0 to |t|
        invariant released == Releases(t[..i], isReleasable)
      {
        assert t[..i + 1] == t[..i] + [t[i]];
        ReleasesAppend(t[..i], [t[i]], isReleasable);
        if isReleasable(t[i]) {
          released := released + [t[i]];
        }
      }
      assert t[..|t|] == t;
    }
  }

  /**
   * The release events of a teardown over `tracked`: the instances that pass
   * the test, in tracked order, each as often as it was tracked.
   */
  function Releases<V>(tracked: seq<V>, isReleasable: V -> bool): seq<V>
  {
    if tracked == [] then []
    else
      var rest := Releases(tracked[1..], isReleasable);
      if isReleasable(tracked[0]) then [tracked[0]] + rest else rest
  }

  /**
   * Teardown releases each releasable instance exactly as many times as it
   * was tracked, so an instance tracked twice (a decorator that hands back
   * its inner instance) is released twice, and no other instance at all.
   */
  lemma {:induction false} ReleasesCount<V>(tracked: seq<V>, isReleasable: V -> bool, x: V)
    ensures multiset(Releases(tracked, isReleasable))[x] == if isReleasable(x) then multiset(tracked)[x] else 0
    decreases |tracked|
  {
    if tracked != [] {
      assert tracked == [tracked[0]] + tracked[1..];
      ReleasesCount(tracked[1..], isReleasable, x);
    }
  }

  /** Releasing a list split in two releases the first part's instances, then the second's. */
  lemma {:induction false} ReleasesAppend<V>(a: seq<V>, b: seq<V>, isReleasable: V -> bool)
    ensures Releases(a + b, isReleasable) == Releases(a, isReleasable) + Releases(b, isReleasable)
    decreases |a|
  {
    if a != [] {
      assert (a + b)[1..] == a[1..] + b;
      ReleasesAppend(a[1..], b, isReleasable);
    } else {
      assert a + b == b;
    }
  }
}
