# MollysLodge container, modelled in Dafny

MollysLodge is a minimal inversion-of-control container. `Container` keeps a
registry from a type key to an *activator* (a lazily evaluated
`Lazy<object>`) and a list, `tracked`, of every instance any activator has
produced. `Register` installs, overwrites or keeps an entry. `Decorate`
wraps a registered entry that has not been evaluated yet. `Resolve` and
`TryResolve` evaluate an entry at most once and cache the instance.
`Dispose` releases the tracked instances that are disposable.

The model has these parts:

- `Wrappers` (`wrappers.dfy`): `Option` for a null reference, plus
  `Result` and `Outcome` for the error paths.
- `Activators` (`activators.dfy`): an activator is either
  `Pending(base, layers)` or `Done(value)`. `base` is the registered factory,
  a total function `() -> V`. `layers` are the decorators (`V -> V`) in
  decoration order, innermost first. `Produced` gives the values that the
  first evaluation produces and tracks, in order.
- `ContainerModel` (`container_model.dfy`): the state
  `State(reg, tracked)` as a value. There is one step function per
  operation (`RegisterStep`, `DecorateStep`, `Force`, `TryResolveStep`,
  `ResolveStep`). Their contracts state the error order, the results and
  the frame conditions. The same module holds lemmas about sequences of
  calls (`Run`): the hard lock, the append-only `tracked` list, the
  ownership invariant, and "the factory runs exactly once".
- `Containers` (`container.dfy`): the class `Container` with fields `reg` and
  `tracked`, updated in place. `Register`, `Decorate`, `TryResolve`,
  `Resolve`, `Track`, the recursive `Evaluate` (the nested activators) and
  `Dispose` (a loop over `tracked`) are each proved to follow their step
  function or specification function.
- `ContainerScenarios` (`scenarios.dfy`): client methods that replay the
  calls of `MollysLodge.Tests/ContainerTests.cs`. Their assertions follow
  from the contracts alone.

Factories and decorators are plain total functions. Running one has no
effect beyond producing its value. So "the factory runs exactly once" is
stated as "exactly one value is appended to `tracked` for it". The C# value
`default(T)` is the container's constant `Default`. The `IDisposable` test
is a predicate passed to `Dispose`. `Dispose` returns the sequence of
release events instead of calling `Dispose()` on the instances.

As written, `Dispose` does not clear `tracked`. A second teardown therefore
releases the same instances again. Nothing in `Dispose`
(MollysLodge/Container.cs:23-29) clears `tracked` or guards against a
second release, and the model keeps that behaviour. A decorator that returns its inner instance gets that
instance tracked twice, so teardown releases it twice
(`ContainerScenarios.IdentityDecoratorTracksTwice`).

## Model

| member | source | states |
|---|---|---|
| Activators.Produced | MollysLodge/Container.cs:43-68 | evaluating a chain yields one value per layer: the factory's value first, then each decorator applied to exactly the value of the layer inside it |
| Activators.Decorated | MollysLodge/Container.cs:64-68 | the wrapper stays pending on the same factory; it yields `g` of the inner instance; it tracks everything the inner entry would track and then the outer value |
| Activators.ProducedPrefix | MollysLodge/Container.cs:64-68 | layers are evaluated and tracked innermost first: the first `j` decorators alone would track exactly the first `j + 1` values of the full chain |
| ContainerModel.RegisterStep | MollysLodge/Container.cs:31-50 | `AlreadyResolved` exactly when the entry is evaluated, and this is checked before the null test; `InvalidArgument` for a null factory; it succeeds exactly when the entry is not evaluated and a factory is given; a failure changes nothing; the result is true exactly when the key was absent or overwriting was asked for, and then the new pending entry is installed; false leaves the state untouched; `tracked` and other keys never change; nothing gets evaluated |
| ContainerModel.DecorateStep | MollysLodge/Container.cs:52-69 | errors are checked in the order `AlreadyResolved`, `InvalidArgument`, `NotRegistered`; a failure changes nothing; on success the entry stays pending, yields `g` of the previous instance, and tracks the inner instance before the outer one; `tracked`, the key set and other keys are unchanged; nothing gets evaluated |
| ContainerModel.Force | MollysLodge/Container.cs:80 | after reading, the entry is evaluated with the returned value; an evaluated entry returns its cached value and changes nothing; a pending entry appends its produced values to the end of `tracked`, ending with the returned value; other keys are unchanged and evaluated entries stay |
| ContainerModel.TryResolveStep | MollysLodge/Container.cs:71-83 | found exactly when the key is registered; a missing key gives false and the default value, with nothing changed; otherwise it reads the entry as `Force` does |
| ContainerModel.ResolveStep | MollysLodge/Container.cs:13-21 | `NotRegistered` exactly when the key is missing, with nothing changed; otherwise it succeeds with the instance `Force` gives, in the state `Force` leaves |
| ContainerModel.RunKeepsEvaluated | MollysLodge/Container.cs:33-36 | the hard lock: an evaluated entry stays evaluated with the same instance through any sequence of calls |
| ContainerModel.RunExtendsTracked | MollysLodge/Container.cs:85-90 | across any sequence of calls, `tracked` only grows at its end |
| ContainerModel.RunPreservesOwned | MollysLodge/Container.cs:43 | every cached instance stays in `tracked` across any sequence of calls, so teardown can reach it |
| ContainerModel.ResolvesEvaluatedIdle | MollysLodge/Container.cs:80 | resolving an evaluated entry any number of times leaves the state unchanged |
| ContainerModel.RegisterThenResolvesRunsOnce | MollysLodge.Tests/ContainerTests.cs:29-47 | after a successful `Register`, one or more resolutions of the key run the factory exactly once: `tracked` gains its single value, and the entry caches that value |
| Containers.Container.constructor | MollysLodge/Container.cs:8-11 | a new container has an empty registry and an empty tracked list |
| Containers.Container.Register | MollysLodge/Container.cs:31-50 | the result and the new registry are those of `RegisterStep`; `overwriteExisting` defaults to true as in the source; `tracked` is outside its frame |
| Containers.Container.Decorate | MollysLodge/Container.cs:52-69 | the outcome and the new registry are those of `DecorateStep`; `tracked` is outside its frame |
| Containers.Container.Track | MollysLodge/Container.cs:85-90 | appends the instance to the end of `tracked` and returns that same instance |
| Containers.Container.Evaluate | MollysLodge/Container.cs:43-68 | running a pending chain appends exactly `Produced` to `tracked` and returns its outermost value |
| Containers.Container.TryResolve | MollysLodge/Container.cs:71-83 | the flag, the instance and the new state are those of `TryResolveStep` with the container's default |
| Containers.Container.Resolve | MollysLodge/Container.cs:13-21 | the result and the new state are those of `ResolveStep` |
| Containers.Container.Dispose | MollysLodge/Container.cs:23-29 | the release events are exactly `Releases(tracked)`, in tracked order; it modifies nothing, so a second call releases the same instances again |
| Containers.ReleasesCount | MollysLodge/Container.cs:23-29 | teardown releases exactly the tracked instances that pass the release test: each one as many times as it was tracked, and no other instance at all |
| Containers.ReleasesAppend | MollysLodge/Container.cs:25-28 | teardown of a list split in two releases the first part's instances before the second part's |

## Left out

- Thread safety. `ConcurrentDictionary`, `Lazy(isThreadSafe: true)`, the race between the `IsValueCreated` test and `AddOrUpdate`, and the unsynchronised `List.Add` are not modelled. The model is sequential, so every call runs alone.
- Factories that call back into the container. The factories and decorators never receive the `IContainerActivator`, so re-entrant evaluation (a factory resolving another key, or its own key) is not modelled.
- Exceptions. A factory, a decorator or one instance's `Dispose()` cannot throw in the model. Teardown always releases every releasable instance.
- Reflection and casts. `typeof(T)` is an abstract key type `K`. `(T)activator.Value` is not modelled (all instances share one type `V`). `OfType<IDisposable>()` is a predicate parameter. A single `Default` value stands for `default(T)` of every key type.
- Object identity of activators. `Register` returns whether the stored activator is the one it just created. The model returns whether the new entry was installed (key absent, or overwriting asked for). These agree because every call creates a fresh activator.
- Exception message strings. Only the error kinds are modelled.
- The foreign `IDisposable.Dispose` call. It is a recorded release event; what a release does to an instance is not modelled.
