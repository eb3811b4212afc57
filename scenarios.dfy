/**
 * Client code mirroring MollysLodge.Tests/ContainerTests.cs: each method
 * drives a container through one test's calls, and the assertions are
 * proved from the methods' contracts alone. Keys are strings standing for
 * types; instances are integers; 0 stands for the null `default`.
 */
module ContainerScenarios {
  import opened Wrappers
  import opened ContainerModel
  import Activators
  import opened Containers

  /** Resolve_InvokeFactoryOnlyOnce / TryResolve_InvokeFactoryOnlyOnce. */
  method ResolveRunsFactoryOnce() {
    var c := new Container<string, int>(0);
    var ok := c.Register("Item1", Some(() => 7));
    assert ok == Success(true);
    var first := c.Resolve("Item1");
    var second := c.Resolve("Item1");
    assert first == second == Success(7);
    assert c.tracked == [7];
    var found, item := c.TryResolve("Item1");
    assert found && item == 7 && c.tracked == [7];
  }

  /** Resolve_NotRegistered / TryResolve_NotRegistered. */
  method ResolveMissingKey() {
    var c := new Container<string, int>(0);
    var r := c.Resolve("Object");
    assert r == Failure(NotRegistered);
    var found, item := c.TryResolve("Object");
    assert !found && item == 0;
    assert c.reg == map[] && c.tracked == [];
  }

  /** Register_AlreadyResolved / Decorate_AlreadyResolved. */
  method ResolvedEntryIsLocked() {
    var c := new Container<string, int>(0);
    var ok := c.Register("Item1", Some(() => 1), true);
    var r := c.Resolve("Item1");
    var again := c.Register("Item1", None, true);
    assert again == Failure(AlreadyResolved);
    var d := c.Decorate("Item1", None);
    assert d == Fail(AlreadyResolved);
    assert c.reg["Item1"].Done? && c.reg["Item1"].value == 1;
  }

  /** Register_NoFactory, Decorate_NoFactory, Decorate_NotRegistered. */
  method MissingFactoryOrEntry() {
    var c := new Container<string, int>(0);
    var r := c.Register("Object", None, true);
    assert r == Failure(InvalidArgument);
    var d := c.Decorate("Object", None);
    assert d == Fail(InvalidArgument);
    d := c.Decorate("Object", Some(x => x));
    assert d == Fail(NotRegistered);
    assert c.reg == map[];
  }

  /** Register_WithOverwrite / Register_WithoutOverwrite. */
  method OverwriteOrKeep() {
    var c := new Container<string, int>(0);
    var r := c.Register("Item1", Some(() => 1), false);
    assert r == Success(true);
    r := c.Register("Item1", Some(() => 2), false);
    assert r == Success(false);
    r := c.Register("Item1", Some(() => 3), true);
    assert r == Success(true);
    var v := c.Resolve("Item1");
    assert v == Success(3);
  }

  /** Decorate: each decorator receives exactly the instance of the layer inside it. */
  method DecoratorSeesInnerInstance() {
    var c := new Container<string, int>(0);
    var r := c.Register("Item1", Some(() => 5), true);
    var d := c.Decorate("Item1", Some(x => x + 1));
    assert d == Pass;
    assert Activators.Resolved(c.reg["Item1"]) == 6;
    d := c.Decorate("Item1", Some(x => x * 10));
    assert Activators.Resolved(c.reg["Item1"]) == 60;
    var v := c.Resolve("Item1");
    assert v == Success(60);
    assert c.tracked == [5, 6, 60];
  }

  /**
   * A decorator that hands back its inner instance gets that instance
   * tracked twice.
   */
  method IdentityDecoratorTracksTwice() {
    var c := new Container<string, int>(0);
    var r := c.Register("Item1", Some(() => 5), true);
    var d := c.Decorate("Item1", Some(x => x));
    var v := c.Resolve("Item1");
    assert c.tracked == [5, 5];
    TeardownReleasesTwice(c);
  }

  /** Teardown then releases that instance twice, and again on a second call. */
  method TeardownReleasesTwice(c: Container<string, int>)
    requires c.tracked == [5, 5]
  {
    var everything: int -> bool := x => true;
    var released := c.Dispose(everything);
    ReleasesCount(c.tracked, everything, 5);
    assert multiset(c.tracked)[5] == 2;
    assert multiset(released)[5] == 2;
    var releasedAgain := c.Dispose(everything);
    assert releasedAgain == released;
  }
}
