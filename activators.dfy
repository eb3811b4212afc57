/**
 * The deferred computation stored for each registry key (`Lazy<object>` in
 * MollysLodge/Container.cs). A pending activator holds the registered factory
 * and the decorators wrapped around it, innermost (first applied) first; the
 * first resolution runs the factory once, then each decorator once on the
 * value of the layer inside it, and every produced value is tracked.
 */
module Activators {

  /** A factory, run with no access to the container. */
  type Factory<V> = () -> V

  /** A decorator, applied to the instance produced by the layer inside it. */
  type Decorator<!V> = V -> V

  datatype Activator<!V> =
    | Pending(base: Factory<V>, layers: seq<Decorator<V>>)
    | Done(value: V)

  /**
   * The values produced, in the order they are tracked, when a pending
   * activator is evaluated: the factory's value, then each decorator's value,
   * each decorator receiving exactly the value of the layer just inside it.
   */
  function Produced<V>(base: Factory<V>, layers: seq<Decorator<V>>): (r: seq<V>)
    ensures |r| == |layers| + 1
    ensures r[0] == base()
    ensures forall i :: 0 <= i < |layers| ==> r[i + 1] == layers[i](r[i])
    decreases |layers|
  {
    if layers == [] then [base()]
    else
      var inner := Produced(base, layers[..|layers| - 1]);
      inner + [layers[|layers| - 1](inner[|inner| - 1])]
  }

  /** The values that evaluating `a` appends to the tracked list: none once it is evaluated. */
  function Evaluation<V>(a: Activator<V>): seq<V>
  {
    match a
    case Done(_) => []
    case Pending(base, layers) => Produced(base, layers)
  }

  /** The instance `a` yields when it is read. */
  function Resolved<V>(a: Activator<V>): V
  {
    match a
    case Done(v) => v
    case Pending(base, layers) => Produced(base, layers)[|layers|]
  }

  /**
   * Wraps a pending activator with one more decorator (Container.cs:68):
   * the wrapper yields `g` of the inner instance, and evaluating it tracks
   * everything the inner activator would have tracked, then the outer value.
   */
  function Decorated<V>(a: Activator<V>, g: Decorator<V>): (r: Activator<V>)
    requires a.Pending?
    ensures r.Pending? && r.base == a.base
    ensures Resolved(r) == g(Resolved(a))
    ensures Evaluation(r) == Evaluation(a) + [g(Resolved(a))]
  {
    var layers := a.layers + [g];
    assert layers[..|layers| - 1] == a.layers;
    Pending(a.base, layers)
  }

  /**
   * Decoration layers are applied and tracked innermost first: evaluating
   * the entry with only its first `j` decorators would track exactly the
   * first `j + 1` values the full entry tracks.
   */
  lemma {:induction false} ProducedPrefix<V>(base: Factory<V>, layers: seq<Decorator<V>>, j: nat)
    requires j <= |layers|
    ensures Produced(base, layers)[..j + 1] == Produced(base, layers[..j])
    decreases |layers|
  {
    if j == |layers| {
      assert layers[..j] == layers;
    } else {
      var n := |layers| - 1;
      var shorter := layers[..n];
      ProducedPrefix(base, shorter, j);
      assert shorter[..j] == layers[..j];
      assert Produced(base, layers)[..n + 1] == Produced(base, shorter);
    }
  }
}
