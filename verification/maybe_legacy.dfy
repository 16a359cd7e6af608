/** The container of the older `maybe.js`: no `filter`, no `forEach`, and a
    `flatMap` that returns the callback's result unchanged, nil included.

    As in `MaybeCurrent`, a method call `m.op(args)` is the function
    `Op(m, args)` and callbacks are pure Dafny functions.
 */
module MaybeLegacy {
  import opened JsValues

  /** Message of the error thrown by `Nothing.just()`. */
  const JustOnNothing := "Cannot call just() on a Nothing"

  /** Message of the error thrown by the strict constructor `just(value)`. */
  const EmptyJust := "Cannot create Just with an empty value: use flowtype!"

  // ---------------------------------------------------------------------
  // Constructor functions
  // ---------------------------------------------------------------------

  /** `maybe(value)`: the lenient constructor. */
  function MaybeOf(v: JsVal): (r: Maybe)
    ensures r.Nothing? <==> IsNil(v)
    ensures r.Just? ==> r.value == v
    ensures WellFormed(r)
  {
    if IsNil(v) then Nothing else Just(v)
  }

  /** `just(value)`: the strict constructor. */
  function MakeJust(v: JsVal): (r: Result<Maybe>)
    ensures r.Throw? <==> IsNil(v)
    ensures r.Throw? ==> r.error == Error(EmptyJust)
    ensures r.Ok? ==> r.value == MaybeOf(v) && r.value.Just?
  {
    if IsNil(v) then Throw(Error(EmptyJust)) else Ok(Just(v))
  }

  // ---------------------------------------------------------------------
  // Methods of Just and Nothing
  // ---------------------------------------------------------------------

  /** `isJust()`. */
  function IsJust(m: Maybe): (r: bool)
    ensures r <==> m != Nothing
  {
    match m
    case Just(_) => true
    case Nothing => false
  }

  /** `isNothing()`: always the complement of `isJust()`. */
  function IsNothing(m: Maybe): (r: bool)
    ensures r == !IsJust(m)
  {
    match m
    case Just(_) => false
    case Nothing => true
  }

  /** `just()`: extraction, which throws on `nothing`. */
  function Unwrap(m: Maybe): (r: Result<JsVal>)
    ensures r.Ok? <==> IsJust(m)
    ensures r.Ok? ==> Just(r.value) == m
    ensures r.Throw? ==> r.error == Error(JustOnNothing)
  {
    match m
    case Just(v) => Ok(v)
    case Nothing => Throw(Error(JustOnNothing))
  }

  /** `orJust(fallback)`: extraction with a default. */
  function OrJust(m: Maybe, fallback: JsVal): (r: JsVal)
    ensures IsNothing(m) ==> r == fallback
    ensures IsJust(m) ==> Just(r) == m
  {
    match m
    case Just(v) => v
    case Nothing => fallback
  }

  /** `map(f)`: wraps the callback's result, nil included. */
  function Map(m: Maybe, f: JsVal -> JsVal): (r: Maybe)
    ensures IsJust(r) == IsJust(m)
    ensures r.Just? ==> r.value == f(m.value)
  {
    match m
    case Just(v) => Just(f(v))
    case Nothing => Nothing
  }

  /** `flatMap(f)`: hands back whatever the callback returns, so a nil or
      any other non-Maybe value escapes the container. */
  function FlatMap(m: Maybe, f: JsVal -> JsVal): (r: JsVal)
    ensures m.Nothing? ==> r == MaybeObj(Nothing)
    ensures m.Just? ==> r == f(m.value)
  {
    match m
    case Just(v) => f(v)
    case Nothing => MaybeObj(Nothing)
  }

  // ---------------------------------------------------------------------
  // Method chains
  // ---------------------------------------------------------------------

  /** One Maybe-returning method call of a chain. */
  datatype Step =
    | MapStep(f: JsVal -> JsVal)
    | FlatMapStep(f: JsVal -> JsVal)

  /** Calls the step's method on an arbitrary JavaScript value; a value that
      is not a Maybe instance makes the engine throw. */
  function Invoke(recv: JsVal, step: Step): (r: Result<JsVal>)
    ensures r.Throw? <==> !recv.MaybeObj?
    ensures r.Throw? ==> r.error == TypeError
    ensures recv == MaybeObj(Nothing) ==> r == Ok(MaybeObj(Nothing))
  {
    match recv
    case MaybeObj(m) =>
      Ok(match step
         case MapStep(f) => MaybeObj(Map(m, f))
         case FlatMapStep(f) => FlatMap(m, f))
    case _ => Throw(TypeError)
  }

  /** Runs a chain of method calls from left to right; the first throw ends
      it. Only the engine throws, and a chain started on `nothing` stays
      `nothing`. */
  function Chain(recv: JsVal, steps: seq<Step>): (r: Result<JsVal>)
    ensures r.Throw? ==> r.error == TypeError
    ensures recv == MaybeObj(Nothing) ==> r == Ok(recv)
    decreases |steps|
  {
    if steps == [] then Ok(recv)
    else
      match Invoke(recv, steps[0])
      case Ok(next) => Chain(next, steps[1..])
      case Throw(e) => Throw(e)
  }

  /** A step that keeps a legacy chain on Maybe values: its `flatMap`
      callback must answer a Maybe instance, nil not allowed. */
  ghost predicate SafeStep(s: Step) {
    s.FlatMapStep? ==> ReturnsMaybe(s.f)
  }

  // ---------------------------------------------------------------------
  // Laws
  // ---------------------------------------------------------------------

  /** Extraction inverts the lenient constructor on non-nil values, and
      throws on the nil ones. */
  lemma UnwrapMaybeOf(v: JsVal)
    ensures !IsNil(v) ==> Unwrap(MaybeOf(v)) == Ok(v)
    ensures IsNil(v) ==> Unwrap(MaybeOf(v)) == Throw(Error(JustOnNothing))
  {
  }

  /** `orJust(d)` is `just()` with the throw replaced by `d`. */
  lemma OrJustIsUnwrapOrDefault(m: Maybe, d: JsVal)
    ensures OrJust(m, d) == (match Unwrap(m) case Ok(v) => v case Throw(_) => d)
  {
  }

  /** `map` is `flatMap` with a callback that wraps its result in a `Just`. */
  lemma MapViaFlatMap(m: Maybe, f: JsVal -> JsVal)
    ensures MaybeObj(Map(m, f)) == FlatMap(m, x => MaybeObj(Just(f(x))))
  {
  }

  /** Two maps are one map of the composition. */
  lemma MapComposition(m: Maybe, f: JsVal -> JsVal, g: JsVal -> JsVal)
    ensures Map(Map(m, f), g) == Map(m, x => g(f(x)))
  {
  }

  /** With callbacks that answer a Maybe, a legacy chain never throws and
      ends on a Maybe. */
  lemma {:induction false} ChainNeverThrows(m: Maybe, steps: seq<Step>)
    requires forall i :: 0 <= i < |steps| ==> SafeStep(steps[i])
    ensures Chain(MaybeObj(m), steps).Ok?
    ensures Chain(MaybeObj(m), steps).value.MaybeObj?
    decreases |steps|
  {
    if steps != [] {
      assert SafeStep(steps[0]);
      if steps[0].FlatMapStep? && m.Just? {
        assert steps[0].f(m.value).MaybeObj?;
      }
      var next := Invoke(MaybeObj(m), steps[0]).value;
      assert next.MaybeObj?;
      ChainNeverThrows(next.m, steps[1..]);
    }
  }

  /** A callback that answers nil on a held value derails a legacy chain:
      the nil escapes `flatMap`, and the next call on it throws. */
  lemma NilCallbackBreaksChain(m: Maybe, f: JsVal -> JsVal, s: Step, rest: seq<Step>)
    requires m.Just? && IsNil(f(m.value))
    ensures Chain(MaybeObj(m), [FlatMapStep(f), s] + rest) == Throw(TypeError)
  {
    var steps := [FlatMapStep(f), s] + rest;
    assert steps[0] == FlatMapStep(f);
    assert steps[1..] == [s] + rest;
    assert ([s] + rest)[0] == s;
    assert Invoke(f(m.value), s) == Throw(TypeError);
  }
}
