/** The container of `src/maybe.js`, the newer of the two versions: it adds
    `filter` and `forEach`, and its `flatMap` turns a nil callback result into
    `nothing`.

    A JavaScript method call `m.op(args)` is the function `Op(m, args)`.
    Callbacks are pure Dafny functions; the effect of `forEach` is returned as
    the list of callback invocations.
 */
module MaybeCurrent {
  import opened JsValues

  /** Message of the error thrown by `Nothing.just()`. */
  const JustOnNothing := "Cannot call just() on a Nothing"

  /** Message of the error thrown by the strict constructor `just(value)`. */
  const EmptyJust := "Cannot create Just with an empty value: use flowtype!"

  // ---------------------------------------------------------------------
  // Constructor functions
  // ---------------------------------------------------------------------

  /** `maybe(value)`: the lenient constructor. */
  function MaybeOf(v: JsVal): (r: Maybe)
    ensures r.Nothing? <==> IsNil(v)
    ensures r.Just? ==> r.value == v
    ensures WellFormed(r)
  {
    if IsNil(v) then Nothing else Just(v)
  }

  /** `just(value)`: the strict constructor, which throws instead of
      answering `nothing`. */
  function MakeJust(v: JsVal): (r: Result<Maybe>)
    ensures r.Throw? <==> IsNil(v)
    ensures r.Throw? ==> r.error == Error(EmptyJust)
    ensures r.Ok? ==> r.value == MaybeOf(v) && r.value.Just?
  {
    if IsNil(v) then Throw(Error(EmptyJust)) else Ok(Just(v))
  }

  // ---------------------------------------------------------------------
  // Methods of Just and Nothing
  // ---------------------------------------------------------------------

  /** `isJust()`. */
  function IsJust(m: Maybe): (r: bool)
    ensures r <==> m != Nothing
  {
    match m
    case Just(_) => true
    case Nothing => false
  }

  /** `isNothing()`: always the complement of `isJust()`. */
  function IsNothing(m: Maybe): (r: bool)
    ensures r == !IsJust(m)
  {
    match m
    case Just(_) => false
    case Nothing => true
  }

  /** `just()`: extraction, which throws on `nothing`. */
  function Unwrap(m: Maybe): (r: Result<JsVal>)
    ensures r.Ok? <==> IsJust(m)
    ensures r.Ok? ==> Just(r.value) == m
    ensures r.Throw? ==> r.error == Error(JustOnNothing)
  {
    match m
    case Just(v) => Ok(v)
    case Nothing => Throw(Error(JustOnNothing))
  }

  /** `orJust(fallback)`: extraction with a default; a missing argument is
      `Undefined`. */
  function OrJust(m: Maybe, fallback: JsVal): (r: JsVal)
    ensures IsNothing(m) ==> r == fallback
    ensures IsJust(m) ==> Just(r) == m
  {
    match m
    case Just(v) => v
    case Nothing => fallback
  }

  /** `map(f)`: applies `f` to a held value and wraps whatever comes back,
      nil included. */
  function Map(m: Maybe, f: JsVal -> JsVal): (r: Maybe)
    ensures IsJust(r) == IsJust(m)
    ensures r.Just? ==> r.value == f(m.value)
  {
    match m
    case Just(v) => Just(f(v))
    case Nothing => Nothing
  }

  /** `flatMap(f)`: returns the callback's own result, except that a nil
      result becomes `nothing`; so the answer is never nil. */
  function FlatMap(m: Maybe, f: JsVal -> JsVal): (r: JsVal)
    ensures !IsNil(r)
    ensures m.Just? && !IsNil(f(m.value)) ==> r == f(m.value)
    ensures (m.Nothing? || IsNil(f(m.value))) ==> r == MaybeObj(Nothing)
  {
    match m
    case Just(v) =>
      var result := f(v);
      if IsNil(result) then MaybeObj(Nothing) else result
    case Nothing => MaybeObj(Nothing)
  }

  /** `filter(p)`: keeps the very same `Just` when the predicate's result is
      truthy. */
  function Filter(m: Maybe, p: JsVal -> JsVal): (r: Maybe)
    ensures r == m || r == Nothing
    ensures r.Just? <==> m.Just? && Truthy(p(m.value))
    ensures WellFormed(m) ==> WellFormed(r)
  {
    match m
    case Just(v) => if Truthy(p(v)) then m else Nothing
    case Nothing => Nothing
  }

  /** What a `forEach` call does: the value it returns and the callback
      invocations it makes. */
  datatype Effect = Effect(returned: JsVal, calls: seq<Invocation>)

  /** `forEach(f)`: calls `f` once on a held value, never on `nothing`, and
      returns undefined either way. */
  function ForEach(m: Maybe, f: JsVal -> JsVal): (r: Effect)
    ensures r.returned == Undefined
    ensures |r.calls| == (if IsJust(m) then 1 else 0)
    ensures m.Just? ==> r.calls[0] == Invocation(m.value, f(m.value))
  {
    match m
    case Just(v) => Effect(Undefined, [Invocation(v, f(v))])
    case Nothing => Effect(Undefined, [])
  }

  // ---------------------------------------------------------------------
  // Method chains
  // ---------------------------------------------------------------------

  /** One Maybe-returning method call of a chain such as
      `maybe(x).map(f).filter(p).flatMap(g)`. */
  datatype Step =
    | MapStep(f: JsVal -> JsVal)
    | FilterStep(p: JsVal -> JsVal)
    | FlatMapStep(f: JsVal -> JsVal)

  /** Calls the step's method on an arbitrary JavaScript value: a value that
      is not a Maybe instance has no such method, and the engine throws. */
  function Invoke(recv: JsVal, step: Step): (r: Result<JsVal>)
    ensures r.Throw? <==> !recv.MaybeObj?
    ensures r.Throw? ==> r.error == TypeError
    ensures recv == MaybeObj(Nothing) ==> r == Ok(MaybeObj(Nothing))
  {
    match recv
    case MaybeObj(m) =>
      Ok(match step
         case MapStep(f) => MaybeObj(Map(m, f))
         case FilterStep(p) => MaybeObj(Filter(m, p))
         case FlatMapStep(f) => FlatMap(m, f))
    case _ => Throw(TypeError)
  }

  /** Runs a chain of method calls from left to right; the first throw ends it.
      The container itself never throws in a chain, and a chain started on
      `nothing` stays `nothing` whatever its callbacks. */
  function Chain(recv: JsVal, steps: seq<Step>): (r: Result<JsVal>)
    ensures r.Throw? ==> r.error == TypeError
    ensures recv == MaybeObj(Nothing) ==> r == Ok(recv)
    decreases |steps|
  {
    if steps == [] then Ok(recv)
    else
      match Invoke(recv, steps[0])
      case Ok(next) => Chain(next, steps[1..])
      case Throw(e) => Throw(e)
  }

  /** Continues a chain from the outcome of an earlier part of it. */
  function Continue(r: Result<JsVal>, steps: seq<Step>): Result<JsVal> {
    match r
    case Ok(v) => Chain(v, steps)
    case Throw(e) => Throw(e)
  }

  /** A step whose callback cannot derail the chain. */
  ghost predicate SafeStep(s: Step) {
    s.FlatMapStep? ==> ReturnsMaybeOrNil(s.f)
  }

  // ---------------------------------------------------------------------
  // Laws
  // ---------------------------------------------------------------------

  /** Falsy values other than null and undefined are held, not dropped, and so
      is an empty object. */
  lemma FalsyValuesAreJust(v: JsVal)
    ensures !IsNil(v) ==> IsJust(MaybeOf(v)) && !IsNothing(MaybeOf(v))
    ensures IsJust(MaybeOf(Num(0))) && IsJust(MaybeOf(Str(""))) && IsJust(MaybeOf(Bool(false)))
    ensures IsJust(MaybeOf(Obj(0))) && !IsNothing(MaybeOf(Obj(0)))
  {
  }

  /** Extraction inverts the lenient constructor on non-nil values, and
      throws on the nil ones. */
  lemma UnwrapMaybeOf(v: JsVal)
    ensures !IsNil(v) ==> Unwrap(MaybeOf(v)) == Ok(v)
    ensures IsNil(v) ==> Unwrap(MaybeOf(v)) == Throw(Error(JustOnNothing))
  {
  }

  /** Rebuilding a Maybe from what `orJust()` extracts gives it back exactly
      when it is well formed: a `Just` of nil comes back as `nothing`. */
  lemma MaybeOfOrJust(m: Maybe)
    ensures MaybeOf(OrJust(m, Undefined)) == m <==> WellFormed(m)
  {
  }

  /** `orJust(d)` is `just()` with the throw replaced by `d`. */
  lemma OrJustIsUnwrapOrDefault(m: Maybe, d: JsVal)
    ensures OrJust(m, d) == (match Unwrap(m) case Ok(v) => v case Throw(_) => d)
  {
  }

  /** The strict constructor agrees with the lenient one wherever it does
      not throw. */
  lemma MakeJustIsMaybeOf(v: JsVal)
    ensures MakeJust(v).Ok? <==> IsJust(MaybeOf(v))
    ensures MakeJust(v).Ok? ==> MakeJust(v).value == MaybeOf(v)
  {
  }

  /** Mapping the identity changes nothing. */
  lemma MapIdentity(m: Maybe)
    ensures Map(m, x => x) == m
  {
  }

  /** Two maps are one map of the composition. */
  lemma MapComposition(m: Maybe, f: JsVal -> JsVal, g: JsVal -> JsVal)
    ensures Map(Map(m, f), g) == Map(m, x => g(f(x)))
  {
  }

  /** `map` is `flatMap` with a callback that wraps its result in a `Just`. */
  lemma MapViaFlatMap(m: Maybe, f: JsVal -> JsVal)
    ensures MaybeObj(Map(m, f)) == FlatMap(m, x => MaybeObj(Just(f(x))))
  {
  }

  /** `map` does not normalise: a callback returning null produces a `Just`
      of null, which breaks the well-formedness the constructors give. */
  lemma MapMayWrapNil()
    ensures Map(MaybeOf(Num(1)), _ => Null) == Just(Null)
    ensures WellFormed(MaybeOf(Num(1))) && !WellFormed(Map(MaybeOf(Num(1)), _ => Null))
  {
  }

  /** A callback that never returns nil keeps a Maybe well formed. */
  lemma MapKeepsWellFormed(m: Maybe, f: JsVal -> JsVal)
    requires ReturnsNonNil(f)
    ensures WellFormed(Map(m, f))
  {
  }

  /** With a callback that answers a Maybe or nil, `flatMap` always answers
      a Maybe, so the chain can go on. */
  lemma FlatMapClosed(m: Maybe, f: JsVal -> JsVal)
    requires ReturnsMaybeOrNil(f)
    ensures FlatMap(m, f).MaybeObj?
  {
  }

  /** Nil collapsing: whatever nil the callback gives becomes `nothing`. */
  lemma FlatMapCollapsesNil(v: JsVal, f: JsVal -> JsVal)
    requires IsNil(f(v))
    ensures FlatMap(MaybeOf(v), f) == MaybeObj(Nothing)
  {
  }

  /** Left identity: `maybe(v).flatMap(f)` is `f(v)` for a non-nil `v` and a
      callback answering a Maybe. */
  lemma FlatMapLeftIdentity(v: JsVal, f: JsVal -> JsVal)
    requires !IsNil(v) && f(v).MaybeObj?
    ensures FlatMap(MaybeOf(v), f) == f(v)
  {
  }

  /** Right identity holds exactly for the well-formed values:
      `m.flatMap(maybe)` turns a `Just` of nil into `nothing`. */
  lemma FlatMapRightIdentity(m: Maybe)
    ensures FlatMap(m, x => MaybeObj(MaybeOf(x))) == MaybeObj(m) <==> WellFormed(m)
  {
  }

  /** The callback `x => f(x).flatMap(g)`; when `f` answers a Maybe the
      placeholder `Undefined` is never reached. */
  function FlatMapThen(f: JsVal -> JsVal, g: JsVal -> JsVal): JsVal -> JsVal {
    (x: JsVal) => if f(x).MaybeObj? then FlatMap(f(x).m, g) else Undefined
  }

  /** Associativity for callbacks answering a Maybe instance:
      `m.flatMap(f).flatMap(g)` is `m.flatMap(x => f(x).flatMap(g))`. */
  lemma FlatMapAssociative(m: Maybe, f: JsVal -> JsVal, g: JsVal -> JsVal)
    requires ReturnsMaybe(f)
    ensures Chain(MaybeObj(m), [FlatMapStep(f), FlatMapStep(g)])
         == Chain(MaybeObj(m), [FlatMapStep(FlatMapThen(f, g))])
  {
    var two := [FlatMapStep(f), FlatMapStep(g)];
    var one := [FlatMapStep(FlatMapThen(f, g))];
    assert two[1..] == [FlatMapStep(g)];
    assert Chain(MaybeObj(m), two) == Chain(FlatMap(m, f), two[1..]);
    assert Chain(MaybeObj(m), one) == Chain(FlatMap(m, FlatMapThen(f, g)), one[1..]);
    match m
    case Nothing =>
    case Just(v) =>
      assert f(v).MaybeObj?;
      assert FlatMap(m, f) == f(v);
      assert FlatMap(m, FlatMapThen(f, g)) == FlatMap(f(v).m, g);
      assert Chain(f(v), two[1..]) == Ok(FlatMap(f(v).m, g));
  }

  /** `filter(p)` is `flatMap` with a callback that keeps or drops the value. */
  lemma FilterViaFlatMap(m: Maybe, p: JsVal -> JsVal)
    ensures MaybeObj(Filter(m, p)) == FlatMap(m, x => MaybeObj(if Truthy(p(x)) then Just(x) else Nothing))
  {
  }

  /** Filtering twice with the same predicate is filtering once. */
  lemma FilterIdempotent(m: Maybe, p: JsVal -> JsVal)
    ensures Filter(Filter(m, p), p) == Filter(m, p)
  {
  }

  /** Two filters are one filter on the conjunction of the predicates. */
  lemma FilterConjunction(m: Maybe, p: JsVal -> JsVal, q: JsVal -> JsVal)
    ensures Filter(Filter(m, p), q) == Filter(m, x => Bool(Truthy(p(x)) && Truthy(q(x))))
  {
  }

  /** `forEach` calls its callback once on exactly what `just()` would
      return, and not at all when `just()` would throw. */
  lemma ForEachVisitsUnwrap(m: Maybe, f: JsVal -> JsVal)
    ensures ForEach(m, f).calls
         == (match Unwrap(m) case Ok(v) => [Invocation(v, f(v))] case Throw(_) => [])
  {
  }

  /** A chain split in two runs the second part on the outcome of the first. */
  lemma {:induction false} ChainAppend(recv: JsVal, a: seq<Step>, b: seq<Step>)
    ensures Chain(recv, a + b) == Continue(Chain(recv, a), b)
    decreases |a|
  {
    if a == [] {
      assert a + b == b;
    } else {
      assert (a + b)[0] == a[0];
      assert (a + b)[1..] == a[1..] + b;
      match Invoke(recv, a[0])
      case Ok(next) => ChainAppend(next, a[1..], b);
      case Throw(_) =>
    }
  }

  /** A chain started on any Maybe never throws and ends on a Maybe, as long
      as its `flatMap` callbacks answer a Maybe or nil. */
  lemma {:induction false} ChainNeverThrows(m: Maybe, steps: seq<Step>)
    requires forall i :: 0 <= i < |steps| ==> SafeStep(steps[i])
    ensures Chain(MaybeObj(m), steps).Ok?
    ensures Chain(MaybeObj(m), steps).value.MaybeObj?
    decreases |steps|
  {
    if steps != [] {
      assert SafeStep(steps[0]);
      if steps[0].FlatMapStep? {
        FlatMapClosed(m, steps[0].f);
      }
      var next := Invoke(MaybeObj(m), steps[0]).value;
      assert next.MaybeObj?;
      ChainNeverThrows(next.m, steps[1..]);
    }
  }

  /** A string method such as `trim` or `toUpperCase` as a callback; the
      value passed is always a string in the chains below. */
  function OnString(g: string -> string): JsVal -> JsVal {
    (x: JsVal) => if x.Str? then Str(g(x.s)) else Undefined
  }

  /** The predicate `v => v.length !== 0` on strings. */
  function NonEmpty(): JsVal -> JsVal {
    (x: JsVal) => Bool(x.Str? && |x.s| != 0)
  }

  /** `maybe(s).map(trim).filter(v => v.length !== 0).map(toUpperCase)`,
      for any `trim` and `toUpperCase`: a `Just` of the upper-cased trimmed
      text, or `nothing` when trimming leaves no text. */
  lemma TrimFilterUpperPipeline(s: string, trim: string -> string, upper: string -> string)
    ensures trim(s) != "" ==>
      Chain(MaybeObj(MaybeOf(Str(s))), [MapStep(OnString(trim)), FilterStep(NonEmpty()), MapStep(OnString(upper))])
        == Ok(MaybeObj(Just(Str(upper(trim(s))))))
    ensures trim(s) == "" ==>
      Chain(MaybeObj(MaybeOf(Str(s))), [MapStep(OnString(trim)), FilterStep(NonEmpty()), MapStep(OnString(upper))])
        == Ok(MaybeObj(Nothing))
  {
    var steps := [MapStep(OnString(trim)), FilterStep(NonEmpty()), MapStep(OnString(upper))];
    var trimmed := Just(Str(trim(s)));
    var kept := Filter(trimmed, NonEmpty());
    ChainAppend(MaybeObj(MaybeOf(Str(s))), steps[..1], steps[1..]);
    assert steps[..1] + steps[1..] == steps;
    assert Chain(MaybeObj(MaybeOf(Str(s))), steps[..1]) == Ok(MaybeObj(trimmed));
    ChainAppend(MaybeObj(trimmed), steps[1..2], steps[2..]);
    assert steps[1..2] + steps[2..] == steps[1..];
    assert Chain(MaybeObj(trimmed), steps[1..2]) == Ok(MaybeObj(kept));
    assert Chain(MaybeObj(kept), steps[2..]) == Ok(MaybeObj(Map(kept, OnString(upper))));
  }
}
