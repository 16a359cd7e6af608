# Maybe container — a Dafny model

The repository is a small JavaScript Maybe/Option container in two versions:

- `src/maybe.js` is the newer version;
- `maybe.js` is the older one.

Each version has a class `Just` that holds one value and a frozen `nothing`
instance of class `Nothing`. It exports a lenient constructor `maybe(v)`,
which answers `nothing` for null or undefined, and a strict constructor
`just(v)`, which throws for them. The classes offer `map`, `flatMap`,
`isJust`, `isNothing`, `just()` and `orJust`. The newer version also has
`filter` and `forEach`. Its `flatMap` turns a nil callback result into
`nothing`; the older `flatMap` returns the callback's result as it is.

## Files

- `js_values.dfy`, module `JsValues`, defines the shared pieces:
  - the JavaScript values the container sees (`JsVal`), where a Maybe instance is itself a value (`MaybeObj`);
  - the two variants (`Maybe = Just(value) | Nothing`);
  - `IsNil`, which is `value == null`;
  - `Truthy`, ECMAScript ToBoolean, which `filter` applies to its predicate's result;
  - `WellFormed`: a `Just` does not wrap nil, as the Flow type of its constructor asks;
  - `Result`, a value that is either returned or thrown.
- `maybe_current.dfy`, module `MaybeCurrent`, models `src/maybe.js` and its laws.
- `maybe_legacy.dfy`, module `MaybeLegacy`, models `maybe.js`.
- `versions.dfy`, module `Versions`, relates the two versions.

A method call `m.op(args)` becomes the function `Op(m, args)`. A callback is a
pure Dafny function `JsVal -> JsVal`. `forEach` returns its effect as the list
of callback invocations it makes. Method chains such as
`maybe(x).map(f).filter(p)` are sequences of `Step`s run by `Chain`. A call on
a value that is not a Maybe instance throws a `TypeError`, as the JavaScript
engine does.

`WellFormed` is deliberately not a type invariant. The constructor functions
establish it. `map` does not check its callback's result, so `Just(null)` can
be reached, and `MapMayWrapNil` shows this. The Flow type of the `Just`
constructor, `constructor(value: $NonMaybeType<A>)` (src/maybe.js:13,
maybe.js:11), says a `Just` should never hold nil, and the message of `just`
ends in "use flowtype!" (src/maybe.js:96). At run time only `maybe` and `just`
check it. The model follows the run-time code.

## Model

| member | source | states |
|---|---|---|
| MaybeCurrent.MaybeOf | src/maybe.js:103-105 | `maybe(v)` is `nothing` exactly when `v` is null or undefined. Otherwise it is a `Just` holding `v`. Its result is always well formed. |
| MaybeCurrent.MakeJust | src/maybe.js:94-99 | `just(v)` throws `Error("Cannot create Just with an empty value: use flowtype!")` exactly for null or undefined. Otherwise it returns the same `Just` that `maybe(v)` gives. |
| MaybeCurrent.IsJust | src/maybe.js:38-40 | `isJust()` is true for a `Just` (lines 38-40) and false for `nothing` (lines 72-74). |
| MaybeCurrent.IsNothing | src/maybe.js:76-78 | `isNothing()` is always the negation of `isJust()`. |
| MaybeCurrent.Unwrap | src/maybe.js:80-82 | `just()` on `nothing` throws `Error("Cannot call just() on a Nothing")`. On a `Just` (lines 46-48) it returns exactly the held value. |
| MaybeCurrent.OrJust | src/maybe.js:84-86 | `nothing.orJust(d)` is `d`. On a `Just` (lines 50-52) it is the held value, whatever the argument. |
| MaybeCurrent.Map | src/maybe.js:34-36 | `map` keeps the variant. A `Just(v)` becomes a `Just` of `f(v)`, and the callback's result is not normalised. `nothing` stays `nothing` (lines 68-70). |
| MaybeCurrent.FlatMap | src/maybe.js:25-28 | `flatMap` never answers nil. On a `Just(v)` it answers `f(v)`, unless that is nil, in which case it answers `nothing`. On `nothing` it answers `nothing` (lines 62-64). |
| MaybeCurrent.Filter | src/maybe.js:17-23 | `filter` answers either the receiver itself or `nothing`. It keeps a `Just` exactly when the predicate's result is truthy, and it keeps well-formedness. `nothing` stays `nothing` (lines 58-60). |
| MaybeCurrent.ForEach | src/maybe.js:30-32 | `forEach` returns undefined. It calls the callback exactly once, on the held value, for a `Just`. It makes no call for `nothing` (line 66). |
| MaybeCurrent.Invoke | src/maybe.js:56-70 | Calling `map`, `filter` or `flatMap` on `nothing` answers `nothing`. Calling them on any value that is not a Maybe instance throws a TypeError. |
| MaybeCurrent.Chain | src/maybe.test.js:97-113 | A chain of `map`/`filter`/`flatMap` calls throws only TypeErrors. A chain started on `nothing` stays `nothing` whatever its callbacks. |
| MaybeCurrent.FalsyValuesAreJust | src/maybe.test.js:8-18 | Every non-nil value gives a `Just`, falsy ones such as `0`, `""` and `false` included, and so does the empty object `{}`. |
| MaybeCurrent.UnwrapMaybeOf | src/maybe.test.js:29-37 | Round trip: `maybe(v).just()` returns `v` for every non-nil `v`, and throws for null and undefined. |
| MaybeCurrent.MaybeOfOrJust | src/maybe.js:103-105 | Inverse round trip: `maybe(m.orJust())` gives back `m` exactly when `m` is well formed. |
| MaybeCurrent.OrJustIsUnwrapOrDefault | src/maybe.test.js:39-45 | `orJust(d)` equals `just()`, with `d` replacing the throw. |
| MaybeCurrent.MakeJustIsMaybeOf | src/maybe.test.js:88-95 | The strict constructor succeeds exactly when the lenient one gives a `Just`, and then the two agree. |
| MaybeCurrent.MapIdentity | src/maybe.js:34-36 | Mapping the identity callback leaves every Maybe unchanged. |
| MaybeCurrent.MapComposition | src/maybe.test.js:61-68 | `m.map(f).map(g)` equals `m.map(x => g(f(x)))`. |
| MaybeCurrent.MapViaFlatMap | src/maybe.js:34-36 | `map(f)` equals `flatMap(x => new Just(f(x)))`. |
| MaybeCurrent.MapMayWrapNil | src/maybe.js:34-36 | Counterexample: `maybe(1).map(() => null)` is a `Just` of null, so `map` breaks well-formedness. |
| MaybeCurrent.MapKeepsWellFormed | src/maybe.js:34-36 | A callback that never returns nil keeps the result well formed. |
| MaybeCurrent.FlatMapClosed | src/maybe.js:25-28 | If the callback answers a Maybe or nil, `flatMap` always answers a Maybe instance. |
| MaybeCurrent.FlatMapCollapsesNil | src/maybe.test.js:82-86 | If the callback gives nil, `maybe(v).flatMap(f)` is `nothing`. |
| MaybeCurrent.FlatMapLeftIdentity | src/maybe.test.js:70-80 | `maybe(v).flatMap(f)` is `f(v)` when `v` is non-nil and `f(v)` is a Maybe. |
| MaybeCurrent.FlatMapRightIdentity | src/maybe.js:25-28 | `m.flatMap(maybe)` equals `m` exactly when `m` is well formed. |
| MaybeCurrent.FlatMapAssociative | src/maybe.js:25-28 | For a callback `f` that answers a Maybe, `m.flatMap(f).flatMap(g)` equals `m.flatMap(x => f(x).flatMap(g))`. |
| MaybeCurrent.FilterViaFlatMap | src/maybe.js:17-23 | `filter(p)` equals `flatMap(x => p(x) ? new Just(x) : nothing)`. |
| MaybeCurrent.FilterIdempotent | src/maybe.js:17-23 | Filtering twice with the same predicate is the same as filtering once. |
| MaybeCurrent.FilterConjunction | src/maybe.js:17-23 | `filter(p).filter(q)` equals `filter(x => p(x) && q(x))`. |
| MaybeCurrent.ForEachVisitsUnwrap | src/maybe.test.js:115-127 | `forEach` makes exactly one callback invocation, on the value `just()` would return, for a `Just`, and none for `nothing`. The recorded invocation includes the callback's result. |
| MaybeCurrent.ChainAppend | src/maybe.test.js:97-113 | Running a chain split in two equals running the second part on the outcome of the first. |
| MaybeCurrent.ChainNeverThrows | src/maybe.js:25-28 | A chain started on any Maybe never throws and ends on a Maybe, provided every `flatMap` callback answers a Maybe or nil. |
| MaybeCurrent.TrimFilterUpperPipeline | src/maybe.test.js:97-113 | For any `trim` and `toUpperCase`, `maybe(s).map(trim).filter(v => v.length !== 0).map(toUpperCase)` is a `Just` of the upper-cased trimmed text. It is `nothing` when trimming leaves an empty string. |
| MaybeLegacy.MaybeOf | maybe.js:84-86 | `maybe(v)` is `nothing` exactly when `v` is null or undefined. Otherwise it is a well-formed `Just` holding `v`. |
| MaybeLegacy.MakeJust | maybe.js:75-80 | `just(v)` throws for null or undefined. Otherwise it returns the same `Just` that `maybe(v)` gives. |
| MaybeLegacy.IsJust | maybe.js:23-25 | `isJust()` is true for a `Just` (lines 23-25) and false for `nothing` (lines 51-53). |
| MaybeLegacy.IsNothing | maybe.js:55-57 | `isNothing()` is always the negation of `isJust()`. |
| MaybeLegacy.Unwrap | maybe.js:59-61 | `just()` throws on `nothing`. On a `Just` (lines 31-33) it returns exactly the held value. |
| MaybeLegacy.OrJust | maybe.js:63-65 | `nothing.orJust(d)` is `d`. A `Just` (lines 35-37) ignores `d` and returns its value. |
| MaybeLegacy.Map | maybe.js:19-21 | `map` keeps the variant and wraps `f(v)` without normalising it. `nothing` stays `nothing` (lines 47-49). |
| MaybeLegacy.FlatMap | maybe.js:15-17 | On a `Just(v)`, `flatMap` answers `f(v)` whatever it is, nil included. On `nothing` it answers `nothing` (lines 43-45). |
| MaybeLegacy.Invoke | maybe.js:41-49 | `map` and `flatMap` on `nothing` answer `nothing`. On a value that is not a Maybe instance, they throw a TypeError. |
| MaybeLegacy.Chain | maybe.test.js:61-68 | A legacy chain throws only TypeErrors. A chain started on `nothing` stays `nothing`. |
| MaybeLegacy.UnwrapMaybeOf | maybe.test.js:29-37 | Round trip: `maybe(v).just()` returns `v` for non-nil `v`, and throws for nil. |
| MaybeLegacy.OrJustIsUnwrapOrDefault | maybe.test.js:39-45 | `orJust(d)` equals `just()`, with `d` replacing the throw. |
| MaybeLegacy.MapViaFlatMap | maybe.js:19-21 | `map(f)` equals `flatMap(x => new Just(f(x)))`. |
| MaybeLegacy.MapComposition | maybe.test.js:61-68 | `m.map(f).map(g)` equals `m.map(x => g(f(x)))`. |
| MaybeLegacy.ChainNeverThrows | maybe.js:15-17 | A legacy chain started on any Maybe never throws and ends on a Maybe if every `flatMap` callback answers a Maybe. |
| MaybeLegacy.NilCallbackBreaksChain | maybe.js:15-17 | A nil is not enough. If a `flatMap` callback answers nil on a held value, any method call after it in a legacy chain throws a TypeError, whatever follows (`Versions.LegacyChainThrowsAfterNil` is one instance). |
| Versions.SharedOperationsAgree | maybe.js:19-37 | Both versions agree exactly on `maybe`, `just`, `isJust`, `isNothing`, `just()`, `orJust` and `map`, error messages included. |
| Versions.FlatMapAgreesUnlessNil | src/maybe.js:25-28 | The two `flatMap`s agree if and only if the receiver is `nothing` or the callback's result is not nil. |
| Versions.LegacyFlatMapLeaksNil | maybe.js:15-17 | `maybe(1).flatMap(() => null)` is null in the legacy version and `nothing` in the newer one. |
| Versions.LegacyChainThrowsAfterNil | maybe.js:15-17 | `maybe(1).flatMap(() => null).map(x => x)` throws a TypeError in the legacy version and is `nothing` in the newer one. |
| Versions.ChainsAgreeOnMaybeCallbacks | maybe.js:15-17 | A legacy chain and the same chain in the newer version have the same outcome from any start, TypeErrors included, provided every `flatMap` callback answers a Maybe. |

## Left out

- Object identity is not modelled. This covers `Object.freeze` on the `nothing` singleton (src/maybe.js:101, maybe.js:82) and Jest's `toBe` versus `toEqual`. `nothing` is the constructor `Nothing`, and equality is structural.
- Flow type annotations (`@flow`, `$NonMaybeType`, `AnyVal`) are left out because they have no run-time effect. For the same reason, a `flatMap` callback may return any value.
- JavaScript `this`-binding is not modelled, for example the unbound `n.just` call in the tests. Every call is made on its receiver.
- Callbacks are pure and cannot throw. A `forEach` callback's effect is its recorded invocation and nothing more.
- Numbers are integers. NaN and -0, which are also falsy, and all floating-point behaviour are left out.
- `Obj` is a plain object, or an array that a `Just` only holds. `Invoke` throws a TypeError on every receiver that is not a Maybe instance.
- An array as the receiver of `map`/`filter`/`flatMap` is not modelled. Example: `maybe(1).flatMap(() => [1, 2]).map(x => x)`. Arrays have these methods, so JavaScript would go on where the model throws. The same holds for any object that defines such a method.
- `String.prototype.trim` and `toUpperCase`, used in the tests, are arbitrary function parameters.
- Calling `filter` or `forEach` on a legacy Maybe is not modelled. The legacy classes do not define them, so the engine would throw a TypeError.
- The Jest harness is not modelled. The test files serve only as the source of the properties above.

## Findings

| source | as written | input that shows it | evidently intended | confidence | as-written member | corrected member |
|---|---|---|---|---|---|---|
| maybe.js:15-17 | `flatMap` returns the callback's result unchanged. A nil result escapes the container, and the next method call in the chain throws. | `maybe(1).flatMap(() => null)` gives null, and `.map(x => x)` on it throws a TypeError (`Versions.LegacyFlatMapLeaksNil`, `Versions.LegacyChainThrowsAfterNil`). | A nil result becomes `nothing`, as `src/maybe.js:27` does and `src/maybe.test.js:82-86` checks. | medium, not executed: the Flow type of the callback forbids nil, and the newer version adds the check | `MaybeLegacy.FlatMap` | `MaybeCurrent.FlatMap`, with `MaybeCurrent.FlatMapClosed` and `MaybeCurrent.ChainNeverThrows` proving that chains stay on Maybe values |
