/** How the two versions of the container relate: on every operation they
    share they compute the same thing, except `flatMap`, where only the newer
    version turns a nil callback result into `nothing`.
 */
module Versions {
  import opened JsValues
  import MaybeCurrent
  import MaybeLegacy

  /** Constructors, predicates, extraction and `map` are the same in both
      versions, error messages included. */
  lemma SharedOperationsAgree(v: JsVal, m: Maybe, f: JsVal -> JsVal, d: JsVal)
    ensures MaybeLegacy.MaybeOf(v) == MaybeCurrent.MaybeOf(v)
    ensures MaybeLegacy.MakeJust(v) == MaybeCurrent.MakeJust(v)
    ensures MaybeLegacy.IsJust(m) == MaybeCurrent.IsJust(m)
    ensures MaybeLegacy.IsNothing(m) == MaybeCurrent.IsNothing(m)
    ensures MaybeLegacy.Unwrap(m) == MaybeCurrent.Unwrap(m)
    ensures MaybeLegacy.OrJust(m, d) == MaybeCurrent.OrJust(m, d)
    ensures MaybeLegacy.Map(m, f) == MaybeCurrent.Map(m, f)
  {
  }

  /** The two `flatMap`s differ exactly when a held value meets a callback
      that answers nil. */
  lemma FlatMapAgreesUnlessNil(m: Maybe, f: JsVal -> JsVal)
    ensures MaybeLegacy.FlatMap(m, f) == MaybeCurrent.FlatMap(m, f)
        <==> (m.Nothing? || !IsNil(f(m.value)))
  {
  }

  /** The legacy `flatMap` lets a nil escape: `maybe(1).flatMap(() => null)`
      is null, where the newer version answers `nothing`. */
  lemma LegacyFlatMapLeaksNil()
    ensures MaybeLegacy.FlatMap(MaybeLegacy.MaybeOf(Num(1)), _ => Null) == Null
    ensures MaybeCurrent.FlatMap(MaybeCurrent.MaybeOf(Num(1)), _ => Null) == MaybeObj(Nothing)
  {
  }

  /** The escaped nil breaks the next call of a chain:
      `maybe(1).flatMap(() => null).map(x => x)` throws a TypeError with the
      legacy version and is `nothing` with the newer one. */
  lemma LegacyChainThrowsAfterNil()
    ensures MaybeLegacy.Chain(MaybeObj(MaybeLegacy.MaybeOf(Num(1))),
              [MaybeLegacy.FlatMapStep(_ => Null), MaybeLegacy.MapStep(x => x)])
         == Throw(TypeError)
    ensures MaybeCurrent.Chain(MaybeObj(MaybeCurrent.MaybeOf(Num(1))),
              [MaybeCurrent.FlatMapStep(_ => Null), MaybeCurrent.MapStep(x => x)])
         == Ok(MaybeObj(Nothing))
  {
    var legacy := [MaybeLegacy.FlatMapStep(_ => Null), MaybeLegacy.MapStep(x => x)];
    assert legacy[1..] == [MaybeLegacy.MapStep(x => x)];
    var current := [MaybeCurrent.FlatMapStep(_ => Null), MaybeCurrent.MapStep(x => x)];
    assert current[1..] == [MaybeCurrent.MapStep(x => x)];
  }

  /** The newer method a legacy chain step calls. */
  function Upgrade(s: MaybeLegacy.Step): (r: MaybeCurrent.Step)
    ensures r.MapStep? <==> s.MapStep?
    ensures r.FlatMapStep? <==> s.FlatMapStep?
    ensures !r.FilterStep? && r.f == s.f
  {
    match s
    case MapStep(f) => MaybeCurrent.MapStep(f)
    case FlatMapStep(f) => MaybeCurrent.FlatMapStep(f)
  }

  /** Every step of a chain upgraded, in order. */
  function UpgradeAll(steps: seq<MaybeLegacy.Step>): (r: seq<MaybeCurrent.Step>)
    ensures |r| == |steps|
    ensures forall i :: 0 <= i < |steps| ==> r[i] == Upgrade(steps[i])
  {
    seq(|steps|, i requires 0 <= i < |steps| => Upgrade(steps[i]))
  }

  /** Where the legacy `flatMap` callbacks keep to their Flow type and answer
      a Maybe, a legacy chain and its upgraded chain give the same outcome
      from any starting value, thrown TypeErrors included. */
  lemma {:induction false} ChainsAgreeOnMaybeCallbacks(recv: JsVal, steps: seq<MaybeLegacy.Step>)
    requires forall i :: 0 <= i < |steps| ==> MaybeLegacy.SafeStep(steps[i])
    ensures MaybeLegacy.Chain(recv, steps) == MaybeCurrent.Chain(recv, UpgradeAll(steps))
    decreases |steps|
  {
    var up := UpgradeAll(steps);
    if steps != [] {
      assert up[1..] == UpgradeAll(steps[1..]);
      assert MaybeLegacy.SafeStep(steps[0]);
      if recv.MaybeObj? && steps[0].FlatMapStep? && recv.m.Just? {
        assert steps[0].f(recv.m.value).MaybeObj?;
      }
      assert MaybeLegacy.Invoke(recv, steps[0]) == MaybeCurrent.Invoke(recv, up[0]);
      match MaybeLegacy.Invoke(recv, steps[0])
      case Ok(next) => ChainsAgreeOnMaybeCallbacks(next, steps[1..]);
      case Throw(_) =>
    }
  }
}
