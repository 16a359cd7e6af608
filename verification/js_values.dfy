/** JavaScript values as far as the Maybe container sees them, the container's
    two variants, and the exceptions its operations can throw.

    Both source files (the older `maybe.js` and the newer `src/maybe.js`)
    build the same shape: an instance of class `Just` holding one value, or
    the frozen `nothing` instance of class `Nothing`. Object identity is not
    modelled: two Maybe values are equal when their variants and contents are.
 */
module JsValues {

  /** A JavaScript value. Numbers are integers here (the container never does
      arithmetic); `Obj` stands for a plain object, told apart by its
      reference, or for an array that is only held, never called on;
      `MaybeObj` is an instance of `Just` or `Nothing`, which a callback may
      return and which `Just` may wrap. */
  datatype JsVal =
    | Null
    | Undefined
    | Bool(b: bool)
    | Num(n: int)
    | Str(s: string)
    | Obj(ref: nat)
    | MaybeObj(m: Maybe)

  /** The two classes of the container. The classes do not stop a `Just` from
      holding null or undefined: only the constructor functions check. */
  datatype Maybe = Just(value: JsVal) | Nothing

  /** `value == null`: loose equality with null holds for null and undefined
      and for nothing else. */
  predicate IsNil(v: JsVal) {
    v.Null? || v.Undefined?
  }

  /** ToBoolean (section 7.1.2 of ECMA-262) on the values modelled here:
      what an `if` makes of the value a `filter` predicate returns. */
  predicate Truthy(v: JsVal) {
    match v
    case Null => false
    case Undefined => false
    case Bool(b) => b
    case Num(n) => n != 0
    case Str(s) => s != ""
    case Obj(_) => true
    case MaybeObj(_) => true
  }

  /** A `Just` that does not wrap nil, as the Flow type `$NonMaybeType<A>` of
      the `Just` constructor asks. Only `maybe` and `just` check it at run
      time; `map` does not keep it, so it is a property of some values and not
      a type invariant. */
  predicate WellFormed(m: Maybe) {
    m.Just? ==> !IsNil(m.value)
  }

  /** A callback that always returns a Maybe instance or nil. */
  ghost predicate ReturnsMaybeOrNil(f: JsVal -> JsVal) {
    forall x :: f(x).MaybeObj? || IsNil(f(x))
  }

  /** A callback that always returns a Maybe instance, as the Flow type of
      `flatMap` asks. */
  ghost predicate ReturnsMaybe(f: JsVal -> JsVal) {
    forall x :: f(x).MaybeObj?
  }

  /** A callback that never returns nil. */
  ghost predicate ReturnsNonNil(f: JsVal -> JsVal) {
    forall x :: !IsNil(f(x))
  }

  /** An exception: `Error(message)` is one the container throws itself;
      `TypeError` is the one the JavaScript engine throws when a method is
      called on a value that has no such method (null, a number, ...). */
  datatype Thrown = Error(message: string) | TypeError

  /** A call that either returns a value or throws. */
  datatype Result<+T> = Ok(value: T) | Throw(error: Thrown)

  /** One call of a user callback: the argument it received and what it returned. */
  datatype Invocation = Invocation(arg: JsVal, returned: JsVal)
}
