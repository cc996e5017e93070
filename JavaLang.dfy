/**
 * The pieces of the Java runtime that the modelled classes lean on: thrown
 * objects and `instanceof`, `String.contains`, and the 32-bit arithmetic of
 * `String.hashCode`, `Integer.hashCode`, `List.hashCode`, `Map.hashCode` and
 * `Objects.hash`.
 */
module JavaLang {
  import opened Wrappers

  /** A fully qualified class name. */
  type ClassName = string

  const EXCEPTION: ClassName := "java.lang.Exception"
  const ILLEGAL_ARGUMENT: ClassName := "java.lang.IllegalArgumentException"
  const CLASS_CAST: ClassName := "java.lang.ClassCastException"
  const NULL_POINTER: ClassName := "java.lang.NullPointerException"
  const ARRAY_INDEX: ClassName := "java.lang.ArrayIndexOutOfBoundsException"
  const STRING_INDEX: ClassName := "java.lang.StringIndexOutOfBoundsException"
  const NUMBER_FORMAT: ClassName := "java.lang.NumberFormatException"

  /**
   * A thrown object: its runtime class, the ancestors of that class up to
   * `java.lang.Throwable`, and its message (`None` is a `null` message).
   */
  datatype Throwable = Throwable(cls: ClassName, ancestors: seq<ClassName>, message: Option<string>)

  /**
   * How a reflective copy treats a non-null object: its class implements
   * `Cloneable` (copied by `clone()`), declares a copy constructor, or neither
   * (the reference itself is kept).
   */
  datatype CopyPolicy = Cloneable | CopyConstructor | NoCopy

  /** `c.isInstance(t)`, i.e. `t instanceof c`. */
  predicate IsInstance(c: ClassName, t: Throwable)
  {
    c == t.cls || c in t.ancestors
  }

  /** `t instanceof Exception` (as opposed to an `Error` or another `Throwable`). */
  predicate IsException(t: Throwable)
  {
    IsInstance(EXCEPTION, t)
  }

  /** `hay.contains(needle)`: `needle` occurs in `hay` at some position. */
  predicate Contains(hay: string, needle: string)
  {
    exists i :: 0 <= i <= |hay| - |needle| && OccursAt(hay, needle, i)
  }

  predicate OccursAt(hay: string, needle: string, i: int)
    requires 0 <= i <= |hay| - |needle|
  {
    hay[i..i + |needle|] == needle
  }

  const TWO_32: int := 0x1_0000_0000
  const MIN_INT: int := -0x8000_0000
  const MAX_INT: int := 0x7fff_ffff

  /** A value of Java's `int` type. */
  type Int32 = x: int | MIN_INT <= x <= MAX_INT

  /** The value a Java `int` computation yields: the mathematical result wrapped to 32 bits, two's complement. */
  function Wrap32(x: int): (r: int)
    ensures MIN_INT <= r <= MAX_INT
    ensures (x - r) % TWO_32 == 0
    ensures MIN_INT <= x <= MAX_INT ==> r == x
  {
    var m := x % TWO_32;
    if m > MAX_INT then m - TWO_32 else m
  }

  /** `a ^ b` on two Java `int`s. */
  function Xor32(a: int, b: int): (r: int)
    ensures MIN_INT <= r <= MAX_INT
  {
    Wrap32((((a % TWO_32) as bv32) ^ ((b % TWO_32) as bv32)) as int)
  }

  /** `Integer.hashCode`: the value itself. */
  function IntegerHash(v: int): (h: int)
    ensures MIN_INT <= h <= MAX_INT
  {
    Wrap32(v)
  }

  /** `String.hashCode`: `h = 31 * h + c` over the characters, in `int` arithmetic. */
  function StringHash(s: string): (h: int)
    ensures MIN_INT <= h <= MAX_INT
  {
    if s == [] then 0 else Wrap32(31 * StringHash(s[..|s| - 1]) + s[|s| - 1] as int)
  }

  /**
   * `Arrays.hashCode` over the hashes of the elements, which is what both
   * `Objects.hash(a, b, ...)` and `List.hashCode` compute:
   * `r = 31 * r + h` starting from 1.
   */
  function ArrayHash(hs: seq<int>): (h: int)
    ensures MIN_INT <= h <= MAX_INT
  {
    if hs == [] then 1 else Wrap32(31 * ArrayHash(hs[..|hs| - 1]) + hs[|hs| - 1])
  }

  /** `Objects.hashCode(x)` for a possibly-null string. */
  function NullableStringHash(s: Option<string>): (h: int)
    ensures s.None? ==> h == 0
  {
    match s
    case None => 0
    case Some(v) => StringHash(v)
  }

  /** Two values congruent modulo 2^32 wrap to the same `int`. */
  lemma Wrap32Congruent(x: int, y: int)
    requires (x - y) % TWO_32 == 0
    ensures Wrap32(x) == Wrap32(y)
  {
    var q := (x - y) / TWO_32;
    assert x == y + q * TWO_32;
    LemmaModMultiple(y, q);
  }

  lemma LemmaModMultiple(y: int, q: int)
    ensures (y + q * TWO_32) % TWO_32 == y % TWO_32
    decreases if q < 0 then -q else q
  {
    if q > 0 {
      LemmaModMultiple(y, q - 1);
      assert y + q * TWO_32 == (y + (q - 1) * TWO_32) + TWO_32;
    } else if q < 0 {
      LemmaModMultiple(y, q + 1);
      assert y + q * TWO_32 == (y + (q + 1) * TWO_32) - TWO_32;
    }
  }

  /**
   * `int` addition: wrapping the partial sum before adding the next term gives
   * the same `int` as wrapping only the total, so a sum that Java wraps at
   * every step is the wrapped exact sum.
   */
  lemma Wrap32OfSum(a: int, b: int)
    ensures Wrap32(a + Wrap32(b)) == Wrap32(a + b)
  {
    var r := Wrap32(b);
    assert (a + r - (a + b)) % TWO_32 == 0 by { assert a + r - (a + b) == r - b; }
    Wrap32Congruent(a + r, a + b);
  }

  /**
   * The exact sum of `h` over the elements, taking them in some order.
   * `AbstractSet.hashCode` and `AbstractMap.hashCode` add the hashes in `int`
   * arithmetic, which by `Wrap32OfSum` is this sum wrapped once; `HashSumAt`
   * shows that the order does not matter.
   */
  ghost function HashSum<T>(xs: set<T>, h: T -> int): (s: int)
    ensures xs == {} ==> s == 0
    decreases |xs|
  {
    if xs == {} then 0
    else
      var x := Pick(xs);
      h(x) + HashSum(xs - {x}, h)
  }

  /** The element a visit of a non-empty set takes first. */
  ghost function Pick<T>(xs: set<T>): (x: T)
    requires xs != {}
    ensures x in xs
  {
    var x :| x in xs; x
  }

  /** Any element can be taken first: the sum does not depend on the order of the visit. */
  lemma {:induction false} HashSumAt<T>(xs: set<T>, h: T -> int, x: T)
    requires x in xs
    ensures HashSum(xs, h) == h(x) + HashSum(xs - {x}, h)
    decreases |xs|
  {
    var y := Pick(xs);
    if y != x {
      HashSumAt(xs - {y}, h, x);
      HashSumAt(xs - {x}, h, y);
      assert xs - {y} - {x} == xs - {x} - {y};
    }
  }

  /** `Map.Entry.hashCode` of an `Integer` to `Integer` entry of `m`. */
  function EntryHash(m: map<int, int>, k: int): int
  {
    if k in m then Xor32(IntegerHash(k), IntegerHash(m[k])) else 0
  }

  /** `Map<Integer, Integer>.hashCode`: the sum over the entries of `key.hashCode() ^ value.hashCode()`. */
  ghost function IntMapHash(m: map<int, int>): (h: int)
    ensures MIN_INT <= h <= MAX_INT
    ensures m == map[] ==> h == 0
  {
    assert m == map[] ==> m.Keys == {};
    Wrap32(HashSum(m.Keys, k => EntryHash(m, k)))
  }

  /** `Set<String>.hashCode`: the sum of the elements' hashes. */
  ghost function StringSetHash(xs: set<string>): (h: int)
    ensures MIN_INT <= h <= MAX_INT
    ensures xs == {} ==> h == 0
  {
    Wrap32(HashSum(xs, StringHash))
  }
}
