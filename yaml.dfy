/** The part of serde_yaml's value tree that configurations are converted to
    and from, and serde_yaml's equality on it. Numbers are limited to 64-bit
    integers. */
module Yaml {

  newtype i64 = x: int | -0x8000_0000_0000_0000 <= x < 0x8000_0000_0000_0000

  datatype Value =
    | Null
    | Bool(b: bool)
    | Number(n: i64)
    | String(s: string)
    | Sequence(items: seq<Value>)
    | Mapping(entries: seq<(Value, Value)>)
    | Tagged(tag: string, value: Value)

  /** `==` on serde_yaml values: sequences compare element by element, and a
      mapping (an index map) equals another of the same size in which every
      key finds an equal value, whatever the order of the entries. */
  predicate Same(a: Value, b: Value)
    decreases a, 0
  {
    match a
    case Sequence(xs) =>
      b.Sequence? && |xs| == |b.items| && forall k :: 0 <= k < |xs| ==> Same(xs[k], b.items[k])
    case Mapping(xs) =>
      b.Mapping? && |xs| == |b.entries| && forall k :: 0 <= k < |xs| ==> HasEntry(b.entries, xs[k].0, xs[k].1)
    case Tagged(t, x) => b.Tagged? && t == b.tag && Same(x, b.value)
    case _ => a == b
  }

  /** Some entry of `ys` has key `key` and a value equal to `value`. */
  predicate HasEntry(ys: seq<(Value, Value)>, key: Value, value: Value)
    decreases value, 1
  {
    exists j :: 0 <= j < |ys| && ys[j].0 == key && Same(value, ys[j].1)
  }

  predicate DistinctKeys(xs: seq<(Value, Value)>)
  {
    forall i, j :: 0 <= i < j < |xs| ==> xs[i].0 != xs[j].0
  }

  /** What a parsed document satisfies: no mapping, at any depth, repeats a key. */
  predicate WellFormed(v: Value)
    decreases v
  {
    match v
    case Sequence(xs) => forall k :: 0 <= k < |xs| ==> WellFormed(xs[k])
    case Mapping(xs) => DistinctKeys(xs) && forall k :: 0 <= k < |xs| ==> WellFormed(xs[k].1)
    case Tagged(_, x) => WellFormed(x)
    case _ => true
  }

  /** Every value equals itself. */
  lemma {:induction false} SameRefl(a: Value)
    ensures Same(a, a)
    decreases a
  {
    match a
    case Sequence(xs) =>
      forall k | 0 <= k < |xs| ensures Same(xs[k], xs[k]) {
        SameRefl(xs[k]);
      }
    case Mapping(xs) =>
      forall k | 0 <= k < |xs| ensures HasEntry(xs, xs[k].0, xs[k].1) {
        SameRefl(xs[k].1);
        assert xs[k].0 == xs[k].0 && Same(xs[k].1, xs[k].1);
      }
    case Tagged(_, x) => SameRefl(x);
    case _ =>
  }

  /** Two mappings of one size are equal when each entry of the first is
      found in the second. */
  lemma SameMapping(xs: seq<(Value, Value)>, ys: seq<(Value, Value)>)
    requires |xs| == |ys|
    requires forall k :: 0 <= k < |xs| ==> HasEntry(ys, xs[k].0, xs[k].1)
    ensures Same(Mapping(xs), Mapping(ys))
  {
  }
}
