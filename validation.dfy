/** The validation interception demo: every write goes through a `set` trap
    that refuses a negative `age` and leaves the target untouched when it
    does. There is no `get` trap, so reads see the target directly. */
module Validation {
  import opened JsValue

  const AgeKey := "age"

  /** The value the trap refuses for `age`: a number below zero, which is
      exactly a number written with a leading minus sign. Strings and
      `undefined` are never refused. */
  predicate IsNegative(v: Value): (r: bool)
    ensures v.Int? ==> (r <==> Text(v)[0] == '-')
    ensures !v.Int? ==> !r
  {
    v.Int? && v.n < 0
  }

  /** The outcome of the `set` trap and the target it leaves behind. */
  datatype Step = Step(accepted: bool, target: Target)

  /** What the `set` trap does when `key` is written with `value`. */
  function Written(t: Target, key: string, value: Value): (r: Step)
    ensures r.accepted <==> !(key == AgeKey && IsNegative(value))
    ensures !r.accepted ==> r.target == t
    ensures r.accepted ==> key in r.target && r.target[key] == value
    ensures r.accepted ==> forall k :: k != key ==> (k in r.target <==> k in t) && (k in t ==> r.target[k] == t[k])
  {
    if key == AgeKey && IsNegative(value) then Step(false, t)
    else Step(true, t[key := value])
  }

  /** No stored `age` is a negative number. */
  predicate AgeGuarded(t: Target) {
    !(AgeKey in t && IsNegative(t[AgeKey]))
  }

  /** The wrapped person object. */
  class GuardedPerson {
    var target: Target

    constructor (t: Target)
      ensures target == t
    {
      target := t;
    }

    /** `proxy[key]`: no trap, the stored value or `undefined`. While the
        target is guarded, reading `age` never shows a negative number. */
    function Get(key: string): (v: Value)
      reads this
      ensures key !in target ==> v == Undefined
      ensures AgeGuarded(target) && key == AgeKey ==> !IsNegative(v)
    {
      Lookup(target, key)
    }

    /** `proxy[key] = value` through the `set` trap. */
    method Set(key: string, value: Value) returns (accepted: bool)
      modifies this
      ensures AgeGuarded(old(target)) ==> AgeGuarded(target)
      ensures accepted == Written(old(target), key, value).accepted
      ensures target == Written(old(target), key, value).target
    {
      if key == AgeKey && IsNegative(value) {
        return false;
      }
      target := target[key := value];
      accepted := true;
    }
  }

  /** The target after a series of writes through the trap, in order. */
  function WrittenAll(t: Target, writes: seq<(string, Value)>): Target
    decreases |writes|
  {
    if writes == [] then t
    else WrittenAll(Written(t, writes[0].0, writes[0].1).target, writes[1..])
  }

  /** However many writes go through the trap, whatever they are, a guarded
      target stays guarded: no negative age is ever stored. */
  lemma {:induction false} GuardHoldsAfterWrites(t: Target, writes: seq<(string, Value)>)
    requires AgeGuarded(t)
    ensures AgeGuarded(WrittenAll(t, writes))
    decreases |writes|
  {
    if writes != [] {
      GuardHoldsAfterWrites(Written(t, writes[0].0, writes[0].1).target, writes[1..]);
    }
  }

  /** A write the trap refuses can be dropped from a series of writes without
      changing the outcome. */
  lemma RefusedWriteIsNoOp(t: Target, age: int, writes: seq<(string, Value)>)
    requires age < 0
    ensures WrittenAll(t, [(AgeKey, Int(age))] + writes) == WrittenAll(t, writes)
  {
    assert ([(AgeKey, Int(age))] + writes)[1..] == writes;
  }

  /** The demo: starting from age 30, writing -1 is refused and age stays 30. */
  method Demo() returns (accepted: bool, age: Value)
    ensures !accepted && age == Int(30)
  {
    var person := new GuardedPerson(map["fname" := Str("John"), "lname" := Str("Doe"), AgeKey := Int(30)]);
    accepted := person.Set(AgeKey, Int(-1));
    age := person.Get(AgeKey);
  }
}
