/** The derived-name interception demo: a person object whose `name` is not
    stored but computed from `fname` and `lname` on read, and decomposed into
    them on write. Every other property passes straight through. */
module Proxy {
  import opened Strings
  import opened JsValue

  const NameKey := "name"
  const FirstNameKey := "fname"
  const LastNameKey := "lname"

  /** What the `get` trap returns for `key`. Every key but `name` passes
      through. `name` is always a string with a space in it; when the texts of
      `fname` and `lname` have no space, splitting it at the space gives them
      back, in that order. */
  function Read(t: Target, key: string): (v: Value)
    ensures key != NameKey ==> v == Lookup(t, key)
    ensures key == NameKey ==> v.Str? && ' ' in v.s
    ensures key == NameKey ==>
      v == Str(Text(Lookup(t, FirstNameKey)) + " " + Text(Lookup(t, LastNameKey)))
    ensures key == NameKey && ' ' !in Text(Lookup(t, FirstNameKey)) && ' ' !in Text(Lookup(t, LastNameKey)) ==>
      Split(v.s, ' ') == [Text(Lookup(t, FirstNameKey)), Text(Lookup(t, LastNameKey))]
  {
    if key == NameKey then
      var first, last := Text(Lookup(t, FirstNameKey)), Text(Lookup(t, LastNameKey));
      assert (first + " " + last)[|first|] == ' ';
      if ' ' !in first && ' ' !in last then
        assert first + " " + last == Join([first, last], ' ');
        SplitJoin([first, last], ' ');
        Str(first + " " + last)
      else
        Str(first + " " + last)
    else Lookup(t, key)
  }

  /** The outcome of the `set` trap and the target it leaves behind. */
  datatype Step = Step(completion: Completion, target: Target)

  /** What the `set` trap does to the target when `key` is written with
      `value`. Writing `name` stores the first space-separated piece in `fname`
      and the second (or `undefined`) in `lname`; it throws when the value is
      not a string, since only strings can be split. */
  function Written(t: Target, key: string, value: Value): (r: Step)
    ensures r.completion.ThrewTypeError? <==> key == NameKey && !value.Str?
    ensures r.completion.Returned? ==> r.completion.accepted
    ensures r.completion.ThrewTypeError? ==> r.target == t
    ensures key != NameKey ==> r.target == t[key := value]
    ensures key == NameKey ==> (NameKey in r.target <==> NameKey in t)
    ensures key == NameKey ==> forall k :: k != FirstNameKey && k != LastNameKey ==>
      (k in r.target <==> k in t) && (k in t ==> r.target[k] == t[k])
  {
    if key == NameKey then
      if value.Str? then
        var pieces := Split(value.s, ' ');
        var lname := if |pieces| >= 2 then Str(pieces[1]) else Undefined;
        Step(Returned(true), t[FirstNameKey := Str(pieces[0])][LastNameKey := lname])
      else
        Step(ThrewTypeError, t)
    else
      Step(Returned(true), t[key := value])
  }

  /** The interception wrapper around a person object. */
  class Person {
    var target: Target

    constructor (t: Target)
      ensures target == t
    {
      target := t;
    }

    /** `proxy[key]`: a pass-through read, or the derived `name`, which is
        always a string holding a space. */
    function Get(key: string): (v: Value)
      reads this
      ensures key != NameKey ==> v == Lookup(target, key)
      ensures key == NameKey ==> v.Str? && ' ' in v.s
    {
      Read(target, key)
    }

    /** `proxy[key] = value` */
    method Set(key: string, value: Value) returns (c: Completion)
      modifies this
      ensures c == Written(old(target), key, value).completion
      ensures target == Written(old(target), key, value).target
    {
      if key == NameKey {
        if !value.Str? {
          return ThrewTypeError;
        }
        var pieces := Split(value.s, ' ');
        target := target[FirstNameKey := Str(pieces[0])];
        target := target[LastNameKey := if |pieces| >= 2 then Str(pieces[1]) else Undefined];
        return Returned(true);
      }
      target := target[key := value];
      c := Returned(true);
    }
  }

  /** Writing `name` as two space-free words and reading it back yields the
      same string, with the words landing in `fname` and `lname`. */
  lemma NameRoundTrip(t: Target, first: string, last: string)
    requires ' ' !in first && ' ' !in last
    ensures var r := Written(t, NameKey, Str(first + " " + last));
      && r.completion == Returned(true)
      && Read(r.target, NameKey) == Str(first + " " + last)
      && Read(r.target, FirstNameKey) == Str(first)
      && Read(r.target, LastNameKey) == Str(last)
  {
    assert first + " " + last == Join([first, last], ' ');
    SplitJoin([first, last], ' ');
  }

  /** Writing back the `name` just read leaves the target unchanged, provided
      `fname` and `lname` are stored strings without spaces. */
  lemma WriteBackUnchanged(t: Target)
    requires FirstNameKey in t && t[FirstNameKey].Str? && ' ' !in t[FirstNameKey].s
    requires LastNameKey in t && t[LastNameKey].Str? && ' ' !in t[LastNameKey].s
    ensures Written(t, NameKey, Read(t, NameKey)) == Step(Returned(true), t)
  {
    NameRoundTrip(t, t[FirstNameKey].s, t[LastNameKey].s);
  }

  /** A `name` of more than two words keeps only the first two; the rest of
      the value is lost. */
  lemma ExtraWordsDropped(t: Target, words: seq<string>)
    requires |words| >= 3
    requires forall i :: 0 <= i < |words| ==> ' ' !in words[i]
    ensures var r := Written(t, NameKey, Str(Join(words, ' ')));
      && Lookup(r.target, FirstNameKey) == Str(words[0])
      && Lookup(r.target, LastNameKey) == Str(words[1])
      && Read(r.target, NameKey) == Str(words[0] + " " + words[1])
  {
    SplitJoin(words, ' ');
  }

  /** A one-word `name` stores `lname` as `undefined`, which a later read of
      `name` shows as the text "undefined". */
  lemma OneWordLeavesLastNameUndefined(t: Target, word: string)
    requires ' ' !in word
    ensures var r := Written(t, NameKey, Str(word));
      && LastNameKey in r.target && r.target[LastNameKey] == Undefined
      && Read(r.target, NameKey) == Str(word + " undefined")
  {
    SplitNoSeparator(word, ' ');
    var r := Written(t, NameKey, Str(word));
    assert r.target == t[FirstNameKey := Str(word)][LastNameKey := Undefined];
    assert Text(Lookup(r.target, FirstNameKey)) == word;
    assert Text(Lookup(r.target, LastNameKey)) == "undefined";
    assert word + " " + "undefined" == word + " undefined";
  }

  /** The demo: John Doe is read as "John Doe"; after writing "Jane Doe" the
      read gives "Jane Doe" and the stored fields are "Jane" and "Doe". */
  method Demo() returns (before: Value, after: Value, first: Value, last: Value)
    ensures before == Str("John Doe") && after == Str("Jane Doe")
    ensures first == Str("Jane") && last == Str("Doe")
  {
    var person := new Person(map[FirstNameKey := Str("John"), LastNameKey := Str("Doe"), "age" := Int(30)]);
    assert "John" + " " + "Doe" == "John Doe";
    before := person.Get(NameKey);
    assert "Jane" + " " + "Doe" == "Jane Doe";
    NameRoundTrip(person.target, "Jane", "Doe");
    var _ := person.Set(NameKey, Str("Jane Doe"));
    after := person.Get(NameKey);
    first := Lookup(person.target, FirstNameKey);
    last := Lookup(person.target, LastNameKey);
  }
}
