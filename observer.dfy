/** The conference observable: a map from event key to the ordered list of
    listeners subscribed to it. Notifying a key calls each of its listeners,
    in subscription order, with the same data. Listeners (`L`) are compared
    by identity, as `!==` compares functions. */
module Observer {

  /** `observersMap.get(key) || []`: the key's listeners, or none. */
  function Listeners<L>(m: map<string, seq<L>>, key: string): (ls: seq<L>)
    ensures key in m ==> ls == m[key]
    ensures key !in m ==> ls == []
  {
    if key in m then m[key] else []
  }

  /** `ls.filter(o => o !== x)`: every entry identical to `x` removed, the
      others kept in their order. */
  function Without<L(==)>(ls: seq<L>, x: L): (r: seq<L>)
    ensures x !in r
    ensures multiset(r) == multiset(ls)[x := 0]
    ensures x !in ls ==> r == ls
  {
    if ls == [] then []
    else
      assert ls == [ls[0]] + ls[1..];
      if ls[0] == x then Without(ls[1..], x) else [ls[0]] + Without(ls[1..], x)
  }

  /** Filtering distributes over concatenation, so the kept entries stay in
      their original relative order. */
  lemma {:induction false} WithoutAppend<L>(a: seq<L>, b: seq<L>, x: L)
    ensures Without(a + b, x) == Without(a, x) + Without(b, x)
    decreases |a|
  {
    if a != [] {
      assert (a + b)[0] == a[0];
      assert (a + b)[1..] == a[1..] + b;
      WithoutAppend(a[1..], b, x);
      if a[0] != x {
        calc {
          Without(a + b, x);
          [a[0]] + Without(a[1..] + b, x);
          [a[0]] + (Without(a[1..], x) + Without(b, x));
          ([a[0]] + Without(a[1..], x)) + Without(b, x);
          Without(a, x) + Without(b, x);
        }
      }
    } else {
      assert a + b == b;
    }
  }

  /** The map after `subscribe(key, observer)`. */
  function Subscribed<L>(m: map<string, seq<L>>, key: string, observer: L): (m': map<string, seq<L>>)
    ensures key in m'
    ensures forall k :: k != key ==> (k in m' <==> k in m) && (k in m ==> m'[k] == m[k])
  {
    m[key := Listeners(m, key) + [observer]]
  }

  /** The map after `subscribe` for each listener in turn, all on one key. */
  function SubscribedAll<L>(m: map<string, seq<L>>, key: string, observers: seq<L>): map<string, seq<L>>
    decreases |observers|
  {
    if observers == [] then m
    else Subscribed(SubscribedAll(m, key, observers[..|observers| - 1]), key, observers[|observers| - 1])
  }

  /** Subscription order is list order: subscribing listeners one by one
      appends them, duplicates included, after those already there. */
  lemma {:induction false} SubscriptionOrder<L>(m: map<string, seq<L>>, key: string, observers: seq<L>)
    ensures Listeners(SubscribedAll(m, key, observers), key) == Listeners(m, key) + observers
    decreases |observers|
  {
    if observers == [] {
      assert Listeners(m, key) + observers == Listeners(m, key);
    } else {
      var n := |observers| - 1;
      SubscriptionOrder(m, key, observers[..n]);
      assert observers == observers[..n] + [observers[n]];
    }
  }

  /** The map after `unsubscribe(key, observer)`, as the function evidently
      intends it: the filtered list is stored, an empty one for an unknown
      key. */
  function Unsubscribed<L(==)>(m: map<string, seq<L>>, key: string, observer: L): (m': map<string, seq<L>>)
    ensures key in m' && observer !in m'[key]
    ensures multiset(m'[key]) == multiset(Listeners(m, key))[observer := 0]
    ensures forall k :: k != key ==> (k in m' <==> k in m) && (k in m ==> m'[k] == m[k])
  {
    m[key := Without(Listeners(m, key), observer)]
  }

  /** Unsubscribing removes only the given listener: the listeners subscribed
      around it keep their places. */
  lemma UnsubscribeKeepsOthers<L>(m: map<string, seq<L>>, key: string, before: seq<L>, observer: L, after: seq<L>)
    requires Listeners(m, key) == before + [observer] + after
    requires observer !in before && observer !in after
    ensures Listeners(Unsubscribed(m, key, observer), key) == before + after
  {
    WithoutAppend(before + [observer], after, observer);
    WithoutAppend(before, [observer], observer);
    assert Without([observer], observer) == [];
    assert Without(before + [observer], observer) == before;
    assert Without(after, observer) == after;
  }

  /** An exception raised by the code as written. */
  datatype Thrown = TypeError(message: string)

  /** `unsubscribe` as written: its line 10 assigns to the constant declared
      on line 9, which raises a TypeError before the map is touched. */
  function UnsubscribedAsWritten<L>(m: map<string, seq<L>>, key: string, observer: L): (r: (Thrown, map<string, seq<L>>))
    ensures r.1 == m
  {
    (TypeError("Assignment to constant variable."), m)
  }

  /** One call of a listener with the notified data. */
  datatype Invocation<L, D> = Invocation(listener: L, data: D)

  /** The event source. */
  class Observable<L(==), D> {
    var observers: map<string, seq<L>>

    constructor ()
      ensures observers == map[]
    {
      observers := map[];
    }

    /** `subscribe(key, observer)`: appends, creating the list if absent. */
    method Subscribe(key: string, observer: L)
      modifies this
      ensures observers == Subscribed(old(observers), key, observer)
    {
      var list := Listeners(observers, key);
      list := list + [observer];
      observers := observers[key := list];
    }

    /** `unsubscribe(key, observer)` with the filtered list stored. */
    method Unsubscribe(key: string, observer: L)
      modifies this
      ensures observers == Unsubscribed(old(observers), key, observer)
    {
      var list := Listeners(observers, key);
      list := Without(list, observer);
      observers := observers[key := list];
    }

    /** `notify(key, data)`: calls every listener of the key once, in
        subscription order, each with `data`; nothing for an unknown key. It
        changes nothing: the map, and every list in it, stay as they are. */
    method Notify(key: string, data: D) returns (calls: seq<Invocation<L, D>>)
      ensures |calls| == |Listeners(observers, key)|
      ensures forall i :: 0 <= i < |calls| ==> calls[i] == Invocation(Listeners(observers, key)[i], data)
    {
      var list := Listeners(observers, key);
      calls := [];
      for i := 0 to |list|
        invariant |calls| == i
        invariant forall j :: 0 <= j < i ==> calls[j] == Invocation(list[j], data)
      {
        calls := calls + [Invocation(list[i], data)];
      }
    }
  }

  /** After an unsubscribe, a notification never reaches that listener. */
  method NotifyAfterUnsubscribe<L(==), D>(bus: Observable<L, D>, key: string, observer: L, data: D)
    returns (calls: seq<Invocation<L, D>>)
    modifies bus
    ensures forall i :: 0 <= i < |calls| ==> calls[i].listener != observer
  {
    bus.Unsubscribe(key, observer);
    calls := bus.Notify(key, data);
  }

  /** The listeners of the conference demo. */
  datatype Listener = Call | SendEmail | RecordAccept | PrepareGift

  /** The demo: "invite" calls before it emails, "accept" records before it
      prepares the gift, each with "Alice". */
  method Demo() returns (invite: seq<Invocation<Listener, string>>, accept: seq<Invocation<Listener, string>>)
    ensures invite == [Invocation(Call, "Alice"), Invocation(SendEmail, "Alice")]
    ensures accept == [Invocation(RecordAccept, "Alice"), Invocation(PrepareGift, "Alice")]
  {
    var events := new Observable<Listener, string>();
    events.Subscribe("invite", Call);
    events.Subscribe("invite", SendEmail);
    invite := events.Notify("invite", "Alice");
    events.Subscribe("accept", RecordAccept);
    events.Subscribe("accept", PrepareGift);
    accept := events.Notify("accept", "Alice");
  }

  /** The unsubscribe as written is ineffective: after subscribing `call` to
      "invite" and unsubscribing it, "invite" still lists `call`, where the
      intended unsubscribe leaves it empty. */
  lemma AsWrittenUnsubscribeKeepsListener()
    ensures var m := Subscribed(map[], "invite", Call);
      && Listeners(UnsubscribedAsWritten(m, "invite", Call).1, "invite") == [Call]
      && Listeners(Unsubscribed(m, "invite", Call), "invite") == []
  {
    var m := Subscribed(map[], "invite", Call);
    assert Listeners(m, "invite") == [Call];
    assert Without([Call], Call) == Without([], Call);
  }
}
