/** The conference mediator: a hub that keeps participants by name and routes
    a request from one name to another by calling the receiver's request
    handler, so that participants never hold references to each other.
    Participants (`P`) and request payloads (`D`) are opaque to the hub. */
module Mediator {

  /** One call of a receiver's `handleRequest(from, data)`. */
  datatype Delivery<P, D> = Delivery(receiver: P, from: string, data: D)

  /** What sending a request comes to: the handler call made, or no
      participant registered under the receiver's name. */
  datatype SendResult<P, D> = Delivered(delivery: Delivery<P, D>) | RecipientNotFound(to: string)

  /** Routing a request through a registry: only the receiver's name is looked
      up, and the sender's name and the payload are handed over untouched. */
  function Route<P, D>(objects: map<string, P>, from: string, to: string, data: D): (r: SendResult<P, D>)
    ensures r.Delivered? <==> to in objects
    ensures r.Delivered? ==> r.delivery.receiver == objects[to]
    ensures r.Delivered? ==> r.delivery.from == from && r.delivery.data == data
    ensures r.RecipientNotFound? ==> r.to == to
  {
    if to in objects then Delivered(Delivery(objects[to], from, data)) else RecipientNotFound(to)
  }

  /** The registry after a series of registrations, applied in order. */
  function Registered<P>(objects: map<string, P>, registrations: seq<(string, P)>): map<string, P>
    decreases |registrations|
  {
    if registrations == [] then objects
    else
      var last := registrations[|registrations| - 1];
      Registered(objects, registrations[..|registrations| - 1])[last.0 := last.1]
  }

  /** Last write wins: a name is bound to the participant of its latest
      registration. */
  lemma {:induction false} LatestRegistrationWins<P>(objects: map<string, P>, registrations: seq<(string, P)>, i: nat)
    requires i < |registrations|
    requires forall j :: i < j < |registrations| ==> registrations[j].0 != registrations[i].0
    ensures registrations[i].0 in Registered(objects, registrations)
    ensures Registered(objects, registrations)[registrations[i].0] == registrations[i].1
    decreases |registrations|
  {
    var n := |registrations| - 1;
    if i < n {
      var prefix := registrations[..n];
      assert forall j :: i < j < |prefix| ==> prefix[j] == registrations[j];
      LatestRegistrationWins(objects, prefix, i);
    }
  }

  /** Registering one series and then another is registering both in turn. */
  lemma {:induction false} RegisteredAppend<P>(objects: map<string, P>, first: seq<(string, P)>, second: seq<(string, P)>)
    ensures Registered(Registered(objects, first), second) == Registered(objects, first + second)
    decreases |second|
  {
    if second == [] {
      assert first + second == first;
    } else {
      var n := |second| - 1;
      RegisteredAppend(objects, first, second[..n]);
      assert (first + second)[..|first + second| - 1] == first + second[..n];
      assert (first + second)[|first + second| - 1] == second[n];
    }
  }

  /** A name no registration mentions keeps whatever entry it had. */
  lemma {:induction false} UnmentionedNameKept<P>(objects: map<string, P>, registrations: seq<(string, P)>, name: string)
    requires forall j :: 0 <= j < |registrations| ==> registrations[j].0 != name
    ensures name in Registered(objects, registrations) <==> name in objects
    ensures name in objects ==> Registered(objects, registrations)[name] == objects[name]
    decreases |registrations|
  {
    if registrations != [] {
      var n := |registrations| - 1;
      var prefix := registrations[..n];
      assert forall j :: 0 <= j < |prefix| ==> prefix[j] == registrations[j];
      UnmentionedNameKept(objects, prefix, name);
    }
  }

  /** The hub. `log` records every handler call the hub has made, in order,
      in place of the handlers' own console output. */
  class Hub<P, D> {
    var objects: map<string, P>
    ghost var log: seq<Delivery<P, D>>

    constructor ()
      ensures objects == map[] && log == []
    {
      objects := map[];
      log := [];
    }

    /** `register(name, obj)`: binds the name, replacing any earlier binding;
        every other name keeps its entry. */
    method Register(name: string, participant: P)
      modifies this
      ensures objects == Registered(old(objects), [(name, participant)])
      ensures log == old(log)
    {
      objects := objects[name := participant];
    }

    /** `sendRequest(from, to, data)`: calls the handler registered under `to`
        with `from` and `data`. The registry is never changed. */
    method SendRequest(from: string, to: string, data: D) returns (r: SendResult<P, D>)
      modifies this`log
      ensures r == Route(objects, from, to, data)
      ensures log == if r.Delivered? then old(log) + [r.delivery] else old(log)
    {
      if to !in objects {
        return RecipientNotFound(to);
      }
      var receiver := objects[to];
      r := Delivered(Delivery(receiver, from, data));
      log := log + [r.delivery];
    }
  }

  /** The two participants of the conference demo. */
  datatype Party = Speaker | Service

  /** The `{ type, content }` payload the demo participants exchange. */
  datatype Request = Request(kind: string, content: string)

  /** The speaker's `requestMic`: asks the service for a microphone. */
  method RequestMic(hub: Hub<Party, Request>) returns (r: SendResult<Party, Request>)
    modifies hub`log
    ensures r == Route(hub.objects, "speaker", "service", Request("Microphone", "AX-270"))
    ensures hub.log == if r.Delivered? then old(hub.log) + [r.delivery] else old(hub.log)
  {
    r := hub.SendRequest("speaker", "service", Request("Microphone", "AX-270"));
  }

  /** The service's `respondMic`: tells the speaker the microphone is ready. */
  method RespondMic(hub: Hub<Party, Request>) returns (r: SendResult<Party, Request>)
    modifies hub`log
    ensures r == Route(hub.objects, "service", "speaker", Request("Microphone", "Has provide speaker AX-270 mic"))
    ensures hub.log == if r.Delivered? then old(hub.log) + [r.delivery] else old(hub.log)
  {
    r := hub.SendRequest("service", "speaker", Request("Microphone", "Has provide speaker AX-270 mic"));
  }

  /** The demo: with both parties registered, the request reaches the
      service's handler tagged with "speaker", and the response reaches the
      speaker's handler tagged with "service". */
  method Demo() returns (requested: SendResult<Party, Request>, responded: SendResult<Party, Request>)
    ensures requested == Delivered(Delivery(Service, "speaker", Request("Microphone", "AX-270")))
    ensures responded == Delivered(Delivery(Speaker, "service", Request("Microphone", "Has provide speaker AX-270 mic")))
  {
    var hub := new Hub<Party, Request>();
    hub.Register("speaker", Speaker);
    hub.Register("service", Service);
    requested := RequestMic(hub);
    responded := RespondMic(hub);
    assert hub.log == [requested.delivery, responded.delivery];
  }
}
