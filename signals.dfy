// The signal registry of the iOS bridge
// (packages/hwpjs/ios/include/CrabySignals.h): a map from a uintptr_t id
// to a delegate. Registering puts or replaces the id's delegate,
// unregistering erases it, and emitting calls the id's delegate, if there
// is one, with the signal's name. A delegate call is recorded as an
// emission; what the delegate then does is outside the registry.

module Signals {
  import opened Bytes
  import opened Errors

  // uintptr_t on a 64-bit target.
  type Id = u64

  datatype Emission<D> = Emission(delegate: D, signalName: string)

  // insert_or_assign, erase and find on the delegate map.
  function Register<D>(delegates: map<Id, D>, id: Id, d: D): (r: map<Id, D>)
    ensures r.Keys == delegates.Keys + {id}
    ensures r[id] == d
    ensures forall other :: other in delegates && other != id ==> r[other] == delegates[other]
  {
    delegates[id := d]
  }

  function Unregister<D>(delegates: map<Id, D>, id: Id): (r: map<Id, D>)
    ensures r.Keys == delegates.Keys - {id}
    ensures forall other :: other in r ==> r[other] == delegates[other]
  {
    delegates - {id}
  }

  // The delegate emit calls, if any.
  function Target<D>(delegates: map<Id, D>, id: Id): (r: Option<D>)
    ensures r.Some? <==> id in delegates
    ensures r.Some? ==> r.value == delegates[id]
  {
    if id in delegates then Some(delegates[id]) else None
  }

  // The emissions one emit adds: one call of the target, or none.
  function EmitCalls<D>(delegates: map<Id, D>, id: Id, name: string): (r: seq<Emission<D>>)
    ensures |r| == if id in delegates then 1 else 0
    ensures id in delegates ==> r[0] == Emission(delegates[id], name)
  {
    var t := Target(delegates, id);
    if t.Some? then [Emission(t.value, name)] else []
  }

  class SignalManager<D> {
    var delegates: map<Id, D>
    // The delegate calls made so far, oldest first.
    var emitted: seq<Emission<D>>

    // SignalManager(): no delegate registered.
    constructor ()
      ensures delegates == map[] && emitted == []
    {
      delegates := map[];
      emitted := [];
    }

    // emit: calls the delegate of the id with the name when there is one;
    // otherwise nothing happens. The map is unchanged.
    method Emit(id: Id, name: string)
      modifies this
      ensures delegates == old(delegates)
      ensures emitted == old(emitted) + EmitCalls(old(delegates), id, name)
    {
      if id in delegates {
        var d := delegates[id];
        emitted := emitted + [Emission(d, name)];
      }
    }

    // registerDelegate: insert_or_assign.
    method RegisterDelegate(id: Id, d: D)
      modifies this
      ensures delegates == Register(old(delegates), id, d)
      ensures emitted == old(emitted)
    {
      delegates := delegates[id := d];
    }

    // unregisterDelegate: erase, nothing when the id is absent.
    method UnregisterDelegate(id: Id)
      modifies this
      ensures delegates == Unregister(old(delegates), id)
      ensures emitted == old(emitted)
    {
      delegates := delegates - {id};
    }
  }

  // A registration replaces the previous delegate of the id: the next
  // emit calls the new one, and the earlier one is forgotten.
  lemma RegisterReplaces<D>(delegates: map<Id, D>, id: Id, d1: D, d2: D, name: string)
    ensures EmitCalls(Register(delegates, id, d2), id, name) == [Emission(d2, name)]
    ensures Register(Register(delegates, id, d1), id, d2) == Register(delegates, id, d2)
  {
    var once := Register(delegates, id, d2);
    var twice := Register(Register(delegates, id, d1), id, d2);
    assert forall k :: k in twice <==> k in once;
  }

  // After unregistering, emit calls nothing; unregistering an absent id
  // changes nothing, and unregistering right after registering undoes it
  // for that id.
  lemma UnregisterSilences<D>(delegates: map<Id, D>, id: Id, d: D, name: string)
    ensures EmitCalls(Unregister(delegates, id), id, name) == []
    ensures id !in delegates ==> Unregister(delegates, id) == delegates
    ensures Unregister(Register(delegates, id, d), id) == Unregister(delegates, id)
  {
    if id !in delegates {
      assert Unregister(delegates, id).Keys == delegates.Keys;
    }
    var a, b := Unregister(Register(delegates, id, d), id), Unregister(delegates, id);
    assert a.Keys == b.Keys;
  }

  // Registering or unregistering one id never changes what emit does for
  // any other id.
  lemma OtherIdsKeep<D>(delegates: map<Id, D>, id: Id, other: Id, d: D, name: string)
    requires other != id
    ensures EmitCalls(Register(delegates, id, d), other, name) == EmitCalls(delegates, other, name)
    ensures EmitCalls(Unregister(delegates, id), other, name) == EmitCalls(delegates, other, name)
  {
  }

  // Emitting never changes the registry, so emitting twice calls the same
  // delegate twice.
  lemma EmitTwice<D>(delegates: map<Id, D>, id: Id, name: string)
    requires id in delegates
    ensures EmitCalls(delegates, id, name) + EmitCalls(delegates, id, name) ==
      [Emission(delegates[id], name), Emission(delegates[id], name)]
  {
  }
}
