/**
 * The delta-sync client of examples/simple-example/client/src/client.js as objects: a `Collection`
 * holds one collection's mutable state and the operations `getCollection` hands out; a `Client`
 * holds the collections by name and handles the server's messages. Each method is proved against
 * the state transition of the same name in `SyncSpec`.
 */
module SyncClient {
  import opened Wrappers
  import opened SyncSpec

  /** The two server messages the client acts on. */
  datatype ServerMessage<Data, Delta> =
    | Sync(collection: string, deltas: seq<NodeDelta<Delta>>)
    | Full(collection: string, data: map<string, Data>)

  /** The greatest stamp of a delta batch, as the `'sync'` branch computes it. */
  method LatestDeltaStamp<Data, Delta, V>(crdt: CrdtImpl<Data, Delta, V>, ds: seq<NodeDelta<Delta>>) returns (max: string)
    ensures max == MaxStampIn(DeltaStamps(crdt, ds))
  {
    max := "";
    var i := 0;
    assert IsMaxStamp(max, DeltaStamps(crdt, ds[..i]));
    while i < |ds|
      invariant 0 <= i <= |ds|
      invariant IsMaxStamp(max, DeltaStamps(crdt, ds[..i]))
    {
      var stamp := crdt.stamp(ds[i].delta);
      LaterIsMax(max, DeltaStamps(crdt, ds[..i]), stamp);
      DeltaStampsSnoc(crdt, ds, i);
      if max == "" || JsString.Less(max, stamp) {
        max := stamp;
      }
      i := i + 1;
    }
    assert ds[..i] == ds;
    MaxStampUnique(max, MaxStampIn(DeltaStamps(crdt, ds)), DeltaStamps(crdt, ds));
  }

  /** Taking one more delta adds its stamp. */
  lemma DeltaStampsSnoc<Data, Delta, V>(crdt: CrdtImpl<Data, Delta, V>, ds: seq<NodeDelta<Delta>>, i: nat)
    requires i < |ds|
    ensures DeltaStamps(crdt, ds[..i + 1]) == DeltaStamps(crdt, ds[..i]) + {crdt.stamp(ds[i].delta)}
  {
    var a := ds[..i + 1];
    assert forall j :: 0 <= j < i ==> a[j] == ds[..i][j];
    forall x | x in DeltaStamps(crdt, a) ensures x in DeltaStamps(crdt, ds[..i]) + {crdt.stamp(ds[i].delta)} {
      var j :| 0 <= j < |a| && crdt.stamp(a[j].delta) == x;
      if j < i {
        assert x == crdt.stamp(ds[..i][j].delta);
      }
    }
  }

  /** The greatest latest stamp of a set of snapshots, as the `'full'` branch computes it. */
  method LatestSnapshotStamp<Data, Delta, V>(crdt: CrdtImpl<Data, Delta, V>, incoming: map<string, Data>)
    returns (max: string)
    ensures max == MaxStampIn(SnapshotStamps(crdt, incoming))
  {
    max := "";
    var todo := incoming.Keys;
    ghost var seen: set<string> := {};
    while todo != {}
      invariant todo <= incoming.Keys
      invariant seen == set id | id in incoming && id !in todo :: crdt.latestStamp(incoming[id])
      invariant IsMaxStamp(max, seen)
      decreases |todo|
    {
      var id :| id in todo;
      var stamp := crdt.latestStamp(incoming[id]);
      LaterIsMax(max, seen, stamp);
      if max == "" || JsString.Less(max, stamp) {
        max := stamp;
      }
      todo := todo - {id};
      seen := seen + {stamp};
    }
    assert seen == SnapshotStamps(crdt, incoming);
    MaxStampUnique(max, MaxStampIn(seen), seen);
  }

  /** One collection: its clock, documents, queued local deltas and listeners. */
  class Collection<Data, Delta, H, V> {
    const crdt: CrdtImpl<Data, Delta, V>
    const clock: ClockImpl<H>
    var hlc: H
    var data: map<string, Data>
    var deltas: seq<Delta>
    var listeners: seq<ListenerId>
    var itemListeners: map<string, seq<ListenerId>>
    var log: seq<Notification<V>>

    /** The fields as one value. */
    ghost function State(): CollectionState<Data, Delta, H, V>
      reads this
    {
      CollectionState(hlc, data, deltas, listeners, itemListeners, log)
    }

    /** `newCollection(sessionId)` at clock time `now`. */
    constructor (crdt: CrdtImpl<Data, Delta, V>, clock: ClockImpl<H>, sessionId: string, now: int)
      ensures this.crdt == crdt && this.clock == clock
      ensures State() == NewCollection(clock, sessionId, now)
    {
      this.crdt := crdt;
      this.clock := clock;
      hlc := clock.init(sessionId, now);
      data := map[];
      deltas := [];
      listeners := [];
      itemListeners := map[];
      log := [];
    }

    /** `applyDeltas(col, ds)`. */
    method ApplyDeltas(ds: seq<NodeDelta<Delta>>)
      modifies this
      ensures State() == AfterApply(crdt, old(State()), ds)
    {
      var changed := FoldBatch(ds);
      var changes := ChangeList(crdt, data, changed);
      NotifySplit(crdt, data, listeners, itemListeners, ds, log);
      if |listeners| > 0 {
        CallListeners(changes);
      }
      CallItemListeners(changed);
    }

    /** The `deltas.forEach` loop of `applyDeltas`: returns the keys of `changed`. */
    method FoldBatch(ds: seq<NodeDelta<Delta>>) returns (changed: seq<string>)
      modifies this`data
      ensures data == ApplyBatch(crdt, old(data), ds)
      ensures changed == FirstOccurrences(ds)
    {
      changed := [];
      var i := 0;
      while i < |ds|
        invariant 0 <= i <= |ds|
        invariant data == ApplyBatch(crdt, old(data), ds[..i])
        invariant changed == FirstOccurrences(ds[..i])
      {
        var x := ds[i];
        assert ds[..i + 1][..i] == ds[..i];
        if x.node !in data {
          data := data[x.node := crdt.createEmpty];
        }
        if x.node !in changed {
          changed := changed + [x.node];
        }
        data := data[x.node := crdt.applyDelta(data[x.node], x.delta)];
        i := i + 1;
      }
      assert ds[..i] == ds;
    }

    /** `col.listeners.forEach(listener => listener(changes))`. */
    method CallListeners(changes: seq<Change<V>>)
      modifies this`log
      ensures log == old(log) + Fanout(listeners, changes)
    {
      var j := 0;
      while j < |listeners|
        invariant 0 <= j <= |listeners|
        invariant log == old(log) + Fanout(listeners[..j], changes)
      {
        assert listeners[..j + 1][..j] == listeners[..j];
        log := log + [Changed(listeners[j], changes)];
        j := j + 1;
      }
      assert listeners[..j] == listeners;
    }

    /** The `Object.keys(changed).forEach` loop calling the item listeners. */
    method CallItemListeners(changed: seq<string>)
      modifies this`log
      ensures log == old(log) + ItemCalls(crdt, data, itemListeners, changed)
    {
      var k := 0;
      while k < |changed|
        invariant 0 <= k <= |changed|
        invariant log == old(log) + ItemCalls(crdt, data, itemListeners, changed[..k])
      {
        var id := changed[k];
        assert changed[..k + 1][..k] == changed[..k];
        if id in itemListeners {
          CallItemListenersOf(id, itemListeners[id], ValueOf(crdt, data, id));
        }
        k := k + 1;
      }
      assert changed[..k] == changed;
    }

    /** `col.itemListeners[id].forEach(fn => fn(value))`. */
    method CallItemListenersOf(id: string, fns: seq<ListenerId>, v: Option<V>)
      modifies this`log
      ensures log == old(log) + ItemFanout(fns, id, v)
    {
      var m := 0;
      while m < |fns|
        invariant 0 <= m <= |fns|
        invariant log == old(log) + ItemFanout(fns[..m], id, v)
      {
        assert fns[..m + 1][..m] == fns[..m];
        log := log + [ItemChanged(fns[m], id, v)];
        m := m + 1;
      }
      assert fns[..m] == fns;
    }

    /** `ts()`: tick the clock and return the packed stamp. */
    method Ts(now: int) returns (stamp: string)
      modifies this
      ensures State() == Ticked(clock, old(State()), now)
      ensures stamp == clock.pack(hlc)
    {
      hlc := clock.inc(hlc, now);
      stamp := clock.pack(hlc);
    }

    /** `save(id, value)`: replace a whole document, queue the delta and apply it. */
    method Save(id: string, value: V, now: int)
      modifies this
      ensures State() == AfterLocal(crdt, Ticked(clock, old(State()), now), id,
                                    SaveDelta(crdt, clock, clock.inc(old(hlc), now), value), true)
    {
      var stamp := Ts(now);
      var m := crdt.createDeepMap(value, stamp);
      var delta := crdt.setAt([], m);
      deltas := deltas + [delta];
      ApplyDeltas([NodeDelta(id, delta)]);
    }

    /** `setAttribute(id, full, key, value)`: replace one attribute; `full` is not used. */
    method SetAttribute(id: string, full: V, key: string, value: V, now: int)
      modifies this
      ensures State() == AfterLocal(crdt, Ticked(clock, old(State()), now), id,
                                    AttributeDelta(crdt, clock, clock.inc(old(hlc), now), key, value), true)
    {
      var stamp := Ts(now);
      var delta := crdt.setAt([key], crdt.createValue(value, stamp));
      deltas := deltas + [delta];
      ApplyDeltas([NodeDelta(id, delta)]);
    }

    /** `delete(id)`: apply a removal; the delta is not queued. */
    method Delete(id: string, now: int)
      modifies this
      ensures State() == AfterLocal(crdt, Ticked(clock, old(State()), now), id,
                                    crdt.remove(clock.pack(clock.inc(old(hlc), now))), false)
    {
      var stamp := Ts(now);
      var delta := crdt.remove(stamp);
      ApplyDeltas([NodeDelta(id, delta)]);
    }

    /** `load(id)`: the materialised value of one document. */
    function Load(id: string): Option<V>
      reads this
    {
      ValueOf(crdt, data, id)
    }

    /** `loadAll()`: every document whose value is not null. */
    method LoadAll() returns (res: map<string, V>)
      ensures res == Materialized(crdt, data)
      ensures forall id :: id in res <==> Load(id).Some?
      ensures forall id :: id in res ==> Load(id) == Some(res[id])
    {
      res := map[];
      var todo := data.Keys;
      while todo != {}
        invariant todo <= data.Keys
        invariant forall id :: id in res <==> id in data && id !in todo && crdt.value(data[id]).Some?
        invariant forall id :: id in res ==> crdt.value(data[id]) == Some(res[id])
        decreases |todo|
      {
        var id :| id in todo;
        var v := crdt.value(data[id]);
        if v.Some? {
          res := res[id := v.value];
        }
        todo := todo - {id};
      }
    }

    /** `onChanges(fn)`. */
    method OnChanges(fn: ListenerId)
      modifies this
      ensures State() == old(State()).(listeners := old(listeners) + [fn])
    {
      listeners := listeners + [fn];
    }

    /** The function `onChanges(fn)` returns: drop every registration of `fn`. */
    method OffChanges(fn: ListenerId)
      modifies this
      ensures State() == old(State()).(listeners := Without(old(listeners), fn))
    {
      listeners := Without(listeners, fn);
    }

    /** `col.data = msg.data` for a collection a `'full'` message creates. */
    method Adopt(incoming: map<string, Data>)
      modifies this
      ensures State() == old(State()).(data := incoming)
    {
      data := incoming;
    }

    /** The merge loop of the `'full'` branch for an existing collection. */
    method MergeFull(incoming: map<string, Data>)
      modifies this
      ensures State() == old(State()).(data := MergeSnapshots(crdt, old(data), incoming))
    {
      var merged := MergedInto(data, incoming);
      data := merged;
    }

    /** The loop of `MergeFull` on the documents alone. */
    method MergedInto(local: map<string, Data>, incoming: map<string, Data>) returns (d: map<string, Data>)
      ensures d == MergeSnapshots(crdt, local, incoming)
    {
      d := local;
      var todo := incoming.Keys;
      ghost var done: map<string, Data> := map[];
      MergeIntoEmpty(crdt, local);
      assert MergeSnapshots(crdt, local, done) == local;
      while todo != {}
        invariant todo <= incoming.Keys
        invariant done.Keys == incoming.Keys - todo
        invariant forall k :: k in done ==> done[k] == incoming[k]
        invariant d == MergeSnapshots(crdt, local, done)
        decreases |todo|
      {
        var id :| id in todo;
        MergeOneMore(crdt, local, done, id, incoming[id]);
        if id in d {
          d := d[id := crdt.merge(d[id], incoming[id])];
        } else {
          d := d[id := incoming[id]];
        }
        done := done[id := incoming[id]];
        todo := todo - {id};
      }
      assert done == incoming;
    }

    /** What the `'sync'` branch does to the collection it names. */
    method ReceiveSync(ds: seq<NodeDelta<Delta>>, now: int)
      modifies this
      ensures State() == AfterSync(crdt, clock, old(State()), ds, now)
    {
      ApplyDeltas(ds);
      var max := LatestDeltaStamp(crdt, ds);
      if max != "" {
        Recv(max, now);
      }
    }

    /** What the `'full'` branch does to the collection it names; `adopt` is set for a collection
        the message has just created, whose documents are then the incoming ones. */
    method ReceiveFull(incoming: map<string, Data>, now: int, adopt: bool)
      requires adopt ==> data == map[]
      modifies this
      ensures State() == AfterFull(crdt, clock, old(State()), incoming, now)
    {
      if adopt {
        MergeIntoEmpty(crdt, incoming);
        Adopt(incoming);
      } else {
        MergeFull(incoming);
      }
      var max := LatestSnapshotStamp(crdt, incoming);
      if max != "" {
        Recv(max, now);
      }
    }

    /** `col.hlc = hlc.recv(col.hlc, hlc.unpack(stamp), now)`. */
    method Recv(stamp: string, now: int)
      modifies this
      ensures State() == old(State()).(hlc := clock.recv(old(hlc), clock.unpack(stamp), now))
    {
      hlc := clock.recv(hlc, clock.unpack(stamp), now);
    }
  }

  /** The object `make(crdt, sessionId, send)` returns. */
  class Client<Data, Delta, H, V> {
    const crdt: CrdtImpl<Data, Delta, V>
    const clock: ClockImpl<H>
    const sessionId: string
    var collections: map<string, Collection<Data, Delta, H, V>>

    /** Each name has its own collection object, built on the client's CRDT and clock. */
    ghost predicate Valid()
      reads this
    {
      && (forall a, b :: a in collections && b in collections && a != b ==> collections[a] != collections[b])
      && (forall k :: k in collections ==> collections[k].crdt == crdt && collections[k].clock == clock)
    }

    /** `make(crdt, sessionId, send)`. */
    constructor (crdt: CrdtImpl<Data, Delta, V>, clock: ClockImpl<H>, sessionId: string)
      ensures Valid()
      ensures this.crdt == crdt && this.clock == clock && this.sessionId == sessionId
      ensures collections == map[]
    {
      this.crdt := crdt;
      this.clock := clock;
      this.sessionId := sessionId;
      collections := map[];
    }

    /** `getCollection(key)`: the collection of that name, created on first use. */
    method GetCollection(key: string, now: int) returns (col: Collection<Data, Delta, H, V>)
      requires Valid()
      modifies this
      ensures Valid()
      ensures key in collections && col == collections[key]
      ensures key in old(collections) ==> collections == old(collections)
      ensures key !in old(collections) ==>
        && fresh(col)
        && collections == old(collections)[key := col]
        && col.State() == NewCollection(clock, sessionId, now)
    {
      if key !in collections {
        var c := new Collection(crdt, clock, sessionId, now);
        collections := collections[key := c];
      }
      col := collections[key];
    }

    /** The `'sync'` branch of `onMessage`. */
    method OnSync(key: string, ds: seq<NodeDelta<Delta>>, now: int)
      requires Valid()
      modifies this, collections.Values
      ensures Valid()
      ensures collections.Keys == old(collections).Keys + {key}
      ensures forall k :: k in old(collections) ==> collections[k] == old(collections)[k]
      ensures key !in old(collections) ==> fresh(collections[key])
      ensures collections[key].State() == AfterSync(crdt, clock,
        if key in old(collections) then old(collections[key].State()) else NewCollection(clock, sessionId, now), ds, now)
      ensures forall k :: k in old(collections) && k != key ==> unchanged(collections[k])
    {
      var col := GetCollection(key, now);
      col.ReceiveSync(ds, now);
    }

    /** The `'full'` branch of `onMessage`. */
    method OnFull(key: string, incoming: map<string, Data>, now: int)
      requires Valid()
      modifies this, collections.Values
      ensures Valid()
      ensures collections.Keys == old(collections).Keys + {key}
      ensures forall k :: k in old(collections) ==> collections[k] == old(collections)[k]
      ensures key !in old(collections) ==> fresh(collections[key])
      ensures collections[key].State() == AfterFull(crdt, clock,
        if key in old(collections) then old(collections[key].State()) else NewCollection(clock, sessionId, now), incoming, now)
      ensures forall k :: k in old(collections) && k != key ==> unchanged(collections[k])
    {
      var adopt := key !in collections;
      var col := GetCollection(key, now);
      col.ReceiveFull(incoming, now, adopt);
    }

    /** `onMessage(msg)`. */
    method OnMessage(msg: ServerMessage<Data, Delta>, now: int)
      requires Valid()
      modifies this, collections.Values
      ensures Valid()
      ensures collections.Keys == old(collections).Keys + {msg.collection}
      ensures forall k :: k in old(collections) ==> collections[k] == old(collections)[k]
      ensures msg.collection !in old(collections) ==> fresh(collections[msg.collection])
      ensures var before := if msg.collection in old(collections) then old(collections[msg.collection].State())
                            else NewCollection(clock, sessionId, now);
        collections[msg.collection].State() ==
          match msg
          case Sync(_, ds) => AfterSync(crdt, clock, before, ds, now)
          case Full(_, incoming) => AfterFull(crdt, clock, before, incoming, now)
      ensures forall k :: k in old(collections) && k != msg.collection ==> unchanged(collections[k])
    {
      match msg
      case Sync(key, ds) => OnSync(key, ds, now);
      case Full(key, incoming) => OnFull(key, incoming, now);
    }
  }
}
