/**
 * The bookkeeping of the delta-sync client (examples/simple-example/client/src/client.js) on
 * values: the CRDT and the hybrid logical clock it is parameterised by, the fold of a delta batch
 * into a collection's documents, the change batch handed to listeners, the merge of full
 * snapshots, and the maximum stamp under JavaScript string order.
 */
module SyncSpec {
  import opened Wrappers
  import opened JsString

  /** The CRDT operations the client calls; their internals are not part of this model. `value`
      yields `None` for the source's `null`/`undefined` materialised value. */
  datatype CrdtImpl<!Data, !Delta, !V> = CrdtImpl(
    createEmpty: Data,
    applyDelta: (Data, Delta) -> Data,
    merge: (Data, Data) -> Data,
    latestStamp: Data -> string,
    value: Data -> Option<V>,
    createDeepMap: (V, string) -> Data,
    createValue: (V, string) -> Data,
    setAt: (seq<string>, Data) -> Delta,
    remove: string -> Delta,
    stamp: Delta -> string)

  /** The hybrid logical clock operations; `now` stands for `Date.now()`. */
  datatype ClockImpl<!H> = ClockImpl(
    init: (string, int) -> H,
    inc: (H, int) -> H,
    recv: (H, H, int) -> H,
    pack: H -> string,
    unpack: string -> H)

  /** One element of a delta batch: the document id and the delta for it. */
  datatype NodeDelta<Delta> = NodeDelta(node: string, delta: Delta)

  /** A registered listener function, identified by reference in the source. */
  type ListenerId = nat

  /** One recorded listener call: a collection listener receiving the change batch, or an item
      listener receiving one document's value. */
  datatype Notification<V> =
    | Changed(listener: ListenerId, changes: seq<Change<V>>)
    | ItemChanged(listener: ListenerId, id: string, value: Option<V>)

  /* ---------- applying a batch of deltas ---------- */

  /** The documents after applying `ds` in order: a document seen for the first time starts
      from `createEmpty()`. */
  function ApplyBatch<Data, Delta, V>(crdt: CrdtImpl<Data, Delta, V>, data: map<string, Data>,
                                      ds: seq<NodeDelta<Delta>>): map<string, Data>
  {
    if ds == [] then data
    else
      var before := ApplyBatch(crdt, data, ds[..|ds| - 1]);
      var x := ds[|ds| - 1];
      before[x.node := crdt.applyDelta(StartValue(crdt, before, x.node), x.delta)]
  }

  /** The value a delta for `id` is applied to: the stored one, or an empty document. */
  function StartValue<Data, Delta, V>(crdt: CrdtImpl<Data, Delta, V>, data: map<string, Data>, id: string): Data
  {
    if id in data then data[id] else crdt.createEmpty
  }

  /** The ids a batch names. */
  function NodesOf<Delta>(ds: seq<NodeDelta<Delta>>): set<string>
  {
    set j | 0 <= j < |ds| :: ds[j].node
  }

  /** The deltas of a batch addressed to `id`, in batch order. */
  function DeltasFor<Delta>(ds: seq<NodeDelta<Delta>>, id: string): seq<Delta>
  {
    if ds == [] then []
    else DeltasFor(ds[..|ds| - 1], id) + (if ds[|ds| - 1].node == id then [ds[|ds| - 1].delta] else [])
  }

  /** The left fold of `applyDelta` over a list of deltas. */
  function Fold<Data, Delta, V>(crdt: CrdtImpl<Data, Delta, V>, start: Data, ds: seq<Delta>): Data
  {
    if ds == [] then start else crdt.applyDelta(Fold(crdt, start, ds[..|ds| - 1]), ds[|ds| - 1])
  }

  /** After a batch, exactly the old ids and the ids of the batch have documents; the documents
      the batch does not name are untouched. */
  lemma {:induction false} ApplyBatchFrame<Data, Delta, V>(crdt: CrdtImpl<Data, Delta, V>, data: map<string, Data>,
                                                           ds: seq<NodeDelta<Delta>>)
    ensures ApplyBatch(crdt, data, ds).Keys == data.Keys + NodesOf(ds)
    ensures forall k :: k in data && k !in NodesOf(ds) ==> ApplyBatch(crdt, data, ds)[k] == data[k]
  {
    if ds != [] {
      var init := ds[..|ds| - 1];
      ApplyBatchFrame(crdt, data, init);
      NodesOfSnoc(ds);
    }
  }

  /** Each document after a batch is the in-order fold of its own deltas, starting from its old
      value or from an empty document. */
  lemma {:induction false} ApplyBatchFolds<Data, Delta, V>(crdt: CrdtImpl<Data, Delta, V>, data: map<string, Data>,
                                                           ds: seq<NodeDelta<Delta>>, id: string)
    requires id in data || id in NodesOf(ds)
    ensures id in ApplyBatch(crdt, data, ds)
    ensures ApplyBatch(crdt, data, ds)[id] == Fold(crdt, StartValue(crdt, data, id), DeltasFor(ds, id))
  {
    ApplyBatchFrame(crdt, data, ds);
    if ds != [] {
      var init := ds[..|ds| - 1];
      var x := ds[|ds| - 1];
      var before := ApplyBatch(crdt, data, init);
      ApplyBatchFrame(crdt, data, init);
      if id in data || id in NodesOf(init) {
        ApplyBatchFolds(crdt, data, init, id);
        if x.node == id {
          assert DeltasFor(ds, id) == DeltasFor(init, id) + [x.delta];
          assert DeltasFor(ds, id)[..|DeltasFor(ds, id)| - 1] == DeltasFor(init, id);
        } else {
          assert DeltasFor(ds, id) == DeltasFor(init, id);
        }
      } else {
        NodesOfSnoc(ds);
        DeltasForAbsent(init, id);
        assert DeltasFor(ds, id) == [x.delta];
        assert StartValue(crdt, before, id) == StartValue(crdt, data, id);
      }
    }
  }

  /** A batch that never names `id` holds no delta for it. */
  lemma {:induction false} DeltasForAbsent<Delta>(ds: seq<NodeDelta<Delta>>, id: string)
    requires id !in NodesOf(ds)
    ensures DeltasFor(ds, id) == []
  {
    if ds != [] {
      var init := ds[..|ds| - 1];
      assert forall j :: 0 <= j < |init| ==> init[j] == ds[j];
      DeltasForAbsent(init, id);
      assert ds[|ds| - 1].node in NodesOf(ds);
    }
  }

  /* ---------- what the listeners receive ---------- */

  /** One entry of the change list handed to a collection listener. */
  datatype Change<V> = Change(id: string, value: Option<V>)

  /** The materialised value of a document; `None` for an id without a document. */
  function ValueOf<Data, Delta, V>(crdt: CrdtImpl<Data, Delta, V>, data: map<string, Data>, id: string): Option<V>
  {
    if id in data then crdt.value(data[id]) else None
  }

  /** The keys of the `changed` object, `Object.keys(changed)`: each id of the batch once, in the
      order it was first named. */
  function FirstOccurrences<Delta>(ds: seq<NodeDelta<Delta>>): seq<string>
  {
    if ds == [] then []
    else
      var r := FirstOccurrences(ds[..|ds| - 1]);
      if ds[|ds| - 1].node in r then r else r + [ds[|ds| - 1].node]
  }

  /** `Object.keys(changed)` lists exactly the ids of the batch, each once. */
  lemma {:induction false} FirstOccurrencesSpec<Delta>(ds: seq<NodeDelta<Delta>>)
    ensures forall k :: k in FirstOccurrences(ds) <==> k in NodesOf(ds)
    ensures forall i, j :: 0 <= i < j < |FirstOccurrences(ds)| ==> FirstOccurrences(ds)[i] != FirstOccurrences(ds)[j]
  {
    if ds != [] {
      var init := ds[..|ds| - 1];
      FirstOccurrencesSpec(init);
      NodesOfSnoc(ds);
    }
  }

  /** The ids of a batch are those of all but its last element plus the last one's. */
  lemma NodesOfSnoc<Delta>(ds: seq<NodeDelta<Delta>>)
    requires ds != []
    ensures NodesOf(ds) == NodesOf(ds[..|ds| - 1]) + {ds[|ds| - 1].node}
  {
    var init := ds[..|ds| - 1];
    forall k | k in NodesOf(ds) ensures k in NodesOf(init) + {ds[|ds| - 1].node} {
      var j :| 0 <= j < |ds| && ds[j].node == k;
      if j < |ds| - 1 {
        assert init[j].node == k;
      }
    }
    forall k | k in NodesOf(init) ensures k in NodesOf(ds) {
      var j :| 0 <= j < |init| && init[j].node == k;
      assert ds[j].node == k;
    }
  }

  /** The change list `changes`: each id with its current materialised value. */
  function ChangeList<Data, Delta, V>(crdt: CrdtImpl<Data, Delta, V>, data: map<string, Data>, ids: seq<string>)
    : (r: seq<Change<V>>)
    ensures |r| == |ids|
    ensures forall j :: 0 <= j < |r| ==> r[j].id == ids[j]
  {
    if ids == [] then []
    else ChangeList(crdt, data, ids[..|ids| - 1]) + [Change(ids[|ids| - 1], ValueOf(crdt, data, ids[|ids| - 1]))]
  }

  /** The change list reports each document the batch named exactly once, with the value that its
      own deltas, applied in batch order, give it. */
  lemma {:induction false} ChangesReported<Data, Delta, V>(crdt: CrdtImpl<Data, Delta, V>, data: map<string, Data>,
                                                          ds: seq<NodeDelta<Delta>>, j: nat)
    requires j < |FirstOccurrences(ds)|
    ensures var cs := ChangeList(crdt, ApplyBatch(crdt, data, ds), FirstOccurrences(ds));
      && cs[j].id in NodesOf(ds)
      && (forall i :: 0 <= i < |cs| && i != j ==> cs[i].id != cs[j].id)
      && cs[j].value == crdt.value(Fold(crdt, StartValue(crdt, data, cs[j].id), DeltasFor(ds, cs[j].id)))
  {
    var ids := FirstOccurrences(ds);
    FirstOccurrencesSpec(ds);
    assert ids[j] in ids;
    ChangeListAt(crdt, ApplyBatch(crdt, data, ds), ids, j);
    ApplyBatchFolds(crdt, data, ds, ids[j]);
  }

  /** The value `ChangeList` gives its `j`-th entry. */
  lemma {:induction false} ChangeListAt<Data, Delta, V>(crdt: CrdtImpl<Data, Delta, V>, data: map<string, Data>,
                                                       ids: seq<string>, j: nat)
    requires j < |ids|
    ensures ChangeList(crdt, data, ids)[j].value == ValueOf(crdt, data, ids[j])
  {
    if j < |ids| - 1 {
      var init := ids[..|ids| - 1];
      ChangeListAt(crdt, data, init, j);
    }
  }

  /** One call of each collection listener, in registration order, with the same change list. */
  function Fanout<V>(listeners: seq<ListenerId>, changes: seq<Change<V>>): (r: seq<Notification<V>>)
    ensures |r| == |listeners|
    ensures forall j :: 0 <= j < |r| ==> r[j] == Changed(listeners[j], changes)
  {
    if listeners == [] then []
    else Fanout(listeners[..|listeners| - 1], changes) + [Changed(listeners[|listeners| - 1], changes)]
  }

  /** The calls of the item listeners of one id, in registration order. */
  function ItemFanout<V>(fns: seq<ListenerId>, id: string, value: Option<V>): (r: seq<Notification<V>>)
    ensures |r| == |fns|
    ensures forall j :: 0 <= j < |r| ==> r[j] == ItemChanged(fns[j], id, value)
  {
    if fns == [] then []
    else ItemFanout(fns[..|fns| - 1], id, value) + [ItemChanged(fns[|fns| - 1], id, value)]
  }

  /** The item-listener calls for a list of changed ids: the listeners registered for each id, id
      by id. */
  function ItemCalls<Data, Delta, V>(crdt: CrdtImpl<Data, Delta, V>, data: map<string, Data>,
                                     items: map<string, seq<ListenerId>>, ids: seq<string>): seq<Notification<V>>
  {
    if ids == [] then []
    else
      var id := ids[|ids| - 1];
      ItemCalls(crdt, data, items, ids[..|ids| - 1])
        + (if id in items then ItemFanout(items[id], id, ValueOf(crdt, data, id)) else [])
  }

  /** An item listener is called with an id's value exactly when it is registered for that id and
      the id is among the changed ones. */
  lemma {:induction false} ItemCallsSpec<Data, Delta, V>(crdt: CrdtImpl<Data, Delta, V>, data: map<string, Data>,
                                                        items: map<string, seq<ListenerId>>, ids: seq<string>,
                                                        fn: ListenerId, id: string, v: Option<V>)
    ensures ItemChanged(fn, id, v) in ItemCalls(crdt, data, items, ids) <==>
      id in ids && id in items && fn in items[id] && v == ValueOf(crdt, data, id)
  {
    if ids != [] {
      var init := ids[..|ids| - 1];
      var last := ids[|ids| - 1];
      ItemCallsSpec(crdt, data, items, init, fn, id, v);
      assert ids == init + [last];
      if last in items {
        var f := ItemFanout(items[last], last, ValueOf(crdt, data, last));
        if ItemChanged(fn, id, v) in f {
          var j :| 0 <= j < |f| && f[j] == ItemChanged(fn, id, v);
          assert items[last][j] == fn;
        }
        if id == last && fn in items[id] && v == ValueOf(crdt, data, id) {
          var j :| 0 <= j < |items[id]| && items[id][j] == fn;
          assert f[j] == ItemChanged(fn, id, v);
        }
      }
    }
  }

  /** Everything `applyDeltas` calls after applying a batch: every collection listener once with
      the change list, then the item listeners of each changed id. */
  function Notify<Data, Delta, V>(crdt: CrdtImpl<Data, Delta, V>, data: map<string, Data>,
                                  listeners: seq<ListenerId>, items: map<string, seq<ListenerId>>,
                                  ds: seq<NodeDelta<Delta>>): seq<Notification<V>>
  {
    var ids := FirstOccurrences(ds);
    Fanout(listeners, ChangeList(crdt, data, ids)) + ItemCalls(crdt, data, items, ids)
  }

  /** `listeners.filter(f => f !== fn)`: every registration of `fn` goes, every other one stays
      as often as it was registered; `WithoutAppend` adds that their order is kept. */
  function Without(listeners: seq<ListenerId>, fn: ListenerId): (r: seq<ListenerId>)
    ensures forall g :: multiset(r)[g] == if g == fn then 0 else multiset(listeners)[g]
  {
    if listeners == [] then []
    else
      var init := listeners[..|listeners| - 1];
      var last := listeners[|listeners| - 1];
      assert listeners == init + [last];
      Without(init, fn) + (if last == fn then [] else [last])
  }

  /** The calls `applyDeltas` appends to a log, in the two phases it makes them; the first is
      empty without listeners. */
  lemma NotifySplit<Data, Delta, V>(crdt: CrdtImpl<Data, Delta, V>, data: map<string, Data>,
                                    listeners: seq<ListenerId>, items: map<string, seq<ListenerId>>,
                                    ds: seq<NodeDelta<Delta>>, log: seq<Notification<V>>)
    ensures var ids := FirstOccurrences(ds);
      && log + Notify(crdt, data, listeners, items, ds)
           == log + Fanout(listeners, ChangeList(crdt, data, ids)) + ItemCalls(crdt, data, items, ids)
      && (listeners == [] ==> log + Fanout(listeners, ChangeList(crdt, data, ids)) == log)
  {
  }

  /* ---------- full snapshots ---------- */

  /** The documents after a `full` message on an existing collection: an incoming id is merged into
      the local document if there is one and adopted otherwise; local-only ids are kept. */
  function MergeSnapshots<Data, Delta, V>(crdt: CrdtImpl<Data, Delta, V>, local: map<string, Data>,
                                          incoming: map<string, Data>): (r: map<string, Data>)
    ensures r.Keys == local.Keys + incoming.Keys
  {
    map id | id in local.Keys + incoming.Keys ::
      if id !in incoming then local[id]
      else if id in local then crdt.merge(local[id], incoming[id])
      else incoming[id]
  }

  /** Merging one more incoming snapshot updates only its own id. */
  lemma MergeOneMore<Data, Delta, V>(crdt: CrdtImpl<Data, Delta, V>, local: map<string, Data>,
                                     done: map<string, Data>, id: string, x: Data)
    requires id !in done
    ensures var before := MergeSnapshots(crdt, local, done);
      MergeSnapshots(crdt, local, done[id := x])
        == before[id := if id in before then crdt.merge(before[id], x) else x]
  {
    var before := MergeSnapshots(crdt, local, done);
    var after := MergeSnapshots(crdt, local, done[id := x]);
    var expected := before[id := if id in before then crdt.merge(before[id], x) else x];
    assert id in before <==> id in local;
    assert forall k :: k in after ==> after[k] == expected[k];
  }

  /* ---------- the maximum stamp ---------- */

  /** One step of the source's `if (!maxStamp || stamp > maxStamp) maxStamp = stamp`, with the
      initial `null` written as the equally falsy empty string. */
  function Later(max: string, stamp: string): string
  {
    if max == "" || Less(max, stamp) then stamp else max
  }

  /** `m` is the greatest of the stamps `s` under string order, or empty when every stamp is empty. */
  ghost predicate IsMaxStamp(m: string, s: set<string>)
  {
    && (m == "" || m in s)
    && forall x :: x in s ==> !Less(m, x)
  }

  /** The empty max holds for no stamps; folding a stamp into a max keeps it the max. */
  lemma LaterIsMax(m: string, s: set<string>, x: string)
    requires IsMaxStamp(m, s)
    ensures IsMaxStamp(Later(m, x), s + {x})
  {
    var l := Later(m, x);
    EmptyLeast(x);
    LessIrreflexive(x);
    forall y | y in s + {x} ensures !Less(l, y) {
      if y != x && l != m {
        if Less(l, y) {
          LessTransitive(m, l, y);
        }
      } else if y != x && m == "" {
        EmptyLeast(y);
      } else if y == x && l == m && x != m {
        LessTotal(m, x);
      }
    }
  }

  /** There is one maximum only: the stamp a `'sync'` or `'full'` message advances the clock with
      does not depend on the order the stamps are visited in. */
  lemma MaxStampUnique(m1: string, m2: string, s: set<string>)
    requires IsMaxStamp(m1, s) && IsMaxStamp(m2, s)
    ensures m1 == m2
  {
    if m1 != m2 {
      if m1 == "" {
        EmptyLeast(m2);
      } else if m2 == "" {
        EmptyLeast(m1);
      } else {
        LessTotal(m1, m2);
      }
    }
  }

  /** A non-empty maximum exists exactly when some stamp is non-empty. */
  lemma MaxStampTruthy(m: string, s: set<string>)
    requires IsMaxStamp(m, s)
    ensures m != "" <==> exists x :: x in s && x != ""
  {
    if m == "" {
      forall x | x in s ensures x == "" {
        EmptyLeast(x);
      }
    }
  }

  /** The stamps of a delta batch. */
  function DeltaStamps<Data, Delta, V>(crdt: CrdtImpl<Data, Delta, V>, ds: seq<NodeDelta<Delta>>): set<string>
  {
    set j | 0 <= j < |ds| :: crdt.stamp(ds[j].delta)
  }

  /** The latest stamps of a set of snapshots. */
  function SnapshotStamps<Data, Delta, V>(crdt: CrdtImpl<Data, Delta, V>, data: map<string, Data>): set<string>
  {
    set id | id in data :: crdt.latestStamp(data[id])
  }

  /** The clock after receiving the maximum stamp `m`: advanced only when `m` is truthy. */
  function Received<H>(clock: ClockImpl<H>, hlc: H, m: string, now: int): H
  {
    if m != "" then clock.recv(hlc, clock.unpack(m), now) else hlc
  }

  /** `loadAll`: the non-null materialised values by id. */
  function Materialized<Data, Delta, V>(crdt: CrdtImpl<Data, Delta, V>, data: map<string, Data>): map<string, V>
  {
    map id | id in data && crdt.value(data[id]).Some? :: crdt.value(data[id]).value
  }

  /* ---------- the maximum stamp exists ---------- */

  /** Every finite set of stamps has a maximum. */
  lemma {:induction false} MaxStampExists(s: set<string>)
    ensures exists m :: IsMaxStamp(m, s)
    decreases |s|
  {
    if s == {} {
      assert IsMaxStamp("", s);
    } else {
      var x :| x in s;
      var rest := s - {x};
      MaxStampExists(rest);
      var m :| IsMaxStamp(m, rest);
      LaterIsMax(m, rest, x);
      assert rest + {x} == s;
    }
  }

  /** The maximum of a set of stamps under string order. */
  ghost function MaxStampIn(s: set<string>): (m: string)
    ensures IsMaxStamp(m, s)
  {
    MaxStampExists(s);
    var m :| IsMaxStamp(m, s);
    m
  }

  /* ---------- listener registrations ---------- */

  /** Registering a listener and then unregistering it leaves the listener list as it was. */
  lemma OffAfterOn(listeners: seq<ListenerId>, fn: ListenerId)
    requires fn !in listeners
    ensures Without(listeners + [fn], fn) == listeners
  {
    var l := listeners + [fn];
    assert l[..|l| - 1] == listeners;
    WithoutAbsent(listeners, fn);
  }

  /** Filtering distributes over concatenation, so the remaining listeners keep their
      registration order; with `WithoutOne` this fixes the result as `filter` computes it. */
  lemma {:induction false} WithoutAppend(a: seq<ListenerId>, b: seq<ListenerId>, fn: ListenerId)
    ensures Without(a + b, fn) == Without(a, fn) + Without(b, fn)
    decreases |b|
  {
    if b == [] {
      assert a + b == a;
      assert Without(b, fn) == [];
    } else {
      var init := b[..|b| - 1];
      var last := b[|b| - 1];
      var tail := if last == fn then [] else [last];
      WithoutAppend(a, init, fn);
      var ab := a + b;
      assert ab[..|ab| - 1] == a + init;
      assert ab[|ab| - 1] == last;
      WithoutSnoc(ab, fn);
      WithoutSnoc(b, fn);
      var wa, wi := Without(a, fn), Without(init, fn);
      assert (wa + wi) + tail == wa + (wi + tail);
    }
  }

  /** Filtering a non-empty list: filter all but the last, then keep the last unless it is `fn`. */
  lemma WithoutSnoc(l: seq<ListenerId>, fn: ListenerId)
    requires l != []
    ensures Without(l, fn) == Without(l[..|l| - 1], fn) + (if l[|l| - 1] == fn then [] else [l[|l| - 1]])
  {
  }

  /** A one-element list loses its listener exactly when it is the one filtered out. */
  lemma WithoutOne(g: ListenerId, fn: ListenerId)
    ensures Without([g], fn) == if g == fn then [] else [g]
  {
    assert [g][..0] == [];
  }

  /** Filtering out a listener that is not in the list changes nothing. */
  lemma {:induction false} WithoutAbsent(listeners: seq<ListenerId>, fn: ListenerId)
    requires fn !in listeners
    ensures Without(listeners, fn) == listeners
  {
    if listeners != [] {
      var init := listeners[..|listeners| - 1];
      assert listeners == init + [listeners[|listeners| - 1]];
      WithoutAbsent(init, fn);
    }
  }

  /* ---------- a collection's state and its transitions ---------- */

  /** The state of one collection, `CollectionState` in the source, plus the listener calls made
      so far. */
  datatype CollectionState<Data, Delta, H, V> = CollectionState(
    hlc: H,
    data: map<string, Data>,
    deltas: seq<Delta>,
    listeners: seq<ListenerId>,
    itemListeners: map<string, seq<ListenerId>>,
    log: seq<Notification<V>>)

  /** `newCollection(sessionId)` at clock time `now`. */
  function NewCollection<Data, Delta, H, V>(clock: ClockImpl<H>, sessionId: string, now: int)
    : CollectionState<Data, Delta, H, V>
  {
    CollectionState(clock.init(sessionId, now), map[], [], [], map[], [])
  }

  /** `applyDeltas(col, ds)`: fold the batch into the documents, then call the listeners. */
  function AfterApply<Data, Delta, H, V>(crdt: CrdtImpl<Data, Delta, V>, s: CollectionState<Data, Delta, H, V>,
                                         ds: seq<NodeDelta<Delta>>): CollectionState<Data, Delta, H, V>
  {
    var data := ApplyBatch(crdt, s.data, ds);
    s.(data := data, log := s.log + Notify(crdt, data, s.listeners, s.itemListeners, ds))
  }

  /** The clock after `if (maxStamp) col.hlc = hlc.recv(col.hlc, hlc.unpack(maxStamp), now)`. */
  function AfterRecv<Data, Delta, H, V>(clock: ClockImpl<H>, s: CollectionState<Data, Delta, H, V>, m: string, now: int)
    : CollectionState<Data, Delta, H, V>
  {
    s.(hlc := Received(clock, s.hlc, m, now))
  }

  /** A `'sync'` message: apply the deltas, then receive their greatest stamp. */
  ghost function AfterSync<Data, Delta, H, V>(crdt: CrdtImpl<Data, Delta, V>, clock: ClockImpl<H>,
                                              s: CollectionState<Data, Delta, H, V>, ds: seq<NodeDelta<Delta>>,
                                              now: int): CollectionState<Data, Delta, H, V>
  {
    AfterRecv(clock, AfterApply(crdt, s, ds), MaxStampIn(DeltaStamps(crdt, ds)), now)
  }

  /** A `'full'` message: merge the snapshots, then receive their greatest latest stamp. No
      listener is called. */
  ghost function AfterFull<Data, Delta, H, V>(crdt: CrdtImpl<Data, Delta, V>, clock: ClockImpl<H>,
                                              s: CollectionState<Data, Delta, H, V>, incoming: map<string, Data>,
                                              now: int): CollectionState<Data, Delta, H, V>
  {
    AfterRecv(clock, s.(data := MergeSnapshots(crdt, s.data, incoming)), MaxStampIn(SnapshotStamps(crdt, incoming)), now)
  }

  /** `ts()`: advance the collection's clock for a local change. */
  function Ticked<Data, Delta, H, V>(clock: ClockImpl<H>, s: CollectionState<Data, Delta, H, V>, now: int)
    : CollectionState<Data, Delta, H, V>
  {
    s.(hlc := clock.inc(s.hlc, now))
  }

  /** A local change: tick, optionally queue the delta in `deltas`, and apply it to one document. */
  function AfterLocal<Data, Delta, H, V>(crdt: CrdtImpl<Data, Delta, V>, t: CollectionState<Data, Delta, H, V>,
                                         id: string, d: Delta, queue: bool): CollectionState<Data, Delta, H, V>
  {
    AfterApply(crdt, if queue then t.(deltas := t.deltas + [d]) else t, [NodeDelta(id, d)])
  }

  /** The delta `save(id, value)` makes: replace the whole document, stamped with the ticked clock. */
  function SaveDelta<Data, Delta, H, V>(crdt: CrdtImpl<Data, Delta, V>, clock: ClockImpl<H>, t: H, value: V): Delta
  {
    crdt.setAt([], crdt.createDeepMap(value, clock.pack(t)))
  }

  /** The delta `setAttribute(id, full, key, value)` makes: replace only attribute `key`. */
  function AttributeDelta<Data, Delta, H, V>(crdt: CrdtImpl<Data, Delta, V>, clock: ClockImpl<H>, t: H,
                                             key: string, value: V): Delta
  {
    crdt.setAt([key], crdt.createValue(value, clock.pack(t)))
  }

  /* ---------- what the transitions promise ---------- */

  /** After a `'sync'` message each document is the in-order fold of its deltas, documents the
      batch does not name are untouched, and the clock moves exactly when some stamp is non-empty. */
  lemma SyncMeaning<Data, Delta, H, V>(crdt: CrdtImpl<Data, Delta, V>, clock: ClockImpl<H>,
                                       s: CollectionState<Data, Delta, H, V>, ds: seq<NodeDelta<Delta>>, now: int)
    ensures var r := AfterSync(crdt, clock, s, ds, now);
      && r.data.Keys == s.data.Keys + NodesOf(ds)
      && (forall id :: id in NodesOf(ds) ==> r.data[id] == Fold(crdt, StartValue(crdt, s.data, id), DeltasFor(ds, id)))
      && (forall id :: id in s.data && id !in NodesOf(ds) ==> r.data[id] == s.data[id])
      && ((forall j :: 0 <= j < |ds| ==> crdt.stamp(ds[j].delta) == "") ==> r.hlc == s.hlc)
      && ((exists j :: 0 <= j < |ds| && crdt.stamp(ds[j].delta) != "") ==>
            r.hlc == clock.recv(s.hlc, clock.unpack(MaxStampIn(DeltaStamps(crdt, ds))), now))
      && r.deltas == s.deltas && r.listeners == s.listeners && r.itemListeners == s.itemListeners
  {
    ApplyBatchFrame(crdt, s.data, ds);
    forall id | id in NodesOf(ds)
      ensures ApplyBatch(crdt, s.data, ds)[id] == Fold(crdt, StartValue(crdt, s.data, id), DeltasFor(ds, id))
    {
      ApplyBatchFolds(crdt, s.data, ds, id);
    }
    var st := DeltaStamps(crdt, ds);
    MaxStampTruthy(MaxStampIn(st), st);
    if exists j :: 0 <= j < |ds| && crdt.stamp(ds[j].delta) != "" {
      var j :| 0 <= j < |ds| && crdt.stamp(ds[j].delta) != "";
      assert crdt.stamp(ds[j].delta) in st;
    }
  }

  /** After a `'full'` message each incoming document is merged into the local one or adopted,
      local documents the message does not carry are untouched, no listener is called, and the
      clock moves exactly when some snapshot has a non-empty latest stamp. */
  lemma FullMeaning<Data, Delta, H, V>(crdt: CrdtImpl<Data, Delta, V>, clock: ClockImpl<H>,
                                       s: CollectionState<Data, Delta, H, V>, incoming: map<string, Data>, now: int)
    ensures var r := AfterFull(crdt, clock, s, incoming, now);
      && r.data.Keys == s.data.Keys + incoming.Keys
      && (forall id :: id in incoming && id in s.data ==> r.data[id] == crdt.merge(s.data[id], incoming[id]))
      && (forall id :: id in incoming && id !in s.data ==> r.data[id] == incoming[id])
      && (forall id :: id in s.data && id !in incoming ==> r.data[id] == s.data[id])
      && ((forall id :: id in incoming ==> crdt.latestStamp(incoming[id]) == "") ==> r.hlc == s.hlc)
      && ((exists id :: id in incoming && crdt.latestStamp(incoming[id]) != "") ==>
            r.hlc == clock.recv(s.hlc, clock.unpack(MaxStampIn(SnapshotStamps(crdt, incoming))), now))
      && r.log == s.log && r.deltas == s.deltas && r.listeners == s.listeners && r.itemListeners == s.itemListeners
  {
    var st := SnapshotStamps(crdt, incoming);
    MaxStampTruthy(MaxStampIn(st), st);
    if exists id :: id in incoming && crdt.latestStamp(incoming[id]) != "" {
      var id :| id in incoming && crdt.latestStamp(incoming[id]) != "";
      assert crdt.latestStamp(incoming[id]) in st;
    }
  }

  /** A local change (`save`, `setAttribute`, `delete`) ticks the clock once, queues its delta
      when asked to, and applies it to its document alone. */
  lemma LocalChange<Data, Delta, H, V>(crdt: CrdtImpl<Data, Delta, V>, clock: ClockImpl<H>,
                                       s: CollectionState<Data, Delta, H, V>, now: int, id: string, d: Delta, queue: bool)
    ensures var r := AfterLocal(crdt, Ticked(clock, s, now), id, d, queue);
      && r.hlc == clock.inc(s.hlc, now)
      && r.deltas == (if queue then s.deltas + [d] else s.deltas)
      && r.data == s.data[id := crdt.applyDelta(StartValue(crdt, s.data, id), d)]
      && r.listeners == s.listeners && r.itemListeners == s.itemListeners
  {
    var one := [NodeDelta(id, d)];
    assert one[..0] == [];
    assert ApplyBatch(crdt, s.data, one[..0]) == s.data;
  }

  /** An empty batch still calls every collection listener, with an empty change list, and
      leaves the documents as they were. */
  lemma EmptyBatchNotifies<Data, Delta, H, V>(crdt: CrdtImpl<Data, Delta, V>, s: CollectionState<Data, Delta, H, V>)
    ensures AfterApply(crdt, s, []).data == s.data
    ensures AfterApply(crdt, s, []).log == s.log + Fanout(s.listeners, [])
  {
    assert ItemCalls(crdt, s.data, s.itemListeners, []) == [];
  }

  /** A snapshot merged into a collection without documents is adopted as it is: creating the
      collection from the snapshot and merging it agree. */
  lemma MergeIntoEmpty<Data, Delta, V>(crdt: CrdtImpl<Data, Delta, V>, incoming: map<string, Data>)
    ensures MergeSnapshots(crdt, map[], incoming) == incoming
  {
    var r := MergeSnapshots(crdt, map[], incoming);
    assert forall id :: id in r ==> r[id] == incoming[id];
  }

  /** When the CRDT's merge is associative and idempotent, a `'full'` message received twice leaves
      the documents as receiving it once does. */
  lemma MergeTwice<Data, Delta, V>(crdt: CrdtImpl<Data, Delta, V>, local: map<string, Data>, incoming: map<string, Data>)
    requires forall a :: crdt.merge(a, a) == a
    requires forall a, b, c :: crdt.merge(crdt.merge(a, b), c) == crdt.merge(a, crdt.merge(b, c))
    ensures MergeSnapshots(crdt, MergeSnapshots(crdt, local, incoming), incoming) == MergeSnapshots(crdt, local, incoming)
  {
    var once := MergeSnapshots(crdt, local, incoming);
    var twice := MergeSnapshots(crdt, once, incoming);
    forall id | id in twice ensures twice[id] == once[id] {
      if id in incoming {
        if id in local {
          assert crdt.merge(crdt.merge(local[id], incoming[id]), incoming[id])
            == crdt.merge(local[id], crdt.merge(incoming[id], incoming[id]));
        } else {
          assert crdt.merge(incoming[id], incoming[id]) == incoming[id];
        }
      }
    }
  }

  /** Nothing the client does fills `itemListeners`, so on every collection the item-listener
      loop of `applyDeltas` calls nothing and the batch only reaches the collection listeners. */
  lemma ItemLoopInert<Data, Delta, H, V>(crdt: CrdtImpl<Data, Delta, V>, s: CollectionState<Data, Delta, H, V>,
                                         ds: seq<NodeDelta<Delta>>)
    requires s.itemListeners == map[]
    ensures var r := AfterApply(crdt, s, ds);
      r.log == s.log + Fanout(s.listeners, ChangeList(crdt, r.data, FirstOccurrences(ds)))
  {
    NoItemCalls(crdt, ApplyBatch(crdt, s.data, ds), FirstOccurrences(ds));
  }

  /** Without item registrations no item listener is called. */
  lemma {:induction false} NoItemCalls<Data, Delta, V>(crdt: CrdtImpl<Data, Delta, V>, data: map<string, Data>,
                                                      ids: seq<string>)
    ensures ItemCalls(crdt, data, map[], ids) == []
  {
    if ids != [] {
      NoItemCalls(crdt, data, ids[..|ids| - 1]);
    }
  }
}
