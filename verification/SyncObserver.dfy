/** The observer itself: its maps updated in place, one poll, export or restart at a time. */
module SyncObserver {
  import opened Wrappers
  import opened Model
  import opened BucketTables
  import opened BucketRefinement
  import opened BucketMap
  import opened Observation

  datatype Error = DeltaForGauge

  /** What an export hands over. */
  datatype Series<V> = Series(startTime: int, series: map<seq<KeyValue>, seq<Reading<V>>>, mode: Mode, kind: Kind)

  function At<V>(m: map<seq<KeyValue>, seq<Reading<V>>>, key: seq<KeyValue>): seq<Reading<V>> {
    if key in m then m[key] else []
  }

  function LastAt<V>(m: Option<map<seq<KeyValue>, V>>, key: seq<KeyValue>): Option<V> {
    if m.Some? && key in m.value then Some(m.value[key]) else None
  }

  // ---------------------------------------------------------------- what a visit shows

  /** The visit shows every set once, with the plain map's value, and nothing else. */
  ghost predicate Shows<A, V>(kit: Kit<A, V>, visited: seq<(seq<KeyValue>, A)>, p: Plain<A>) {
    && (forall i, k :: 0 <= i < k < |visited| ==> visited[i].0 != visited[k].0)
    && (forall i :: 0 <= i < |visited| ==> Shown(kit, p, visited[i].0) == Some(kit.current(visited[i].1)))
    && (forall key :: Shown(kit, p, key).Some? ==> exists i :: 0 <= i < |visited| && visited[i].0 == key)
  }

  lemma VisitShowsAll<A, V>(kit: Kit<A, V>, hs: Hasher, lists: set<seq<KeyValue>>, t: Tables<A>)
    requires Valid(hs, lists, t)
    ensures InRange(t) && Shows(kit, Visited(t), Abs(t))
  {
    ValidInRange(hs, lists, t);
    var visited, n := Visited(t), |t.canonical|;
    forall i | 0 <= i < n
      ensures visited[i].0 == t.canonical[i].attrs != []
      ensures Shown(kit, Abs(t), visited[i].0) == Some(kit.current(visited[i].1))
    {
      assert CanonOk(hs, |t.cells|, t.canonical[i]);
      EntryIsBucketAt(hs, lists, t, i);
    }
    forall key | Shown(kit, Abs(t), key).Some? ensures exists i :: 0 <= i < |visited| && visited[i].0 == key {
      var i := if key == [] then n else IndexOf(t.canonical, key);
      assert visited[i].0 == key;
    }
  }

  /** A set is either shown, at one place, or not in the plain map. */
  lemma OnceEach<A, V>(kit: Kit<A, V>, visited: seq<(seq<KeyValue>, A)>, p: Plain<A>, key: seq<KeyValue>)
    requires Shows(kit, visited, p)
    ensures || (Shown(kit, p, key).None? && forall i :: 0 <= i < |visited| ==> visited[i].0 != key)
            || exists i :: 0 <= i < |visited| && visited[i].0 == key
                           && Shown(kit, p, key) == Some(kit.current(visited[i].1))
  {
  }

  class Observer<A(0, !new), V(==, 0, !new)> {
    const kit: Kit<A, V>
    const source: Map<A>
    const mode: Mode
    const kind: Kind

    var startTime: int
    var seqId: nat
    var series: map<seq<KeyValue>, seq<Reading<V>>>
    var lastValues: Option<map<seq<KeyValue>, V>>

    ghost predicate Valid()
      reads this
    {
      lastValues.Some? <==> mode.Delta?
    }

    /** The observer's state for one attribute set. */
    ghost function TrackOf(key: seq<KeyValue>): Track<V>
      reads this
    {
      Track(At(series, key), LastAt(lastValues, key), seqId)
    }

    constructor Watching(kit: Kit<A, V>, source: Map<A>, mode: Mode, kind: Kind, now: int)
      ensures Valid() && this.kit == kit && this.source == source && this.mode == mode && this.kind == kind
      ensures startTime == now && forall key :: TrackOf(key) == Track([], None, 0)
    {
      this.kit, this.source, this.mode, this.kind := kit, source, mode, kind;
      startTime, seqId, series := now, 0, map[];
      lastValues := if mode.Delta? then Some(map[]) else None;
    }

    method Restart(startTime: int)
      requires Valid()
      modifies this
      ensures Valid() && this.startTime == startTime
      ensures forall key :: TrackOf(key) == Track([], None, 0)
    {
      this.startTime, seqId, series := startTime, 0, map[];
      if lastValues.Some? {
        lastValues := Some(map[]);
      }
    }

    /** One poll. Unless it is destructive, the source is left exactly as it was, tables and all. */
    method Observe(ts: int)
      requires Valid() && source.Ok()
      modifies this, source
      ensures Valid() && source.Ok() && startTime == old(startTime)
      ensures forall key :: TrackOf(key) ==
                TrackPoll(kit, mode, key, old(TrackOf(key)), ts, Shown(kit, old(source.Contents()), key))
      ensures mode.Destructive? ==>
                forall key :: At(series, key) ==
                  old(At(series, key)) + Found(kit, old(source.Contents()), key, ts, old(seqId))
      ensures !mode.Destructive? ==> source.State() == old(source.State())
      ensures mode.Destructive? ==> source.Contents() == Plain(map[], source.init, false)
    {
      if mode.Destructive? {
        ObserveDestructive(ts);
      } else {
        ObserveKeeping(ts);
      }
    }

    method ObserveKeeping(ts: int)
      requires Valid() && source.Ok() && !mode.Destructive?
      modifies this, source
      ensures Valid() && source.Ok() && startTime == old(startTime)
      ensures forall key :: TrackOf(key) ==
                TrackPoll(kit, mode, key, old(TrackOf(key)), ts, Shown(kit, old(source.Contents()), key))
      ensures source.State() == old(source.State())
    {
      VisitShowsAll(kit, source.hasher, source.lists, source.State());
      VisitKeepingAll(source.hasher, source.State(), source.init, (_, _) => true);
      var visited := source.VisitBucket((_, _) => true);
      VisitAll(ts, visited);
      forall key ensures Polled(key, old(TrackOf(key)), ts, Shown(kit, old(source.Contents()), key)) {
        OnceEach(kit, visited, old(source.Contents()), key);
      }
      seqId := seqId + 1;
    }

    /** The visit's callback, for each set shown. */
    method VisitAll(ts: int, visited: seq<(seq<KeyValue>, A)>)
      requires Valid() && !mode.Destructive?
      requires forall i, k :: 0 <= i < k < |visited| ==> visited[i].0 != visited[k].0
      modifies this`series, this`lastValues
      ensures Valid()
      ensures forall k :: 0 <= k < |visited| ==>
            Polled(visited[k].0, old(TrackOf(visited[k].0)), ts, Some(kit.current(visited[k].1)))
      ensures forall key :: (forall k :: 0 <= k < |visited| ==> visited[k].0 != key) ==>
            TrackOf(key) == old(TrackOf(key))
    {
      for i := 0 to |visited|
        invariant Valid()
        invariant forall k :: 0 <= k < i ==>
              Polled(visited[k].0, old(TrackOf(visited[k].0)), ts, Some(kit.current(visited[k].1)))
        invariant forall key :: (forall k :: 0 <= k < i ==> visited[k].0 != key) ==> TrackOf(key) == old(TrackOf(key))
      {
        VisitOne(ts, visited[i].0, kit.current(visited[i].1));
      }
    }

    /** The set's state is what the poll makes of it, but for the poll counter, which moves at the end. */
    ghost predicate Polled(key: seq<KeyValue>, before: Track<V>, ts: int, shown: Option<V>)
      reads this
    {
      TrackOf(key).(seqId := seqId + 1) == TrackPoll(kit, mode, key, before, ts, shown)
    }

    /** The callback of the visit: at most one reading for the set shown, none for any other. */
    method VisitOne(ts: int, attrs: seq<KeyValue>, current: V)
      requires Valid() && !mode.Destructive?
      modifies this`series, this`lastValues
      ensures Valid() && Polled(attrs, old(TrackOf(attrs)), ts, Some(current))
      ensures forall key :: key != attrs ==> TrackOf(key) == old(TrackOf(key))
    {
      var recorded := current;
      if lastValues.Some? {
        var last := lastValues.value;
        if attrs in last {
          var prev := last[attrs];
          if prev == current {
            return;
          }
          lastValues := Some(last[attrs := current]);
          if kit.less(prev, current) {
            recorded := kit.minus(current, prev);
          }
        } else {
          lastValues := Some(last[attrs := current]);
        }
      }
      Push(attrs, Reading(ts, seqId, recorded));
    }

    method Push(attrs: seq<KeyValue>, r: Reading<V>)
      modifies this`series
      ensures At(series, attrs) == old(At(series, attrs)) + [r]
      ensures forall key :: key != attrs ==> At(series, key) == old(At(series, key))
    {
      series := series[attrs := At(series, attrs) + [r]];
    }

    /** A destructive poll takes everything. It records the set without attributes whenever that was touched, initial
        or not, and any other set unless its value is initial. */
    method ObserveDestructive(ts: int)
      requires Valid() && source.Ok() && mode.Destructive?
      modifies this, source
      ensures Valid() && source.Ok() && startTime == old(startTime)
      ensures forall key :: TrackOf(key) ==
                TrackPoll(kit, mode, key, old(TrackOf(key)), ts, Shown(kit, old(source.Contents()), key))
      ensures forall key :: At(series, key) ==
                old(At(series, key)) + Found(kit, old(source.Contents()), key, ts, old(seqId))
      ensures source.Contents() == Plain(map[], source.init, false)
    {
      ghost var visited := Visited(source.State());
      VisitShowsAll(kit, source.hasher, source.lists, source.State());
      var table, noAttr := source.Take();
      DrainAll(ts, table, noAttr, visited);
      forall key ensures Polled(key, old(TrackOf(key)), ts, Shown(kit, old(source.Contents()), key)) {
        OnceEach(kit, visited, old(source.Contents()), key);
      }
      forall key ensures At(series, key) ==
          old(At(series, key)) + Found(kit, old(source.Contents()), key, ts, old(seqId))
      {
        assert Polled(key, old(TrackOf(key)), ts, Shown(kit, old(source.Contents()), key));
        PollAddsFound(kit, old(source.Contents()), key, old(TrackOf(key)), ts);
      }
      seqId := seqId + 1;
    }

    /** Records the entries taken, and the value of the set without attributes if it was touched. */
    method DrainAll(ts: int, table: seq<CanonEntry>, noAttr: Option<A>, ghost visited: seq<(seq<KeyValue>, A)>)
      requires mode.Destructive? && |visited| == |table| + if noAttr.Some? then 1 else 0
      requires forall i, k :: 0 <= i < k < |visited| ==> visited[i].0 != visited[k].0
      requires forall i :: 0 <= i < |table| ==> table[i].bucket < |source.cells| && table[i].attrs != []
      requires forall i :: 0 <= i < |table| ==> visited[i] == (table[i].attrs, source.cells[table[i].bucket])
      requires noAttr.Some? ==> visited[|table|] == ([], noAttr.value)
      modifies this`series
      ensures forall k :: 0 <= k < |visited| ==>
            Polled(visited[k].0, old(TrackOf(visited[k].0)), ts, Some(kit.current(visited[k].1)))
      ensures forall key :: (forall k :: 0 <= k < |visited| ==> visited[k].0 != key) ==>
            TrackOf(key) == old(TrackOf(key))
    {
      DrainTable(ts, table, visited);
      if noAttr.Some? {
        assert visited[|table|].0 == [];
        Push([], Reading(ts, seqId, kit.current(noAttr.value)));
      }
    }

    method DrainTable(ts: int, table: seq<CanonEntry>, ghost visited: seq<(seq<KeyValue>, A)>)
      requires mode.Destructive? && |table| <= |visited|
      requires forall i, k :: 0 <= i < k < |visited| ==> visited[i].0 != visited[k].0
      requires forall i :: 0 <= i < |table| ==> table[i].bucket < |source.cells| && table[i].attrs != []
      requires forall i :: 0 <= i < |table| ==> visited[i] == (table[i].attrs, source.cells[table[i].bucket])
      modifies this`series
      ensures forall k :: 0 <= k < |table| ==>
            Polled(visited[k].0, old(TrackOf(visited[k].0)), ts, Some(kit.current(visited[k].1)))
      ensures forall key :: (forall k :: 0 <= k < |table| ==> visited[k].0 != key) ==> TrackOf(key) == old(TrackOf(key))
    {
      for i := 0 to |table|
        invariant forall k :: 0 <= k < i ==>
              Polled(visited[k].0, old(TrackOf(visited[k].0)), ts, Some(kit.current(visited[k].1)))
        invariant forall key :: (forall k :: 0 <= k < i ==> visited[k].0 != key) ==> TrackOf(key) == old(TrackOf(key))
      {
        DrainOne(ts, table[i].attrs, kit.current(source.cells[table[i].bucket]));
      }
    }

    method DrainOne(ts: int, attrs: seq<KeyValue>, current: V)
      requires mode.Destructive? && attrs != []
      modifies this`series
      ensures Polled(attrs, old(TrackOf(attrs)), ts, Some(current))
      ensures forall key :: key != attrs ==> TrackOf(key) == old(TrackOf(key))
    {
      if !kit.isInitial(current) {
        Push(attrs, Reading(ts, seqId, current));
      }
    }

    /** Hands over what has been recorded since the last export. */
    method Export() returns (r: Series<V>)
      requires Valid()
      modifies this`series
      ensures Valid() && r.startTime == startTime && r.mode == mode && r.kind == kind
      ensures forall key :: At(r.series, key) == old(TrackOf(key)).series
      ensures forall key :: TrackOf(key) == old(TrackOf(key)).(series := [])
    {
      r := Series(startTime, series, mode, kind);
      series := map[];
    }
  }

  /** A delta observer of a gauge is refused; every other combination is accepted. */
  method New<A(0, !new), V(==, 0, !new)>(kit: Kit<A, V>, source: Map<A>, mode: Mode, kind: Kind, now: int)
      returns (r: Result<Observer<A, V>, Error>)
    ensures r.Err? <==> mode.Delta? && kind.Gauge?
    ensures r.Ok? ==> fresh(r.value) && r.value.Valid() && r.value.source == source && r.value.mode == mode
    ensures r.Ok? ==> r.value.kit == kit && r.value.kind == kind && r.value.startTime == now
    ensures r.Ok? ==> forall key :: r.value.TrackOf(key) == Track([], None, 0)
  {
    if mode.Delta? && kind.Gauge? {
      return Err(DeltaForGauge);
    }
    var observer := new Observer<A, V>.Watching(kit, source, mode, kind, now);
    r := Ok(observer);
  }
}
