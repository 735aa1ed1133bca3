/**
 The proxy table as a finite map from station addresses to entries: when addresses are unique,
 how that can be lost, and what each operation does to the map.
 */
module ClientWdsMap {
  import opened Common
  import opened ClientWds

  ghost predicate InChain(t: Tab, p: nat)
    requires Shaped(t)
  {
    exists l | 0 <= l < HASH_TAB_SIZE :: p in t.lists[l]
  }

  /** The pool entry `p` is chained under the address. */
  ghost predicate Bound(t: Tab, mac: Mac, p: nat)
    requires Shaped(t)
  {
    p < POOL_SIZE && InChain(t, p) && t.pool[p].addr == mac
  }

  ghost predicate Present(t: Tab, mac: Mac)
    requires Shaped(t)
  {
    exists p: nat :: Bound(t, mac, p)
  }

  ghost predicate Unique(t: Tab)
    requires Shaped(t)
  {
    forall mac, p: nat, q: nat | Bound(t, mac, p) && Bound(t, mac, q) :: p == q
  }

  ghost predicate AidsValid(t: Tab)
    requires Shaped(t)
  {
    forall mac, p: nat | Bound(t, mac, p) :: ValidWcid(t.pool[p].aid)
  }

  /** An entry whose Aid names no station: a lookup refreshes it but answers as if it were absent. */
  ghost predicate Stale(t: Tab, mac: Mac)
    requires Shaped(t)
  {
    exists p: nat :: Bound(t, mac, p) && !(0 < t.pool[p].aid < 32)
  }

  // ---------------------------------------------------------------- the chain walk finds what is there

  lemma FoundIff(t: Tab, mac: Mac)
    requires Shaped(t) && Good(t)
    ensures var l := Hash(mac); var i := Find(t, l, 0, mac);
            && (i < |t.lists[l]| <==> Present(t, mac))
            && (i < |t.lists[l]| ==> Bound(t, mac, t.lists[l][i]))
  {
    var l := Hash(mac);
    var i := Find(t, l, 0, mac);
    if i < |t.lists[l]| {
      assert t.lists[l][i] in t.lists[l];
      assert Bound(t, mac, t.lists[l][i]);
    }
    if Present(t, mac) {
      var p: nat :| Bound(t, mac, p);
      var m :| 0 <= m < HASH_TAB_SIZE && p in t.lists[m];
      var k :| 0 <= k < |t.lists[m]| && t.lists[m][k] == p;
      assert m == l;
    }
  }

  lemma LookupBindings(t: Tab, mac: Mac, now: nat)
    requires Shaped(t)
    ensures var u := LookupStep(t, mac, now).0;
            u.lists == t.lists && forall m, p: nat :: Bound(u, m, p) <==> Bound(t, m, p)
  {
    var u := LookupStep(t, mac, now).0;
    forall p: nat
      ensures InChain(u, p) <==> InChain(t, p)
    {
    }
    assert forall p | 0 <= p < POOL_SIZE :: u.pool[p].addr == t.pool[p].addr;
  }

  lemma UpdateBindings(t: Tab, aid: int, mac: Mac, now1: nat, now2: nat)
    requires Shaped(t) && Good(t)
    requires LookupStep(t, mac, now1).1 == None && t.lists[FREE] != []
    ensures var u := UpdateStep(t, aid, mac, now1, now2); var n := t.lists[FREE][0];
            && !InChain(t, n)
            && u.pool[n] == Entry(now2, aid, mac)
            && forall m, p: nat :: Bound(u, m, p) <==> if p == n then m == mac else Bound(t, m, p)
  {
    var t1 := LookupStep(t, mac, now1).0;
    var n, l := t.lists[FREE][0], Hash(mac);
    LookupKeepsGood(t, mac, now1);
    LookupBindings(t, mac, now1);
    MoveMembers(t1, FREE, 0, l);
    var u := UpdateStep(t, aid, mac, now1, now2);
    assert n in t.lists[FREE];
    forall p: nat
      ensures InChain(u, p) <==> p == n || InChain(t, p)
    {
      if InChain(u, p) {
        var k :| 0 <= k < HASH_TAB_SIZE && p in u.lists[k];
        assert p == n || p in t.lists[k];
      }
      if p == n {
        assert p in u.lists[l];
      } else if InChain(t, p) {
        var k :| 0 <= k < HASH_TAB_SIZE && p in t.lists[k];
        assert p in u.lists[k];
      }
    }
    forall m, p: nat
      ensures Bound(u, m, p) <==> if p == n then m == mac else Bound(t, m, p)
    {
      assert p < POOL_SIZE && p != n ==> u.pool[p].addr == t.pool[p].addr;
    }
  }

  lemma MaintainBindings(t: Tab, now: nat, hz: nat)
    requires Shaped(t)
    ensures var u := SweepFrom(t, 0, now, hz);
            && u.pool == t.pool
            && forall m, p: nat :: Bound(u, m, p) <==> Bound(t, m, p) && !Aged(t.pool[p], now, hz)
  {
    hide SweepFrom, Aged, Kept;
    var u := SweepFrom(t, 0, now, hz);
    SweepFilters(t, 0, now, hz);
    forall l | 0 <= l < HASH_TAB_SIZE
      ensures forall p: nat :: p in u.lists[l] <==> p in t.lists[l] && p < POOL_SIZE && !Aged(t.pool[p], now, hz)
    {
      FilterMembers(t, t.lists[l], now, hz);
    }
    forall p: nat | p < POOL_SIZE
      ensures InChain(u, p) <==> InChain(t, p) && !Aged(t.pool[p], now, hz)
    {
      if InChain(t, p) && !Aged(t.pool[p], now, hz) {
        var l :| 0 <= l < HASH_TAB_SIZE && p in t.lists[l];
        assert p in u.lists[l];
      }
    }
  }

  // ---------------------------------------------------------------- uniqueness

  /** An update keeps addresses unique exactly when it does not meet a stale entry of its address with a free
      entry left to duplicate it into. */
  lemma UpdateUniqueIff(t: Tab, aid: int, mac: Mac, now1: nat, now2: nat)
    requires Shaped(t) && Good(t) && Unique(t)
    ensures Unique(UpdateStep(t, aid, mac, now1, now2)) <==> !(Stale(t, mac) && t.lists[FREE] != [])
  {
    FoundIff(t, mac);
    LookupBindings(t, mac, now1);
    var u := UpdateStep(t, aid, mac, now1, now2);
    var i := Find(t, Hash(mac), 0, mac);
    if LookupStep(t, mac, now1).1 == None && t.lists[FREE] != [] {
      UpdateBindings(t, aid, mac, now1, now2);
      var n := t.lists[FREE][0];
      assert Bound(u, mac, n);
      if i < |t.lists[Hash(mac)]| {
        var p := t.lists[Hash(mac)][i];
        assert Bound(t, mac, p) && Bound(u, mac, p);
      }
    } else if Stale(t, mac) {
      var p: nat :| Bound(t, mac, p) && !ValidWcid(t.pool[p].aid);
      assert p == t.lists[Hash(mac)][i];
    }
  }

  lemma StalePresent(t: Tab, mac: Mac)
    requires Shaped(t)
    ensures Stale(t, mac) ==> Present(t, mac)
  {
  }

  /** An update with an invalid Aid followed by another of the same address leaves it in the table twice. */
  lemma StaleDuplicates(t: Tab, aid: int, mac: Mac, now: nat)
    requires Shaped(t) && Good(t) && Unique(t) && !Present(t, mac) && |t.lists[FREE]| >= 2
    requires !(0 < aid < 32)
    ensures !Unique(UpdateStep(UpdateStep(t, aid, mac, now, now), aid, mac, now, now))
  {
    FoundIff(t, mac);
    UpdateBindings(t, aid, mac, now, now);
    LookupBindings(t, mac, now);
    var u := UpdateStep(t, aid, mac, now, now);
    UpdateKeepsGood(t, aid, mac, now, now);
    UpdateUniqueIff(t, aid, mac, now, now);
    assert !Stale(t, mac) by {
      StalePresent(t, mac);
    }
    var n := t.lists[FREE][0];
    assert Bound(u, mac, n) && !ValidWcid(u.pool[n].aid);
    assert u.lists[FREE] == t.lists[FREE][1..];
    UpdateUniqueIff(u, aid, mac, now, now);
  }

  /** The event is no update that meets a stale entry of its address while an entry is free. */
  ghost predicate Distinct(t: Tab, e: Event)
    requires Shaped(t)
  {
    e.Update? ==> !(Stale(t, e.mac) && t.lists[FREE] != [])
  }

  lemma StepUniqueIff(t: Tab, e: Event)
    requires Shaped(t) && Good(t) && Unique(t)
    ensures Unique(Step(t, e)) <==> Distinct(t, e)
  {
    match e
    case Lookup(mac, now) => LookupBindings(t, mac, now);
    case Update(aid, mac, now1, now2) => UpdateUniqueIff(t, aid, mac, now1, now2);
    case Maintain(now, hz) =>
      hide SweepFrom, Aged;
      MaintainBindings(t, now, hz);
  }

  ghost predicate AllDistinct(t: Tab, es: seq<Event>)
    requires Shaped(t)
    decreases |es|
  {
    es != [] ==> Distinct(t, es[0]) && AllDistinct(Step(t, es[0]), es[1..])
  }

  ghost predicate UniqueThroughout(t: Tab, es: seq<Event>)
    requires Shaped(t)
    decreases |es|
  {
    es != [] ==> Unique(Step(t, es[0])) && UniqueThroughout(Step(t, es[0]), es[1..])
  }

  /** Addresses stay unique throughout a run exactly when no update of it meets a stale entry of its address with a free
      entry left. */
  lemma {:induction false} RunUniqueIff(t: Tab, es: seq<Event>)
    requires Shaped(t) && Good(t) && Unique(t)
    ensures UniqueThroughout(t, es) <==> AllDistinct(t, es)
    decreases |es|
  {
    hide Good, Unique, Step, Distinct;
    if es != [] {
      StepKeepsGood(t, es[0]);
      StepUniqueIff(t, es[0]);
      if Distinct(t, es[0]) {
        RunUniqueIff(Step(t, es[0]), es[1..]);
      }
    }
  }

  predicate ValidAid(e: Event) {
    e.Update? ==> 0 < e.aid < 32
  }

  lemma StepKeepsUnique(t: Tab, e: Event)
    requires Shaped(t) && Good(t) && Unique(t) && AidsValid(t) && ValidAid(e)
    ensures Unique(Step(t, e)) && AidsValid(Step(t, e))
  {
    match e
    case Lookup(mac, now) => LookupBindings(t, mac, now);
    case Update(aid, mac, now1, now2) =>
      UpdateUniqueIff(t, aid, mac, now1, now2);
      LookupBindings(t, mac, now1);
      if LookupStep(t, mac, now1).1 == None && t.lists[FREE] != [] {
        UpdateBindings(t, aid, mac, now1, now2);
      }
    case Maintain(now, hz) => MaintainBindings(t, now, hz);
  }

  /** While every update names a valid station, addresses stay unique over every run. */
  lemma {:induction false} RunKeepsUnique(t: Tab, es: seq<Event>)
    requires Shaped(t) && Good(t) && Unique(t) && AidsValid(t)
    requires forall e | e in es :: ValidAid(e)
    ensures Good(Run(t, es)) && Unique(Run(t, es)) && AidsValid(Run(t, es))
    decreases |es|
  {
    hide Good, Unique, AidsValid, Step;
    if es != [] {
      assert es[0] in es;
      StepKeepsGood(t, es[0]);
      StepKeepsUnique(t, es[0]);
      assert forall e | e in es[1..] :: e in es;
      RunKeepsUnique(Step(t, es[0]), es[1..]);
    }
  }

  // ---------------------------------------------------------------- the finite map

  ghost function Content(t: Tab): (m: map<Mac, Entry>)
    requires Shaped(t) && Unique(t)
    ensures forall mac :: mac in m <==> Present(t, mac)
    ensures forall mac, p: nat | Bound(t, mac, p) :: mac in m && m[mac] == t.pool[p]
  {
    var bound := set p: nat | p < POOL_SIZE && InChain(t, p);
    assert forall p | p in bound :: Bound(t, t.pool[p].addr, p);
    assert forall mac, p: nat | Bound(t, mac, p) :: p in bound;
    map p | p in bound :: t.pool[p].addr := t.pool[p]
  }

  lemma ContentIs(t: Tab, m: map<Mac, Entry>)
    requires Shaped(t) && Unique(t)
    requires forall mac :: mac in m <==> Present(t, mac)
    requires forall mac, p: nat | Bound(t, mac, p) :: mac in m && m[mac] == t.pool[p]
    ensures Content(t) == m
  {
    hide Bound;
    forall mac | mac in m
      ensures m[mac] == Content(t)[mac]
    {
      var p: nat :| Bound(t, mac, p);
    }
  }

  /** What each operation does to a map of at most 128 bindings. */
  function MapStep(m: map<Mac, Entry>, e: Event): map<Mac, Entry> {
    match e
    case Lookup(mac, now) => Refresh(m, mac, now)
    case Update(aid, mac, now1, now2) =>
      if mac in m then Refresh(m, mac, now1) else if |m| < 128 then m[mac := Entry(now2, aid, mac)] else m
    case Maintain(now, hz) => map mac | mac in m && !Aged(m[mac], now, hz) :: m[mac]
  }

  function Refresh(m: map<Mac, Entry>, mac: Mac, now: nat): map<Mac, Entry> {
    if mac in m then m[mac := m[mac].(lastRef := now)] else m
  }

  /** A lookup either finds nothing and changes nothing, or refreshes one bound entry. */
  lemma LookupCases(t: Tab, mac: Mac, now: nat)
    requires Shaped(t) && Good(t)
    ensures var r := LookupStep(t, mac, now);
            if Present(t, mac)
            then exists p: nat :: Bound(t, mac, p) && r.0.pool == t.pool[p := t.pool[p].(lastRef := now)] &&
                   r.1 == if ValidWcid(t.pool[p].aid) then Some(t.pool[p].aid) else None
            else r == (t, None)
  {
    FoundIff(t, mac);
  }

  lemma RefreshIsMap(t: Tab, u: Tab, mac: Mac, now: nat, p: nat)
    requires Shaped(t) && Shaped(u) && Unique(t) && Bound(t, mac, p)
    requires p < POOL_SIZE && u.pool == t.pool[p := t.pool[p].(lastRef := now)]
    requires forall a, q: nat :: Bound(u, a, q) <==> Bound(t, a, q)
    ensures Unique(u) && Content(u) == Refresh(Content(t), mac, now)
  {
    BoundInPool(t);
    hide Bound, InChain;
    var m := Refresh(Content(t), mac, now);
    forall a, q: nat | Bound(u, a, q)
      ensures a in m && m[a] == u.pool[q]
    {
      assert Bound(t, a, q);
    }
    assert forall a :: Present(u, a) <==> Present(t, a);
    ContentIs(u, m);
  }

  lemma LookupIsMap(t: Tab, mac: Mac, now: nat)
    requires Shaped(t) && Good(t) && Unique(t) && AidsValid(t)
    ensures var r := LookupStep(t, mac, now);
            && Unique(r.0) && Content(r.0) == Refresh(Content(t), mac, now)
            && r.1 == if mac in Content(t) then Some(Content(t)[mac].aid) else None
  {
    hide Bound, LookupStep, Good, Unique, Refresh, Content;
    LookupBindings(t, mac, now);
    LookupCases(t, mac, now);
    BoundInPool(t);
    if Present(t, mac) {
      var r := LookupStep(t, mac, now);
      var p: nat :| Bound(t, mac, p) && r.0.pool == t.pool[p := t.pool[p].(lastRef := now)] &&
                    r.1 == if ValidWcid(t.pool[p].aid) then Some(t.pool[p].aid) else None;
      RefreshIsMap(t, r.0, mac, now, p);
      ContentAt(t, mac, p);
    } else {
      ContentAbsent(t, mac, now);
    }
  }

  lemma ContentAt(t: Tab, mac: Mac, p: nat)
    requires Shaped(t) && Unique(t) && Bound(t, mac, p)
    ensures mac in Content(t) && p < POOL_SIZE && Content(t)[mac] == t.pool[p]
  {
  }

  lemma ContentAbsent(t: Tab, mac: Mac, now: nat)
    requires Shaped(t) && Unique(t) && !Present(t, mac)
    ensures mac !in Content(t) && Refresh(Content(t), mac, now) == Content(t)
  {
  }

  // The map is full exactly when no entry is free, so the table's free list need not be seen from outside.

  function Below(n: nat): (s: set<nat>)
    ensures |s| == n && forall p: nat :: p in s <==> p < n
  {
    if n == 0 then {} else Below(n - 1) + {n - 1}
  }

  ghost function ChainedEntries(t: Tab): (s: set<nat>)
    requires Shaped(t)
    ensures forall p: nat :: p in s <==> p < POOL_SIZE && InChain(t, p)
  {
    set p: nat | p < POOL_SIZE && InChain(t, p)
  }

  lemma ChainedFull(t: Tab)
    requires Shaped(t) && Good(t)
    ensures t.lists[FREE] == [] <==> |ChainedEntries(t)| == POOL_SIZE
  {
    var s := ChainedEntries(t);
    if t.lists[FREE] == [] {
      forall p: nat | p < POOL_SIZE
        ensures InChain(t, p)
      {
        assert InSome(t, p);
      }
      assert s == Below(POOL_SIZE);
    } else {
      var n := t.lists[FREE][0];
      assert n in t.lists[FREE] && !InChain(t, n);
      Fewer(s, Below(POOL_SIZE), n);
    }
  }

  lemma Fewer(s: set<nat>, u: set<nat>, n: nat)
    requires s <= u && n in u && n !in s
    ensures |s| < |u|
  {
    Subset(s, u - {n});
  }

  lemma {:induction false} Subset(s: set<nat>, u: set<nat>)
    requires s <= u
    ensures |s| <= |u|
    decreases |s|
  {
    if s != {} {
      var x :| x in s;
      Subset(s - {x}, u - {x});
    }
  }

  lemma {:induction false} DistinctAddresses(pool: seq<Entry>, s: set<nat>)
    requires forall p | p in s :: p < |pool|
    requires forall p, q | p in s && q in s && pool[p].addr == pool[q].addr :: p == q
    ensures |set p | p in s :: pool[p].addr| == |s|
    decreases |s|
  {
    var image := set p | p in s :: pool[p].addr;
    if s == {} {
      assert image == {};
    } else {
      var x :| x in s;
      var rest := s - {x};
      DistinctAddresses(pool, rest);
      assert pool[x].addr !in (set p | p in rest :: pool[p].addr);
      assert image == (set p | p in rest :: pool[p].addr) + {pool[x].addr};
    }
  }

  /** The table has no free entry exactly when the map has as many bindings as the pool has entries. */
  lemma FullIff(t: Tab)
    requires Shaped(t) && Good(t) && Unique(t)
    ensures t.lists[FREE] == [] <==> |Content(t)| == 128
    ensures |Content(t)| <= 128
  {
    var s := ChainedEntries(t);
    ChainedFull(t);
    Subset(s, Below(POOL_SIZE));
    forall p, q | p in s && q in s && t.pool[p].addr == t.pool[q].addr
      ensures p == q
    {
      assert Bound(t, t.pool[p].addr, p) && Bound(t, t.pool[p].addr, q);
    }
    DistinctAddresses(t.pool, s);
    ContentKeys(t);
    assert |Content(t)| == |Content(t).Keys|;
  }

  lemma ContentKeys(t: Tab)
    requires Shaped(t) && Unique(t)
    ensures Content(t).Keys == set p | p in ChainedEntries(t) :: t.pool[p].addr
  {
    var keys := set p | p in ChainedEntries(t) :: t.pool[p].addr;
    forall mac
      ensures mac in Content(t).Keys <==> mac in keys
    {
      if mac in Content(t).Keys {
        var p: nat :| Bound(t, mac, p);
        assert p in ChainedEntries(t);
      }
      if mac in keys {
        var p :| p in ChainedEntries(t) && t.pool[p].addr == mac;
        assert Bound(t, mac, p);
      }
    }
  }

  lemma UpdateIsMap(t: Tab, aid: int, mac: Mac, now1: nat, now2: nat)
    requires Shaped(t) && Good(t) && Unique(t) && AidsValid(t) && ValidWcid(aid)
    ensures var u := UpdateStep(t, aid, mac, now1, now2);
            && Unique(u)
            && Content(u) == MapStep(Content(t), Update(aid, mac, now1, now2))
  {
    StepKeepsUnique(t, Update(aid, mac, now1, now2));
    LookupIsMap(t, mac, now1);
    FullIff(t);
    if mac !in Content(t) && t.lists[FREE] != [] {
      InsertIsMap(t, aid, mac, now1, now2);
    }
  }

  lemma InsertIsMap(t: Tab, aid: int, mac: Mac, now1: nat, now2: nat)
    requires Shaped(t) && Good(t) && Unique(t) && t.lists[FREE] != []
    requires LookupStep(t, mac, now1).1 == None && !Present(t, mac)
    requires Unique(UpdateStep(t, aid, mac, now1, now2))
    ensures Content(UpdateStep(t, aid, mac, now1, now2)) == Content(t)[mac := Entry(now2, aid, mac)]
  {
    UpdateBindings(t, aid, mac, now1, now2);
    FoundIff(t, mac);
    var n := t.lists[FREE][0];
    var u := UpdateStep(t, aid, mac, now1, now2);
    assert forall p | 0 <= p < POOL_SIZE && p != n :: u.pool[p] == t.pool[p];
    BoundInPool(t);
    hide Bound, InChain, UpdateStep, Good;
    assert Bound(u, mac, n);
    forall a
      ensures Present(u, a) <==> a == mac || Present(t, a)
    {
      if Present(t, a) {
        var p: nat :| Bound(t, a, p);
        assert p != n by {
          UnchainedUnbound(t, a, n);
        }
        assert Bound(u, a, p);
      }
    }
    ContentIs(u, Content(t)[mac := Entry(now2, aid, mac)]);
  }

  lemma BoundInPool(t: Tab)
    requires Shaped(t)
    ensures forall mac, p: nat | Bound(t, mac, p) :: p < POOL_SIZE && t.pool[p].addr == mac
  {
  }

  lemma UnchainedUnbound(t: Tab, mac: Mac, p: nat)
    requires Shaped(t) && !InChain(t, p)
    ensures !Bound(t, mac, p)
  {
  }

  lemma FreshOnes(m: map<Mac, Entry>, now: nat, hz: nat)
    ensures MapStep(m, Maintain(now, hz)) ==
            map mac | mac in m && !(0 < (now - m[mac].lastRef - 5 * hz) % 0x1_0000_0000 <= 0x8000_0000) :: m[mac]
  {
    hide Aged;
    forall mac | mac in m
      ensures Aged(m[mac], now, hz) <==> 0 < (now - m[mac].lastRef - 5 * hz) % 0x1_0000_0000 <= 0x8000_0000
    {
      AgedIs(m[mac], now, hz);
    }
  }

  lemma MaintainIsMap(t: Tab, now: nat, hz: nat)
    requires Shaped(t) && Good(t) && Unique(t) && AidsValid(t)
    ensures var u := SweepFrom(t, 0, now, hz);
            Unique(u) && Content(u) == MapStep(Content(t), Maintain(now, hz))
    ensures var m := Content(t);
            Content(SweepFrom(t, 0, now, hz)) ==
            map mac | mac in m && !(0 < (now - m[mac].lastRef - 5 * hz) % 0x1_0000_0000 <= 0x8000_0000) :: m[mac]
  {
    FreshOnes(Content(t), now, hz);
    MaintainBindings(t, now, hz);
    hide SweepFrom, Aged, Bound, InChain, Good;
    var u := SweepFrom(t, 0, now, hz);
    var kept := MapStep(Content(t), Maintain(now, hz));
    forall a
      ensures Present(u, a) <==> a in kept
    {
      if a in kept {
        var p: nat :| Bound(t, a, p);
        assert Bound(u, a, p);
      }
      if Present(u, a) {
        var p: nat :| Bound(u, a, p);
        assert Bound(t, a, p);
      }
    }
    ContentIs(u, kept);
  }

  /** What a lookup answers; the other operations answer nothing. */
  function Answer(t: Tab, e: Event): seq<Option<int>>
    requires Shaped(t)
  {
    if e.Lookup? then [LookupStep(t, e.mac, e.now).1] else []
  }

  function MapAnswer(m: map<Mac, Entry>, e: Event): seq<Option<int>> {
    if e.Lookup? then [if e.mac in m then Some(m[e.mac].aid) else None] else []
  }

  /** One operation of the table is one operation of the map. */
  lemma StepIsMap(t: Tab, e: Event)
    requires Shaped(t) && Good(t) && Unique(t) && AidsValid(t) && ValidAid(e)
    ensures Unique(Step(t, e)) && Content(Step(t, e)) == MapStep(Content(t), e)
    ensures Answer(t, e) == MapAnswer(Content(t), e)
  {
    match e
    case Lookup(mac, now) => LookupIsMap(t, mac, now);
    case Update(aid, mac, now1, now2) => UpdateIsMap(t, aid, mac, now1, now2);
    case Maintain(now, hz) => MaintainIsMap(t, now, hz);
  }

  function MapRun(m: map<Mac, Entry>, es: seq<Event>): map<Mac, Entry>
    decreases |es|
  {
    if es == [] then m else MapRun(MapStep(m, es[0]), es[1..])
  }

  function Answers(t: Tab, es: seq<Event>): seq<Option<int>>
    requires Shaped(t)
    decreases |es|
  {
    if es == [] then [] else Answer(t, es[0]) + Answers(Step(t, es[0]), es[1..])
  }

  function MapAnswers(m: map<Mac, Entry>, es: seq<Event>): seq<Option<int>>
    decreases |es|
  {
    if es == [] then [] else MapAnswer(m, es[0]) + MapAnswers(MapStep(m, es[0]), es[1..])
  }

  /** Over every run whose updates name valid stations the table is the map: the same bindings, the same answers. */
  lemma {:induction false} RunIsMap(t: Tab, es: seq<Event>)
    requires Shaped(t) && Good(t) && Unique(t) && AidsValid(t)
    requires forall e | e in es :: ValidAid(e)
    ensures Unique(Run(t, es)) && Content(Run(t, es)) == MapRun(Content(t), es)
    ensures Answers(t, es) == MapAnswers(Content(t), es)
    decreases |es|
  {
    hide Good, Unique, AidsValid, Step, Content, MapStep, Answer, MapAnswer;
    if es != [] {
      assert es[0] in es;
      StepKeepsGood(t, es[0]);
      StepKeepsUnique(t, es[0]);
      StepIsMap(t, es[0]);
      assert forall e | e in es[1..] :: e in es;
      RunIsMap(Step(t, es[0]), es[1..]);
    }
  }
}
