/**
 The client-WDS proxy table, on values: a pool of entries, each in the free list or in one of
 the hash chains. `ClientWdsPool` implements these steps on linked lists.
 */
module ClientWds {
  import opened Common

  const POOL_SIZE: nat := 128
  const HASH_TAB_SIZE: nat := 64
  const FREE: nat := 64
  const LIST_COUNT: nat := 65
  const MAX_LEN_OF_MAC_TABLE := 32
  const AGEOUT: nat := 5000
  const WORD: nat := 0x1_0000_0000
  const HALF: nat := 0x8000_0000

  datatype Mac = Mac(b0: nat, b1: nat, b2: nat, b3: nat, b4: nat, b5: nat)

  datatype Entry = Entry(lastRef: nat, aid: int, addr: Mac)

  /** Chains 0 to 63 and the free list, each a sequence of pool indices; and the pool. */
  datatype Tab = Tab(lists: seq<seq<nat>>, pool: seq<Entry>)

  function Hash(mac: Mac): (h: nat)
    ensures h < HASH_TAB_SIZE
  {
    mac.b5 % HASH_TAB_SIZE
  }

  predicate ValidWcid(aid: int) {
    0 < aid < MAX_LEN_OF_MAC_TABLE
  }

  /** RTMP_TIME_AFTER on 32-bit tick counts: the wrapped difference, read as signed, is negative. */
  predicate TimeAfter(a: nat, b: nat) {
    (b - a) % WORD >= HALF
  }

  function AgeTicks(hz: nat): nat {
    AGEOUT * hz / 1000
  }

  predicate Aged(e: Entry, now: nat, hz: nat) {
    TimeAfter(now, (e.lastRef + AgeTicks(hz)) % WORD)
  }

  lemma WrappedDifference(n: nat, x: nat, y: nat)
    ensures ((n + x) % WORD - (n + y) % WORD) % WORD == (x - y) % WORD
  {
    var p, q := (n + x) / WORD, (n + y) / WORD;
    assert (n + x) % WORD - (n + y) % WORD == (x - y) + (q - p) * WORD;
  }

  /** Maintenance at `hz` ticks a second takes for aged what has been referred to more than five seconds ago, by at most
      half the range of the tick count. */
  lemma AgedIs(e: Entry, now: nat, hz: nat)
    ensures Aged(e, now, hz) <==> 0 < (now - e.lastRef - 5 * hz) % 0x1_0000_0000 <= 0x8000_0000
  {
    var n := e.lastRef + 5 * hz;
    assert AgeTicks(hz) == 5 * hz;
    WrappedTerm(n, now);
    Opposite(now - n);
  }

  lemma WrappedTerm(n: nat, x: nat)
    ensures (n % WORD - x) % WORD == (n - x) % WORD
  {
    var q := n / WORD;
    assert n % WORD - x == (n - x) - q * WORD;
  }

  /** So on tick counts that wrap an entry is aged exactly when more than five seconds have elapsed for every age up to
      half the range past that, and beyond exactly in every first half of a range; in the second halves an old entry
      counts as fresh. */
  lemma AgedIffElapsed(e: Entry, elapsed: nat, hz: nat)
    requires 5 * hz < 0x8000_0000
    ensures var aged, past := Aged(e, (e.lastRef + elapsed) % 0x1_0000_0000, hz), elapsed - 5 * hz;
            && (aged <==> 0 < past % 0x1_0000_0000 <= 0x8000_0000)
            && ((aged <==> past > 0) <==> (past <= 0 || 0 < past % 0x1_0000_0000 <= 0x8000_0000))
            && (past <= 0x8000_0000 ==> (aged <==> past > 0))
  {
    assert AgeTicks(hz) == 5 * hz;
    hide AgeTicks;
    WrappedDifference(e.lastRef, 5 * hz, elapsed);
    Opposite(elapsed - 5 * hz);
  }

  lemma Opposite(d: int)
    ensures -d % WORD >= HALF <==> 0 < d % WORD <= HALF
    ensures d + HALF > 0 && d <= HALF ==> (0 < d % WORD <= HALF <==> d > 0)
  {
  }

  predicate Shaped(t: Tab) {
    && |t.lists| == LIST_COUNT && |t.pool| == POOL_SIZE
    && (forall l, i | 0 <= l < LIST_COUNT && 0 <= i < |t.lists[l]| :: t.lists[l][i] < POOL_SIZE)
  }

  // ---------------------------------------------------------------- list steps

  function Remove(s: seq<nat>, i: nat): (r: seq<nat>)
    requires i < |s|
    ensures |r| == |s| - 1
  {
    s[..i] + s[i + 1..]
  }

  function Append(lists: seq<seq<nat>>, l: nat, p: nat): (r: seq<seq<nat>>)
    requires l < |lists|
    ensures |r| == |lists|
  {
    lists[l := lists[l] + [p]]
  }

  /** Entry `i` of list `l` goes to the tail of list `m`. */
  function Move(lists: seq<seq<nat>>, l: nat, i: nat, m: nat): (r: seq<seq<nat>>)
    requires l < |lists| && m < |lists| && i < |lists[l]|
    ensures |r| == |lists|
  {
    Append(lists[l := Remove(lists[l], i)], m, lists[l][i])
  }

  // ---------------------------------------------------------------- table steps

  /** The first position from `i` of a chain whose entry has the address, or the chain's length. */
  function Find(t: Tab, l: nat, i: nat, mac: Mac): (r: nat)
    requires Shaped(t) && l < LIST_COUNT && i <= |t.lists[l]|
    ensures i <= r <= |t.lists[l]|
    ensures forall k | i <= k < r :: t.pool[t.lists[l][k]].addr != mac
    ensures r < |t.lists[l]| ==> t.pool[t.lists[l][r]].addr == mac
    decreases |t.lists[l]| - i
  {
    if i == |t.lists[l]| || t.pool[t.lists[l][i]].addr == mac then i else Find(t, l, i + 1, mac)
  }

  /** CliWds_ProxyLookup: the entry found is refreshed, and its Aid returned if it names a station. */
  function LookupStep(t: Tab, mac: Mac, now: nat): (r: (Tab, Option<int>))
    requires Shaped(t)
    ensures Shaped(r.0)
  {
    var l := Hash(mac);
    var i := Find(t, l, 0, mac);
    if i == |t.lists[l]| then (t, None)
    else
      var p := t.lists[l][i];
      (t.(pool := t.pool[p := t.pool[p].(lastRef := now)]),
       if ValidWcid(t.pool[p].aid) then Some(t.pool[p].aid) else None)
  }

  /** CliWds_ProxyTabUpdate; the two clock readings are the lookup's and the insertion's. */
  function UpdateStep(t: Tab, aid: int, mac: Mac, now1: nat, now2: nat): (r: Tab)
    requires Shaped(t)
    ensures Shaped(r)
  {
    var (t1, found) := LookupStep(t, mac, now1);
    if found.Some? || t1.lists[FREE] == [] then t1
    else
      var p := t1.lists[FREE][0];
      Tab(Move(t1.lists, FREE, 0, Hash(mac)), t1.pool[p := Entry(now2, aid, mac)])
  }

  /** The maintenance walk of one chain from position `i`. */
  function SweepChain(t: Tab, l: nat, i: nat, now: nat, hz: nat): (r: Tab)
    requires Shaped(t) && l < FREE && i <= |t.lists[l]|
    ensures Shaped(r) && r.pool == t.pool
    decreases |t.lists[l]| - i
  {
    if i == |t.lists[l]| then t
    else if Aged(t.pool[t.lists[l][i]], now, hz) then SweepChain(t.(lists := Move(t.lists, l, i, FREE)), l, i, now,
        hz)
    else SweepChain(t, l, i + 1, now, hz)
  }

  /** CliWds_ProxyTabMaintain from chain `l` on. */
  function SweepFrom(t: Tab, l: nat, now: nat, hz: nat): (r: Tab)
    requires Shaped(t) && l <= HASH_TAB_SIZE
    ensures Shaped(r) && r.pool == t.pool
    decreases HASH_TAB_SIZE - l
  {
    if l == HASH_TAB_SIZE then t else SweepFrom(SweepChain(t, l, 0, now, hz), l + 1, now, hz)
  }

  datatype Event =
    | Lookup(mac: Mac, now: nat)
    | Update(aid: int, mac: Mac, now1: nat, now2: nat)
    | Maintain(now: nat, hz: nat)

  function Step(t: Tab, e: Event): (r: Tab)
    requires Shaped(t)
    ensures Shaped(r)
  {
    match e
    case Lookup(mac, now) => LookupStep(t, mac, now).0
    case Update(aid, mac, now1, now2) => UpdateStep(t, aid, mac, now1, now2)
    case Maintain(now, hz) => SweepFrom(t, 0, now, hz)
  }

  function Run(t: Tab, es: seq<Event>): (r: Tab)
    requires Shaped(t)
    ensures Shaped(r)
    decreases |es|
  {
    if es == [] then t else Run(Step(t, es[0]), es[1..])
  }

  // ---------------------------------------------------------------- each entry in exactly one list

  ghost predicate NoDup(s: seq<nat>) {
    forall i, j | 0 <= i < j < |s| :: s[i] != s[j]
  }

  ghost predicate InSome(t: Tab, p: nat) {
    exists l | 0 <= l < |t.lists| :: p in t.lists[l]
  }

  /** Every pool index is in one list, at one position. */
  ghost predicate Partition(t: Tab)
    requires Shaped(t)
  {
    && (forall l | 0 <= l < LIST_COUNT :: NoDup(t.lists[l]))
    && (forall l, m, p | 0 <= l < LIST_COUNT && 0 <= m < LIST_COUNT && p in t.lists[l] && p in t.lists[m] :: l == m)
    && (forall p | 0 <= p < POOL_SIZE :: InSome(t, p))
  }

  lemma RemoveFacts(s: seq<nat>, i: nat)
    requires i < |s| && NoDup(s)
    ensures NoDup(Remove(s, i))
    ensures forall p :: p in Remove(s, i) <==> p in s && p != s[i]
  {
    var r := Remove(s, i);
    forall p
      ensures p in r <==> p in s && p != s[i]
    {
      if p in s && p != s[i] {
        var j :| 0 <= j < |s| && s[j] == p;
        assert r[if j < i then j else j - 1] == p;
      }
    }
  }

  lemma AppendFacts(s: seq<nat>, p: nat)
    requires NoDup(s) && p !in s
    ensures NoDup(s + [p])
    ensures forall q :: q in s + [p] <==> q in s || q == p
  {
  }

  lemma MoveMembers(t: Tab, l: nat, i: nat, m: nat)
    requires Shaped(t) && Partition(t) && l < LIST_COUNT && m < LIST_COUNT && i < |t.lists[l]|
    ensures var p := t.lists[l][i]; var r := Move(t.lists, l, i, m);
            && (forall k | 0 <= k < LIST_COUNT :: NoDup(r[k]))
            && (forall k, q | 0 <= k < LIST_COUNT ::
                  q in r[k] <==> if q == p then k == m else q in t.lists[k])
  {
    var p := t.lists[l][i];
    var mid := t.lists[l := Remove(t.lists[l], i)];
    RemoveFacts(t.lists[l], i);
    assert p !in mid[m];
    AppendFacts(mid[m], p);
    forall k, q | 0 <= k < LIST_COUNT
      ensures q in Move(t.lists, l, i, m)[k] <==> if q == p then k == m else q in t.lists[k]
    {
      assert q in mid[k] <==> q in t.lists[k] && !(k == l && q == p);
    }
  }

  lemma MoveKeepsPartition(t: Tab, l: nat, i: nat, m: nat)
    requires Shaped(t) && Partition(t) && l < LIST_COUNT && m < LIST_COUNT && i < |t.lists[l]|
    ensures Shaped(t.(lists := Move(t.lists, l, i, m))) && Partition(t.(lists := Move(t.lists, l, i, m)))
  {
    hide Move, NoDup;
    MoveMembers(t, l, i, m);
    var p, r := t.lists[l][i], Move(t.lists, l, i, m);
    forall k, j | 0 <= k < LIST_COUNT && 0 <= j < |r[k]|
      ensures r[k][j] < POOL_SIZE
    {
      assert r[k][j] in r[k];
    }
    forall q | 0 <= q < POOL_SIZE
      ensures InSome(t.(lists := r), q)
    {
      assert InSome(t, q);
      var k :| 0 <= k < LIST_COUNT && q in t.lists[k];
      assert q in r[if q == p then m else k];
    }
  }

  // ---------------------------------------------------------------- maintenance is a filter

  predicate InPool(t: Tab, s: seq<nat>) {
    forall i | 0 <= i < |s| :: s[i] < |t.pool|
  }

  lemma ListInPool(t: Tab, l: nat, i: nat)
    requires Shaped(t) && l < LIST_COUNT && i <= |t.lists[l]|
    ensures InPool(t, t.lists[l]) && InPool(t, t.lists[l][i..])
  {
  }

  /** Entries of a chain that are not, and that are, aged out; each in chain order. */
  function Kept(t: Tab, s: seq<nat>, now: nat, hz: nat): seq<nat>
    requires InPool(t, s)
  {
    if s == [] then []
    else (if Aged(t.pool[s[0]], now, hz) then [] else [s[0]]) + Kept(t, s[1..], now, hz)
  }

  function Expired(t: Tab, s: seq<nat>, now: nat, hz: nat): seq<nat>
    requires InPool(t, s)
  {
    if s == [] then []
    else (if Aged(t.pool[s[0]], now, hz) then [s[0]] else []) + Expired(t, s[1..], now, hz)
  }

  lemma {:induction false} FilterMembers(t: Tab, s: seq<nat>, now: nat, hz: nat)
    requires InPool(t, s)
    ensures forall p: nat :: p in Kept(t, s, now, hz) <==> p in s && p < |t.pool| && !Aged(t.pool[p], now, hz)
    ensures forall p: nat :: p in Expired(t, s, now, hz) <==> p in s && p < |t.pool| && Aged(t.pool[p], now, hz)
    decreases |s|
  {
    hide Aged;
    if s != [] {
      FilterMembers(t, s[1..], now, hz);
      assert forall p :: p in s <==> p == s[0] || p in s[1..];
    }
  }

  lemma MoveToFree(t: Tab, l: nat, i: nat)
    requires Shaped(t) && l < FREE && i < |t.lists[l]|
    ensures var s := t.lists[l]; var r := Move(t.lists, l, i, FREE);
            && Shaped(t.(lists := r))
            && r[l] == s[..i] + s[i + 1..] && r[l][..i] == s[..i] && r[l][i..] == s[i + 1..]
            && r[FREE] == t.lists[FREE] + [s[i]]
            && (forall m | 0 <= m < FREE && m != l :: r[m] == t.lists[m])
  {
  }

  lemma KeptUnrolls(t: Tab, s: seq<nat>, i: nat, now: nat, hz: nat)
    requires i < |s| && InPool(t, s)
    ensures InPool(t, s[i..]) && InPool(t, s[i + 1..])
    ensures Kept(t, s[i..], now, hz) ==
            if Aged(t.pool[s[i]], now, hz) then Kept(t, s[i + 1..], now, hz)
            else [s[i]] + Kept(t, s[i + 1..], now, hz)
    ensures Expired(t, s[i..], now, hz) ==
            if Aged(t.pool[s[i]], now, hz) then [s[i]] + Expired(t, s[i + 1..], now, hz)
            else Expired(t, s[i + 1..], now, hz)
  {
    assert s[i..][1..] == s[i + 1..];
  }

  /** The chain, the free list and the other chains after a sweep, given those it started from. */
  ghost predicate Swept(t: Tab, r: Tab, l: nat, i: nat, now: nat, hz: nat)
    requires Shaped(t) && Shaped(r) && l < FREE && i <= |t.lists[l]|
  {
    ListInPool(t, l, i);
    && r.lists[l] == t.lists[l][..i] + Kept(t, t.lists[l][i..], now, hz)
    && r.lists[FREE] == t.lists[FREE] + Expired(t, t.lists[l][i..], now, hz)
    && (forall m | 0 <= m < FREE && m != l :: r.lists[m] == t.lists[m])
  }

  lemma SweptEnd(t: Tab, l: nat, now: nat, hz: nat)
    requires Shaped(t) && l < FREE
    ensures Swept(t, t, l, |t.lists[l]|, now, hz)
  {
    var s := t.lists[l];
    assert s[..|s|] + [] == s && s[|s|..] == [];
  }

  lemma Regroup(a: seq<nat>, b: seq<nat>, c: seq<nat>)
    ensures (a + b) + c == a + (b + c)
  {
  }

  lemma SweptAged(t: Tab, t': Tab, r: Tab, l: nat, i: nat, now: nat, hz: nat)
    requires Shaped(t) && Shaped(t') && Shaped(r) && t'.pool == t.pool
    requires l < FREE && i < |t.lists[l]| && i <= |t'.lists[l]| && Aged(t.pool[t.lists[l][i]], now, hz)
    requires t'.lists[l][..i] == t.lists[l][..i] && t'.lists[l][i..] == t.lists[l][i + 1..]
    requires t'.lists[FREE] == t.lists[FREE] + [t.lists[l][i]]
    requires forall m | 0 <= m < FREE && m != l :: t'.lists[m] == t.lists[m]
    requires Swept(t', r, l, i, now, hz)
    ensures Swept(t, r, l, i, now, hz)
  {
    hide Aged, InPool, Kept, Expired;
    var s := t.lists[l];
    ListInPool(t, l, i);
    KeptUnrolls(t, s, i, now, hz);
    SamePoolFilters(t, t', s[i + 1..], now, hz);
    Regroup(t.lists[FREE], [s[i]], Expired(t, s[i + 1..], now, hz));
  }

  lemma SweptFresh(t: Tab, r: Tab, l: nat, i: nat, now: nat, hz: nat)
    requires Shaped(t) && Shaped(r) && l < FREE && i < |t.lists[l]| && !Aged(t.pool[t.lists[l][i]], now, hz)
    requires Swept(t, r, l, i + 1, now, hz)
    ensures Swept(t, r, l, i, now, hz)
  {
    hide Aged, InPool, Kept, Expired;
    var s := t.lists[l];
    ListInPool(t, l, i);
    KeptUnrolls(t, s, i, now, hz);
    assert s[..i + 1] == s[..i] + [s[i]];
    Regroup(s[..i], [s[i]], Kept(t, s[i + 1..], now, hz));
  }

  lemma {:induction false} SweepChainFilters(t: Tab, l: nat, i: nat, now: nat, hz: nat)
    requires Shaped(t) && l < FREE && i <= |t.lists[l]|
    ensures Swept(t, SweepChain(t, l, i, now, hz), l, i, now, hz)
    decreases |t.lists[l]| - i
  {
    hide Swept, Aged;
    var r := SweepChain(t, l, i, now, hz);
    if i == |t.lists[l]| {
      SweptEnd(t, l, now, hz);
    } else if Aged(t.pool[t.lists[l][i]], now, hz) {
      var t' := t.(lists := Move(t.lists, l, i, FREE));
      MoveToFree(t, l, i);
      SweepChainFilters(t', l, i, now, hz);
      hide Move;
      SweptAged(t, t', r, l, i, now, hz);
    } else {
      SweepChainFilters(t, l, i + 1, now, hz);
      SweptFresh(t, r, l, i, now, hz);
    }
  }

  lemma {:induction false} SamePoolFilters(t: Tab, u: Tab, s: seq<nat>, now: nat, hz: nat)
    requires t.pool == u.pool && InPool(t, s)
    ensures Kept(t, s, now, hz) == Kept(u, s, now, hz) && Expired(t, s, now, hz) == Expired(u, s, now, hz)
    decreases |s|
  {
    if s != [] {
      SamePoolFilters(t, u, s[1..], now, hz);
    }
  }

  /** What maintenance returns to the free list: the aged-out entries, chain by chain. */
  function AllExpired(t: Tab, l: nat, now: nat, hz: nat): seq<nat>
    requires Shaped(t) && l <= HASH_TAB_SIZE
    decreases HASH_TAB_SIZE - l
  {
    if l == HASH_TAB_SIZE then [] else Expired(t, t.lists[l], now, hz) + AllExpired(t, l + 1, now, hz)
  }

  lemma {:induction false} SameChainsExpired(t: Tab, u: Tab, l: nat, now: nat, hz: nat)
    requires Shaped(t) && Shaped(u) && t.pool == u.pool && l <= HASH_TAB_SIZE
    requires forall m | l <= m < HASH_TAB_SIZE :: t.lists[m] == u.lists[m]
    ensures AllExpired(t, l, now, hz) == AllExpired(u, l, now, hz)
    decreases HASH_TAB_SIZE - l
  {
    if l < HASH_TAB_SIZE {
      SamePoolFilters(t, u, t.lists[l], now, hz);
      SameChainsExpired(t, u, l + 1, now, hz);
    }
  }

  /** Maintenance keeps in every chain, in order, exactly the entries that are not aged out, and appends the others
      to the free list. */
  lemma {:induction false} SweepFilters(t: Tab, l: nat, now: nat, hz: nat)
    requires Shaped(t) && l <= HASH_TAB_SIZE
    ensures var r := SweepFrom(t, l, now, hz);
            && (forall m | 0 <= m < HASH_TAB_SIZE ::
                  r.lists[m] == if m < l then t.lists[m] else Kept(t, t.lists[m], now, hz))
            && r.lists[FREE] == t.lists[FREE] + AllExpired(t, l, now, hz)
    decreases HASH_TAB_SIZE - l
  {
    hide Kept, Expired, SweepChain;
    if l < HASH_TAB_SIZE {
      var u := SweepChain(t, l, 0, now, hz);
      SweepChainFilters(t, l, 0, now, hz);
      assert t.lists[l][..0] + Kept(t, t.lists[l], now, hz) == Kept(t, t.lists[l], now, hz);
      assert t.lists[l][0..] == t.lists[l];
      SweepFilters(u, l + 1, now, hz);
      SameChainsExpired(t, u, l + 1, now, hz);
      forall m | l < m < HASH_TAB_SIZE
        ensures Kept(u, u.lists[m], now, hz) == Kept(t, t.lists[m], now, hz)
      {
        SamePoolFilters(t, u, t.lists[m], now, hz);
      }
      assert (t.lists[FREE] + Expired(t, t.lists[l], now, hz)) + AllExpired(t, l + 1, now, hz) ==
             t.lists[FREE] + (Expired(t, t.lists[l], now, hz) + AllExpired(t, l + 1, now, hz));
    }
  }

  // ---------------------------------------------------------------- every run keeps the pool partitioned

  lemma {:induction false} SweepChainPartition(t: Tab, l: nat, i: nat, now: nat, hz: nat)
    requires Shaped(t) && Partition(t) && l < FREE && i <= |t.lists[l]|
    ensures Partition(SweepChain(t, l, i, now, hz))
    decreases |t.lists[l]| - i
  {
    hide Partition;
    if i < |t.lists[l]| {
      if Aged(t.pool[t.lists[l][i]], now, hz) {
        MoveKeepsPartition(t, l, i, FREE);
        SweepChainPartition(t.(lists := Move(t.lists, l, i, FREE)), l, i, now, hz);
      } else {
        SweepChainPartition(t, l, i + 1, now, hz);
      }
    }
  }

  lemma {:induction false} SweepPartition(t: Tab, l: nat, now: nat, hz: nat)
    requires Shaped(t) && Partition(t) && l <= HASH_TAB_SIZE
    ensures Partition(SweepFrom(t, l, now, hz))
    decreases HASH_TAB_SIZE - l
  {
    hide Partition;
    if l < HASH_TAB_SIZE {
      SweepChainPartition(t, l, 0, now, hz);
      SweepPartition(SweepChain(t, l, 0, now, hz), l + 1, now, hz);
    }
  }

  lemma PoolPartition(t: Tab, u: Tab)
    requires Shaped(t) && Shaped(u) && t.lists == u.lists && Partition(t)
    ensures Partition(u)
  {
    forall p | 0 <= p < POOL_SIZE
      ensures InSome(u, p)
    {
      assert InSome(t, p);
    }
  }

  /** Chained entries sit in the chain of their address. */
  ghost predicate Hashed(t: Tab)
    requires Shaped(t)
  {
    forall l, p | 0 <= l < HASH_TAB_SIZE && p in t.lists[l] :: Hash(t.pool[p].addr) == l
  }

  ghost predicate Good(t: Tab)
    requires Shaped(t)
  {
    Partition(t) && Hashed(t)
  }

  lemma LookupKeepsGood(t: Tab, mac: Mac, now: nat)
    requires Shaped(t) && Good(t)
    ensures Good(LookupStep(t, mac, now).0)
  {
    PoolPartition(t, LookupStep(t, mac, now).0);
  }

  lemma UpdateKeepsGood(t: Tab, aid: int, mac: Mac, now1: nat, now2: nat)
    requires Shaped(t) && Good(t)
    ensures Good(UpdateStep(t, aid, mac, now1, now2))
  {
    var (t1, found) := LookupStep(t, mac, now1);
    LookupKeepsGood(t, mac, now1);
    if !found.Some? && t1.lists[FREE] != [] {
      var p, l := t1.lists[FREE][0], Hash(mac);
      var moved := t1.(lists := Move(t1.lists, FREE, 0, l));
      var u := UpdateStep(t, aid, mac, now1, now2);
      MoveMembers(t1, FREE, 0, l);
      MoveKeepsPartition(t1, FREE, 0, l);
      PoolPartition(moved, u);
      forall m, q | 0 <= m < HASH_TAB_SIZE && q in u.lists[m]
        ensures Hash(u.pool[q].addr) == m
      {
        assert q in Move(t1.lists, FREE, 0, l)[m];
      }
    }
  }

  lemma MaintainKeepsGood(t: Tab, now: nat, hz: nat)
    requires Shaped(t) && Good(t)
    ensures Good(SweepFrom(t, 0, now, hz))
  {
    hide Partition, SweepFrom, Aged, Kept, Hash;
    SweepPartition(t, 0, now, hz);
    SweepFilters(t, 0, now, hz);
    forall m | 0 <= m < HASH_TAB_SIZE
      ensures forall p | p in SweepFrom(t, 0, now, hz).lists[m] :: Hash(t.pool[p].addr) == m
    {
      FilterMembers(t, t.lists[m], now, hz);
    }
  }

  lemma StepKeepsGood(t: Tab, e: Event)
    requires Shaped(t) && Good(t)
    ensures Good(Step(t, e))
  {
    match e
    case Lookup(mac, now) => LookupKeepsGood(t, mac, now);
    case Update(aid, mac, now1, now2) => UpdateKeepsGood(t, aid, mac, now1, now2);
    case Maintain(now, hz) => MaintainKeepsGood(t, now, hz);
  }

  lemma ChainOfAddress(t: Tab)
    requires Shaped(t) && Good(t)
    ensures forall l, p | 0 <= l < 64 && p in t.lists[l] :: t.pool[p].addr.b5 % 64 == l
  {
    hide Partition;
    assert Hashed(t);
  }

  /** In every run each pool entry is in exactly one list, and each chained one in the chain its address names by the
      low six bits of its last octet. */
  lemma {:induction false} RunKeepsGood(t: Tab, es: seq<Event>)
    requires Shaped(t) && Good(t)
    ensures Good(Run(t, es))
    ensures var u := Run(t, es); forall l, p | 0 <= l < 64 && p in u.lists[l] :: u.pool[p].addr.b5 % 64 == l
    decreases |es|
  {
    hide Good, Step;
    if es == [] {
      ChainOfAddress(t);
    } else {
      StepKeepsGood(t, es[0]);
      RunKeepsGood(Step(t, es[0]), es[1..]);
    }
  }
}
