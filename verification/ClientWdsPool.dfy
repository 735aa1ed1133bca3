/**
 The proxy table as the driver stores it: one pool of entries with a next link each, and a
 header (head, tail, size) for every hash chain and for the free list. Each routine is proved
 to perform its step of `ClientWds`.
 */
module ClientWdsPool {
  import opened Common
  import opened ClientWds
  import M = ClientWdsMap

  /** The null link. */
  const NIL: int := -1

  /** LIST_HEADER; its size is an unsigned char. */
  datatype Header = Header(head: int, tail: int, size: nat)

  // ---------------------------------------------------------------- one list

  function LinkAfter(s: seq<nat>, i: nat): int
    requires i < |s|
  {
    if i + 1 < |s| then s[i + 1] else NIL
  }

  function HeaderOf(s: seq<nat>): Header {
    if s == [] then Header(NIL, NIL, 0) else Header(s[0], s[|s| - 1], |s| % 256)
  }

  /** The header of a list within the pool has its ends, no entry for none, and its length. */
  lemma HeaderSays(s: seq<nat>)
    requires |s| <= POOL_SIZE
    ensures HeaderOf(s).size == |s|
    ensures if s == [] then HeaderOf(s).head < 0 && HeaderOf(s).tail < 0
            else HeaderOf(s).head == s[0] && HeaderOf(s).tail == s[|s| - 1]
  {
  }

  /** The links spell out the list. */
  ghost predicate Chained(next: seq<int>, s: seq<nat>) {
    && (forall i | 0 <= i < |s| :: s[i] < |next|)
    && (forall i | 0 <= i < |s| :: next[s[i]] == LinkAfter(s, i))
  }

  lemma FrameChain(next: seq<int>, s: seq<nat>, p: nat, v: int)
    requires Chained(next, s) && p < |next| && p !in s
    ensures Chained(next[p := v], s)
  {
  }

  /** Linking `p` in behind the last entry. */
  lemma AppendChain(next: seq<int>, s: seq<nat>, p: nat)
    requires Chained(next, s) && NoDup(s) && p < |next| && p !in s
    ensures var n1 := next[p := NIL];
            Chained(if s == [] then n1 else n1[s[|s| - 1] := p], s + [p])
  {
    var n1 := next[p := NIL];
    var n2 := if s == [] then n1 else n1[s[|s| - 1] := p];
    forall i | 0 <= i < |s| + 1
      ensures n2[(s + [p])[i]] == LinkAfter(s + [p], i)
    {
      if i < |s| {
        assert next[s[i]] == LinkAfter(s, i);
      }
    }
  }

  lemma DropHead(next: seq<int>, s: seq<nat>)
    requires Chained(next, s) && s != []
    ensures Chained(next, s[1..])
  {
    forall i | 0 <= i < |s| - 1
      ensures next[s[1..][i]] == LinkAfter(s[1..], i)
    {
      assert next[s[i + 1]] == LinkAfter(s, i + 1);
    }
  }

  lemma WithoutAt(s: seq<nat>, i: nat, k: nat)
    requires i < |s| && k < |s| - 1
    ensures var r, j := s[..i] + s[i + 1..], if k < i then k else k + 1;
            && r[k] == s[j]
            && LinkAfter(r, k) == if k + 1 == i then LinkAfter(s, i) else LinkAfter(s, j)
  {
  }

  lemma BypassAt(next: seq<int>, s: seq<nat>, i: nat, k: nat)
    requires Chained(next, s) && NoDup(s) && 0 < i < |s| && k < |s| - 1
    ensures var r := s[..i] + s[i + 1..];
            r[k] < |next| && next[s[i - 1] := LinkAfter(s, i)][r[k]] == LinkAfter(r, k)
  {
    hide LinkAfter;
    WithoutAt(s, i, k);
    var j := if k < i then k else k + 1;
    assert next[s[j]] == LinkAfter(s, j);
    assert j != i - 1 ==> s[j] != s[i - 1];
  }

  /** Linking around entry `i` from its predecessor. */
  lemma BypassChain(next: seq<int>, s: seq<nat>, i: nat)
    requires Chained(next, s) && NoDup(s) && 0 < i < |s|
    ensures Chained(next[s[i - 1] := LinkAfter(s, i)], s[..i] + s[i + 1..])
  {
    hide LinkAfter, NoDup;
    var r, n := s[..i] + s[i + 1..], next[s[i - 1] := LinkAfter(s, i)];
    forall k | 0 <= k < |r|
      ensures r[k] < |n| && n[r[k]] == LinkAfter(r, k)
    {
      BypassAt(next, s, i, k);
    }
  }

  // ---------------------------------------------------------------- all lists

  predicate Sized(next: seq<int>, hdrs: seq<Header>, lists: seq<seq<nat>>) {
    |next| == POOL_SIZE && |hdrs| == |lists| == LIST_COUNT
  }

  ghost predicate Apart(lists: seq<seq<nat>>) {
    && (forall l | 0 <= l < |lists| :: NoDup(lists[l]))
    && (forall l, m, p | 0 <= l < |lists| && 0 <= m < |lists| && p in lists[l] && p in lists[m] :: l == m)
  }

  ghost predicate Headed(hdrs: seq<Header>, lists: seq<seq<nat>>) {
    |hdrs| == |lists| && forall l | 0 <= l < |lists| :: hdrs[l] == HeaderOf(lists[l])
  }

  ghost predicate AllChained(next: seq<int>, lists: seq<seq<nat>>) {
    forall l | 0 <= l < |lists| :: Chained(next, lists[l])
  }

  lemma ApartAppend(lists: seq<seq<nat>>, l: nat, p: nat)
    requires Apart(lists) && l < |lists| && forall m | 0 <= m < |lists| :: p !in lists[m]
    ensures Apart(Append(lists, l, p))
  {
    var r := Append(lists, l, p);
    AppendFacts(lists[l], p);
    forall m, n, q | 0 <= m < |r| && 0 <= n < |r| && q in r[m] && q in r[n]
      ensures m == n
    {
      assert q == p || (q in lists[m] && q in lists[n]);
      assert q == p ==> m == l && n == l;
    }
  }

  lemma ApartRemove(lists: seq<seq<nat>>, l: nat, i: nat)
    requires Apart(lists) && l < |lists| && i < |lists[l]|
    ensures Apart(lists[l := Remove(lists[l], i)])
    ensures var r := lists[l := Remove(lists[l], i)];
            forall m | 0 <= m < |lists| :: lists[l][i] !in r[m]
  {
    var r := lists[l := Remove(lists[l], i)];
    RemoveFacts(lists[l], i);
    forall m, n, q | 0 <= m < |r| && 0 <= n < |r| && q in r[m] && q in r[n]
      ensures m == n
    {
      assert q in lists[m] && q in lists[n];
    }
    forall m | 0 <= m < |lists|
      ensures lists[l][i] !in r[m]
    {
      if m != l {
        assert lists[l][i] in lists[l];
      }
    }
  }

  lemma HeadedUpdate(hdrs: seq<Header>, lists: seq<seq<nat>>, l: nat, s: seq<nat>)
    requires Headed(hdrs, lists) && l < |lists|
    ensures Headed(hdrs[l := HeaderOf(s)], lists[l := s])
  {
  }

  lemma OthersChained(next: seq<int>, lists: seq<seq<nat>>, l: nat, p: nat, v: int, s: seq<nat>)
    requires AllChained(next, lists) && l < |lists| && p < |next|
    requires forall m | 0 <= m < |lists| && m != l :: p !in lists[m]
    requires Chained(next[p := v], s)
    ensures AllChained(next[p := v], lists[l := s])
  {
    hide Chained;
    var r, n := lists[l := s], next[p := v];
    forall m | 0 <= m < |lists|
      ensures Chained(n, r[m])
    {
      if m != l {
        FrameChain(next, lists[m], p, v);
      }
    }
  }

  lemma NotElsewhere(lists: seq<seq<nat>>, l: nat, i: nat)
    requires Apart(lists) && l < |lists| && i < |lists[l]|
    ensures forall m | 0 <= m < |lists| && m != l :: lists[l][i] !in lists[m]
  {
    assert lists[l][i] in lists[l];
  }

  lemma AppendAllChained(next: seq<int>, lists: seq<seq<nat>>, l: nat, p: nat)
    requires AllChained(next, lists) && Apart(lists) && l < |lists| && p < |next|
    requires forall m | 0 <= m < |lists| :: p !in lists[m]
    ensures var s, n1 := lists[l], next[p := NIL];
            && (s == [] || s[|s| - 1] < |next|)
            && AllChained(if s == [] then n1 else n1[s[|s| - 1] := p], Append(lists, l, p))
  {
    var s, n1 := lists[l], next[p := NIL];
    AppendChain(next, s, p);
    FrameChain(next, s, p, NIL);
    assert s != [] ==> s[|s| - 1] < |next|;
    hide Chained;
    assert lists[l := s] == lists;
    OthersChained(next, lists, l, p, NIL, s);
    if s == [] {
      OthersChained(next, lists, l, p, NIL, s + [p]);
    } else {
      NotElsewhere(lists, l, |s| - 1);
      OthersChained(n1, lists, l, s[|s| - 1], p, s + [p]);
    }
  }

  lemma ChainAt(next: seq<int>, lists: seq<seq<nat>>, l: nat)
    requires AllChained(next, lists) && l < |lists|
    ensures forall i | 0 <= i < |lists[l]| :: lists[l][i] < |next| && next[lists[l][i]] == LinkAfter(lists[l], i)
  {
    assert Chained(next, lists[l]);
  }

  lemma DropHeadAllChained(next: seq<int>, lists: seq<seq<nat>>, l: nat)
    requires AllChained(next, lists) && l < |lists| && lists[l] != []
    ensures AllChained(next, lists[l := Remove(lists[l], 0)])
  {
    DropHead(next, lists[l]);
    assert Remove(lists[l], 0) == lists[l][1..];
  }

  lemma BypassAllChained(next: seq<int>, lists: seq<seq<nat>>, l: nat, i: nat)
    requires AllChained(next, lists) && Apart(lists) && l < |lists| && 0 < i < |lists[l]|
    ensures lists[l][i - 1] < |next|
    ensures AllChained(next[lists[l][i - 1] := LinkAfter(lists[l], i)], lists[l := Remove(lists[l], i)])
  {
    ChainAt(next, lists, l);
    BypassChain(next, lists[l], i);
    NotElsewhere(lists, l, i - 1);
    OthersChained(next, lists, l, lists[l][i - 1], LinkAfter(lists[l], i), Remove(lists[l], i));
  }

  // ---------------------------------------------------------------- the driver's routines

  class ProxyTable {
    const next: array<int>
    const hdrs: array<Header>
    const pool: array<Entry>
    /** The lists the links spell out: chains 0 to 63 and the free list. */
    ghost var lists: seq<seq<nat>>

    ghost predicate Valid()
      reads this, next, hdrs, pool
    {
      && pool.Length == POOL_SIZE
      && (next as object) != hdrs && (next as object) != pool && (hdrs as object) != pool
      && Sized(next[..], hdrs[..], lists)
      && Apart(lists) && Headed(hdrs[..], lists) && AllChained(next[..], lists)
    }

    ghost function Abs(): (t: Tab)
      reads this, pool
    {
      Tab(lists, pool[..])
    }

    lemma ValidShaped()
      requires Valid()
      ensures Shaped(Abs())
    {
      forall l, i | 0 <= l < LIST_COUNT && 0 <= i < |lists[l]|
        ensures lists[l][i] < POOL_SIZE
      {
        ChainAt(next[..], lists, l);
      }
    }

    lemma ListAt(l: nat)
      requires Valid() && l < LIST_COUNT
      ensures hdrs[l] == HeaderOf(lists[l])
      ensures forall i | 0 <= i < |lists[l]| :: lists[l][i] < POOL_SIZE && next[lists[l][i]] == LinkAfter(lists[l], i)
    {
      ChainAt(next[..], lists, l);
    }

    /** insertTailList. */
    method InsertTail(l: nat, p: nat)
      requires Valid() && l < LIST_COUNT && p < POOL_SIZE
      requires forall m | 0 <= m < LIST_COUNT :: p !in lists[m]
      modifies this`lists, next, hdrs
      ensures Valid() && lists == Append(old(lists), l, p)
    {
      ghost var s := lists[l];
      ListAt(l);
      AppendAllChained(next[..], lists, l, p);
      ApartAppend(lists, l, p);
      HeadedUpdate(hdrs[..], lists, l, s + [p]);
      hide Apart, Headed, AllChained;
      LinkAtTail(l, p, s);
      HeaderAtTail(l, p, s);
      lists := Append(lists, l, p);
    }

    method LinkAtTail(l: nat, p: nat, ghost s: seq<nat>)
      requires (next as object) != hdrs && l < hdrs.Length && p < next.Length && hdrs[l] == HeaderOf(s)
      requires s == [] || s[|s| - 1] < next.Length
      modifies next
      ensures next[..] == var n1 := old(next[..])[p := NIL]; if s == [] then n1 else n1[s[|s| - 1] := p]
    {
      next[p] := NIL;
      if hdrs[l].tail != NIL {
        next[hdrs[l].tail] := p;
      }
    }

    method HeaderAtTail(l: nat, p: nat, ghost s: seq<nat>)
      requires l < hdrs.Length && hdrs[l] == HeaderOf(s)
      modifies hdrs
      ensures hdrs[..] == old(hdrs[..])[l := HeaderOf(s + [p])]
    {
      if hdrs[l].tail == NIL {
        hdrs[l] := hdrs[l].(head := p);
      }
      hdrs[l] := hdrs[l].(tail := p);
      hdrs[l] := hdrs[l].(size := (hdrs[l].size + 1) % 256);
    }

    /** removeHeadList; NIL for an empty list. */
    method RemoveHead(l: nat) returns (p: int)
      requires Valid() && l < LIST_COUNT
      modifies this`lists, hdrs
      ensures Valid()
      ensures p == if old(lists[l]) == [] then NIL else old(lists[l])[0]
      ensures lists == if old(lists[l]) == [] then old(lists) else old(lists)[l := Remove(old(lists[l]), 0)]
    {
      ListAt(l);
      p := hdrs[l].head;
      if hdrs[l].head != NIL {
        ghost var s := lists[l];
        DropHeadAllChained(next[..], lists, l);
        ApartRemove(lists, l, 0);
        HeadedUpdate(hdrs[..], lists, l, Remove(s, 0));
        hide Apart, Headed, AllChained, Remove;
        HeaderWithoutHead(l, s);
        lists := lists[l := Remove(s, 0)];
      }
    }

    method HeaderWithoutHead(l: nat, ghost s: seq<nat>)
      requires (next as object) != hdrs && l < hdrs.Length && hdrs[l] == HeaderOf(s)
      requires s != [] && s[0] < next.Length && next[s[0]] == LinkAfter(s, 0)
      modifies hdrs
      ensures hdrs[..] == old(hdrs[..])[l := HeaderOf(Remove(s, 0))]
    {
      ghost var r := Remove(s, 0);
      assert r == s[1..];
      SizeDown(|s|);
      var after := next[hdrs[l].head];
      hdrs[l] := hdrs[l].(head := after);
      if after == NIL {
        hdrs[l] := hdrs[l].(tail := NIL);
      }
      hdrs[l] := hdrs[l].(size := (hdrs[l].size + 255) % 256);
    }

    /** delEntryList on an entry that is in the list. */
    method DelEntry(l: nat, p: nat, ghost i: nat)
      requires Valid() && l < LIST_COUNT && i < |lists[l]| && lists[l][i] == p
      modifies this`lists, next, hdrs
      ensures Valid() && lists == old(lists)[l := Remove(old(lists[l]), i)]
    {
      ListAt(l);
      ghost var s := lists[l];
      assert NoDup(s);
      hide Apart, Headed, AllChained, Remove;
      if p == hdrs[l].head {
        assert i == 0;
        var _ := RemoveHead(l);
        return;
      }
      var prev := Predecessor(l, p, i);
      Unlink(l, p, prev, i);
    }

    /** The search loop of delEntryList. */
    method Predecessor(l: nat, p: nat, ghost i: nat) returns (prev: int)
      requires Valid() && l < LIST_COUNT && 0 < i < |lists[l]| && lists[l][i] == p
      ensures prev == lists[l][i - 1]
    {
      ListAt(l);
      ghost var s := lists[l];
      assert NoDup(s);
      hide Valid, NoDup, LinkAfter;
      prev := hdrs[l].head;
      LinksOn(s, 0);
      var cur := next[prev];
      ghost var j := 0;
      while cur != p
        invariant 0 <= j < i && prev == s[j] && cur == s[j + 1]
        decreases i - j
      {
        LinksOn(s, j + 1);
        prev := cur;
        cur := next[cur];
        j := j + 1;
      }
      DistinctAt(s, j + 1, i);
    }

    /** The tail of delEntryList: the predecessor is known. */
    method Unlink(l: nat, p: nat, prev: int, ghost i: nat)
      requires Valid() && l < LIST_COUNT && 0 < i < |lists[l]|
      requires lists[l][i] == p && prev == lists[l][i - 1]
      modifies this`lists, next, hdrs
      ensures Valid() && lists == old(lists)[l := Remove(old(lists[l]), i)]
    {
      ListAt(l);
      ghost var s, links := lists[l], next[..];
      BypassAllChained(links, lists, l, i);
      ApartRemove(lists, l, i);
      HeadedUpdate(hdrs[..], lists, l, Remove(s, i));
      assert NoDup(s);
      hide Apart, Headed, AllChained, Remove;
      next[prev] := next[p];
      assert next[..] == links[s[i - 1] := LinkAfter(s, i)];
      HeaderWithout(l, p, prev, s, i);
      lists := lists[l := Remove(s, i)];
    }

    method HeaderWithout(l: nat, p: nat, prev: int, ghost s: seq<nat>, ghost i: nat)
      requires l < hdrs.Length && hdrs[l] == HeaderOf(s)
      requires 0 < i < |s| && NoDup(s) && s[i] == p && prev == s[i - 1]
      modifies hdrs
      ensures hdrs[..] == old(hdrs[..])[l := HeaderOf(Remove(s, i))]
    {
      ghost var r := Remove(s, i);
      assert r[0] == s[0] && r[|r| - 1] == if i + 1 == |s| then s[i - 1] else s[|s| - 1];
      SizeDown(|s|);
      if p == hdrs[l].tail {
        hdrs[l] := hdrs[l].(tail := prev);
      }
      hdrs[l] := hdrs[l].(size := (hdrs[l].size + 255) % 256);
    }

    // ---------------------------------------------------------------- table operations

    /** CliWds_ProxyTabInit: every entry in the free list, in pool order. */
    constructor ()
      ensures Valid() && fresh(next) && fresh(hdrs) && fresh(pool)
      ensures lists == InitialLists(POOL_SIZE)
    {
      next := new int[POOL_SIZE](_ => NIL);
      hdrs := new Header[LIST_COUNT](_ => Header(NIL, NIL, 0));
      pool := new Entry[POOL_SIZE](_ => Entry(0, 0, Mac(0, 0, 0, 0, 0, 0)));
      lists := seq(LIST_COUNT, _ => []);
      new;
      var i := 0;
      while i < POOL_SIZE
        invariant 0 <= i <= POOL_SIZE && Valid()
        invariant fresh(next) && fresh(hdrs) && fresh(pool)
        invariant lists == InitialLists(i)
      {
        AppendInitial(i);
        InsertTail(FREE, i);
        i := i + 1;
      }
    }

    /** CliWds_ProxyLookup at time `now`; the answer is the Aid whose station address the driver returns. */
    method ProxyLookup(mac: Mac, now: nat) returns (aid: Option<int>)
      requires Valid()
      modifies pool
      ensures Valid() && Shaped(old(Abs())) && (Abs(), aid) == LookupStep(old(Abs()), mac, now)
    {
      ValidShaped();
      var l := Hash(mac);
      ListAt(l);
      var p := hdrs[l].head;
      ghost var i := 0;
      while p != NIL
        invariant 0 <= i <= |lists[l]| && p == if i < |lists[l]| then lists[l][i] else NIL
        invariant Find(Abs(), l, i, mac) == Find(Abs(), l, 0, mac)
        decreases |lists[l]| - i
      {
        if pool[p].addr == mac {
          pool[p] := pool[p].(lastRef := now);
          if ValidWcid(pool[p].aid) {
            return Some(pool[p].aid);
          }
          return None;
        }
        p := next[p];
        i := i + 1;
      }
      return None;
    }

    /** CliWds_ProxyTabUpdate. */
    method ProxyTabUpdate(aid: int, mac: Mac, now1: nat, now2: nat)
      requires Valid()
      modifies this`lists, next, hdrs, pool
      ensures Valid() && Shaped(old(Abs())) && Abs() == UpdateStep(old(Abs()), aid, mac, now1, now2)
    {
      ValidShaped();
      var found := ProxyLookup(mac, now1);
      if found.Some? {
        return;
      }
      ghost var t1 := Abs();
      ValidShaped();
      if lists[FREE] != [] {
        ApartRemove(lists, FREE, 0);
      }
      var p := RemoveHead(FREE);
      if p == NIL {
        return;
      }
      pool[p] := pool[p].(aid := aid);
      pool[p] := pool[p].(addr := mac);
      pool[p] := pool[p].(lastRef := now2);
      InsertTail(Hash(mac), p);
      assert lists == Move(t1.lists, FREE, 0, Hash(mac));
    }

    /** delEntryList from a chain, then CliWdsEntyFree. */
    method FreeEntry(l: nat, p: nat, ghost i: nat)
      requires Valid() && l < FREE && i < |lists[l]| && lists[l][i] == p && p < POOL_SIZE
      modifies this`lists, next, hdrs
      ensures Valid() && Shaped(Abs()) && lists == Move(old(lists), l, i, FREE)
      ensures lists[l] == Remove(old(lists[l]), i)
    {
      ApartRemove(lists, l, i);
      DelEntry(l, p, i);
      InsertTail(FREE, p);
      ValidShaped();
    }

    /** One turn of the walk: an aged entry moves to the free list; the walk goes on at the successor it had. */
    method SweepEntry(l: nat, p: nat, ghost i: nat, now: nat, hz: nat) returns (following: int, ghost j: nat)
      requires Valid() && Shaped(Abs()) && l < FREE && i < |lists[l]| && lists[l][i] == p
      modifies this`lists, next, hdrs
      ensures Valid() && Shaped(Abs()) && j <= |lists[l]| && |lists[l]| - j < |old(lists[l])| - i
      ensures following == if j < |lists[l]| then lists[l][j] else NIL
      ensures SweepChain(Abs(), l, j, now, hz) == SweepChain(old(Abs()), l, i, now, hz)
    {
      hide Apart, Headed, AllChained, Move, Remove, Aged, SweepChain, NoDup;
      ListAt(l);
      following := next[p];
      RemovedNext(lists[l], i);
      SweepUnrolls(Abs(), l, i, now, hz);
      if Aged(pool[p], now, hz) {
        FreeEntry(l, p, i);
        j := i;
      } else {
        j := i + 1;
      }
    }

    /** The walk of one chain in CliWds_ProxyTabMaintain. */
    method SweepOneChain(l: nat, now: nat, hz: nat)
      requires Valid() && l < FREE
      modifies this`lists, next, hdrs
      ensures Valid() && Shaped(old(Abs())) && Abs() == SweepChain(old(Abs()), l, 0, now, hz)
    {
      hide Apart, Headed, AllChained, SweepChain;
      ValidShaped();
      ListAt(l);
      var p := hdrs[l].head;
      ghost var i := 0;
      while p != NIL
        invariant Valid() && Shaped(Abs()) && 0 <= i <= |lists[l]|
        invariant p == if i < |lists[l]| then lists[l][i] else NIL
        invariant SweepChain(Abs(), l, i, now, hz) == SweepChain(old(Abs()), l, 0, now, hz)
        decreases |lists[l]| - i
      {
        p, i := SweepEntry(l, p, i, now, hz);
      }
      SweepUnrolls(Abs(), l, i, now, hz);
    }

    /** CliWds_ProxyTabMaintain. */
    method ProxyTabMaintain(now: nat, hz: nat)
      requires Valid()
      modifies this`lists, next, hdrs
      ensures Valid() && Shaped(old(Abs())) && Abs() == SweepFrom(old(Abs()), 0, now, hz)
    {
      ValidShaped();
      var l := 0;
      while l < HASH_TAB_SIZE
        invariant 0 <= l <= HASH_TAB_SIZE && Valid() && Shaped(Abs())
        invariant SweepFrom(Abs(), l, now, hz) == SweepFrom(old(Abs()), 0, now, hz)
      {
        SweepOneChain(l, now, hz);
        l := l + 1;
      }
    }
  }

  lemma LinksOn(s: seq<nat>, i: nat)
    requires i + 1 < |s|
    ensures LinkAfter(s, i) == s[i + 1]
  {
  }

  lemma DistinctAt(s: seq<nat>, i: nat, j: nat)
    requires NoDup(s) && i < |s| && j < |s| && s[i] == s[j]
    ensures i == j
  {
  }

  lemma SweepUnrolls(t: Tab, l: nat, i: nat, now: nat, hz: nat)
    requires Shaped(t) && l < FREE && i <= |t.lists[l]|
    ensures i == |t.lists[l]| ==> SweepChain(t, l, i, now, hz) == t
    ensures i < |t.lists[l]| && Aged(t.pool[t.lists[l][i]], now, hz) ==>
              var t' := t.(lists := Move(t.lists, l, i, FREE));
              Shaped(t') && i <= |t'.lists[l]| && SweepChain(t, l, i, now, hz) == SweepChain(t', l, i, now, hz)
    ensures i < |t.lists[l]| && !Aged(t.pool[t.lists[l][i]], now, hz) ==>
              SweepChain(t, l, i, now, hz) == SweepChain(t, l, i + 1, now, hz)
  {
    if i < |t.lists[l]| {
      MoveToFree(t, l, i);
    }
  }

  lemma RemovedNext(s: seq<nat>, i: nat)
    requires i < |s|
    ensures var r := Remove(s, i); LinkAfter(s, i) == if i < |r| then r[i] else NIL
  {
  }

  /** Empty chains, and the first `n` entries free. */
  function InitialLists(n: nat): (r: seq<seq<nat>>)
    ensures |r| == LIST_COUNT
  {
    seq(LIST_COUNT, l => if l == FREE then FirstEntries(n) else [])
  }

  lemma AppendInitial(n: nat)
    ensures Append(InitialLists(n), FREE, n) == InitialLists(n + 1)
    ensures forall m | 0 <= m < LIST_COUNT :: n !in InitialLists(n)[m]
  {
    assert FirstEntries(n) + [n] == FirstEntries(n + 1);
  }

  function FirstEntries(n: nat): (s: seq<nat>)
    ensures |s| == n
  {
    seq(n, i => i)
  }

  lemma SizeDown(n: nat)
    requires n > 0
    ensures (n % 256 + 255) % 256 == (n - 1) % 256
  {
  }

  /** The table CliWds_ProxyTabInit leaves meets everything the run theorems start from. */
  lemma InitialTable(pool: seq<Entry>)
    requires |pool| == POOL_SIZE
    ensures var t := Tab(InitialLists(POOL_SIZE), pool);
            Shaped(t) && Good(t) && M.Unique(t) && M.AidsValid(t) && M.Content(t) == map[]
  {
    var t := Tab(InitialLists(POOL_SIZE), pool);
    forall p | 0 <= p < POOL_SIZE
      ensures InSome(t, p)
    {
      assert t.lists[FREE][p] == p;
    }
    assert forall p: nat :: !M.InChain(t, p);
    assert forall mac :: !M.Present(t, mac);
    M.ContentIs(t, map[]);
  }
}
