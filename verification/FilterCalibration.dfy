/**
 RTMPFilterCalibration of the rt30xx driver: a pass for 20 MHz and one for 40 MHz, each with a
 pass-band and a stop-band loop over hardware readings. The counters that bound the loops, `retry`
 and `loopcnt`, are shared by both passes.

 The hardware is three streams: pass-band readings, stop-band readings, and the answers to "is the
 adapter gone", each indexed by how many have been taken. The filter register RF_R24 is a number below
 256, the registers of which single bits are set are 8-bit words.
 */
module FilterCalibration {

  const LOOP_LIMIT: nat := 100
  const RETRY_LIMIT: nat := 100

  type Readings = nat -> int
  type Byte = x: nat | x < 256

  // ---------------------------------------------------------------- what a stop-band search finds

  /** The `n` stop-band readings from `at` are all at most `target` below the pass-band level. */
  predicate AllWithin(stop: Readings, at: nat, level: int, target: int, n: nat) {
    n == 0 || (AllWithin(stop, at, level, target, n - 1) && level - stop(at + n - 1) <= target)
  }

  /** How many of them hit the target exactly. */
  function Hits(stop: Readings, at: nat, level: int, target: int, n: nat): nat {
    if n == 0 then 0
    else Hits(stop, at, level, target, n - 1) + if level - stop(at + n - 1) == target then 1 else 0
  }

  /** The register value after `n` increments of a UCHAR. */
  function Bump(v: Byte, n: nat): Byte {
    if n == 0 then v else (Bump(v, n - 1) + 1) % 256
  }

  /** What one pass found: the level, where its stop-band readings start, how many stayed within the target, and
      whether the next one went beyond it. */
  datatype Search = Search(level: int, at: nat, n: nat, beyond: bool)

  predicate Found(stop: Readings, target: int, s: Search) {
    AllWithin(stop, s.at, s.level, target, s.n) && (s.beyond ==> s.level - stop(s.at + s.n) > target)
  }

  function Before(v: Byte): Byte {
    (v + 255) % 256
  }

  /** The setting a search settles on, reading `k` having been taken at setting `start + k`: the last one within the
      target if some reading hit it, else the first one beyond. */
  function Setting(stop: Readings, target: int, start: Byte, s: Search): Byte {
    if Hits(stop, s.at, s.level, target, s.n) > 0 then Before(Bump(start, s.n)) else Bump(start, s.n)
  }

  /** The stop-band drop aimed at, and the filter setting a pass starts from. */
  function TargetFor(wide: bool, rt3071: bool): int {
    if wide then if rt3071 then 0x15 else 0x19 else if rt3071 then 0x13 else 0x16
  }

  function StartFor(wide: bool, r24: Byte): Byte {
    r24 / 64 * 64 + if wide then 0x27 else 0x07
  }

  /** The drops aimed at, in the 20 and the 40 MHz pass of each chip, and the settings the passes start from: the low
      six bits of RF_R24 are set and the top two kept. */
  lemma PassParameters(r24: Byte)
    ensures TargetFor(false, true) == 0x13 && TargetFor(false, false) == 0x16
    ensures TargetFor(true, true) == 0x15 && TargetFor(true, false) == 0x19
    ensures StartFor(false, r24) % 0x40 == 0x07 && StartFor(true, r24) % 0x40 == 0x27
    ensures StartFor(false, r24) / 0x40 == StartFor(true, r24) / 0x40 == r24 / 0x40
  {
  }

  lemma FoundSoFar(stop: Readings, target: int, level: int, at: nat, n: nat, beyond: bool)
    requires AllWithin(stop, at, level, target, n) && (beyond ==> level - stop(at + n) > target)
    ensures Found(stop, target, Search(level, at, n, beyond))
  {
  }

  lemma NoneYet(stop: Readings, at: nat, level: int, target: int, start: Byte)
    ensures AllWithin(stop, at, level, target, 0) && Hits(stop, at, level, target, 0) == 0 && Bump(start, 0) == start
  {
  }

  lemma OneMore(stop: Readings, at: nat, level: int, target: int, start: Byte, n: nat)
    requires AllWithin(stop, at, level, target, n) && level - stop(at + n) <= target
    ensures AllWithin(stop, at, level, target, n + 1) && Bump(start, n + 1) == (Bump(start, n) + 1) % 256
    ensures Hits(stop, at, level, target, n + 1) ==
            Hits(stop, at, level, target, n) + if level - stop(at + n) == target then 1 else 0
  {
    assert at + (n + 1) - 1 == at + n;
  }

  lemma LastWithin(start: Byte, n: nat)
    requires n > 0
    ensures Before(Bump(start, n)) == Bump(start, n - 1)
  {
  }

  /** The settled setting is the last within the target, or, if none hit it exactly, the first beyond. */
  lemma SettingIs(stop: Readings, target: int, start: Byte, s: Search)
    requires Found(stop, target, s) && s.beyond
    ensures var hit := Hits(stop, s.at, s.level, target, s.n) > 0;
            && (hit ==> s.n > 0 && s.level - stop(s.at + (s.n - 1)) <= target)
            && Setting(stop, target, start, s) == Bump(start, if hit then s.n - 1 else s.n)
  {
    if s.n > 0 {
      LastWithin(start, s.n);
      assert s.at + s.n - 1 == s.at + (s.n - 1);
    }
  }

  /** The adapter answered that it was there at each of the checks `from` to `to`, the latter excluded. */
  predicate Present(absent: nat -> bool, from: nat, to: nat) {
    forall k: nat | from <= k < to :: !absent(k)
  }

  /** Which of the checks made came out: all present, or all but the last. */
  predicate Checked(absent: nat -> bool, from: nat, to: nat, gone: bool) {
    if gone then from < to && Present(absent, from, to - 1) && absent(to - 1) else Present(absent, from, to)
  }

  lemma CheckedOnce(absent: nat -> bool, at: nat)
    ensures Checked(absent, at, at + 1, absent(at)) && Checked(absent, at, at, false)
  {
  }

  lemma CheckedFurther(absent: nat -> bool, from: nat, mid: nat, to: nat, gone: bool)
    requires from <= mid <= to && Checked(absent, from, mid, false) && Checked(absent, mid, to, gone)
    ensures Checked(absent, from, to, gone)
  {
  }

  /** Of checks of which only the last failed, the first failed only if it was the last. */
  lemma FirstCheck(absent: nat -> bool, from: nat, to: nat)
    requires Checked(absent, from, to, true)
    ensures absent(from) <==> to == from + 1
  {
  }

  // ---------------------------------------------------------------- the adapter

  class Adapter {
    const pass: Readings
    const stop: Readings
    const absent: nat -> bool
    /** IS_RT3071 or IS_RT3572. */
    const rt3071: bool
    var passReads: nat
    var stopReads: nat
    var checks: nat
    var rfR22: bv8
    var rfR24: Byte
    var rfR31: bv8
    var bbpR4: bv8
    var bbpR24: bv8
    var bbpR25: bv8
    var cali20: Byte
    var cali40: Byte

    constructor (pass: Readings, stop: Readings, absent: nat -> bool, rt3071: bool)
    {
      this.pass, this.stop, this.absent, this.rt3071 := pass, stop, absent, rt3071;
      passReads, stopReads, checks := 0, 0, 0;
    }

    /** RTMP_TEST_FLAG(pAd, fRTMP_ADAPTER_NIC_NOT_EXIST). */
    method Gone() returns (g: bool)
      modifies `checks
      ensures g == absent(old(checks)) && checks == old(checks) + 1
    {
      g := absent(checks);
      checks := checks + 1;
    }

    /** The pass-band loop: until a reading is not zero or the shared retry count runs out. */
    method PassBand(retry: nat) returns (g: bool, level: int, retry': nat)
      requires retry <= RETRY_LIMIT + 1
      modifies `passReads, `checks, `bbpR25
      ensures passReads == old(passReads) + (retry' - retry)
      ensures retry <= retry' && (retry' <= RETRY_LIMIT + 1 || retry' == retry + 1)
      ensures !g ==> passReads > 0 && level == pass(passReads - 1) && (level != 0 || retry' > RETRY_LIMIT)
      ensures old(checks) < checks && Checked(absent, old(checks), checks, g)
    {
      hide Checked;
      retry', level := retry, 0;
      var again := true;
      CheckedOnce(absent, checks);
      while again
        invariant retry <= retry' && (retry' <= RETRY_LIMIT + 1 || retry' == retry + 1)
        invariant again ==> retry' <= RETRY_LIMIT || retry' == retry
        invariant passReads == old(passReads) + (retry' - retry)
        invariant !again ==> passReads > 0 && level == pass(passReads - 1) && (level != 0 || retry' > RETRY_LIMIT)
        invariant old(checks) <= checks && (!again ==> old(checks) < checks)
        invariant Checked(absent, old(checks), checks, false)
        decreases again, RETRY_LIMIT + 2 - retry'
      {
        CheckedOnce(absent, checks);
        g := Gone();
        CheckedFurther(absent, old(checks), checks - 1, checks, g);
        if g {
          return;
        }
        bbpR25 := 0x90;
        level := pass(passReads);
        passReads := passReads + 1;
        again := retry' < RETRY_LIMIT && level == 0;
        retry' := retry' + 1;
      }
      g := false;
    }

    /** The stop-band loop, from register value `start`. */
    method StopBand(level: int, target: int, start: Byte, loopcnt: nat)
      returns (g: bool, s: Search, r24: Byte, count: nat, loopcnt': nat)
      requires loopcnt <= LOOP_LIMIT
      modifies `stopReads, `checks, `rfR24, `bbpR25
      ensures loopcnt' == loopcnt + s.n && s.at == old(stopReads) && s.level == level
      ensures Found(stop, target, s) && r24 == Bump(start, s.n) && count == Hits(stop, s.at, level, target, s.n)
      ensures stopReads == s.at + s.n + (if s.beyond then 1 else 0)
      ensures !g && !s.beyond ==> loopcnt' == LOOP_LIMIT + 2
      ensures g || s.beyond ==> loopcnt' <= LOOP_LIMIT + 1
      ensures g ==> !s.beyond
      ensures old(checks) < checks && Checked(absent, old(checks), checks, g)
    {
      hide AllWithin, Hits, Bump, Found, Checked;
      CheckedOnce(absent, checks);
      r24, count, loopcnt' := start, 0, loopcnt;
      NoneYet(stop, stopReads, level, target, start);
      var at, n: nat := stopReads, 0;
      while true
        invariant loopcnt' == loopcnt + n <= LOOP_LIMIT + 1 && stopReads == at + n
        invariant AllWithin(stop, at, level, target, n) && count == Hits(stop, at, level, target, n)
        invariant r24 == Bump(start, n)
        invariant old(checks) <= checks && Checked(absent, old(checks), checks, false)
        decreases LOOP_LIMIT + 2 - loopcnt'
      {
        CheckedOnce(absent, checks);
        g := Gone();
        CheckedFurther(absent, old(checks), checks - 1, checks, g);
        if g {
          FoundSoFar(stop, target, level, at, n, false);
          return true, Search(level, at, n, false), r24, count, loopcnt';
        }
        bbpR25 := 0x90;
        var value := stop(stopReads);
        stopReads := stopReads + 1;
        if level - value < target {
          r24 := (r24 + 1) % 256;
        } else if level - value == target {
          r24 := (r24 + 1) % 256;
          count := count + 1;
        } else {
          FoundSoFar(stop, target, level, at, n, true);
          return false, Search(level, at, n, true), r24, count, loopcnt';
        }
        OneMore(stop, at, level, target, start, n);
        n := n + 1;
        loopcnt' := loopcnt' + 1;
        if loopcnt' - 1 > LOOP_LIMIT {
          FoundSoFar(stop, target, level, at, n, false);
          return false, Search(level, at, n, false), r24, count, loopcnt';
        }
        rfR24 := r24;
      }
    }

    /** The register settings at the head of a pass: the filter's start value, the bandwidth, loopback on. */
    method Prepare(wide: bool) returns (target: int, start: Byte)
      modifies `rfR22, `rfR24, `rfR31, `bbpR4, `bbpR24
      ensures target == TargetFor(wide, rt3071) && start == rfR24 == StartFor(wide, old(rfR24))
      ensures rfR22 & 1 == 1 && bbpR24 == 0
    {
      if wide {
        start := rfR24 / 64 * 64 + 0x27;
        rfR24 := start;
        target := if rt3071 then 0x15 else 0x19;
        bbpR4 := (bbpR4 & !0x18) | 0x10;
        rfR31 := rfR31 | 0x20;
      } else {
        start := rfR24 / 64 * 64 + 0x07;
        rfR24 := start;
        target := if rt3071 then 0x13 else 0x16;
        rfR31 := rfR31 & !0x20;
      }
      rfR22 := rfR22 | 1;
      bbpR24 := 0;
    }

    /** One turn of the outer loop up to the choice of the setting. An adapter gone at its head leaves every register
        alone. */
    method RunPass(wide: bool, retry: nat, loopcnt: nat)
      returns (g: bool, s: Search, setting: Byte, retry': nat, loopcnt': nat)
      requires retry <= RETRY_LIMIT + 1 && loopcnt <= LOOP_LIMIT
      modifies `passReads, `stopReads, `checks, `rfR22, `rfR24, `rfR31, `bbpR4, `bbpR24, `bbpR25
      ensures passReads == old(passReads) + (retry' - retry)
      ensures retry <= retry' && (retry' <= RETRY_LIMIT + 1 || retry' == retry + 1)
      ensures old(checks) < checks && Checked(absent, old(checks), checks, g) && (!g ==> old(checks) + 1 < checks)
      ensures loopcnt' == loopcnt + s.n && stopReads == old(stopReads) + s.n + (if s.beyond then 1 else 0)
      ensures if s.beyond || g then loopcnt' <= LOOP_LIMIT + 1 else loopcnt' == LOOP_LIMIT + 2
      ensures Found(stop, TargetFor(wide, rt3071), s) && s.at == old(stopReads)
      ensures !g ==> passReads > 0 && s.level == pass(passReads - 1)
      ensures !g ==> setting == Setting(stop, TargetFor(wide, rt3071), StartFor(wide, old(rfR24)), s)
      ensures g && checks == old(checks) + 1 ==> unchanged(`rfR22, `rfR24, `rfR31, `bbpR4, `bbpR24)
      ensures !(g && checks == old(checks) + 1) ==> rfR22 & 1 == 1
    {
      hide Found, StartFor, TargetFor, AllWithin, Hits, Bump, Checked;
      CheckedOnce(absent, checks);
      g := Gone();
      if g {
        NoneYet(stop, stopReads, 0, TargetFor(wide, rt3071), rfR24);
        FoundSoFar(stop, TargetFor(wide, rt3071), 0, stopReads, 0, false);
        return true, Search(0, stopReads, 0, false), rfR24, retry, loopcnt;
      }
      var target, start := Prepare(wide);
      var level;
      ghost var mid := checks;
      g, level, retry' := PassBand(retry);
      CheckedFurther(absent, old(checks), mid, checks, g);
      mid := checks;
      if g {
        NoneYet(stop, stopReads, level, target, start);
        FoundSoFar(stop, target, level, stopReads, 0, false);
        return true, Search(level, stopReads, 0, false), start, retry', loopcnt;
      }
      bbpR24 := 0x06;
      var count;
      g, s, setting, count, loopcnt' := StopBand(level, target, start, loopcnt);
      CheckedFurther(absent, old(checks), mid, checks, g);
      if g {
        return;
      }
      if count > 0 {
        setting := Before(setting);
      }
    }

    /** RTMPFilterCalibration. `done` is false exactly when a check found the adapter gone. If that was the first check,
        no register has been touched; at any later one loopback is left on. */
    method Calibrate() returns (done: bool, searches: seq<Search>)
      modifies this
      ensures |searches| <= 2
      ensures stopReads - old(stopReads) <= 103 && passReads - old(passReads) <= 102
      ensures done ==> bbpR24 == 0 && rfR22 & 1 == 0 && bbpR4 & 0x18 == 0
      ensures old(checks) < checks && Checked(absent, old(checks), checks, !done)
      ensures !done && absent(old(checks)) ==> unchanged(`rfR22, `rfR24, `rfR31, `bbpR4, `bbpR24)
      ensures !done && !absent(old(checks)) ==> rfR22 & 1 == 1
      ensures done ==> |searches| > 0 && (|searches| == 2 <==> searches[0].n < 100)
      ensures forall i | 0 <= i < |searches| :: Found(stop, TargetFor(i == 1, rt3071), searches[i])
      ensures cali20 == if |searches| > 0 && searches[0].n < 100
                        then Setting(stop, TargetFor(false, rt3071), StartFor(false, old(rfR24)), searches[0])
                        else 0x1F
      ensures cali40 == if done && |searches| == 2 && searches[0].n + searches[1].n < 100
                        then Setting(stop, TargetFor(true, rt3071), StartFor(true, cali20), searches[1])
                        else 0x2F
    {
      hide Found, StartFor, TargetFor, Setting, Checked;
      cali20, cali40 := 0x1F, 0x2F;
      searches := [];
      var loop, retry, loopcnt: nat := 0, 0, 0;
      CheckedOnce(absent, checks);
      while true
        invariant old(checks) <= checks && Checked(absent, old(checks), checks, false)
        invariant if loop == 0 then checks == old(checks) && rfR22 == old(rfR22) else old(checks) + 1 < checks
        invariant loop == 0 ==> unchanged(`rfR31, `bbpR4, `bbpR24)
        invariant loop == 1 ==> rfR22 & 1 == 1
        invariant loop <= 1 && |searches| == loop
        invariant retry <= RETRY_LIMIT + 1 && passReads == old(passReads) + retry
        invariant if loop == 0 then loopcnt == 0 else loopcnt == searches[0].n < LOOP_LIMIT
        invariant stopReads <= old(stopReads) + loopcnt + loop
        invariant forall i | 0 <= i < |searches| :: Found(stop, TargetFor(i == 1, rt3071), searches[i])
        invariant loop == 0 ==> retry == 0 && cali20 == 0x1F && rfR24 == old(rfR24)
        invariant loop == 1 ==>
          rfR24 == cali20 == Setting(stop, TargetFor(false, rt3071), StartFor(false, old(rfR24)), searches[0])
        invariant cali40 == 0x2F
        decreases 2 - loop
      {
        var g, s, setting;
        ghost var mid := checks;
        g, s, setting, retry, loopcnt := RunPass(loop == 1, retry, loopcnt);
        CheckedFurther(absent, old(checks), mid, checks, g);
        if g {
          FirstCheck(absent, old(checks), checks);
          return false, searches;
        }
        searches := searches + [s];
        if loopcnt >= LOOP_LIMIT {
          break;
        }
        if loop == 0 {
          loop := loop + 1;
          cali20 := setting;
        } else {
          loop := loop + 1;
          cali40 := setting;
          break;
        }
        rfR24 := setting;
      }
      Restore();
      done := true;
    }

    method Restore()
      modifies `bbpR24, `rfR22, `bbpR4
      ensures bbpR24 == 0 && rfR22 & 1 == 0 && bbpR4 & 0x18 == 0
    {
      bbpR24 := 0;
      rfR22 := rfR22 & !1;
      bbpR4 := bbpR4 & !0x18;
    }
  }
}
