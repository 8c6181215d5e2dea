/** Enabling and disabling ranges of CAN ids on a handle: `id_filter` and the ID_RANGE_ADD request of
    esd/src/esdcan_common.c, including the retries while the nucleus is busy and the roll-back of a failed add. */
module IdFilter {
  import opened Basics

  const ID_20B_BASE := 0x2000_0000

  datatype Result = Success | Again | AlreadyEnabled
  datatype Command = On | Off

  /** The k-th id of a range, in the 32 bits ids have. */
  function IdAt(start: nat, k: nat): nat {
    (start + k) % TWO_32
  }

  function Range(start: nat, n: nat): set<nat> {
    set k | 0 <= k < n :: IdAt(start, k)
  }

  function Ids(start: nat, n: nat): seq<nat> {
    seq(n, k requires 0 <= k => IdAt(start, k))
  }

  predicate Is29Bit(start: nat) {
    start / ID_20B_BASE % 2 == 1
  }

  lemma IdAtAdds(start: nat, m: nat, n: nat)
    ensures IdAt(IdAt(start, m), n) == IdAt(start, m + n)
  {
  }

  lemma RangeGrows(start: nat, m: nat, n: nat)
    ensures Range(start, m + n) == Range(start, m) + Range(IdAt(start, m), n)
  {
    forall x | x in Range(start, m + n)
      ensures x in Range(start, m) + Range(IdAt(start, m), n)
    {
      var k :| 0 <= k < m + n && x == IdAt(start, k);
      if k >= m {
        IdAtAdds(start, m, k - m);
        assert x == IdAt(IdAt(start, m), k - m);
      }
    }
    forall x | x in Range(IdAt(start, m), n)
      ensures x in Range(start, m + n)
    {
      var k :| 0 <= k < n && x == IdAt(IdAt(start, m), k);
      IdAtAdds(start, m, k);
      assert x == IdAt(start, m + k);
    }
  }

  lemma IdsGrow(start: nat, m: nat, n: nat)
    ensures Ids(start, m + n) == Ids(start, m) + Ids(IdAt(start, m), n)
  {
    var tail := Ids(IdAt(start, m), n);
    forall k | 0 <= k < n
      ensures tail[k] == IdAt(start, m + k)
    {
      IdAtAdds(start, m, k);
    }
  }

  /** Ids of one range with different numbers below 2^32 are different. */
  lemma IdsDiffer(start: nat, i: nat, j: nat)
    requires i < j < TWO_32
    ensures IdAt(start, i) != IdAt(start, j)
  {
  }

  /** The part of the nucleus that keeps the filter of one handle, as far as the driver relies on it: enabling works
      through the ids in order and stops at one that is enabled already; a busy nucleus makes some progress and says
      "again", `busy` saying how much on each call to come; disabling does not fail otherwise. */
  class Nucleus {
    var enabled: set<nat>
    var enabled29: bool
    var acr: nat
    var busy: seq<nat>
    ghost var processed: seq<nat>

    constructor (busy: seq<nat>)
      ensures enabled == {} && !enabled29 && this.busy == busy && processed == []
    {
      enabled, enabled29, acr, this.busy, processed := {}, false, 0, busy, [];
    }

    method Filter(cmd: Command, start: nat, todo: nat) returns (result: Result, done: nat)
      requires todo < TWO_32
      modifies this
      ensures done <= todo && (result.Success? <==> done == todo)
      ensures processed == old(processed) + Ids(start, done)
      ensures enabled == if cmd.On? then old(enabled) + Range(start, done) else old(enabled) - Range(start, done)
      ensures cmd.On? ==> old(enabled) !! Range(start, done)
      ensures result.AlreadyEnabled? <==> cmd.On? && done < todo && IdAt(start, done) in old(enabled)
      ensures result.Again? ==> |busy| < |old(busy)|
      ensures |busy| <= |old(busy)| && enabled29 == old(enabled29) && acr == old(acr)
    {
      var limit := if busy == [] || busy[0] > todo then todo else busy[0];
      busy := if busy == [] then [] else busy[1..];
      done := 0;
      while done < limit && (cmd.Off? || IdAt(start, done) !in enabled)
        invariant done <= limit
        invariant processed == old(processed) + Ids(start, done)
        invariant enabled == if cmd.On? then old(enabled) + Range(start, done) else old(enabled) - Range(start, done)
        invariant cmd.On? ==> old(enabled) !! Range(start, done)
        invariant busy == (if old(busy) == [] then [] else old(busy)[1..])
        invariant enabled29 == old(enabled29) && acr == old(acr)
      {
        var id := IdAt(start, done);
        RangeGrows(start, done, 1);
        IdsGrow(start, done, 1);
        assert Range(id, 1) == {id} && Ids(id, 1) == [id] by { assert IdAt(id, 0) == id; }
        enabled := if cmd.On? then enabled + {id} else enabled - {id};
        processed := processed + [id];
        done := done + 1;
      }
      result := if done == todo then Success
                else if cmd.On? && IdAt(start, done) in enabled then AlreadyEnabled
                else Again;
      if done < todo && cmd.On? && IdAt(start, done) in Range(start, done) {
        var k :| 0 <= k < done && IdAt(start, done) == IdAt(start, k);
        IdsDiffer(start, k, done);
      }
    }

    /** The call for the whole 29-bit region. */
    method Filter29(cmd: Command) returns (result: Result)
      modifies this`enabled29
      ensures result == (if cmd.On? && old(enabled29) then AlreadyEnabled else Success)
      ensures enabled29 == cmd.On?
    {
      result := if cmd.On? && enabled29 then AlreadyEnabled else Success;
      enabled29 := cmd.On?;
    }
  }

  /** `after` is `before` with the first n ids of the range switched; enabling has met no enabled id. */
  ghost predicate Switched(cmd: Command, before: set<nat>, after: set<nat>, start: nat, n: nat) {
    && after == (if cmd.On? then before + Range(start, n) else before - Range(start, n))
    && (cmd.On? ==> before !! Range(start, n))
  }

  /** Two calls in a row, of m and n ids, are one of m + n. */
  lemma TwoCalls(cmd: Command, s0: set<nat>, s1: set<nat>, s2: set<nat>, start: nat, m: nat, n: nat)
    requires Switched(cmd, s0, s1, start, m) && Switched(cmd, s1, s2, IdAt(start, m), n) && m + n < TWO_32
    ensures Switched(cmd, s0, s2, start, m + n)
    ensures Ids(start, m + n) == Ids(start, m) + Ids(IdAt(start, m), n)
    ensures cmd.On? && IdAt(IdAt(start, m), n) in s1 ==> IdAt(start, m + n) in s0
  {
    RangeGrows(start, m, n);
    IdsGrow(start, m, n);
    IdAtAdds(start, m, n);
    NotInPrefix(start, m, m + n);
    var id := IdAt(start, m + n);
    assert cmd.On? && id in s1 ==> id in s0;
  }

  /** The branch for ids below the 29-bit region. Across all retries the ids processed are one contiguous prefix of
      the range, each once, and the returned count is the length of that prefix. */
  method FilterInSteps(nuc: Nucleus, cmd: Command, start: nat, count0: nat) returns (result: Result, done: nat)
    requires start < TWO_32 && count0 < TWO_32
    modifies nuc
    ensures done <= count0 && (result.Success? <==> done == count0) && !result.Again?
    ensures nuc.processed == old(nuc.processed) + Ids(start, done)
    ensures Switched(cmd, old(nuc.enabled), nuc.enabled, start, done)
    ensures result.AlreadyEnabled? ==> cmd.On? && IdAt(start, done) in old(nuc.enabled)
    ensures nuc.enabled29 == old(nuc.enabled29) && nuc.acr == old(nuc.acr)
  {
    var todo: nat := count0;
    done := 0;
    while true
      invariant done + todo == count0
      invariant nuc.processed == old(nuc.processed) + Ids(start, done)
      invariant Switched(cmd, old(nuc.enabled), nuc.enabled, start, done)
      invariant nuc.enabled29 == old(nuc.enabled29) && nuc.acr == old(nuc.acr)
      decreases |nuc.busy|
    {
      ghost var before := nuc.enabled;
      var now;
      result, now := nuc.Filter(cmd, IdAt(start, done), todo);
      TwoCalls(cmd, old(nuc.enabled), before, nuc.enabled, start, done, now);
      done := done + now;
      todo := count0 - done;
      if !(result.Again? && done < count0) {
        break;
      }
    }
  }

  lemma NotInPrefix(start: nat, m: nat, k: nat)
    requires m <= k < TWO_32
    ensures IdAt(start, k) !in Range(start, m)
  {
  }

  /** id_filter. */
  method IdFilter(nuc: Nucleus, cmd: Command, start: nat, count0: nat) returns (result: Result, count: nat)
    requires start < TWO_32 && count0 < TWO_32
    modifies nuc
    ensures !Is29Bit(start) ==>
              && count <= count0 && (result.Success? <==> count == count0) && !result.Again?
              && nuc.processed == old(nuc.processed) + Ids(start, count)
              && Switched(cmd, old(nuc.enabled), nuc.enabled, start, count)
              && (result.AlreadyEnabled? ==> cmd.On? && IdAt(start, count) in old(nuc.enabled))
              && nuc.enabled29 == old(nuc.enabled29) && nuc.acr == old(nuc.acr)
    ensures Is29Bit(start) ==>
              && result == (if cmd.On? && old(nuc.enabled29) then AlreadyEnabled else Success)
              && count == (if result.Success? then count0 else 0)
              && nuc.enabled29 == cmd.On? && nuc.enabled == old(nuc.enabled)
              && nuc.acr == (if result.Success? then start else old(nuc.acr))
  {
    if Is29Bit(start) {
      count := count0;
      result := nuc.Filter29(cmd);
      if result.Success? {
        nuc.acr := start;
      } else {
        count := 0;
      }
    } else {
      result, count := FilterInSteps(nuc, cmd, start, count0);
    }
  }

  function Count(idStart: nat, idStop: nat): nat {
    (idStop - idStart + 1) % TWO_32
  }

  /** The ids an add names: from the first to the last, across the top of the 32 bits if the last is the smaller. */
  predicate Names(idStart: nat, idStop: nat, id: nat) {
    if idStart <= idStop then idStart <= id <= idStop
    else idStart <= id < TWO_32 || id <= idStop
  }

  /** The last id is the one before the first: all 2^32 ids are named, but their number is 0 in 32 bits. */
  predicate NamesAll(idStart: nat, idStop: nat) {
    idStart == idStop + 1 || (idStart == 0 && idStop == TWO_32 - 1)
  }

  /** The code's range has exactly the ids that are named, unless all are: then it has none. */
  lemma RangeOfAdd(idStart: nat, idStop: nat, id: nat)
    requires idStart < TWO_32 && idStop < TWO_32
    ensures id in Range(idStart, Count(idStart, idStop)) <==> Names(idStart, idStop, id) && !NamesAll(idStart, idStop)
    ensures Count(idStart, idStop) < TWO_32
  {
    var n := Count(idStart, idStop);
    if Names(idStart, idStop, id) && !NamesAll(idStart, idStop) {
      var k := if idStart <= id then id - idStart else id + TWO_32 - idStart;
      CountIs(idStart, idStop);
      assert 0 <= k < n && IdAt(idStart, k) == id;
    }
    if id in Range(idStart, n) {
      var k :| 0 <= k < n && id == IdAt(idStart, k);
      CountIs(idStart, idStop);
      IdIs(idStart, k);
    }
  }

  lemma IdIs(start: nat, k: nat)
    requires start < TWO_32 && k < TWO_32
    ensures IdAt(start, k) == if start + k < TWO_32 then start + k else start + k - TWO_32
  {
  }

  lemma CountIs(idStart: nat, idStop: nat)
    requires idStart < TWO_32 && idStop < TWO_32
    ensures Count(idStart, idStop) == if NamesAll(idStart, idStop) then 0
                                      else if idStart <= idStop then idStop - idStart + 1
                                      else idStop + TWO_32 - idStart + 1
  {
  }

  /** The region is chosen by bit 29 of the first id. */
  lemma RegionBit(high: nat, bit: nat, low: nat)
    requires bit < 2 && low < 0x2000_0000
    ensures Is29Bit(high * 0x4000_0000 + bit * 0x2000_0000 + low) <==> bit == 1
  {
    assert (high * 0x4000_0000 + bit * 0x2000_0000 + low) / 0x2000_0000 == 2 * high + bit;
  }

  /** The filter of a handle, as a value. */
  datatype FilterState = FilterState(enabled: set<nat>, enabled29: bool, acr: nat)

  /** What an add of a range amounts to. */
  function AddSpec(s: FilterState, idStart: nat, idStop: nat): (FilterState, Result) {
    if Is29Bit(idStart) then
      (s.(enabled29 := !s.enabled29, acr := idStart), if s.enabled29 then AlreadyEnabled else Success)
    else
      var range := Range(idStart, Count(idStart, idStop));
      if s.enabled !! range then (s.(enabled := s.enabled + range), Success) else (s, AlreadyEnabled)
  }

  /** What an add comes to below the 29-bit region, told without its counting: it succeeds exactly if none of the ids
      it is for was enabled, and then exactly these are enabled on top; else the filter is as it was. If all ids are
      named it is for none, and succeeds. */
  ghost predicate AddsExactly(s: FilterState, s': FilterState, result: Result, idStart: nat, idStop: nat) {
    && (result.Success? <==> NamesAll(idStart, idStop) || forall id | id in s.enabled :: !Names(idStart, idStop, id))
    && (result.Success? ==>
          forall id :: id in s'.enabled <==>
                       id in s.enabled || (Names(idStart, idStop, id) && !NamesAll(idStart, idStop)))
    && (result.Success? ==> s'.enabled29 == s.enabled29 && s'.acr == s.acr)
    && (!result.Success? ==> s' == s && result == AlreadyEnabled)
  }

  lemma AddSpecAddsExactly(s: FilterState, idStart: nat, idStop: nat)
    requires idStart < TWO_32 && idStop < TWO_32 && !Is29Bit(idStart)
    ensures var (s', result) := AddSpec(s, idStart, idStop); AddsExactly(s, s', result, idStart, idStop)
  {
    var range := Range(idStart, Count(idStart, idStop));
    forall id: nat
      ensures id in range <==> Names(idStart, idStop, id) && !NamesAll(idStart, idStop)
    {
      RangeOfAdd(idStart, idStop, id);
    }
    if id :| id in s.enabled && id in range {
      assert Names(idStart, idStop, id);
    }
  }

  /** The ID_RANGE_ADD request: on failure what was enabled is disabled again. However often the nucleus is busy, the
      request has the effect of AddSpec. */
  method RangeAdd(nuc: Nucleus, idStart: nat, idStop: nat) returns (result: Result)
    requires idStart < TWO_32 && idStop < TWO_32
    modifies nuc
    ensures (FilterState(nuc.enabled, nuc.enabled29, nuc.acr), result)
         == AddSpec(old(FilterState(nuc.enabled, nuc.enabled29, nuc.acr)), idStart, idStop)
    ensures !Is29Bit(idStart) ==> AddsExactly(old(FilterState(nuc.enabled, nuc.enabled29, nuc.acr)),
                                              FilterState(nuc.enabled, nuc.enabled29, nuc.acr), result, idStart, idStop)
  {
    ghost var s := FilterState(nuc.enabled, nuc.enabled29, nuc.acr);
    if !Is29Bit(idStart) {
      AddSpecAddsExactly(s, idStart, idStop);
    }
    result := AddOrRollBack(nuc, idStart, idStop);
  }

  method AddOrRollBack(nuc: Nucleus, idStart: nat, idStop: nat) returns (result: Result)
    requires idStart < TWO_32 && idStop < TWO_32
    modifies nuc
    ensures (FilterState(nuc.enabled, nuc.enabled29, nuc.acr), result)
         == AddSpec(old(FilterState(nuc.enabled, nuc.enabled29, nuc.acr)), idStart, idStop)
  {
    var count := Count(idStart, idStop);
    ghost var range := Range(idStart, count);
    var done;
    result, done := IdFilter(nuc, On, idStart, count);
    if result != Success {
      if !Is29Bit(idStart) {
        assert IdAt(idStart, done) in range;
      }
      var result2, done2 := IdFilter(nuc, Off, idStart, done);
    }
  }

  /** A failed add is a transaction, it leaves the filter as it was, exactly below the 29-bit region. An add of the
      29-bit region succeeds exactly if that was not enabled, and afterwards it is enabled exactly if it was not:
      a failed one switches off what was enabled before. */
  lemma FailedAddIsTransaction(s: FilterState, idStart: nat, idStop: nat)
    requires idStart < TWO_32 && idStop < TWO_32
    ensures var (s', result) := AddSpec(s, idStart, idStop);
            && (!result.Success? ==> (s' == s <==> !Is29Bit(idStart)))
            && (!Is29Bit(idStart) ==> AddsExactly(s, s', result, idStart, idStop))
            && (Is29Bit(idStart) ==>
                  && (result.Success? <==> !s.enabled29) && s'.enabled29 == !s.enabled29
                  && s'.enabled == s.enabled && s'.acr == idStart)
  {
    if !Is29Bit(idStart) {
      AddSpecAddsExactly(s, idStart, idStop);
    }
  }

  /** An add of all ids enables none of them. */
  lemma AddOfAllAddsNothing(s: FilterState)
    ensures AddSpec(s, 0, TWO_32 - 1) == (s, Success)
  {
    assert Count(0, TWO_32 - 1) == 0 && Range(0, 0) == {};
    assert s.enabled + {} == s.enabled;
  }

  /** For example, adding the 29-bit region twice leaves it disabled. */
  lemma SecondAddOf29BitDisables(s: FilterState)
    requires !s.enabled29
    ensures var (s1, r1) := AddSpec(s, ID_20B_BASE, ID_20B_BASE);
            var (s2, r2) := AddSpec(s1, ID_20B_BASE, ID_20B_BASE);
            r1 == Success && s1.enabled29 && r2 == AlreadyEnabled && !s2.enabled29
  {
  }
}
