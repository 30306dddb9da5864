/**
The two quarantines. Both count how often the same failure came back and quarantine for a while
once it has come back often enough; they differ in what makes two failures the same, in their
defaults, and in how they look an entry up.
*/
module Quarantine {
  import opened Basics
  import opened Text

  /** What makes two failures of a volume the same, trimmed. */
  datatype VolumeSeries = VolumeSeries(reason: string, classification: string, requestedNode: string)

  /** What makes two host artifact failures the same. */
  datatype HostSeries = HostSeries(classification: string, vmID: int, diskID: int, lvName: string)

  datatype Entry<S> = Entry(
    series: S, failureCount: nat, firstObservedAt: Time, lastObservedAt: Time, expiresAt: Option<Time>)

  datatype Policy = Policy(threshold: int, ttl: Duration)

  const MINUTE: Duration := 60_000_000_000

  function VolumePolicy(threshold: int, ttl: Duration): (p: Policy)
    ensures p.threshold > 0 && p.ttl > 0
  {
    Policy(if threshold <= 0 then 2 else threshold, if ttl <= 0 then 30 * MINUTE else ttl)
  }

  function HostPolicy(threshold: int, ttl: Duration): (p: Policy)
    ensures p.threshold > 0 && p.ttl > 0
  {
    Policy(if threshold <= 0 then 1 else threshold, if ttl <= 0 then 60 * MINUTE else ttl)
  }

  function NormalVolumeSeries(reason: string, classification: string, requestedNode: string): VolumeSeries {
    VolumeSeries(Trim(reason), Trim(classification), Trim(requestedNode))
  }

  /** The classification of a host artifact failure; a blank one stands for a local LV conflict. */
  function Classification(raw: string): string {
    if Trim(raw) == "" then "host_local_lv_conflict" else Trim(raw)
  }

  function NormalHostSeries(classification: string, vmID: int, diskID: int, lvName: string): HostSeries {
    HostSeries(Classification(classification), vmID, diskID, Trim(lvName))
  }

  /** Two failures of a volume are the same exactly when they agree in all three fields but for blanks. */
  lemma SameVolumeSeriesIff(reason: string, classification: string, node: string,
                            reason': string, classification': string, node': string)
    ensures NormalVolumeSeries(reason, classification, node) == NormalVolumeSeries(reason', classification', node') <==>
            Trim(reason) == Trim(reason') && Trim(classification) == Trim(classification') && Trim(node) == Trim(node')
  {
  }

  /** A host artifact failure without a classification counts as a local LV conflict, and any other as it is named. */
  lemma BlankIsLocalConflict(raw: string, vm: int, disk: int, lv: string)
    ensures Trim(raw) == "" ==>
              NormalHostSeries(raw, vm, disk, lv) == NormalHostSeries("host_local_lv_conflict", vm, disk, lv)
    ensures Trim(raw) != "" ==> NormalHostSeries(raw, vm, disk, lv).classification == Trim(raw)
    ensures NormalHostSeries(" ", vm, disk, lv).classification == "host_local_lv_conflict"
  {
    assert " " == " " + "" + "";
    TrimIs(" ", "", "");
    assert Trim("host_local_lv_conflict") == "host_local_lv_conflict";
  }

  /** Two host artifact failures are the same exactly when all four fields agree but for blanks. */
  lemma SameHostSeriesIff(class_: string, vm: int, disk: int, lv: string,
                          class': string, vm': int, disk': int, lv': string)
    ensures NormalHostSeries(class_, vm, disk, lv) == NormalHostSeries(class', vm', disk', lv') <==>
            Classification(class_) == Classification(class') && vm == vm' && disk == disk' && Trim(lv) == Trim(lv')
  {
  }

  /** Settings that make sense are used as they are; the defaults are twice and 30 minutes, once and 60 minutes. */
  lemma PoliciesFollowSettings(threshold: int, ttl: Duration)
    ensures threshold > 0 && ttl > 0 ==>
              VolumePolicy(threshold, ttl) == HostPolicy(threshold, ttl) == Policy(threshold, ttl)
    ensures VolumePolicy(threshold, ttl) == VolumePolicy(if threshold > 0 then threshold else 2, ttl)
    ensures HostPolicy(threshold, ttl) == HostPolicy(if threshold > 0 then threshold else 1, ttl)
    ensures VolumePolicy(threshold, ttl) == VolumePolicy(threshold, if ttl > 0 then ttl else 30 * MINUTE)
    ensures HostPolicy(threshold, ttl) == HostPolicy(threshold, if ttl > 0 then ttl else 60 * MINUTE)
  {
  }

  function Marked<S(==)>(previous: Option<Entry<S>>, series: S, p: Policy, now: Time): Entry<S> {
    var same := previous.Some? && previous.value.series == series;
    var count := if same then previous.value.failureCount + 1 else 1;
    Entry(series, count, if same then previous.value.firstObservedAt else now, now,
          if count >= p.threshold then Some(now + p.ttl) else None)
  }

  predicate Active<S>(entry: Option<Entry<S>>, now: Time) {
    entry.Some? && entry.value.expiresAt.Some? && entry.value.expiresAt.value > now
  }

  function Lookup<S>(entries: map<string, Entry<S>>, key: string): Option<Entry<S>> {
    if key in entries then Some(entries[key]) else None
  }

  /** One call to a manager, with the id as the caller wrote it. */
  datatype Call<S> = Mark(id: string, series: S, at: Time) | Clear(id: string)

  function Step<S(==)>(entries: map<string, Entry<S>>, call: Call<S>, p: Policy): map<string, Entry<S>> {
    var key := Trim(call.id);
    if key == "" then entries
    else match call
      case Mark(_, series, at) => entries[key := Marked(Lookup(entries, key), series, p, at)]
      case Clear(_) => entries - {key}
  }

  function After<S(==)>(calls: seq<Call<S>>, p: Policy): map<string, Entry<S>> {
    if calls == [] then map[] else Step(After(calls[..|calls| - 1], p), calls[|calls| - 1], p)
  }

  /** The part both managers' MarkFailure share: continue the series or start a new one. */
  method Advance<S(==)>(previous: Option<Entry<S>>, series: S, p: Policy, now: Time) returns (entry: Entry<S>)
    ensures entry == Marked(previous, series, p, now)
  {
    var count, first := 1, now;
    if previous.Some? && previous.value.series == series {
      count, first := previous.value.failureCount + 1, previous.value.firstObservedAt;
    }
    var expires: Option<Time> := None;
    if count >= p.threshold {
      expires := Some(now + p.ttl);
    }
    entry := Entry(series, count, first, now, expires);
  }

  // ---- The managers in place ----------------------------------------------------------------

  class VolumeQuarantineManager {
    var entries: map<string, Entry<VolumeSeries>>

    constructor ()
      ensures entries == map[]
    {
      entries := map[];
    }

    method MarkFailure(volumeID: string, reason: string, classification: string, requestedNode: string,
                       threshold: int, ttl: Duration, now: Time) returns (active: bool)
      modifies this
      ensures entries == Step(old(entries),
                              Mark(volumeID, NormalVolumeSeries(reason, classification, requestedNode), now),
                              VolumePolicy(threshold, ttl))
      ensures active <==> Active(Lookup(entries, Trim(volumeID)), now) && Trim(volumeID) != ""
    {
      var key := Trim(volumeID);
      if key == "" {
        return false;
      }
      var limit := if threshold <= 0 then 2 else threshold;
      var life := if ttl <= 0 then 30 * MINUTE else ttl;
      var entry := Advance(Lookup(entries, key), NormalVolumeSeries(reason, classification, requestedNode),
                           Policy(limit, life), now);
      entries := entries[key := entry];
      active := entry.expiresAt.Some?;
    }

    /** The id is used as it stands, although entries are kept under trimmed ids. */
    method GetActive(volumeID: string, now: Time) returns (active: bool)
      ensures active <==> VolumeActive(entries, volumeID, now)
    {
      if Trim(volumeID) == "" || volumeID !in entries {
        return false;
      }
      active := entries[volumeID].expiresAt.Some? && entries[volumeID].expiresAt.value > now;
    }

    method ClearEntry(volumeID: string)
      modifies this
      ensures entries == if Trim(volumeID) == "" then old(entries) else old(entries) - {Trim(volumeID)}
    {
      if Trim(volumeID) != "" {
        entries := entries - {Trim(volumeID)};
      }
    }
  }

  predicate VolumeActive(entries: map<string, Entry<VolumeSeries>>, volumeID: string, now: Time) {
    Trim(volumeID) != "" && Active(Lookup(entries, volumeID), now)
  }

  predicate HostActive(entries: map<string, Entry<HostSeries>>, key: string, now: Time) {
    Trim(key) != "" && Active(Lookup(entries, Trim(key)), now)
  }

  class HostArtifactQuarantineManager {
    var entries: map<string, Entry<HostSeries>>

    constructor ()
      ensures entries == map[]
    {
      entries := map[];
    }

    method MarkFailure(rawKey: string, classification: string, vmID: int, diskID: int, lvName: string,
                       threshold: int, ttl: Duration, now: Time) returns (active: bool)
      modifies this
      ensures entries == Step(old(entries), Mark(rawKey, NormalHostSeries(classification, vmID, diskID, lvName), now),
                              HostPolicy(threshold, ttl))
      ensures active <==> Active(Lookup(entries, Trim(rawKey)), now) && Trim(rawKey) != ""
    {
      var key := Trim(rawKey);
      if key == "" {
        return false;
      }
      var limit := if threshold <= 0 then 1 else threshold;
      var life := if ttl <= 0 then 60 * MINUTE else ttl;
      var entry := Advance(Lookup(entries, key), NormalHostSeries(classification, vmID, diskID, lvName),
                           Policy(limit, life), now);
      entries := entries[key := entry];
      active := entry.expiresAt.Some?;
    }

    method GetActive(rawKey: string, now: Time) returns (active: bool)
      ensures active <==> HostActive(entries, rawKey, now)
    {
      var key := Trim(rawKey);
      if key == "" || key !in entries {
        return false;
      }
      active := entries[key].expiresAt.Some? && entries[key].expiresAt.value > now;
    }

    method ClearEntry(rawKey: string)
      modifies this
      ensures entries == if Trim(rawKey) == "" then old(entries) else old(entries) - {Trim(rawKey)}
    {
      if Trim(rawKey) != "" {
        entries := entries - {Trim(rawKey)};
      }
    }
  }

  // ---- The history they summarise -----------------------------------------------------------

  /** The failures recorded under a key since it was last cleared. */
  function Failures<S>(calls: seq<Call<S>>, key: string): seq<(S, Time)> {
    if calls == [] then []
    else
      var before := Failures(calls[..|calls| - 1], key);
      var last := calls[|calls| - 1];
      if Trim(last.id) != key then before
      else if last.Mark? then before + [(last.series, last.at)]
      else []
  }

  /** The length of the longest run of equal series at the end. */
  function TrailingRun<S(==)>(fs: seq<(S, Time)>): (n: nat)
    ensures n <= |fs| && (n == 0 <==> fs == [])
  {
    if fs == [] then 0
    else
      var last := |fs| - 1;
      1 + (if last > 0 && fs[last - 1].0 == fs[last].0 then TrailingRun(fs[..last]) else 0)
  }

  predicate SameFrom<S(==)>(fs: seq<(S, Time)>, from: nat) {
    fs != [] && forall i | from <= i < |fs| :: fs[i].0 == fs[|fs| - 1].0
  }

  lemma {:induction false} TrailingRunIsLongest<S>(fs: seq<(S, Time)>)
    requires fs != []
    ensures SameFrom(fs, |fs| - TrailingRun(fs))
    ensures forall from: nat | from < |fs| - TrailingRun(fs) :: !SameFrom(fs, from)
  {
    var last := |fs| - 1;
    if last > 0 {
      var front := fs[..last];
      TrailingRunIsLongest(front);
      assert forall i | 0 <= i < last :: front[i] == fs[i];
      if fs[last - 1].0 == fs[last].0 {
        forall from: nat | from < |fs| - TrailingRun(fs)
          ensures !SameFrom(fs, from)
        {
          assert !SameFrom(front, from);
        }
      }
    }
  }

  /** What an entry should say, given the failures since the last clear. */
  predicate Summarises<S(==)>(entry: Option<Entry<S>>, fs: seq<(S, Time)>, p: Policy) {
    if fs == [] then entry.None?
    else
      var run, last := TrailingRun(fs), fs[|fs| - 1];
      entry == Some(Entry(last.0, run, fs[|fs| - run].1, last.1,
                          if run >= p.threshold then Some(last.1 + p.ttl) else None))
  }

  lemma MarkSummarises<S>(entry: Option<Entry<S>>, fs: seq<(S, Time)>, p: Policy, series: S, at: Time)
    requires Summarises(entry, fs, p)
    ensures Summarises(Some(Marked(entry, series, p, at)), fs + [(series, at)], p)
  {
    var after := fs + [(series, at)];
    assert after[..|after| - 1] == fs;
  }

  /** For every run of calls the entry of a key is its trailing run of equal failures since the last clear. */
  lemma {:induction false} EntryIsTrailingRun<S>(calls: seq<Call<S>>, p: Policy, key: string)
    requires key != ""
    ensures Summarises(Lookup(After(calls, p), key), Failures(calls, key), p)
  {
    if calls != [] {
      var before, last := calls[..|calls| - 1], calls[|calls| - 1];
      EntryIsTrailingRun(before, p, key);
      if Trim(last.id) == key && last.Mark? {
        MarkSummarises(Lookup(After(before, p), key), Failures(before, key), p, last.series, last.at);
      }
    }
  }

  /** The quarantine law: the trailing run has reached the threshold and the last failure is younger than the ttl. */
  predicate ShouldBeActive<S(==)>(calls: seq<Call<S>>, p: Policy, key: string, now: Time) {
    var fs := Failures(calls, key);
    fs != [] && TrailingRun(fs) >= p.threshold && now < fs[|fs| - 1].1 + p.ttl
  }

  /** Host artifact quarantine follows the law for every key, however it is written. */
  lemma HostQuarantineIff(calls: seq<Call<HostSeries>>, p: Policy, key: string, now: Time)
    ensures HostActive(After(calls, p), key, now) <==> Trim(key) != "" && ShouldBeActive(calls, p, Trim(key), now)
  {
    if Trim(key) != "" {
      EntryIsTrailingRun(calls, p, Trim(key));
    }
  }

  lemma {:induction false} KeysAreTrimmed<S>(calls: seq<Call<S>>, p: Policy)
    ensures forall k | k in After(calls, p) :: Trim(k) == k && k != ""
  {
    if calls != [] {
      KeysAreTrimmed(calls[..|calls| - 1], p);
      TrimTwice(calls[|calls| - 1].id);
    }
  }

  /**
  Volume quarantine follows the law exactly for ids without surrounding blanks: any other id is
  marked under its trimmed form and never found again.
  */
  lemma VolumeQuarantineIff(calls: seq<Call<VolumeSeries>>, p: Policy, volumeID: string, now: Time)
    ensures VolumeActive(After(calls, p), volumeID, now) <==>
            volumeID != "" && Trim(volumeID) == volumeID && ShouldBeActive(calls, p, volumeID, now)
  {
    KeysAreTrimmed(calls, p);
    if volumeID != "" {
      EntryIsTrailingRun(calls, p, volumeID);
    }
  }

  lemma TrimPadded(c: char)
    requires !IsSpace(c)
    ensures Trim([' ', c, ' ']) == [c] && Trim([c]) == [c]
  {
    assert TrimLeft([' ', c, ' ']) == [c, ' '];
    assert [c, ' '][..1] == [c];
    assert TrimRight([c, ' ']) == TrimRight([c]);
  }

  lemma TwoMarks<S>(id: string, series: S)
    ensures Failures([Mark(id, series, 0), Mark(id, series, 0)], Trim(id)) == [(series, 0), (series, 0)]
    ensures TrailingRun([(series, 0), (series, 0)]) == 2
  {
    var one := [Mark(id, series, 0)];
    var calls := one + [Mark(id, series, 0)];
    assert calls[..1] == one && one[..0] == [];
    assert Failures(one, Trim(id)) == [(series, 0)];
    assert [(series, 0), (series, 0)][..1] == [(series, 0)];
  }

  /**
  Marked twice under an id with blanks around it, the volume is in quarantine, and asking for that
  id does not find it.
  */
  lemma PaddedIdIsMissed(id: string, series: VolumeSeries)
    requires Trim(id) != "" && Trim(id) != id
    ensures var calls := [Mark(id, series, 0), Mark(id, series, 0)];
            var p := VolumePolicy(2, 0);
            && ShouldBeActive(calls, p, Trim(id), 0) && VolumeActive(After(calls, p), Trim(id), 0)
            && !VolumeActive(After(calls, p), id, 0)
  {
    var calls, p := [Mark(id, series, 0), Mark(id, series, 0)], VolumePolicy(2, 0);
    TwoMarks(id, series);
    TrimTwice(id);
    VolumeQuarantineIff(calls, p, Trim(id), 0);
    VolumeQuarantineIff(calls, p, id, 0);
  }

  /** For instance an id of one character between blanks. */
  lemma BlanksAroundOne(c: char, series: VolumeSeries)
    requires !IsSpace(c)
    ensures var id := [' ', c, ' '];
            var entries := After([Mark(id, series, 0), Mark(id, series, 0)], VolumePolicy(2, 0));
            VolumeActive(entries, [c], 0) && !VolumeActive(entries, id, 0)
  {
    TrimPadded(c);
    assert |[c]| != |[' ', c, ' ']|;
    PaddedIdIsMissed([' ', c, ' '], series);
  }
}
