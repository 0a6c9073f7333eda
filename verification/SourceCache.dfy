/**
 `_SourceMemoryCache` of `images.py`: a byte-budgeted cache that evicts the least recently used
 entries. The ordered dict is a list of entries with distinct keys, the oldest use first.
 */
module SourceCache {
  import opened Wrappers

  type Byte = b: int | 0 <= b < 256

  datatype Entry = Entry(key: string, data: seq<Byte>, storedAt: real)

  const TTL: real := 3600.0
  const MAX_BYTES := 32 * 1024 * 1024
  const ENTRY_MAX_BYTES := 8 * 1024 * 1024

  function Size(entries: seq<Entry>): nat {
    if entries == [] then 0 else |entries[0].data| + Size(entries[1..])
  }

  predicate DistinctKeys(entries: seq<Entry>) {
    forall i, j | 0 <= i < j < |entries| :: entries[i].key != entries[j].key
  }

  function IndexOf(entries: seq<Entry>, key: string): (index: Option<nat>)
    ensures index.None? ==> forall i | 0 <= i < |entries| :: entries[i].key != key
    ensures index.Some? ==> index.value < |entries| && entries[index.value].key == key
  {
    if entries == [] then None
    else if entries[0].key == key then Some(0)
    else match IndexOf(entries[1..], key) case None => None case Some(i) => Some(i + 1)
  }

  function Without(entries: seq<Entry>, key: string): seq<Entry> {
    match IndexOf(entries, key)
    case None => entries
    case Some(i) => entries[..i] + entries[i + 1..]
  }

  /** The one entry of that key is left out, and the others stay in order. */
  lemma WithoutMeaning(entries: seq<Entry>, key: string)
    requires DistinctKeys(entries)
    ensures
      || (Without(entries, key) == entries && forall e | e in entries :: e.key != key)
      || exists i | 0 <= i < |entries| ::
           entries[i].key == key && Without(entries, key) == entries[..i] + entries[i + 1..]
    ensures forall e :: e in Without(entries, key) <==> e in entries && e.key != key
  {
    match IndexOf(entries, key)
    case None =>
    case Some(k) =>
      DropKeepsDistinct(entries, k);
      assert entries == entries[..k] + [entries[k]] + entries[k + 1..];
  }

  // ----- eviction

  /** From `k` on the entries fit the budget, with one more they would not. */
  ghost predicate FitsFrom(entries: seq<Entry>, k: nat)
    requires k <= |entries|
  {
    Size(entries[k..]) <= 33554432 && (k > 0 ==> Size(entries[k - 1..]) > 33554432)
  }

  /** The longest suffix whose size is within the budget. */
  ghost predicate IsLongestFit(entries: seq<Entry>, kept: seq<Entry>) {
    exists k: nat | k <= |entries| :: FitsFrom(entries, k) && kept == entries[k..]
  }

  lemma {:induction false} SizeOfConcat(a: seq<Entry>, b: seq<Entry>)
    ensures Size(a + b) == Size(a) + Size(b)
  {
    if a == [] {
      assert a + b == b;
    } else {
      assert (a + b)[1..] == a[1..] + b;
      SizeOfConcat(a[1..], b);
    }
  }

  lemma SizeOfSuffix(entries: seq<Entry>, k: nat)
    requires k < |entries|
    ensures Size(entries[k..]) == |entries[k].data| + Size(entries[k + 1..])
  {
    assert entries[k..][1..] == entries[k + 1..];
  }

  lemma {:induction false} SuffixShrinks(entries: seq<Entry>, i: nat, j: nat)
    requires i <= j <= |entries|
    ensures Size(entries[j..]) <= Size(entries[i..])
    decreases j - i
  {
    if i < j {
      hide Size;
      SuffixShrinks(entries, i + 1, j);
      SizeOfSuffix(entries, i);
    }
  }

  /** Two suffixes that both are the longest fit are the same. */
  lemma LongestFitIsUnique(entries: seq<Entry>, a: seq<Entry>, b: seq<Entry>)
    requires IsLongestFit(entries, a) && IsLongestFit(entries, b)
    ensures a == b
  {
    hide Size;
    var j: nat :| j <= |entries| && FitsFrom(entries, j) && a == entries[j..];
    var k: nat :| k <= |entries| && FitsFrom(entries, k) && b == entries[k..];
    if j < k {
      SuffixShrinks(entries, j, k - 1);
    } else if k < j {
      SuffixShrinks(entries, k, j - 1);
    }
  }

  lemma SizeOfWithout(entries: seq<Entry>, i: nat)
    requires i < |entries|
    ensures Size(entries) == Size(entries[..i] + entries[i + 1..]) + |entries[i].data|
  {
    SizeOfConcat(entries[..i], entries[i..]);
    SizeOfConcat(entries[..i], entries[i + 1..]);
    SizeOfSuffix(entries, i);
    assert entries[..i] + entries[i..] == entries;
  }

  // ----- history

  /** The entries are those last accepted for their keys, ordered by their last use. */
  ghost predicate Remembers(entries: seq<Entry>, accepted: map<string, Entry>, lastUse: map<string, nat>, clock: nat) {
    && (forall i | 0 <= i < |entries| ::
          var key := entries[i].key;
          key in accepted && accepted[key] == entries[i] && key in lastUse && lastUse[key] < clock)
    && (forall i, j | 0 <= i < j < |entries| :: lastUse[entries[i].key] < lastUse[entries[j].key])
  }

  /** The position in the whole list of what is at `i` once the entry at `k` is left out. */
  function Skip(i: int, k: int): int {
    if i < k then i else i + 1
  }

  lemma DropAt(entries: seq<Entry>, k: nat)
    requires k < |entries|
    ensures var w := entries[..k] + entries[k + 1..];
            |w| == |entries| - 1 && forall i | 0 <= i < |w| :: w[i] == entries[Skip(i, k)]
  {
  }

  lemma DropKeepsDistinct(entries: seq<Entry>, k: nat)
    requires k < |entries| && DistinctKeys(entries)
    ensures var w := entries[..k] + entries[k + 1..];
            DistinctKeys(w) && forall i | 0 <= i < |w| :: w[i].key != entries[k].key
  {
    DropAt(entries, k);
    var w := entries[..k] + entries[k + 1..];
    forall i, j | 0 <= i < j < |w| ensures w[i].key != w[j].key {
      assert w[i] == entries[Skip(i, k)] && w[j] == entries[Skip(j, k)] && Skip(i, k) < Skip(j, k);
    }
  }

  lemma DropRemembers(entries: seq<Entry>, k: nat, accepted: map<string, Entry>, lastUse: map<string, nat>, clock: nat)
    requires k < |entries| && Remembers(entries, accepted, lastUse, clock)
    ensures Remembers(entries[..k] + entries[k + 1..], accepted, lastUse, clock)
  {
    DropAt(entries, k);
    var w := entries[..k] + entries[k + 1..];
    forall i, j | 0 <= i < j < |w| ensures lastUse[w[i].key] < lastUse[w[j].key] {
      assert w[i] == entries[Skip(i, k)] && w[j] == entries[Skip(j, k)] && Skip(i, k) < Skip(j, k);
    }
  }

  lemma WithoutRemembers(
      entries: seq<Entry>, key: string, accepted: map<string, Entry>, lastUse: map<string, nat>, clock: nat)
    requires DistinctKeys(entries) && Remembers(entries, accepted, lastUse, clock)
    ensures DistinctKeys(Without(entries, key)) && Remembers(Without(entries, key), accepted, lastUse, clock)
    ensures forall i | 0 <= i < |Without(entries, key)| :: Without(entries, key)[i].key != key
  {
    hide Remembers, DistinctKeys;
    match IndexOf(entries, key)
    case None =>
    case Some(k) =>
      DropKeepsDistinct(entries, k);
      DropRemembers(entries, k, accepted, lastUse, clock);
  }

  /** A use of `e` puts it last. */
  lemma UseRemembers(entries: seq<Entry>, e: Entry, accepted: map<string, Entry>, lastUse: map<string, nat>, clock: nat)
    requires DistinctKeys(entries) && Remembers(entries, accepted, lastUse, clock)
    requires forall i | 0 <= i < |entries| :: entries[i].key != e.key
    ensures DistinctKeys(entries + [e])
    ensures Remembers(entries + [e], accepted[e.key := e], lastUse[e.key := clock], clock + 1)
  {
  }

  lemma SuffixRemembers(
      entries: seq<Entry>, k: nat, accepted: map<string, Entry>, lastUse: map<string, nat>, clock: nat)
    requires k <= |entries| && DistinctKeys(entries) && Remembers(entries, accepted, lastUse, clock)
    ensures DistinctKeys(entries[k..]) && Remembers(entries[k..], accepted, lastUse, clock)
  {
    assert forall i | 0 <= i < |entries| - k :: entries[k..][i] == entries[k + i];
  }

  /** Everything a put evicts was last used before everything it keeps. */
  lemma EvictsLeastRecentlyUsed(
      entries: seq<Entry>, kept: seq<Entry>, accepted: map<string, Entry>, lastUse: map<string, nat>, clock: nat,
      out: Entry, stay: Entry)
    requires Remembers(entries, accepted, lastUse, clock) && IsLongestFit(entries, kept)
    requires out in entries && out !in kept && stay in kept
    ensures out.key in lastUse && stay.key in lastUse && lastUse[out.key] < lastUse[stay.key]
  {
    hide FitsFrom;
    var k: nat :| k <= |entries| && FitsFrom(entries, k) && kept == entries[k..];
    var i :| 0 <= i < |entries| && entries[i] == out;
    var j :| 0 <= j < |kept| && kept[j] == stay;
    assert forall m | k <= m < |entries| :: entries[m] == kept[m - k];
    assert i < k && entries[k + j] == stay;
  }

  // ----- the cache

  class SourceMemoryCache {
    var entries: seq<Entry>
    var totalBytes: int
    // history: the last accepted entry and the last use of every key
    ghost var accepted: map<string, Entry>
    ghost var lastUse: map<string, nat>
    ghost var clock: nat

    ghost predicate Valid()
      reads this
    {
      && DistinctKeys(entries)
      && totalBytes == Size(entries) <= 33554432
      && Remembers(entries, accepted, lastUse, clock)
    }

    constructor ()
      ensures Valid() && entries == []
    {
      entries, totalBytes := [], 0;
      accepted, lastUse, clock := map[], map[], 0;
    }

    method Pop(key: string)
      requires totalBytes == Size(entries)
      modifies this`entries, this`totalBytes
      ensures entries == Without(old(entries), key) && totalBytes == Size(entries) <= old(totalBytes)
      ensures old(Valid()) ==> Valid()
    {
      if Valid() { WithoutRemembers(entries, key, accepted, lastUse, clock); }
      var index := IndexOf(entries, key);
      if index.Some? {
        SizeOfWithout(entries, index.value);
        totalBytes := totalBytes - |entries[index.value].data|;
        entries := entries[..index.value] + entries[index.value + 1..];
      }
    }

    method MoveToEnd(i: nat)
      requires Valid() && i < |entries|
      modifies this`entries, this`lastUse, this`clock
      ensures Valid() && entries == Without(old(entries), old(entries)[i].key) + [old(entries)[i]]
    {
      hide Size, Remembers;
      var entry := entries[i];
      assert IndexOf(entries, entry.key) == Some(i);
      WithoutRemembers(entries, entry.key, accepted, lastUse, clock);
      ghost var others := Without(entries, entry.key);
      UseRemembers(others, entry, accepted, lastUse, clock);
      SizeOfWithout(entries, i);
      SizeOfConcat(others, [entry]);
      SizeOfConcat(entries[..i] + entries[i + 1..], [entry]);
      SizeOfOne(entry);
      RememberedIs(entries, i, accepted, lastUse, clock);
      assert accepted[entry.key := entry] == accepted;
      entries := entries[..i] + entries[i + 1..] + [entry];
      lastUse, clock := lastUse[entry.key := clock], clock + 1;
    }

    method Get(key: string, now: real) returns (data: Option<seq<Byte>>)
      requires Valid()
      modifies this
      ensures Valid() && accepted == old(accepted)
      // a hit is the last accepted value of the key, young enough, and becomes the last used entry
      ensures data.Some? ==>
                && key in accepted && data.value == accepted[key].data && now - accepted[key].storedAt <= 3600.0
                && entries == Without(old(entries), key) + [accepted[key]]
      // a miss has no entry, or an expired one that is dropped
      ensures data.None? ==>
                && entries == Without(old(entries), key)
                && (IndexOf(old(entries), key).None? || (key in accepted && now - accepted[key].storedAt > 3600.0))
    {
      hide Size;
      var index := IndexOf(entries, key);
      if index.None? {
        return None;
      }
      var entry := entries[index.value];
      RememberedIs(entries, index.value, accepted, lastUse, clock);
      if now - entry.storedAt > TTL {
        WithoutRemembers(entries, key, accepted, lastUse, clock);
        Pop(key);
        return None;
      }
      MoveToEnd(index.value);
      return Some(entry.data);
    }

    method Put(key: string, data: seq<Byte>, now: real)
      requires Valid()
      modifies this
      ensures Valid()
      ensures |data| > 8388608 ==> entries == old(entries) && accepted == old(accepted)
      ensures |data| <= 8388608 ==>
                var entry := Entry(key, data, now);
                && accepted == old(accepted)[key := entry]
                && entries != [] && entries[|entries| - 1] == entry
                && IsLongestFit(Without(old(entries), key) + [entry], entries)
    {
      hide Size, Remembers, Without;
      if |data| > ENTRY_MAX_BYTES {
        return;
      }
      WithoutRemembers(entries, key, accepted, lastUse, clock);
      Pop(key);
      var entry := Entry(key, data, now);
      UseRemembers(entries, entry, accepted, lastUse, clock);
      SizeOfConcat(entries, [entry]);
      SizeOfOne(entry);
      entries := entries + [entry];
      totalBytes := totalBytes + |data|;
      accepted, lastUse, clock := accepted[key := entry], lastUse[key := clock], clock + 1;
      Evict();
    }

    /** Drop the oldest entries until the rest fit; the newest always does. */
    method Evict()
      requires entries != [] && |entries[|entries| - 1].data| <= ENTRY_MAX_BYTES
      requires DistinctKeys(entries) && totalBytes == Size(entries) && Remembers(entries, accepted, lastUse, clock)
      modifies this`entries, this`totalBytes
      ensures Valid() && IsLongestFit(old(entries), entries)
      ensures entries != [] && entries[|entries| - 1] == old(entries)[|old(entries)| - 1]
    {
      ghost var all := entries;
      ghost var k := 0;
      SizeOfOne(all[|all| - 1]);
      assert all[|all| - 1..] == [all[|all| - 1]];
      hide Size, Remembers, DistinctKeys, FitsFrom;
      while totalBytes > MAX_BYTES && entries != []
        invariant 0 <= k < |all| && entries == all[k..] && totalBytes == Size(all[k..])
        invariant k > 0 ==> Size(all[k - 1..]) > MAX_BYTES
        decreases |entries|
      {
        SizeOfSuffix(all, k);
        assert all[k..][1..] == all[k + 1..];
        totalBytes := totalBytes - |entries[0].data|;
        entries := entries[1..];
        k := k + 1;
      }
      SuffixRemembers(all, k, accepted, lastUse, clock);
      CutFits(all, k);
    }

    method Clear()
      requires Valid()
      modifies this
      ensures Valid() && entries == [] && accepted == old(accepted)
    {
      entries, totalBytes := [], 0;
    }
  }

  lemma CutFits(all: seq<Entry>, k: nat)
    requires k <= |all| && Size(all[k..]) <= MAX_BYTES && (k > 0 ==> Size(all[k - 1..]) > MAX_BYTES)
    ensures IsLongestFit(all, all[k..])
  {
    assert FitsFrom(all, k);
  }

  lemma SizeOfOne(e: Entry)
    ensures Size([e]) == |e.data|
  {
    assert [e][1..] == [];
  }

  lemma RememberedIs(entries: seq<Entry>, i: nat, accepted: map<string, Entry>, lastUse: map<string, nat>, clock: nat)
    requires Remembers(entries, accepted, lastUse, clock) && i < |entries|
    ensures entries[i].key in accepted && accepted[entries[i].key] == entries[i]
  {
  }
}
