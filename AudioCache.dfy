/** The bounded FIFO audio cache of background.js (`saveToCache` and the
    cache read in `speakText`) and the cache listing of options.js
    (`renderCacheList`). Storage holds two values: `audioCache`, an object from
    cache key to entry, and `audioCacheOrder`, the keys in insertion order. */
module AudioCache {
  import opened Wrappers
  import opened Seqs

  /** An entry as stored: a bare data URL (the legacy shape) or an object. */
  datatype CacheEntry =
    | Legacy(url: string)
    | Structured(dataUrl: string, text: string, voice: string, rate: real, createdAt: int)
  {
    /** `!!entry`: an object is always truthy, a string only when non-empty. */
    predicate Truthy() {
      Structured? || url != ""
    }

    /** `typeof entry === "string" ? entry : entry?.dataUrl`. */
    function DataUrl(): string {
      if Legacy? then url else dataUrl
    }
  }

  // ---- what one call of `saveToCache` computes -------------------------------

  /** Whether `audioCache[key]` is truthy. */
  predicate Present(entries: map<string, CacheEntry>, key: string) {
    key in entries && entries[key].Truthy()
  }

  /** The order after the push: the key is appended unless already present. */
  function Pushed(order: seq<string>, entries: map<string, CacheEntry>, key: string): seq<string> {
    if Present(entries, key) then order else order + [key]
  }

  /** What survives shifting from the head until at most `max` keys remain. */
  function Kept(s: seq<string>, max: nat): (r: seq<string>)
    ensures |r| <= |s| && r == s[|s| - |r|..]
    ensures |r| <= max && (|s| <= max ==> r == s)
  {
    if |s| > max then s[|s| - max..] else s
  }

  /** The keys shifted out of the head. */
  function Evicted(s: seq<string>, max: nat): seq<string> {
    s[..|s| - |Kept(s, max)|]
  }

  /** The shifted keys whose entries are deleted (`if (oldest)` skips ""). */
  function Deleted(s: seq<string>): set<string> {
    set k | k in s && k != ""
  }

  lemma DeletedSnoc(s: seq<string>, x: string)
    ensures Deleted(s + [x]) == Deleted(s) + (if x != "" then {x} else {})
  {
  }

  /** Removing one more key from a map with keys already removed. */
  lemma RemoveOneMore(m: map<string, CacheEntry>, d: set<string>, x: string)
    ensures (m - d) - {x} == m - (d + {x})
  {
  }

  /** `audioCacheOrder` after `saveToCache(key, entry, max)`. */
  function SaveOrder(order: seq<string>, entries: map<string, CacheEntry>, key: string, max: nat): seq<string> {
    Kept(Pushed(order, entries, key), max)
  }

  /** `audioCache` after `saveToCache(key, entry, max)`. */
  function SaveEntries(order: seq<string>, entries: map<string, CacheEntry>, key: string, entry: CacheEntry,
                       max: nat): map<string, CacheEntry> {
    entries[key := entry] - Deleted(Evicted(Pushed(order, entries, key), max))
  }

  /** The invariant the cache keeps: the order has no duplicates and each of
      its keys has a (truthy) entry. */
  predicate Consistent(order: seq<string>, entries: map<string, CacheEntry>) {
    NoDup(order) && forall k :: k in order ==> Present(entries, k)
  }

  // ---- the stateful cache ------------------------------------------------------

  class Store {
    var entries: map<string, CacheEntry>
    var order: seq<string>

    predicate Valid()
      reads this
    {
      Consistent(order, entries)
    }

    /** An empty store: both storage keys absent. */
    constructor ()
      ensures entries == map[] && order == []
      ensures Valid()
    {
      entries := map[];
      order := [];
    }

    /** `saveToCache`: push a new key, store the entry, then evict from the
        head while the order is longer than `maxEntries`. */
    method Save(key: string, entry: CacheEntry, maxEntries: nat)
      modifies this
      ensures order == SaveOrder(old(order), old(entries), key, maxEntries)
      ensures entries == SaveEntries(old(order), old(entries), key, entry, maxEntries)
      ensures old(Valid()) && entry.Truthy() ==> Valid()
    {
      ghost var wasValid := Valid();
      if !(key in entries && entries[key].Truthy()) {
        order := order + [key];
      }
      entries := entries[key := entry];
      EvictOverflow(maxEntries);
      if wasValid && entry.Truthy() {
        SaveConsistent(old(order), old(entries), key, entry, maxEntries);
      }
    }

    /** The eviction loop of `saveToCache`: shift the oldest key off the order,
        deleting its entry unless the key is "", until at most `maxEntries`
        keys remain. */
    method EvictOverflow(maxEntries: nat)
      modifies this
      ensures order == Kept(old(order), maxEntries)
      ensures entries == old(entries) - Deleted(Evicted(old(order), maxEntries))
    {
      ghost var pushed := order;
      ghost var put := entries;
      ghost var n := 0;
      while |order| > maxEntries
        invariant n + |order| == |pushed| && order == pushed[n..]
        invariant |pushed| > maxEntries ==> |order| >= maxEntries
        invariant |pushed| <= maxEntries ==> order == pushed
        invariant entries == put - Deleted(pushed[..n])
        decreases |order|
      {
        var oldest := order[0];
        assert pushed[..n + 1] == pushed[..n] + [oldest];
        DeletedSnoc(pushed[..n], oldest);
        order := order[1..];
        if oldest != "" {
          RemoveOneMore(put, Deleted(pushed[..n]), oldest);
          entries := entries - {oldest};
        }
        n := n + 1;
      }
      assert n == |pushed| - |order|;
    }
  }

  /** The cache read of `speakText`: a hit needs a truthy entry whose data URL
      is non-empty. */
  function CachedDataUrl(entries: map<string, CacheEntry>, key: string): (r: Option<string>)
    ensures r.Some? <==> Present(entries, key) && entries[key].DataUrl() != ""
    ensures r.Some? ==> r.value == entries[key].DataUrl()
  {
    if Present(entries, key) && entries[key].DataUrl() != "" then Some(entries[key].DataUrl()) else None
  }

  // ---- properties of one save ----------------------------------------------------

  /** After a save the order holds at most `max` keys, and exactly `max`
      whenever eviction happened. */
  lemma SaveBound(order: seq<string>, entries: map<string, CacheEntry>, key: string, max: nat)
    ensures |SaveOrder(order, entries, key, max)| <= max
    ensures Evicted(Pushed(order, entries, key), max) != [] ==> |SaveOrder(order, entries, key, max)| == max
  {
  }

  /** Eviction only takes from the head: the pushed order is the evicted keys
      followed by the kept ones, and a new key is appended at the tail. */
  lemma SaveIsFifo(order: seq<string>, entries: map<string, CacheEntry>, key: string, max: nat)
    ensures var p := Pushed(order, entries, key);
            p == Evicted(p, max) + SaveOrder(order, entries, key, max)
            && (!Present(entries, key) ==> p == order + [key])
            && (Present(entries, key) ==> p == order)
  {
  }

  /** A new key that fits is the last key of the order and holds the entry. */
  lemma SaveNewKeyAtTail(order: seq<string>, entries: map<string, CacheEntry>, key: string, entry: CacheEntry, max: nat)
    requires !Present(entries, key) && max >= 1
    requires Consistent(order, entries)
    ensures var o := SaveOrder(order, entries, key, max);
            o != [] && o[|o| - 1] == key
    ensures var e := SaveEntries(order, entries, key, entry, max);
            key in e && e[key] == entry
  {
    var p := order + [key];
    var kept := Kept(p, max);
    assert kept[|kept| - 1] == key;
    assert key !in order;
  }

  /** Overwriting a present key keeps the order as it was (up to eviction)
      and changes only that key's entry. */
  lemma SaveExistingKey(order: seq<string>, entries: map<string, CacheEntry>, key: string, entry: CacheEntry, max: nat)
    requires Present(entries, key) && |order| <= max
    ensures SaveOrder(order, entries, key, max) == order
    ensures SaveEntries(order, entries, key, entry, max) == entries[key := entry]
  {
    assert Evicted(order, max) == [];
  }

  /** A key other than the saved one keeps its entry unless it was evicted. */
  lemma SaveOthersUnchanged(order: seq<string>, entries: map<string, CacheEntry>, key: string, entry: CacheEntry,
                            max: nat, k: string)
    requires k != key && k !in Evicted(Pushed(order, entries, key), max)
    ensures var e := SaveEntries(order, entries, key, entry, max);
            (k in e <==> k in entries) && (k in e ==> e[k] == entries[k])
  {
  }

  /** Saving a truthy entry keeps the cache consistent. */
  lemma SaveConsistent(order: seq<string>, entries: map<string, CacheEntry>, key: string, entry: CacheEntry, max: nat)
    requires Consistent(order, entries) && entry.Truthy()
    ensures Consistent(SaveOrder(order, entries, key, max), SaveEntries(order, entries, key, entry, max))
  {
    if !Present(entries, key) {
      assert key !in order;
      NoDupAppend(order, key);
    }
    EvictionConsistent(Pushed(order, entries, key), entries[key := entry], max);
  }

  /** Evicting from the head of a consistent order keeps it consistent: a
      kept key is never among the evicted ones, so its entry survives. */
  lemma EvictionConsistent(p: seq<string>, m: map<string, CacheEntry>, max: nat)
    requires Consistent(p, m)
    ensures Consistent(Kept(p, max), m - Deleted(Evicted(p, max)))
  {
    var kept := Kept(p, max);
    var ev := Evicted(p, max);
    assert p == ev + kept;
    NoDupSuffix(p, |ev|);
    forall k | k in kept
      ensures k in p && k !in Deleted(ev)
    {
      NoDupSplit(ev, kept, k);
    }
  }

  /** What was saved reads back: in a consistent cache that respects its bound,
      a saved entry with a non-empty data URL is a hit for its key. */
  lemma SaveThenLookup(order: seq<string>, entries: map<string, CacheEntry>, key: string, entry: CacheEntry, max: nat)
    requires Consistent(order, entries) && |order| <= max && max >= 1
    requires entry.DataUrl() != ""
    ensures CachedDataUrl(SaveEntries(order, entries, key, entry, max), key) == Some(entry.DataUrl())
  {
    if Present(entries, key) {
      SaveExistingKey(order, entries, key, entry, max);
    } else {
      SaveNewKeyAtTail(order, entries, key, entry, max);
    }
  }

  // ---- the options page's cache listing ----------------------------------------------

  /** The fields `renderCacheList` shows for an entry. */
  datatype CacheView = CacheView(dataUrl: string, text: string, voice: string, rate: Option<real>, createdAt: Option<int>)

  /** Decoding of `audioCache[key]`: a legacy string is its own data URL with
      no text, voice, rate or date; an object gives its own fields; a missing
      entry gives nothing. */
  function DecodeEntry(entry: Option<CacheEntry>): (v: CacheView)
    ensures entry.None? ==> v == CacheView("", "", "", None, None)
    ensures entry.Some? ==> v.dataUrl == entry.value.DataUrl()
    ensures entry.Some? && entry.value.Legacy? ==> v.text == "" && v.voice == "" && v.rate.None? && v.createdAt.None?
    ensures entry.Some? && entry.value.Structured? ==>
              v.text == entry.value.text && v.voice == entry.value.voice
              && v.rate == Some(entry.value.rate) && v.createdAt == Some(entry.value.createdAt)
  {
    match entry
    case None => CacheView("", "", "", None, None)
    case Some(Legacy(u)) => CacheView(u, "", "", None, None)
    case Some(Structured(u, t, voice, rate, at)) => CacheView(u, t, voice, Some(rate), Some(at))
  }

  /** The keys `renderCacheList` lists: newest first when there is an order,
      else the cache object's own keys. */
  function ListingKeys(order: seq<string>, objectKeys: seq<string>): (r: seq<string>)
    ensures order != [] ==> |r| == |order| && forall i :: 0 <= i < |order| ==> r[i] == order[|order| - 1 - i]
    ensures order == [] ==> r == objectKeys
  {
    if order != [] then
      var r := Reverse(order);
      forall i | 0 <= i < |order| ensures r[i] == order[|order| - 1 - i] {
        ReverseAt(order, i);
      }
      r
    else objectKeys
  }

  /** `Object.keys(audioCache)` in some order: each key of the cache exactly once. */
  predicate ObjectKeysOf(objectKeys: seq<string>, entries: map<string, CacheEntry>) {
    NoDup(objectKeys)
    && (forall k :: k in objectKeys ==> k in entries)
    && (forall k :: k in entries ==> k in objectKeys)
  }

  /** The cache listing: one decoded view per listed key. Without an order
      it lists every cached entry once, each decoded from its own entry. */
  function Listing(entries: map<string, CacheEntry>, order: seq<string>, objectKeys: seq<string>): (r: seq<CacheView>)
    requires ObjectKeysOf(objectKeys, entries)
    ensures var ks := ListingKeys(order, objectKeys);
            |r| == |ks| && forall i :: 0 <= i < |ks| ==>
              r[i] == DecodeEntry(if ks[i] in entries then Some(entries[ks[i]]) else None)
    ensures order == [] ==>
              var ks := ListingKeys(order, objectKeys);
              NoDup(ks) && (forall k :: k in ks <==> k in entries)
              && forall i :: 0 <= i < |ks| ==> ks[i] in entries && r[i] == DecodeEntry(Some(entries[ks[i]]))
  {
    var ks := ListingKeys(order, objectKeys);
    seq(|ks|, i requires 0 <= i < |ks| => DecodeEntry(if ks[i] in entries then Some(entries[ks[i]]) else None))
  }

  /** The listing's first card is the most recently pushed key of a non-empty
      order, and the background's cache hit plays the very data URL the
      listing shows for that key. */
  lemma ListingAgreesWithLookup(entries: map<string, CacheEntry>, order: seq<string>, objectKeys: seq<string>)
    requires order != [] && ObjectKeysOf(objectKeys, entries)
    ensures var r := Listing(entries, order, objectKeys);
            var k := order[|order| - 1];
            r != [] && r[0] == DecodeEntry(if k in entries then Some(entries[k]) else None)
            && (CachedDataUrl(entries, k).Some? ==> r[0].dataUrl == CachedDataUrl(entries, k).value)
  {
  }
}
