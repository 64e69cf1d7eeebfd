/** The stock optional value. */
module Wrappers {
  datatype Option<+T> = None | Some(value: T)
}

/** A JavaScript plain object whose values are strings, as the extension keeps
    its voice maps: an insertion-ordered list of entries. The order matters to
    the source (`Object.keys(m).find(...)`, `Object.values(m)[0]`, spread
    merges), so a `map` would lose information. An absent key reads as "",
    which the source's truthiness tests treat the same as an empty value.
    Integer-like keys, which JavaScript lists first, are not told apart: a
    voice map's keys are language tags. */
module Dict {
  import opened Wrappers
  import opened Text
  import opened Seqs

  datatype Entry = Entry(key: string, value: string)

  type Dict = seq<Entry>

  /** `Object.keys(d)`. */
  function Keys(d: Dict): (r: seq<string>)
    ensures |r| == |d| && forall i :: 0 <= i < |d| ==> r[i] == d[i].key
  {
    if d == [] then [] else [d[0].key] + Keys(d[1..])
  }

  predicate HasKey(d: Dict, k: string) {
    k in Keys(d)
  }

  /** A JavaScript object never holds a key twice. */
  predicate UniqueKeys(d: Dict) {
    NoDup(Keys(d))
  }

  /** `d[k]`, with an absent key read as "". */
  function Get(d: Dict, k: string): (r: string)
    ensures !HasKey(d, k) ==> r == ""
  {
    if d == [] then ""
    else if d[0].key == k then d[0].value
    else Get(d[1..], k)
  }

  /** In a dictionary with unique keys, `Get` reads the one entry with that key. */
  lemma {:induction false} GetAt(d: Dict, i: nat)
    requires UniqueKeys(d) && i < |d|
    ensures Get(d, d[i].key) == d[i].value
  {
    if i > 0 {
      assert Keys(d)[0] != Keys(d)[i];
      assert UniqueKeys(d[1..]) by {
        assert Keys(d[1..]) == Keys(d)[1..];
      }
      GetAt(d[1..], i - 1);
    }
  }

  /** `d[k] = v`: overwrites in place when `k` is present, appends otherwise. */
  function Put(d: Dict, k: string, v: string): (r: Dict)
    ensures Get(r, k) == v
    ensures forall k' :: k' != k ==> Get(r, k') == Get(d, k')
    ensures Keys(r) == if HasKey(d, k) then Keys(d) else Keys(d) + [k]
  {
    if d == [] then [Entry(k, v)]
    else if d[0].key == k then [Entry(k, v)] + d[1..]
    else
      var rest := Put(d[1..], k, v);
      PutBehind(d, k, v, rest);
      [d[0]] + rest
  }

  /** The recursive case of `Put`: an entry with another key in front keeps its
      place, and the update behind it shows through. */
  lemma PutBehind(d: Dict, k: string, v: string, rest: Dict)
    requires d != [] && d[0].key != k
    requires Get(rest, k) == v
    requires forall k' :: k' != k ==> Get(rest, k') == Get(d[1..], k')
    requires Keys(rest) == if HasKey(d[1..], k) then Keys(d[1..]) else Keys(d[1..]) + [k]
    ensures Get([d[0]] + rest, k) == v
    ensures forall k' :: k' != k ==> Get([d[0]] + rest, k') == Get(d, k')
    ensures Keys([d[0]] + rest) == if HasKey(d, k) then Keys(d) else Keys(d) + [k]
  {
    var r := [d[0]] + rest;
    assert r[1..] == rest;
    assert Keys(d) == [d[0].key] + Keys(d[1..]);
    assert Keys(r) == [d[0].key] + Keys(rest);
    assert HasKey(d, k) == HasKey(d[1..], k);
  }

  lemma PutUnique(d: Dict, k: string, v: string)
    requires UniqueKeys(d)
    ensures UniqueKeys(Put(d, k, v))
  {
  }

  /** `delete d[k]`, which keeps the order of the other entries. */
  function Remove(d: Dict, k: string): (r: Dict)
    ensures Get(r, k) == ""
    ensures forall k' :: k' != k ==> Get(r, k') == Get(d, k')
    ensures forall k' :: HasKey(r, k') <==> HasKey(d, k') && k' != k
  {
    if d == [] then []
    else if d[0].key == k then Remove(d[1..], k)
    else
      var rest := Remove(d[1..], k);
      assert ([d[0]] + rest)[1..] == rest;
      assert Keys([d[0]] + rest) == [d[0].key] + Keys(rest);
      assert Keys(d) == [d[0].key] + Keys(d[1..]);
      assert forall k' :: HasKey([d[0]] + rest, k') <==> k' == d[0].key || HasKey(rest, k');
      assert forall k' :: HasKey(d, k') <==> k' == d[0].key || HasKey(d[1..], k');
      [d[0]] + rest
  }

  lemma {:induction false} RemoveUnique(d: Dict, k: string)
    requires UniqueKeys(d)
    ensures UniqueKeys(Remove(d, k))
  {
    if d != [] {
      assert Keys(d[1..]) == Keys(d)[1..];
      RemoveUnique(d[1..], k);
      if d[0].key != k {
        var rest := Remove(d[1..], k);
        assert Remove(d, k)[1..] == rest;
        assert Keys(Remove(d, k)) == [d[0].key] + Keys(rest);
        assert d[0].key !in Keys(d[1..]);
        assert !HasKey(rest, d[0].key);
      }
    }
  }

  /** `{...base, ...over}`: `base` with every entry of `over` assigned in order. */
  function Spread(base: Dict, over: Dict): Dict
    decreases over
  {
    if over == [] then base else Spread(Put(base, over[0].key, over[0].value), over[1..])
  }

  /** A spread reads the overriding object first, then the base. */
  lemma {:induction false} SpreadGet(base: Dict, over: Dict, k: string)
    requires UniqueKeys(over)
    ensures Get(Spread(base, over), k) == if HasKey(over, k) then Get(over, k) else Get(base, k)
    decreases over
  {
    if over != [] {
      assert Keys(over[1..]) == Keys(over)[1..];
      var b' := Put(base, over[0].key, over[0].value);
      SpreadGet(b', over[1..], k);
    }
  }

  /** A spread keeps unique keys, keeps the keys of the base in place and adds those of `over`. */
  lemma {:induction false} SpreadKeys(base: Dict, over: Dict)
    ensures UniqueKeys(base) ==> UniqueKeys(Spread(base, over))
    ensures Keys(base) <= Keys(Spread(base, over))
    ensures forall k :: HasKey(Spread(base, over), k) <==> HasKey(base, k) || HasKey(over, k)
    decreases over
  {
    if over != [] {
      var b' := Put(base, over[0].key, over[0].value);
      if UniqueKeys(base) { PutUnique(base, over[0].key, over[0].value); }
      SpreadKeys(b', over[1..]);
    }
  }

  /** `Object.values(d)[0]`, with "" for an empty object. */
  function FirstValue(d: Dict): string {
    if d == [] then "" else d[0].value
  }

  /** Position of the first key that starts with `prefix`, or `|d|` when none does. */
  function PrefixKeyIndex(d: Dict, prefix: string): (i: nat)
    ensures i <= |d|
    ensures forall j :: 0 <= j < i ==> !StartsWith(d[j].key, prefix)
    ensures i < |d| ==> StartsWith(d[i].key, prefix)
  {
    if d == [] then 0
    else if StartsWith(d[0].key, prefix) then 0
    else 1 + PrefixKeyIndex(d[1..], prefix)
  }

  /** `Object.keys(d).find((key) => key.startsWith(prefix))`. */
  function FindKeyWithPrefix(d: Dict, prefix: string): Option<string> {
    var i := PrefixKeyIndex(d, prefix);
    if i < |d| then Some(d[i].key) else None
  }
}
