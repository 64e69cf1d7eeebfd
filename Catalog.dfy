/** The voice catalog of options.js: grouping the service's voice list by
    language (`buildLanguageGroups`), the order of the groups
    (`compareLanguagePriority`), their labels (`getLanguageLabel`), the voice
    map the page edits (`normalizeVoiceMap`) and the voice it preselects for
    a group (`getPreferredVoiceForGroup`). */
module Catalog {
  import opened Text
  import opened Seqs
  import opened Dict
  import opened Speech
  import opened Sorting

  /** The fields of a voice-list entry the page reads; a missing field is "". */
  datatype Voice = Voice(shortName: string, locale: string, localeName: string, gender: string)

  /** One language of the catalog; `caption` is the `label` field. */
  datatype Group = Group(key: string, caption: string, voices: seq<Voice>, sampleLocale: string)

  /** `LANGUAGE_LABELS`. */
  const LanguageLabels: map<string, string> := map[
    "zh" := "中文", "en" := "英语", "ja" := "日语", "ko" := "韩语", "fr" := "法语",
    "de" := "德语", "es" := "西班牙语", "it" := "意大利语", "ru" := "俄语", "pt" := "葡萄牙语",
    "th" := "泰语", "vi" := "越南语", "id" := "印尼语", "ms" := "马来语", "ar" := "阿拉伯语",
    "hi" := "印地语", "tr" := "土耳其语", "pl" := "波兰语", "nl" := "荷兰语", "sv" := "瑞典语",
    "no" := "挪威语", "da" := "丹麦语", "fi" := "芬兰语", "cs" := "捷克语", "hu" := "匈牙利语",
    "ro" := "罗马尼亚语", "el" := "希腊语", "uk" := "乌克兰语", "he" := "希伯来语"]

  /** `getLanguageLabel`: the table's label, else the key upper-cased (every
      label in the table is non-empty, so `||` only falls through for keys
      the table lacks). */
  function LanguageLabel(key: string): (r: string)
    ensures key in LanguageLabels ==> r == LanguageLabels[key]
    ensures key !in LanguageLabels ==> r == ToUpper(key)
  {
    if key in LanguageLabels && LanguageLabels[key] != "" then LanguageLabels[key] else ToUpper(key)
  }

  /** The language key of a locale or a voice-map key:
      `normalizeLanguageKey(s.split("-")[0].toLowerCase())`. */
  function LanguageKey(s: string): string {
    NormalizeLanguageKey(ToLower(Before(s, '-')))
  }

  /** The voices `buildLanguageGroups` keeps: those with a locale and a short name. */
  predicate Listed(v: Voice) {
    v.locale != "" && v.shortName != ""
  }

  /** The listed voices of `voices` whose language key is `k`, in input order. */
  function Matching(voices: seq<Voice>, k: string): seq<Voice> {
    if voices == [] then []
    else
      var v := voices[|voices| - 1];
      Matching(voices[..|voices| - 1], k) + (if Listed(v) && LanguageKey(v.locale) == k then [v] else [])
  }

  lemma {:induction false} MatchingMember(voices: seq<Voice>, k: string, v: Voice)
    ensures v in Matching(voices, k) <==> v in voices && Listed(v) && LanguageKey(v.locale) == k
  {
    if voices != [] {
      var init := voices[..|voices| - 1];
      assert voices == init + [voices[|voices| - 1]];
      MatchingMember(init, k, v);
    }
  }

  function KeysOf(groups: seq<Group>): (r: seq<string>)
    ensures |r| == |groups| && forall i :: 0 <= i < |groups| ==> r[i] == groups[i].key
  {
    if groups == [] then [] else [groups[0].key] + KeysOf(groups[1..])
  }

  /** `groups.has(key)` / `groups.get(key)`: the position of the group with
      `key`, or `|groups|` when there is none. */
  function GroupIndex(groups: seq<Group>, key: string): (i: nat)
    ensures i <= |groups|
    ensures i < |groups| ==> groups[i].key == key
    ensures i == |groups| <==> key !in KeysOf(groups)
  {
    if groups == [] then 0
    else if groups[0].key == key then 0
    else
      assert KeysOf(groups[1..]) == KeysOf(groups)[1..];
      1 + GroupIndex(groups[1..], key)
  }

  // ---- filling the Map ---------------------------------------------------------

  /** One step of the `forEach` in `buildLanguageGroups`: skip an unlisted voice;
      otherwise open a group for its key (labelled, with the voice's locale as
      sample locale) if there is none, and push the voice into it. */
  function AddVoice(groups: seq<Group>, v: Voice): seq<Group> {
    if !Listed(v) then groups
    else
      var key := LanguageKey(v.locale);
      var i := GroupIndex(groups, key);
      if i == |groups| then groups + [Group(key, LanguageLabel(key), [v], v.locale)]
      else groups[i := groups[i].(voices := groups[i].voices + [v])]
  }

  /** The Map after the `forEach`, in insertion order. */
  function Collect(voices: seq<Voice>): seq<Group> {
    if voices == [] then [] else AddVoice(Collect(voices[..|voices| - 1]), voices[|voices| - 1])
  }

  /** A group built from `voices`: exactly the matching voices, in input
      order; the table label; the locale of the first of them. */
  predicate GroupFits(g: Group, voices: seq<Voice>) {
    g.voices == Matching(voices, g.key) && g.voices != []
    && g.caption == LanguageLabel(g.key) && g.sampleLocale == g.voices[0].locale
  }

  /** Every group built from `voices` fits them. */
  predicate AllFit(groups: seq<Group>, voices: seq<Voice>) {
    forall i :: 0 <= i < |groups| ==> GroupFits(groups[i], voices)
  }

  /** Every language key with a listed voice has a group. */
  ghost predicate Covers(groups: seq<Group>, voices: seq<Voice>) {
    forall k :: k !in KeysOf(groups) ==> Matching(voices, k) == []
  }

  lemma MatchingSnoc(voices: seq<Voice>, v: Voice, k: string)
    ensures Matching(voices + [v], k)
            == Matching(voices, k) + (if Listed(v) && LanguageKey(v.locale) == k then [v] else [])
  {
    assert (voices + [v])[..|voices|] == voices;
  }

  /** A step adds the voice's key at the end when it is new, and changes no key otherwise. */
  lemma AddVoiceKeys(groups: seq<Group>, v: Voice)
    ensures var r := AddVoice(groups, v);
            KeysOf(r) == if Listed(v) && LanguageKey(v.locale) !in KeysOf(groups)
                         then KeysOf(groups) + [LanguageKey(v.locale)] else KeysOf(groups)
    ensures NoDup(KeysOf(groups)) ==> NoDup(KeysOf(AddVoice(groups, v)))
  {
    if Listed(v) && LanguageKey(v.locale) !in KeysOf(groups) && NoDup(KeysOf(groups)) {
      NoDupAppend(KeysOf(groups), LanguageKey(v.locale));
    }
  }

  /** A step keeps every language key with a listed voice covered. */
  lemma AddVoiceCovers(groups: seq<Group>, voices: seq<Voice>, v: Voice)
    requires Covers(groups, voices)
    ensures Covers(AddVoice(groups, v), voices + [v])
  {
    AddVoiceKeys(groups, v);
    forall k | k !in KeysOf(AddVoice(groups, v)) ensures Matching(voices + [v], k) == [] {
      MatchingSnoc(voices, v, k);
    }
  }

  /** A step keeps every group fitting the voices seen so far. */
  lemma AddVoiceFits(groups: seq<Group>, voices: seq<Voice>, v: Voice)
    requires NoDup(KeysOf(groups)) && AllFit(groups, voices) && Covers(groups, voices)
    ensures AllFit(AddVoice(groups, v), voices + [v])
  {
    var vs := voices + [v];
    var r := AddVoice(groups, v);
    forall j | 0 <= j < |r| ensures GroupFits(r[j], vs) {
      MatchingSnoc(voices, v, r[j].key);
      if j < |groups| && (!Listed(v) || groups[j].key != LanguageKey(v.locale)) {
        assert r[j] == groups[j];
      } else if j < |groups| {
        assert j == GroupIndex(groups, LanguageKey(v.locale)) by {
          var i := GroupIndex(groups, LanguageKey(v.locale));
          assert KeysOf(groups)[i] == KeysOf(groups)[j];
        }
        assert r[j].voices == groups[j].voices + [v];
      } else {
        assert Matching(voices, r[j].key) == [];
      }
    }
  }

  lemma {:induction false} CollectKeysUnique(voices: seq<Voice>)
    ensures NoDup(KeysOf(Collect(voices)))
  {
    if voices != [] {
      CollectKeysUnique(voices[..|voices| - 1]);
      AddVoiceKeys(Collect(voices[..|voices| - 1]), voices[|voices| - 1]);
    }
  }

  lemma {:induction false} CollectCovers(voices: seq<Voice>)
    ensures Covers(Collect(voices), voices)
  {
    if voices != [] {
      var init := voices[..|voices| - 1];
      CollectCovers(init);
      AddVoiceCovers(Collect(init), init, voices[|voices| - 1]);
      assert init + [voices[|voices| - 1]] == voices;
    }
  }

  lemma {:induction false} CollectFits(voices: seq<Voice>)
    ensures AllFit(Collect(voices), voices)
  {
    if voices != [] {
      var init := voices[..|voices| - 1];
      CollectFits(init);
      CollectKeysUnique(init);
      CollectCovers(init);
      AddVoiceFits(Collect(init), init, voices[|voices| - 1]);
      assert init + [voices[|voices| - 1]] == voices;
    }
  }

  // ---- the order of voices and groups -----------------------------------------

  /** `a.ShortName.localeCompare(b.ShortName)`. */
  function VoiceOrder(v: Voice): SortKey {
    SortKey(0, v.shortName)
  }

  /** Position in `["en", "zh", "ja"]`, 3 for every other key. */
  function PriorityRank(key: string): (r: nat)
    ensures r <= 3
  {
    if key == "en" then 0 else if key == "zh" then 1 else if key == "ja" then 2 else 3
  }

  /** `compareLanguagePriority`: negative when a goes first. */
  function CompareLanguagePriority(aKey: string, bKey: string, aLabel: string, bLabel: string): int {
    var aIndex := PriorityRank(aKey);
    var bIndex := PriorityRank(bKey);
    if aIndex != 3 || bIndex != 3 then
      if aIndex == 3 then 1
      else if bIndex == 3 then -1
      else aIndex - bIndex
    else StrCompare(aLabel, bLabel)
  }

  /** The sort key equivalent to `compareLanguagePriority`: the rank, then
      the label among the keys outside the priority list. */
  function GroupOrder(g: Group): SortKey {
    var rank := PriorityRank(g.key);
    SortKey(rank, if rank == 3 then g.caption else "")
  }

  /** The comparator agrees with the sort key, in both directions. */
  lemma CompareAgreesWithOrder(a: Group, b: Group)
    ensures CompareLanguagePriority(a.key, b.key, a.caption, b.caption) < 0 <==> KeyLt(GroupOrder(a), GroupOrder(b))
    ensures CompareLanguagePriority(a.key, b.key, a.caption, b.caption) > 0 <==> KeyLt(GroupOrder(b), GroupOrder(a))
  {
    StrLtIrreflexive("");
  }

  /** English, Chinese and Japanese come first, in that order, ahead of
      every other language whatever its label. */
  lemma PriorityLanguagesFirst(other: string, captionA: string, captionB: string)
    requires other != "en" && other != "zh" && other != "ja"
    ensures CompareLanguagePriority("en", "zh", captionA, captionB) < 0
    ensures CompareLanguagePriority("zh", "ja", captionA, captionB) < 0
    ensures CompareLanguagePriority("ja", other, captionA, captionB) < 0
    ensures CompareLanguagePriority(other, "ja", captionA, captionB) > 0
  {
  }

  /** Each group with its voices sorted by short name. */
  function SortGroupVoices(groups: seq<Group>): (r: seq<Group>)
    ensures |r| == |groups|
    ensures forall i :: 0 <= i < |groups| ==> r[i] == groups[i].(voices := SortBy(groups[i].voices, VoiceOrder))
  {
    if groups == [] then []
    else [groups[0].(voices := SortBy(groups[0].voices, VoiceOrder))] + SortGroupVoices(groups[1..])
  }

  /** What `buildLanguageGroups` returns. */
  function LanguageGroups(voices: seq<Voice>): seq<Group> {
    SortBy(SortGroupVoices(Collect(voices)), GroupOrder)
  }

  /** `buildLanguageGroups`: fill the Map voice by voice, then sort each
      group's voices and the groups. */
  method BuildLanguageGroups(voices: seq<Voice>) returns (groups: seq<Group>)
    ensures groups == LanguageGroups(voices)
  {
    var collected: seq<Group> := [];
    var n := 0;
    while n < |voices|
      invariant 0 <= n <= |voices|
      invariant collected == Collect(voices[..n])
    {
      var voice := voices[n];
      if Listed(voice) {
        var key := LanguageKey(voice.locale);
        var i := GroupIndex(collected, key);
        ghost var before := collected;
        if i == |collected| {
          collected := collected + [Group(key, LanguageLabel(key), [], voice.locale)];
          assert [] + [voice] == [voice];
        }
        collected := collected[i := collected[i].(voices := collected[i].voices + [voice])];
        assert collected == AddVoice(before, voice);
      }
      assert voices[..n + 1] == voices[..n] + [voice];
      n := n + 1;
    }
    assert voices[..n] == voices;
    groups := SortBy(SortGroupVoices(collected), GroupOrder);
  }

  // ---- what the catalog is -------------------------------------------------------

  /** Sorting groups with distinct keys keeps the keys distinct. */
  lemma SortKeepsKeysUnique(m: seq<Group>)
    requires NoDup(KeysOf(m))
    ensures NoDup(KeysOf(SortBy(m, GroupOrder)))
  {
    KeysPermutation(m, SortBy(m, GroupOrder));
  }

  /** Groups with distinct keys, rearranged, still have distinct keys. */
  lemma KeysPermutation(m: seq<Group>, r: seq<Group>)
    requires NoDup(KeysOf(m)) && multiset(m) == multiset(r)
    ensures NoDup(KeysOf(r))
  {
    assert NoDup(m) by {
      forall i, j | 0 <= i < j < |m| ensures m[i] != m[j] {
        assert KeysOf(m)[i] != KeysOf(m)[j];
      }
    }
    NoDupPermutation(m, r);
    forall i, j | 0 <= i < j < |r| ensures KeysOf(r)[i] != KeysOf(r)[j] {
      assert r[i] in multiset(m) && r[j] in multiset(m);
      var p := IndexOf(m, r[i]);
      var q := IndexOf(m, r[j]);
      assert KeysOf(m)[p] == r[i].key && KeysOf(m)[q] == r[j].key;
    }
  }

  /** No two groups share a key. */
  lemma LanguageGroupsUnique(voices: seq<Voice>)
    ensures NoDup(KeysOf(LanguageGroups(voices)))
  {
    var c := Collect(voices);
    CollectKeysUnique(voices);
    var m := SortGroupVoices(c);
    assert KeysOf(m) == KeysOf(c);
    SortKeepsKeysUnique(m);
  }

  /** Every group holds exactly the listed voices of its language, sorted by
      short name, under the table label, with the locale of the first such
      voice in the input as its sample locale. */
  lemma LanguageGroupsMembers(voices: seq<Voice>, g: Group)
    requires g in LanguageGroups(voices)
    ensures SortedBy(g.voices, VoiceOrder)
    ensures multiset(g.voices) == multiset(Matching(voices, g.key))
    ensures Matching(voices, g.key) != [] && g.sampleLocale == Matching(voices, g.key)[0].locale
    ensures g.caption == LanguageLabel(g.key)
  {
    var c := Collect(voices);
    CollectFits(voices);
    var m := SortGroupVoices(c);
    assert g in multiset(m);
    var p := IndexOf(m, g);
    assert GroupFits(c[p], voices);
  }

  /** Every listed voice has a group, the one of its language key, and an
      unlisted voice is in no group. */
  lemma LanguageGroupsCover(voices: seq<Voice>, v: Voice)
    requires v in voices
    ensures Listed(v) ==> exists g :: g in LanguageGroups(voices) && g.key == LanguageKey(v.locale) && v in g.voices
    ensures !Listed(v) ==> forall g :: g in LanguageGroups(voices) ==> v !in g.voices
  {
    var c := Collect(voices);
    CollectCovers(voices);
    CollectFits(voices);
    var m := SortGroupVoices(c);
    var r := LanguageGroups(voices);
    if Listed(v) {
      var k := LanguageKey(v.locale);
      MatchingMember(voices, k, v);
      var p := GroupIndex(c, k);
      assert m[p] in multiset(r);
      assert m[p].key == k;
      assert v in multiset(Matching(voices, k));
      assert v in m[p].voices;
    } else {
      forall g | g in r ensures v !in g.voices {
        LanguageGroupsMembers(voices, g);
        MatchingMember(voices, g.key, v);
        assert v !in multiset(Matching(voices, g.key));
      }
    }
  }
}
