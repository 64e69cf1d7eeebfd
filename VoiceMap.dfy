/** The voice map the options page edits. `normalizeVoiceMap` rewrites a
    stored map onto the catalog's language keys and drops choices the catalog
    contradicts; `getPreferredVoiceForGroup` picks the voice a group's
    selector shows. The page's `draftVoiceMap` and default voice are
    parameters here. */
module VoiceMap {
  import opened Seqs
  import opened Dict
  import opened Catalog

  /** `group.voices.some((voice) => voice.ShortName === name)`. */
  predicate HasVoice(g: Group, name: string) {
    exists i :: 0 <= i < |g.voices| && g.voices[i].shortName == name
  }

  /** The draft's entry for `g` is empty or one of the group's voices. */
  predicate DraftFits(draft: Dict, g: Group) {
    Get(draft, g.key) == "" || HasVoice(g, Get(draft, g.key))
  }

  // ---- first pass: one entry per language key ------------------------------------

  /** One step of the first `forEach`: skip an empty value, otherwise give the
      entry's language key this value unless it already has one. */
  function CollapseStep(m: Dict, e: Entry): Dict {
    if e.value == "" then m
    else
      var base := LanguageKey(e.key);
      if Get(m, base) == "" then Put(m, base, e.value) else m
  }

  /** The object after the first `forEach` over `Object.entries(voiceMap)`. */
  function Collapse(vm: Dict): Dict {
    if vm == [] then [] else CollapseStep(Collapse(vm[..|vm| - 1]), vm[|vm| - 1])
  }

  /** Reference reading: the first non-empty value in `vm` whose key has the
      language key `b`, or "" when there is none. */
  function FirstFor(vm: Dict, b: string): string {
    if vm == [] then ""
    else if vm[0].value != "" && LanguageKey(vm[0].key) == b then vm[0].value
    else FirstFor(vm[1..], b)
  }

  lemma {:induction false} FirstForSnoc(vm: Dict, e: Entry, b: string)
    ensures FirstFor(vm + [e], b)
            == if FirstFor(vm, b) != "" then FirstFor(vm, b)
               else if e.value != "" && LanguageKey(e.key) == b then e.value else ""
  {
    if vm != [] {
      assert (vm + [e])[1..] == vm[1..] + [e];
      FirstForSnoc(vm[1..], e, b);
    }
  }

  /** The first pass keeps keys unique, gives every language key the first
      non-empty value written for it, and holds a key exactly when it has one. */
  lemma {:induction false} CollapseMeaning(vm: Dict)
    ensures UniqueKeys(Collapse(vm))
    ensures forall b :: Get(Collapse(vm), b) == FirstFor(vm, b)
    ensures forall b :: HasKey(Collapse(vm), b) <==> FirstFor(vm, b) != ""
  {
    if vm != [] {
      var init := vm[..|vm| - 1];
      var e := vm[|vm| - 1];
      assert vm == init + [e];
      CollapseMeaning(init);
      var m := Collapse(init);
      if e.value != "" && Get(m, LanguageKey(e.key)) == "" {
        PutUnique(m, LanguageKey(e.key), e.value);
      }
      forall b ensures Get(Collapse(vm), b) == FirstFor(vm, b)
                       && (HasKey(Collapse(vm), b) <==> FirstFor(vm, b) != "") {
        FirstForSnoc(init, e, b);
      }
    }
  }

  // ---- second pass: drop choices a group contradicts ---------------------------------

  /** One step of the second `forEach`: delete the group's key when its value
      names no voice of the group. */
  function PruneStep(m: Dict, g: Group): Dict {
    var selected := Get(m, g.key);
    if selected != "" && !HasVoice(g, selected) then Remove(m, g.key) else m
  }

  /** The object after the second `forEach` over `groups`. */
  function Prune(m: Dict, groups: seq<Group>): Dict {
    if groups == [] then m else PruneStep(Prune(m, groups[..|groups| - 1]), groups[|groups| - 1])
  }

  /** Some group with key `b` lacks a voice named `v`. */
  predicate Rejects(groups: seq<Group>, b: string, v: string) {
    exists i :: 0 <= i < |groups| && groups[i].key == b && !HasVoice(groups[i], v)
  }

  lemma RejectsSnoc(groups: seq<Group>, g: Group, b: string, v: string)
    ensures Rejects(groups + [g], b, v) <==> Rejects(groups, b, v) || (g.key == b && !HasVoice(g, v))
  {
    var gs := groups + [g];
    if Rejects(gs, b, v) {
      var i :| 0 <= i < |gs| && gs[i].key == b && !HasVoice(gs[i], v);
      if i < |groups| {
        assert groups[i] == gs[i];
      }
    }
    if Rejects(groups, b, v) {
      var i :| 0 <= i < |groups| && groups[i].key == b && !HasVoice(groups[i], v);
      assert gs[i] == groups[i];
    }
    if g.key == b && !HasVoice(g, v) {
      assert gs[|groups|] == g;
    }
  }

  /** The second pass keeps keys unique, empties exactly the keys whose value
      some group of that key lacks, and changes nothing else. */
  lemma {:induction false} PruneMeaning(m: Dict, groups: seq<Group>)
    requires UniqueKeys(m)
    ensures UniqueKeys(Prune(m, groups))
    ensures forall b :: Get(Prune(m, groups), b)
                        == if Get(m, b) != "" && Rejects(groups, b, Get(m, b)) then "" else Get(m, b)
    ensures forall b :: HasKey(Prune(m, groups), b)
                        <==> HasKey(m, b) && !(Get(m, b) != "" && Rejects(groups, b, Get(m, b)))
  {
    if groups != [] {
      var init := groups[..|groups| - 1];
      var g := groups[|groups| - 1];
      assert groups == init + [g];
      PruneMeaning(m, init);
      var p := Prune(m, init);
      var selected := Get(p, g.key);
      if selected != "" && !HasVoice(g, selected) {
        RemoveUnique(p, g.key);
      }
      forall b ensures Get(Prune(m, groups), b)
                       == (if Get(m, b) != "" && Rejects(groups, b, Get(m, b)) then "" else Get(m, b))
                       && (HasKey(Prune(m, groups), b)
                           <==> HasKey(m, b) && !(Get(m, b) != "" && Rejects(groups, b, Get(m, b)))) {
        RejectsSnoc(init, g, b, Get(m, b));
      }
    }
  }

  // ---- normalizeVoiceMap ---------------------------------------------------------

  /** What `normalizeVoiceMap(voiceMap, groups)` returns. */
  function NormalizedVoiceMap(vm: Dict, groups: seq<Group>): Dict {
    Prune(Collapse(vm), groups)
  }

  /** `normalizeVoiceMap`: the two loops one after the other. The result
      has unique keys and contradicts no group. */
  method NormalizeVoiceMap(voiceMap: Dict, groups: seq<Group>) returns (normalized: Dict)
    ensures normalized == NormalizedVoiceMap(voiceMap, groups)
    ensures UniqueKeys(normalized)
    ensures forall i :: 0 <= i < |groups| ==> DraftFits(normalized, groups[i])
  {
    var collapsed := CollapseKeys(voiceMap);
    normalized := DropContradicted(collapsed, groups);
    CollapseMeaning(voiceMap);
    PruneMeaning(collapsed, groups);
    forall i | 0 <= i < |groups| ensures DraftFits(normalized, groups[i]) {
      NormalizedFitsGroups(voiceMap, groups, i);
    }
  }

  /** The first loop of `normalizeVoiceMap`. */
  method CollapseKeys(voiceMap: Dict) returns (normalized: Dict)
    ensures normalized == Collapse(voiceMap)
  {
    normalized := [];
    var n := 0;
    while n < |voiceMap|
      invariant 0 <= n <= |voiceMap|
      invariant normalized == Collapse(voiceMap[..n])
    {
      var entry := voiceMap[n];
      if entry.value != "" {
        var base := LanguageKey(entry.key);
        if Get(normalized, base) == "" {
          normalized := Put(normalized, base, entry.value);
        }
      }
      assert voiceMap[..n + 1] == voiceMap[..n] + [entry];
      n := n + 1;
    }
    assert voiceMap[..n] == voiceMap;
  }

  /** The second loop of `normalizeVoiceMap`, which deletes in place. */
  method DropContradicted(collapsed: Dict, groups: seq<Group>) returns (normalized: Dict)
    ensures normalized == Prune(collapsed, groups)
  {
    normalized := collapsed;
    var k := 0;
    while k < |groups|
      invariant 0 <= k <= |groups|
      invariant normalized == Prune(collapsed, groups[..k])
    {
      var group := groups[k];
      var selected := Get(normalized, group.key);
      if selected != "" && !HasVoice(group, selected) {
        normalized := Remove(normalized, group.key);
      }
      assert groups[..k + 1] == groups[..k] + [group];
      k := k + 1;
    }
    assert groups[..k] == groups;
  }

  /** The normalized map has unique keys; a language key reads the first
      non-empty value the stored map gives it, unless some group of that key
      lacks that voice, in which case it reads "" and is gone. */
  lemma NormalizedVoiceMapMeaning(vm: Dict, groups: seq<Group>, b: string)
    ensures UniqueKeys(NormalizedVoiceMap(vm, groups))
    ensures var v := FirstFor(vm, b);
            Get(NormalizedVoiceMap(vm, groups), b) == if v != "" && Rejects(groups, b, v) then "" else v
    ensures HasKey(NormalizedVoiceMap(vm, groups), b) <==> Get(NormalizedVoiceMap(vm, groups), b) != ""
  {
    CollapseMeaning(vm);
    PruneMeaning(Collapse(vm), groups);
  }

  /** A language key without a group keeps its value. */
  lemma NormalizedKeepsUngrouped(vm: Dict, groups: seq<Group>, b: string)
    requires b !in KeysOf(groups)
    ensures Get(NormalizedVoiceMap(vm, groups), b) == FirstFor(vm, b)
  {
    NormalizedVoiceMapMeaning(vm, groups, b);
  }

  /** After normalizing, every group's entry is empty or one of its voices. */
  lemma NormalizedFitsGroups(vm: Dict, groups: seq<Group>, i: nat)
    requires i < |groups|
    ensures DraftFits(NormalizedVoiceMap(vm, groups), groups[i])
  {
    NormalizedVoiceMapMeaning(vm, groups, groups[i].key);
  }

  // ---- getPreferredVoiceForGroup ---------------------------------------------------

  /** The draft names a voice for the group, and the group has that voice. */
  predicate StoredFits(draft: Dict, g: Group) {
    Get(draft, g.key) != "" && HasVoice(g, Get(draft, g.key))
  }

  /** The default voice is set, and the group has it. */
  predicate DefaultFits(defaultVoice: string, g: Group) {
    defaultVoice != "" && HasVoice(g, defaultVoice)
  }

  /** `getPreferredVoiceForGroup`: the draft's voice for the group when the
      group has it, else the default voice when the group has it, else the
      first voice's short name, else "". */
  function PreferredVoiceForGroup(draft: Dict, defaultVoice: string, g: Group): (r: string)
    ensures r == "" || HasVoice(g, r)
    ensures StoredFits(draft, g) ==> r == Get(draft, g.key)
    ensures !StoredFits(draft, g) && DefaultFits(defaultVoice, g) ==> r == defaultVoice
    ensures !StoredFits(draft, g) && !DefaultFits(defaultVoice, g) ==>
              r == if g.voices != [] then g.voices[0].shortName else ""
    ensures g.voices != [] && g.voices[0].shortName != "" ==> r != ""
  {
    var stored := Get(draft, g.key);
    if stored != "" && HasVoice(g, stored) then stored
    else if defaultVoice != "" && HasVoice(g, defaultVoice) then defaultVoice
    else if g.voices != [] then g.voices[0].shortName
    else ""
  }

  /** For a group of the catalog the page always preselects one of its voices. */
  lemma PreferredInCatalog(voices: seq<Voice>, g: Group, draft: Dict, defaultVoice: string)
    requires g in LanguageGroups(voices)
    ensures var r := PreferredVoiceForGroup(draft, defaultVoice, g);
            r != "" && HasVoice(g, r)
  {
    LanguageGroupsMembers(voices, g);
    var first := Matching(voices, g.key)[0];
    assert first in Matching(voices, g.key);
    assert first in multiset(g.voices);
    assert g.voices != [];
    assert g.voices[0] in multiset(Matching(voices, g.key));
    MatchingMember(voices, g.key, g.voices[0]);
  }

  /** Once the draft is normalized against the catalog, a group's non-empty
      draft entry is the voice the page preselects for it. */
  lemma PreferredAfterNormalize(vm: Dict, groups: seq<Group>, i: nat, defaultVoice: string)
    requires i < |groups|
    ensures var m := NormalizedVoiceMap(vm, groups);
            Get(m, groups[i].key) != "" ==> PreferredVoiceForGroup(m, defaultVoice, groups[i]) == Get(m, groups[i].key)
  {
    NormalizedFitsGroups(vm, groups, i);
  }
}
