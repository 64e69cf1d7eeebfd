/** options.js beyond the catalog: its own `clampRate` and defaults, the
    settings it loads and saves, the preview request with its sample texts,
    voice labels, the page state its handlers reassign, and the preview
    player's single slot. The form's field values are parameters. */
module Options {
  import opened Wrappers
  import opened Text
  import opened Seqs
  import opened Dict
  import opened JsValue
  import opened Speech
  import Background
  import opened Catalog
  import opened VoiceMap

  // ---- defaults and settings --------------------------------------------------------

  const BuiltinDefaultVoice: string := "zh-CN-XiaoxiaoNeural"
  /** The page's default map; its English voice is not the worker's. */
  const DefaultVoiceMap: Dict := [Entry("zh", "zh-CN-XiaoxiaoNeural"), Entry("en", "en-US-JennyNeural")]
  const DefaultOutputFormat: string := "audio-24khz-48kbitrate-mono-mp3"

  /** The page's settings object; it has no `cacheMaxEntries`. */
  datatype PageSettings = PageSettings(
    apiKey: string,
    region: string,
    rate: Value,
    defaultVoice: string,
    voiceMap: Dict,
    outputFormat: string)

  /** The merge in `init`: the stored fields over the page's defaults, and the
      stored voice map spread over the page's default map. */
  function LoadSettings(stored: Option<Background.StoredSettings>): (s: PageSettings)
    ensures UniqueKeys(s.voiceMap)
    ensures var st := if stored.Some? then stored.value
                      else Background.StoredSettings(None, None, None, None, None, None, None);
            s.apiKey == Background.OrElse(st.apiKey, "")
            && s.region == Background.OrElse(st.region, "")
            && s.rate == Background.OrElse(st.rate, Num(1.0))
            && s.defaultVoice == Background.OrElse(st.defaultVoice, BuiltinDefaultVoice)
            && s.outputFormat == Background.OrElse(st.outputFormat, DefaultOutputFormat)
  {
    var st := if stored.Some? then stored.value
              else Background.StoredSettings(None, None, None, None, None, None, None);
    assert Keys(DefaultVoiceMap) == ["zh", "en"];
    SpreadKeys(DefaultVoiceMap, Background.OrElse(st.voiceMap, []));
    PageSettings(
      Background.OrElse(st.apiKey, ""),
      Background.OrElse(st.region, ""),
      Background.OrElse(st.rate, Num(1.0)),
      Background.OrElse(st.defaultVoice, BuiltinDefaultVoice),
      Spread(DefaultVoiceMap, Background.OrElse(st.voiceMap, [])),
      Background.OrElse(st.outputFormat, DefaultOutputFormat))
  }

  /** The page and the worker read the same stored settings alike, except
      that without a stored "en" entry the page falls back to its own English
      voice and the worker to its own. */
  lemma LoadAgreesWithBackground(stored: Option<Background.StoredSettings>, k: string)
    requires stored.Some? && stored.value.voiceMap.Some? ==> UniqueKeys(stored.value.voiceMap.value)
    ensures var page := LoadSettings(stored);
            var worker := Background.GetSettings(stored);
            page.apiKey == worker.apiKey && page.region == worker.region && page.rate == worker.rate
            && page.defaultVoice == worker.defaultVoice && page.outputFormat == worker.outputFormat
            && (k != "en" ==> Get(page.voiceMap, k) == Get(worker.voiceMap, k))
            && Get(page.voiceMap, "en") == if Get(worker.voiceMap, "en") == "en-GB-OliverNeural"
                                                && !(stored.Some? && stored.value.voiceMap.Some?
                                                     && HasKey(stored.value.voiceMap.value, "en"))
                                           then "en-US-JennyNeural" else Get(worker.voiceMap, "en")
  {
    var over := if stored.Some? then Background.OrElse(stored.value.voiceMap, []) else [];
    assert UniqueKeys(over);
    SpreadGet(DefaultVoiceMap, over, k);
    SpreadGet(DefaultVoiceMap, over, "en");
    Background.GetSettingsVoiceMap(stored, k);
    Background.GetSettingsVoiceMap(stored, "en");
  }

  /** `clampRate` of options.js: `Number(rate)`, 1 when that is not finite,
      otherwise clamped to [0.5, 2]. */
  function ClampRate(rate: Value): (r: real)
    ensures 0.5 <= r <= 2.0
    ensures ToNumber(rate).None? ==> r == 1.0
    ensures var n := ToNumber(rate);
            n.Some? ==> (0.5 <= n.value <= 2.0 ==> r == n.value)
                        && (n.value < 0.5 ==> r == 0.5) && (n.value > 2.0 ==> r == 2.0)
  {
    var parsed := ToNumber(rate);
    if parsed.None? then 1.0 else Background.ClampRate(parsed.value)
  }

  /** The raw values of the form fields the page reads. */
  datatype Form = Form(apiKey: string, region: string, rate: string, defaultVoice: string)

  /** `getDefaultVoiceValue`: the selected default voice, else the last saved
      one, else the built-in one; never empty. */
  function DefaultVoiceValue(form: Form, lastSaved: Option<PageSettings>): (r: string)
    ensures r != ""
    ensures form.defaultVoice != "" ==> r == form.defaultVoice
    ensures form.defaultVoice == "" && lastSaved.Some? && lastSaved.value.defaultVoice != ""
            ==> r == lastSaved.value.defaultVoice
    ensures r == form.defaultVoice || r == BuiltinDefaultVoice
            || (lastSaved.Some? && r == lastSaved.value.defaultVoice)
  {
    if form.defaultVoice != "" then form.defaultVoice
    else if lastSaved.Some? && lastSaved.value.defaultVoice != "" then lastSaved.value.defaultVoice
    else BuiltinDefaultVoice
  }

  /** `getSettingsFromForm`: the trimmed key and region, the clamped slider
      rate, the default voice, and the draft map when it has entries, else
      the last saved map, else the page's default map. */
  function SettingsFromForm(form: Form, draft: Dict, lastSaved: Option<PageSettings>): (s: PageSettings)
    ensures s.apiKey == Trim(form.apiKey) && s.region == Trim(form.region)
    ensures s.rate.Num? && 0.5 <= s.rate.n <= 2.0 && s.rate.n == ClampRate(Str(form.rate))
    ensures s.defaultVoice != "" && s.defaultVoice == DefaultVoiceValue(form, lastSaved)
    ensures s.outputFormat == DefaultOutputFormat
    ensures draft != [] ==> s.voiceMap == draft
    ensures draft == [] && lastSaved.Some? ==> s.voiceMap == lastSaved.value.voiceMap
    ensures draft == [] && lastSaved.None? ==> s.voiceMap == DefaultVoiceMap
  {
    var voiceMap := if |draft| > 0 then draft
                    else if lastSaved.Some? then lastSaved.value.voiceMap
                    else DefaultVoiceMap;
    PageSettings(Trim(form.apiKey), Trim(form.region), Num(ClampRate(Str(form.rate))),
                 DefaultVoiceValue(form, lastSaved), voiceMap, DefaultOutputFormat)
  }

  /** The `settings` object `saveSettings` stores. */
  function AsStored(s: PageSettings): Background.StoredSettings {
    Background.StoredSettings(Some(s.apiKey), Some(s.region), Some(s.rate), Some(s.defaultVoice),
                              Some(s.voiceMap), Some(s.outputFormat), None)
  }

  /** The map `getSettingsFromForm` picks has unique keys when the draft and
      the last saved map do. */
  lemma FormVoiceMapUnique(form: Form, draft: Dict, lastSaved: Option<PageSettings>)
    requires UniqueKeys(draft) && (lastSaved.Some? ==> UniqueKeys(lastSaved.value.voiceMap))
    ensures UniqueKeys(SettingsFromForm(form, draft, lastSaved).voiceMap)
  {
    assert Keys(DefaultVoiceMap) == ["zh", "en"];
  }

  /** What the worker reads after the page saves settings `s`: the same key,
      region, default voice and format, the saved rate, and the default cache
      size (the page stores none). */
  lemma SavedSettingsReachBackground(s: PageSettings)
    requires s.rate.Num? && 0.5 <= s.rate.n <= 2.0
    ensures var b := Background.GetSettings(Some(AsStored(s)));
            b.apiKey == s.apiKey && b.region == s.region && b.defaultVoice == s.defaultVoice
            && b.outputFormat == s.outputFormat
            && Background.NormalizeRateMultiplier(b.rate) == s.rate.n
            && b.cacheMaxEntries == Background.DefaultCacheMaxEntries
  {
  }

  /** ... and its voice map answers from the saved map first, then from the
      worker's own default map. */
  lemma SavedVoiceMapReachesBackground(s: PageSettings, k: string)
    requires UniqueKeys(s.voiceMap)
    ensures Get(Background.GetSettings(Some(AsStored(s))).voiceMap, k)
            == if HasKey(s.voiceMap, k) then Get(s.voiceMap, k) else Get(Background.DefaultVoiceMap, k)
  {
    Background.GetSettingsVoiceMap(Some(AsStored(s)), k);
  }

  // ---- the preview ------------------------------------------------------------------

  const EnglishSample: string := "Hello, this is a voice preview."
  const ChineseSample: string := "你好，这是一段试听音频。"

  /** The other samples of `sampleTextForLocale`, by locale prefix. */
  const OtherSamples: map<string, string> := map[
    "ja" := "こんにちは、これは音声プレビューです。",
    "ko" := "안녕하세요, 음성 미리듣기입니다.",
    "fr" := "Bonjour, ceci est un aperçu vocal.",
    "de" := "Hallo, dies ist eine Sprachvorschau.",
    "es" := "Hola, esta es una vista previa de voz.",
    "it" := "Ciao, questa è un'anteprima vocale.",
    "ru" := "Здравствуйте, это предварительный просмотр голоса."]

  /** `sampleTextForLocale`: by the part of the locale before the first "-",
      taken as it is (no case folding). */
  function SampleTextForLocale(locale: string): (r: string)
    ensures r != ""
    ensures r == ChineseSample <==> locale != "" && Before(locale, '-') in ChineseSubtags
    ensures locale == "" ==> r == EnglishSample
    ensures locale != "" && Before(locale, '-') !in ChineseSubtags && Before(locale, '-') !in OtherSamples
            ==> r == EnglishSample
    ensures locale != "" && Before(locale, '-') in OtherSamples ==> r == OtherSamples[Before(locale, '-')]
  {
    if locale == "" then EnglishSample
    else
      var prefix := Before(locale, '-');
      if prefix in ChineseSubtags then ChineseSample
      else if prefix in OtherSamples then OtherSamples[prefix]
      else EnglishSample
  }

  /** `fetchTts` of options.js: the document in the voice's own locale. It is
      the worker's request whatever language the worker detected. */
  function PreviewTtsRequest(text: string, voice: string, rate: string, region: string, apiKey: string,
                             outputFormat: string): (r: Background.TtsRequest)
    ensures forall lang :: r == Background.BuildTtsRequest(text, voice, rate, region, apiKey, outputFormat, lang)
  {
    Background.TtsRequest(Background.TtsEndpoint(region), apiKey, "application/ssml+xml", outputFormat,
                          "fafa-tts", SsmlDocument(LocaleFromVoice(voice), voice, rate, text))
  }

  /** What `previewVoice` does before the network. */
  datatype Preview =
    | MissingConfig                                  // "请先填写 API Key 和区域"
    | NoVoice                                        // "未选择声音"
    | Synthesize(request: Background.TtsRequest)

  /** `previewVoice(voiceName, locale)`: refuse without key and region, then
      without a voice; otherwise synthesize the locale's sample at the
      slider's rate. */
  function PreviewPlan(form: Form, voiceName: string, locale: string): (p: Preview)
    ensures p.MissingConfig? <==> Trim(form.apiKey) == "" || Trim(form.region) == ""
    ensures p.NoVoice? <==> !p.MissingConfig? && voiceName == ""
    ensures p.Synthesize? ==> p.request.apiKey == Trim(form.apiKey)
                              && p.request.endpoint == Background.TtsEndpoint(Trim(form.region))
                              && p.request.outputFormat == DefaultOutputFormat
  {
    var apiKey := Trim(form.apiKey);
    var region := Trim(form.region);
    if apiKey == "" || region == "" then MissingConfig
    else if voiceName == "" then NoVoice
    else
      Synthesize(PreviewTtsRequest(SampleTextForLocale(locale), voiceName,
                                   RateToProsody(ClampRate(Str(form.rate))), region, apiKey, DefaultOutputFormat))
  }

  /** A preview reads the locale's sample text, exactly, in the chosen voice
      and at the slider's rate. */
  lemma PreviewSpeaksSample(form: Form, voiceName: string, locale: string)
    ensures var p := PreviewPlan(form, voiceName, locale);
            var rate := ClampRate(Str(form.rate));
            var head := SsmlHead(LocaleFromVoice(voiceName), voiceName, RateToProsody(rate));
            p.Synthesize? ==>
              StartsWith(p.request.body, head)
              && Unescape(Before(p.request.body[|head|..], '<')) == SampleTextForLocale(locale)
  {
    var p := PreviewPlan(form, voiceName, locale);
    if p.Synthesize? {
      var prosody := RateToProsody(ClampRate(Str(form.rate)));
      var text := SampleTextForLocale(locale);
      var region, apiKey := Trim(form.region), Trim(form.apiKey);
      assert p.request == PreviewTtsRequest(text, voiceName, prosody, region, apiKey, DefaultOutputFormat);
      Background.TtsRequestCarriesText(text, voiceName, prosody, region, apiKey, DefaultOutputFormat, "");
    }
  }

  // ---- voice labels --------------------------------------------------------------

  function GenderPart(v: Voice): string {
    if v.gender != "" then " " + v.gender else ""
  }

  function LocalePart(v: Voice): string {
    var name := if v.localeName != "" then v.localeName else v.locale;
    if name != "" then " · " + name else ""
  }

  /** `formatVoiceLabel`: the short name, the gender, and with `includeLocale`
      the locale name (or the locale), trimmed. */
  function FormatVoiceLabel(v: Voice, includeLocale: bool): string {
    Trim(v.shortName + GenderPart(v) + (if includeLocale then LocalePart(v) else ""))
  }

  /** A label starts with the voice's short name, and is just that name when
      there is nothing else to show. */
  lemma VoiceLabelShape(v: Voice, includeLocale: bool)
    requires v.shortName != "" && !IsWhitespace(v.shortName[0]) && !IsWhitespace(v.shortName[|v.shortName| - 1])
    ensures StartsWith(FormatVoiceLabel(v, includeLocale), v.shortName)
    ensures v.gender == "" && !includeLocale ==> FormatVoiceLabel(v, includeLocale) == v.shortName
  {
    var n := v.shortName;
    var s := n + GenderPart(v) + (if includeLocale then LocalePart(v) else "");
    assert s[0] == n[0];
    assert TrimStart(s) == s;
    var r := TrimEnd(s);
    assert s[|n| - 1] == n[|n| - 1];
    assert r[..|n|] == n;
    if v.gender == "" && !includeLocale {
      assert s == n;
      TrimNoop(n);
    }
  }

  // ---- the page ---------------------------------------------------------------------

  /** Every group has a first voice with a short name. */
  predicate GroupsNamed(groups: seq<Group>) {
    forall i :: 0 <= i < |groups| ==> groups[i].voices != [] && groups[i].voices[0].shortName != ""
  }

  lemma LanguageGroupsNamed(voices: seq<Voice>)
    ensures GroupsNamed(LanguageGroups(voices))
  {
    var groups := LanguageGroups(voices);
    forall i | 0 <= i < |groups| ensures groups[i].voices != [] && groups[i].voices[0].shortName != "" {
      PreferredInCatalog(voices, groups[i], [], "");
      var g := groups[i];
      LanguageGroupsMembers(voices, g);
      assert g.voices[0] in multiset(Matching(voices, g.key));
      MatchingMember(voices, g.key, g.voices[0]);
    }
  }

  /** What `renderVoiceSelectors` installs keeps the page's invariant. */
  lemma RenderedStateFits(voices: seq<Voice>, vm: Dict)
    ensures var groups := LanguageGroups(voices);
            var draft := NormalizedVoiceMap(vm, groups);
            NoDup(KeysOf(groups)) && GroupsNamed(groups) && UniqueKeys(draft)
            && forall i :: 0 <= i < |groups| ==> DraftFits(draft, groups[i])
  {
    var groups := LanguageGroups(voices);
    LanguageGroupsUnique(voices);
    LanguageGroupsNamed(voices);
    NormalizedVoiceMapMeaning(vm, groups, "");
    forall i | 0 <= i < |groups| ensures DraftFits(NormalizedVoiceMap(vm, groups), groups[i]) {
      NormalizedFitsGroups(vm, groups, i);
    }
  }

  /** The page's module-level state: `voiceGroups`, `draftVoiceMap`,
      `activeLanguage` ("" for `null`) and `lastSavedSettings`. */
  class Page {
    var voiceGroups: seq<Group>
    var draftVoiceMap: Dict
    var activeLanguage: string
    var lastSavedSettings: Option<PageSettings>

    /** Group keys are distinct and every group has a named first voice; the
        draft has unique keys and contradicts no group; the active language
        is a group's key; the saved map has unique keys. */
    predicate Valid()
      reads this
    {
      NoDup(KeysOf(voiceGroups)) && GroupsNamed(voiceGroups)
      && UniqueKeys(draftVoiceMap)
      && (forall i :: 0 <= i < |voiceGroups| ==> DraftFits(draftVoiceMap, voiceGroups[i]))
      && (activeLanguage != "" ==> activeLanguage in KeysOf(voiceGroups))
      && (lastSavedSettings.Some? ==> UniqueKeys(lastSavedSettings.value.voiceMap))
    }

    constructor ()
      ensures Valid()
      ensures voiceGroups == [] && draftVoiceMap == [] && activeLanguage == "" && lastSavedSettings.None?
    {
      voiceGroups := [];
      draftVoiceMap := [];
      activeLanguage := "";
      lastSavedSettings := None;
    }

    /** The start of `init`: the merged stored settings become the last saved ones. */
    method Load(stored: Option<Background.StoredSettings>)
      requires Valid()
      modifies this
      ensures Valid()
      ensures lastSavedSettings == Some(LoadSettings(stored))
      ensures voiceGroups == old(voiceGroups) && draftVoiceMap == old(draftVoiceMap)
              && activeLanguage == old(activeLanguage)
    {
      lastSavedSettings := Some(LoadSettings(stored));
    }

    /** `renderVoiceSelectors`: rebuild the groups, normalize the settings'
        map into the draft, and keep the active language only if a group
        still has it, else take the first group's. */
    method RenderVoiceSelectors(voices: seq<Voice>, settingsVoiceMap: Dict)
      requires Valid()
      modifies this
      ensures Valid()
      ensures voiceGroups == LanguageGroups(voices)
      ensures draftVoiceMap == NormalizedVoiceMap(settingsVoiceMap, voiceGroups)
      ensures activeLanguage == if old(activeLanguage) != "" && old(activeLanguage) in KeysOf(voiceGroups)
                                then old(activeLanguage)
                                else if voiceGroups == [] then "" else voiceGroups[0].key
      ensures lastSavedSettings == old(lastSavedSettings)
    {
      var groups := BuildLanguageGroups(voices);
      var draft := NormalizeVoiceMap(settingsVoiceMap, groups);
      RenderedStateFits(voices, settingsVoiceMap);
      Install(groups, draft);
    }

    /** The assignments of `renderVoiceSelectors` once groups and draft are computed. */
    method Install(groups: seq<Group>, draft: Dict)
      requires Valid()
      requires NoDup(KeysOf(groups)) && GroupsNamed(groups) && UniqueKeys(draft)
      requires forall i :: 0 <= i < |groups| ==> DraftFits(draft, groups[i])
      modifies this
      ensures Valid()
      ensures voiceGroups == groups && draftVoiceMap == draft
      ensures activeLanguage == if old(activeLanguage) != "" && old(activeLanguage) in KeysOf(groups)
                                then old(activeLanguage)
                                else if groups == [] then "" else groups[0].key
      ensures lastSavedSettings == old(lastSavedSettings)
    {
      voiceGroups := groups;
      draftVoiceMap := draft;
      if activeLanguage == "" || activeLanguage !in KeysOf(groups) {
        if groups == [] {
          activeLanguage := "";
        } else {
          assert KeysOf(groups)[0] == groups[0].key;
          activeLanguage := groups[0].key;
        }
      }
    }

    /** A group's button: make its language the active one. */
    method SelectLanguage(i: nat)
      requires Valid() && i < |voiceGroups|
      modifies this
      ensures voiceGroups == old(voiceGroups) && draftVoiceMap == old(draftVoiceMap)
              && lastSavedSettings == old(lastSavedSettings)
      ensures Valid()
      ensures activeLanguage == voiceGroups[i].key
    {
      assert KeysOf(voiceGroups)[i] == voiceGroups[i].key;
      activeLanguage := voiceGroups[i].key;
    }

    /** A group's voice select: `draftVoiceMap[group.key] = select.value`,
        the value being one of the group's short names. */
    method ChooseVoice(i: nat, j: nat)
      requires Valid() && i < |voiceGroups| && j < |voiceGroups[i].voices|
      modifies this
      ensures voiceGroups == old(voiceGroups) && activeLanguage == old(activeLanguage)
              && lastSavedSettings == old(lastSavedSettings)
      ensures Valid()
      ensures Get(draftVoiceMap, voiceGroups[i].key) == voiceGroups[i].voices[j].shortName
      ensures forall k :: k != voiceGroups[i].key ==> Get(draftVoiceMap, k) == Get(old(draftVoiceMap), k)
    {
      var g := voiceGroups[i];
      var name := g.voices[j].shortName;
      PutUnique(draftVoiceMap, g.key, name);
      var draft := Put(draftVoiceMap, g.key, name);
      forall q | 0 <= q < |voiceGroups| ensures DraftFits(draft, voiceGroups[q]) {
        if q == i {
          assert g.voices[j].shortName == name;
        } else {
          assert KeysOf(voiceGroups)[q] != KeysOf(voiceGroups)[i] by {
            if q < i { assert NoDup(KeysOf(voiceGroups)); } else { assert NoDup(KeysOf(voiceGroups)); }
          }
        }
      }
      draftVoiceMap := draft;
    }

    /** The voice a group's selector shows: one of its voices; the draft's
        choice whenever it has one, else the form's default voice when the
        group has it, else the group's first voice. */
    function PreferredVoice(i: nat, form: Form): (r: string)
      reads this
      requires Valid() && i < |voiceGroups|
      ensures r != "" && HasVoice(voiceGroups[i], r)
      ensures Get(draftVoiceMap, voiceGroups[i].key) != "" ==> r == Get(draftVoiceMap, voiceGroups[i].key)
      ensures var dv := DefaultVoiceValue(form, lastSavedSettings);
              Get(draftVoiceMap, voiceGroups[i].key) == "" && HasVoice(voiceGroups[i], dv) ==> r == dv
      ensures var dv := DefaultVoiceValue(form, lastSavedSettings);
              Get(draftVoiceMap, voiceGroups[i].key) == "" && !HasVoice(voiceGroups[i], dv) ==>
                r == voiceGroups[i].voices[0].shortName
    {
      PreferredVoiceForGroup(draftVoiceMap, DefaultVoiceValue(form, lastSavedSettings), voiceGroups[i])
    }

    /** `saveSettings`: store the form's settings and remember them as the
        last saved ones; returns what is stored. */
    method SaveSettings(form: Form) returns (stored: Background.StoredSettings)
      requires Valid()
      modifies this
      ensures Valid()
      ensures lastSavedSettings == Some(SettingsFromForm(form, old(draftVoiceMap), old(lastSavedSettings)))
      ensures stored == AsStored(lastSavedSettings.value)
      ensures voiceGroups == old(voiceGroups) && draftVoiceMap == old(draftVoiceMap)
              && activeLanguage == old(activeLanguage)
    {
      var settings := SettingsFromForm(form, draftVoiceMap, lastSavedSettings);
      FormVoiceMapUnique(form, draftVoiceMap, lastSavedSettings);
      lastSavedSettings := Some(settings);
      stored := AsStored(settings);
    }
  }

  /** `playPreviewAudio`'s slot `previewAudio`: clips numbered by creation,
      at most one of them current. */
  class PreviewPlayer {
    var clips: seq<string>
    var current: Option<nat>
    var paused: set<nat>

    predicate Valid()
      reads this
    {
      (current.Some? ==> current.value < |clips| && current.value !in paused)
      && forall c :: c in paused ==> c < |clips|
    }

    constructor ()
      ensures Valid() && clips == [] && current.None? && paused == {}
    {
      clips := [];
      current := None;
      paused := {};
    }

    /** `playPreviewAudio(dataUrl)`: pause and drop the current clip, then
        make a new clip for `dataUrl` the current one. */
    method Play(dataUrl: string) returns (clip: nat)
      requires Valid()
      modifies this
      ensures Valid()
      ensures clip == |old(clips)| && clips == old(clips) + [dataUrl] && current == Some(clip)
      ensures paused == if old(current).Some? then old(paused) + {old(current).value} else old(paused)
    {
      if current.Some? {
        paused := paused + {current.value};
      }
      clip := |clips|;
      clips := clips + [dataUrl];
      current := Some(clip);
    }

    /** A clip's `onended`, `onerror` or `play()` rejection: drop it from the
        slot only if it is still the current one. */
    method Finished(clip: nat)
      requires Valid() && clip < |clips|
      modifies this
      ensures Valid()
      ensures current == if old(current) == Some(clip) then None else old(current)
      ensures clips == old(clips) && paused == old(paused)
    {
      if current == Some(clip) {
        current := None;
      }
    }
  }
}
