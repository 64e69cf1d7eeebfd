/** The pure half of background.js: the settings merge, the best language
    detection, the voice resolution chain, rate normalisation, the cache-key
    preimage and the synthesis request and its outcome. */
module Background {
  import opened Wrappers
  import opened Text
  import opened Dict
  import opened JsValue
  import opened Speech

  const BuiltinDefaultVoice: string := "zh-CN-XiaoxiaoNeural"
  const DefaultVoiceMap: Dict := [Entry("zh", "zh-CN-XiaoxiaoNeural"), Entry("en", "en-GB-OliverNeural")]
  const DefaultOutputFormat: string := "audio-24khz-48kbitrate-mono-mp3"
  const DefaultCacheMaxEntries: nat := 50

  /** The settings object `getSettings` returns. */
  datatype Settings = Settings(
    apiKey: string,
    region: string,
    rate: Value,
    defaultVoice: string,
    voiceMap: Dict,
    outputFormat: string,
    cacheMaxEntries: nat)

  /** `DEFAULT_SETTINGS`. */
  const DefaultSettings: Settings :=
    Settings("", "", Num(1.0), BuiltinDefaultVoice, DefaultVoiceMap, DefaultOutputFormat, DefaultCacheMaxEntries)

  /** What `chrome.storage.local` holds under `settings`: each field may be missing. */
  datatype StoredSettings = StoredSettings(
    apiKey: Option<string>,
    region: Option<string>,
    rate: Option<Value>,
    defaultVoice: Option<string>,
    voiceMap: Option<Dict>,
    outputFormat: Option<string>,
    cacheMaxEntries: Option<nat>)

  function OrElse<T>(o: Option<T>, d: T): T {
    if o.Some? then o.value else d
  }

  /** `getSettings`: the stored fields over the defaults, and the stored voice
      map spread over the default one. A missing `settings` reads as `{}`. */
  function GetSettings(stored: Option<StoredSettings>): (s: Settings)
    ensures stored.None? ==> s == DefaultSettings
    ensures stored.Some? ==>
              s.apiKey == OrElse(stored.value.apiKey, "")
              && s.region == OrElse(stored.value.region, "")
              && s.rate == OrElse(stored.value.rate, Num(1.0))
              && s.defaultVoice == OrElse(stored.value.defaultVoice, BuiltinDefaultVoice)
              && s.outputFormat == OrElse(stored.value.outputFormat, DefaultOutputFormat)
              && s.cacheMaxEntries == OrElse(stored.value.cacheMaxEntries, DefaultCacheMaxEntries)
  {
    if stored.None? then
      assert Spread(DefaultVoiceMap, []) == DefaultVoiceMap;
      DefaultSettings
    else
      var st := stored.value;
      Settings(
        OrElse(st.apiKey, DefaultSettings.apiKey),
        OrElse(st.region, DefaultSettings.region),
        OrElse(st.rate, DefaultSettings.rate),
        OrElse(st.defaultVoice, DefaultSettings.defaultVoice),
        Spread(DefaultVoiceMap, OrElse(st.voiceMap, [])),
        OrElse(st.outputFormat, DefaultSettings.outputFormat),
        OrElse(st.cacheMaxEntries, DefaultSettings.cacheMaxEntries))
  }

  /** The merged voice map answers from the stored map first and from the
      defaults otherwise, so "zh" and "en" are always keys of it. */
  lemma GetSettingsVoiceMap(stored: Option<StoredSettings>, k: string)
    requires stored.Some? && stored.value.voiceMap.Some? ==> UniqueKeys(stored.value.voiceMap.value)
    ensures var s := GetSettings(stored);
            UniqueKeys(s.voiceMap) && HasKey(s.voiceMap, "zh") && HasKey(s.voiceMap, "en")
            && Get(s.voiceMap, k) ==
               if stored.Some? && stored.value.voiceMap.Some? && HasKey(stored.value.voiceMap.value, k)
               then Get(stored.value.voiceMap.value, k)
               else Get(DefaultVoiceMap, k)
  {
    var over := if stored.Some? then OrElse(stored.value.voiceMap, []) else [];
    assert Keys(DefaultVoiceMap) == ["zh", "en"];
    assert UniqueKeys(DefaultVoiceMap);
    SpreadGet(DefaultVoiceMap, over, k);
    SpreadKeys(DefaultVoiceMap, over);
    assert Spread(DefaultVoiceMap, []) == DefaultVoiceMap;
  }

  // ---- language detection ------------------------------------------------

  /** One entry of `chrome.i18n.detectLanguage`'s `languages`. */
  datatype DetectedLanguage = DetectedLanguage(language: string, percentage: real)

  /** Index of the first entry with the largest percentage: where a stable
      descending sort puts its head. */
  function BestIndex(langs: seq<DetectedLanguage>): (i: nat)
    requires langs != []
    ensures i < |langs|
    ensures forall j :: 0 <= j < |langs| ==> langs[j].percentage <= langs[i].percentage
    ensures forall j :: 0 <= j < i ==> langs[j].percentage < langs[i].percentage
  {
    if |langs| == 1 then 0
    else
      var k := 1 + BestIndex(langs[1..]);
      if langs[0].percentage >= langs[k].percentage then 0 else k
  }

  /** `detectLanguage`: the best-scoring language, or nothing when detection
      failed (`None`) or found no language. */
  function DetectLanguage(result: Option<seq<DetectedLanguage>>): (r: Option<DetectedLanguage>)
    ensures r.None? <==> result.None? || result.value == []
    ensures r.Some? ==> r.value in result.value
    ensures r.Some? ==> forall l :: l in result.value ==> l.percentage <= r.value.percentage
  {
    if result.None? || result.value == [] then None
    else Some(result.value[BestIndex(result.value)])
  }

  // ---- voice resolution --------------------------------------------------

  /** The last rung: `defaultVoice || Object.values(voiceMap)[0] || DEFAULT_SETTINGS.defaultVoice`. */
  function FallbackVoice(s: Settings): (r: string)
    ensures r != ""
    ensures r == s.defaultVoice || r == FirstValue(s.voiceMap) || r == BuiltinDefaultVoice
    ensures s.defaultVoice != "" ==> r == s.defaultVoice
  {
    if s.defaultVoice != "" then s.defaultVoice
    else if FirstValue(s.voiceMap) != "" then FirstValue(s.voiceMap)
    else BuiltinDefaultVoice
  }

  /** The language a detection offers: `detected?.language`, with "" when absent. */
  function DetectedTag(detected: Option<DetectedLanguage>): string {
    if detected.Some? then detected.value.language else ""
  }

  /** The value of every entry of the map. */
  predicate IsMapValue(vm: Dict, v: string) {
    exists i :: 0 <= i < |vm| && vm[i].value == v
  }

  lemma GetIsMapValue(vm: Dict, k: string)
    requires HasKey(vm, k)
    ensures IsMapValue(vm, Get(vm, k))
  {
    if vm[0].key != k {
      GetIsMapValue(vm[1..], k);
      var i :| 0 <= i < |vm[1..]| && vm[1..][i].value == Get(vm[1..], k);
      assert vm[i + 1].value == Get(vm, k);
    }
  }

  /** `pickVoice`: the first rung that yields a voice, in this order:
      the full tag, its primary subtag, the alias-normalised subtag, the
      default voice when its locale has that language, the first map key with
      that language, and finally the fallback voice. A present key whose
      value is "" does not count as a hit at rungs 1-3 (truthiness test). */
  function PickVoice(s: Settings, detected: Option<DetectedLanguage>): (r: string)
    ensures r == s.defaultVoice || r == BuiltinDefaultVoice || IsMapValue(s.voiceMap, r)
    ensures r == "" ==> DetectedTag(detected) != "" && (s.defaultVoice == "" || IsMapValue(s.voiceMap, ""))
    ensures DetectedTag(detected) == "" ==> r == FallbackVoice(s)
  {
    var vm := s.voiceMap;
    var language := DetectedTag(detected);
    if language == "" then FallbackVoice(s)
    else if Get(vm, language) != "" then
      GetIsMapValue(vm, language);
      Get(vm, language)
    else
      var base := Before(language, '-');
      if base != "" && Get(vm, base) != "" then
        GetIsMapValue(vm, base);
        Get(vm, base)
      else if base == "" then FallbackVoice(s)
      else
        var lang := NormalizeLanguageKey(base);
        if Get(vm, lang) != "" then
          GetIsMapValue(vm, lang);
          Get(vm, lang)
        else if StartsWith(LocaleFromVoice(s.defaultVoice), lang + "-") then s.defaultVoice
        else
          var keyMatch := FindKeyWithPrefix(vm, lang + "-");
          if keyMatch.Some? then
            GetIsMapValue(vm, keyMatch.value);
            Get(vm, keyMatch.value)
          else FallbackVoice(s)
  }

  /** Rungs 1 to 3: a non-empty map value for the tag, then for its primary
      subtag, then for the alias-normalised subtag, is taken in that order.
      A tag with an empty primary subtag (such as "-x") that misses rung 1
      goes straight to the fallback voice. */
  lemma PickVoiceMapRungs(s: Settings, tag: string)
    requires tag != ""
    ensures var vm, base := s.voiceMap, Before(tag, '-');
            var r := PickVoice(s, Some(DetectedLanguage(tag, 1.0)));
            (Get(vm, tag) != "" ==> r == Get(vm, tag))
            && (Get(vm, tag) == "" && base != "" && Get(vm, base) != "" ==> r == Get(vm, base))
            && ((Get(vm, tag) == "" && base != "" && Get(vm, base) == ""
                 && Get(vm, NormalizeLanguageKey(base)) != "") ==> r == Get(vm, NormalizeLanguageKey(base)))
    ensures Before(tag, '-') == "" && Get(s.voiceMap, tag) == "" ==>
              PickVoice(s, Some(DetectedLanguage(tag, 1.0))) == FallbackVoice(s)
  {
  }

  /** Rungs 4 and 5: when no map value matched, the default voice is taken if
      its locale (en-US when it has none) begins with the language, else the
      value of the first map key that begins with it. */
  lemma PickVoiceLocaleRungs(s: Settings, tag: string)
    requires tag != ""
    requires var vm, base := s.voiceMap, Before(tag, '-');
             base != "" && Get(vm, tag) == "" && Get(vm, base) == "" && Get(vm, NormalizeLanguageKey(base)) == ""
    ensures var base := Before(tag, '-');
            var lang := NormalizeLanguageKey(base);
            var r := PickVoice(s, Some(DetectedLanguage(tag, 1.0)));
            (StartsWith(LocaleFromVoice(s.defaultVoice), lang + "-") ==> r == s.defaultVoice)
            && (!StartsWith(LocaleFromVoice(s.defaultVoice), lang + "-") ==>
                  var i := PrefixKeyIndex(s.voiceMap, lang + "-");
                  r == if i < |s.voiceMap| then Get(s.voiceMap, s.voiceMap[i].key) else FallbackVoice(s))
  {
  }

  /** A default voice without a locale counts as en-US at rung 4: an English
      text with no English map entry reads with that default voice, even "". */
  lemma PickVoiceUnparseableDefault(s: Settings, tag: string)
    requires !HasLocalePrefix(s.defaultVoice)
    requires tag != "" && Before(tag, '-') == "en"
    requires Get(s.voiceMap, tag) == "" && Get(s.voiceMap, "en") == ""
    ensures PickVoice(s, Some(DetectedLanguage(tag, 1.0))) == s.defaultVoice
  {
    assert NormalizeLanguageKey("en") == "en";
    assert LocaleFromVoice(s.defaultVoice) == "en-US";
    assert StartsWith("en-US", "en-");
  }

  /** The primary subtag of "zh-CN" is "zh". */
  lemma BeforeZhCN()
    ensures Before("zh-CN", '-') == "zh"
  {
    assert "zh-CN" == "zh" + "-" + "CN";
    BeforeSeparator("zh", '-', "CN");
  }

  /** Settings for the resolution examples: the map {zh: V1, en: V2} and
      the default voice "en-US-X". */
  const ExampleSettings: Settings :=
    DefaultSettings.(voiceMap := [Entry("zh", "V1"), Entry("en", "V2")], defaultVoice := "en-US-X")

  /** "zh-CN" (through its primary subtag) and the alias "yue" both read with V1. */
  lemma PickVoiceChineseExamples()
    ensures PickVoice(ExampleSettings, Some(DetectedLanguage("zh-CN", 0.9))) == "V1"
    ensures PickVoice(ExampleSettings, Some(DetectedLanguage("yue", 0.9))) == "V1"
  {
    BeforeZhCN();
    BeforeWhole("yue", '-');
  }

  /** "fr" has no map entry and falls through to the default voice, as does
      a failed detection. */
  lemma PickVoiceFallbackExamples()
    ensures PickVoice(ExampleSettings, Some(DetectedLanguage("fr", 0.9))) == "en-US-X"
    ensures PickVoice(ExampleSettings, None) == "en-US-X"
  {
    var s := ExampleSettings;
    BeforeWhole("fr", '-');
    assert LocaleFromVoice("en-US-X") == "en-US";
    assert !StartsWith("en-US", "fr-");
    assert PrefixKeyIndex(s.voiceMap, "fr-") == 2;
  }

  // ---- rates ---------------------------------------------------------------

  /** `clampRate` of background.js: `Math.min(2, Math.max(0.5, rate))`. */
  function ClampRate(x: real): (r: real)
    ensures 0.5 <= r <= 2.0
    ensures 0.5 <= x <= 2.0 ==> r == x
    ensures x < 0.5 ==> r == 0.5
    ensures x > 2.0 ==> r == 2.0
  {
    if x > 2.0 then 2.0 else if x < 0.5 then 0.5 else x
  }

  /** The number before a trailing "%", when there is one and it is finite. */
  function PercentOf(t: string): Option<real> {
    if EndsWith(t, "%") then ParseNumber(t[..|t| - 1]) else None
  }

  /** A trimmed, non-empty rate string: a percentage, a plain number, or 1. */
  function NormalizeRateText(t: string): real {
    var percent := PercentOf(t);
    if percent.Some? then ClampRate(1.0 + percent.value / 100.0)
    else
      var parsed := ParseNumber(t);
      if parsed.Some? then ClampRate(parsed.value) else 1.0
  }

  /** `normalizeRateMultiplier`: any stored `rate` becomes a multiplier in [0.5, 2]. */
  function NormalizeRateMultiplier(rate: Value): (r: real)
    ensures 0.5 <= r <= 2.0
    ensures rate.Num? ==> r == ClampRate(rate.n)
  {
    if rate.Num? then ClampRate(rate.n)
    else
      var trimmed := Trim(StringOrEmpty(rate));
      if trimmed == [] then 1.0 else NormalizeRateText(trimmed)
  }

  /** A blank rate string gives 1. */
  lemma RateBlank(s: string)
    requires Trim(s) == []
    ensures NormalizeRateMultiplier(Str(s)) == 1.0
  {
  }

  /** "p%" gives clamp(1 + p/100). */
  lemma RatePercent(s: string)
    requires PercentOf(Trim(s)).Some?
    ensures NormalizeRateMultiplier(Str(s)) == ClampRate(1.0 + PercentOf(Trim(s)).value / 100.0)
  {
    assert Trim(s) != [];
  }

  /** Any other numeric string gives its value, clamped. */
  lemma RateNumeric(s: string)
    requires Trim(s) != [] && PercentOf(Trim(s)).None? && ParseNumber(Trim(s)).Some?
    ensures NormalizeRateMultiplier(Str(s)) == ClampRate(ParseNumber(Trim(s)).value)
  {
  }

  /** A string that does not read as a finite number gives 1. */
  lemma RateGarbage(s: string)
    requires Trim(s) != [] && PercentOf(Trim(s)).None? && ParseNumber(Trim(s)).None?
    ensures NormalizeRateMultiplier(Str(s)) == 1.0
  {
  }

  /** A multiplier it produced is left as it is: normalising is idempotent. */
  lemma NormalizeRateIdempotent(rate: Value)
    ensures NormalizeRateMultiplier(Num(NormalizeRateMultiplier(rate))) == NormalizeRateMultiplier(rate)
  {
  }

  /** The words a non-number, non-string rate turns into are neither blank, a
      percentage nor a finite number. */
  lemma RateWord(t: string)
    requires t == "Infinity" || t == "-Infinity" || t == "true"
    ensures Trim(t) == t && PercentOf(t).None? && ParseNumber(t).None?
  {
    assert !IsWhitespace(t[0]) && !IsWhitespace(t[|t| - 1]);
    TrimNoop(t);
    assert !EndsWith(t, "%") by { assert t[|t| - 1] != '%'; }
    if t == "-Infinity" {
      RateWordNegative(t);
    } else if t == "true" {
      RateWordTrue(t);
    } else {
      assert t[0] != '+' && t[0] != '-';
      ParseUnsigned(t);
    }
  }

  lemma RateWordNegative(t: string)
    requires t == "-Infinity"
    ensures ParseNumber(t).None?
  {
    assert !IsWhitespace(t[0]) && !IsWhitespace(t[|t| - 1]);
    TrimNoop(t);
    assert t[1..] == "Infinity";
  }

  lemma RateWordTrue(t: string)
    requires t == "true"
    ensures ParseNumber(t).None?
  {
    assert !IsWhitespace(t[0]) && !IsWhitespace(t[|t| - 1]) && t[0] != '+' && t[0] != '-';
    ParseUnsigned(t);
    BeforeWhole(t, '.');
    assert !IsDigit(t[0]);
  }

  /** Values that are neither finite numbers nor strings give 1: NaN, the
      infinities, null, undefined and both booleans. */
  lemma NormalizeRateNonFinite(rate: Value)
    requires rate.NaN? || rate.PosInfinity? || rate.NegInfinity? || rate.Null? || rate.Undefined? || rate.Bool?
    ensures NormalizeRateMultiplier(rate) == 1.0
  {
    var t := StringOrEmpty(rate);
    if t != "" {
      RateWord(t);
      RateGarbage(t);
    }
  }

  lemma PercentText(p: int)
    ensures var t := IntToString(p) + "%";
            Trim(t) == t && PercentOf(t) == Some(p as real)
  {
    var t := IntToString(p) + "%";
    NotWhitespace(t[0]);
    assert t[0] == IntToString(p)[0];
    NotWhitespace('%');
    TrimNoop(t);
    assert t[..|t| - 1] == IntToString(p);
    ParseIntToString(p);
  }

  /** An integer percentage string reads as a change relative to 1: "50%" is
      1.5, "-50%" is 0.5, "150%" clamps to 2. */
  lemma PercentRate(p: int)
    ensures NormalizeRateMultiplier(Str(IntToString(p) + "%")) == ClampRate(1.0 + p as real / 100.0)
  {
    var t := IntToString(p) + "%";
    PercentText(p);
    TrimmedPercent(t, p as real);
  }

  lemma TrimmedPercent(t: string, p: real)
    requires Trim(t) == t && PercentOf(t) == Some(p)
    ensures NormalizeRateMultiplier(Str(t)) == ClampRate(1.0 + p / 100.0)
  {
    RatePercent(t);
  }

  /** A number is clamped as it is, and a blank string is 1. */
  lemma NormalizeRateExamples()
    ensures NormalizeRateMultiplier(Num(150.0)) == 2.0
    ensures NormalizeRateMultiplier(Num(0.8)) == 0.8
    ensures NormalizeRateMultiplier(Str("")) == 1.0
  {
  }

  /** "-50%" is half speed. */
  lemma RateMinusFiftyPercent()
    ensures NormalizeRateMultiplier(Str("-50%")) == 0.5
  {
    var t := "-50%";
    TrimNoop(t);
    assert t[..|t| - 1] == "-50";
    MinusFifty();
    TrimmedPercent(t, -50.0);
  }

  lemma MinusFifty()
    ensures ParseNumber("-50") == Some(-50.0)
  {
    assert NatToString(5) == "5";
    assert NatToString(50) == "50";
    assert IntToString(-50) == "-50";
    ParseIntToString(-50);
  }

  /** "1.3" reads as the number 1.3. */
  lemma RateDecimalText()
    ensures NormalizeRateMultiplier(Str("1.3")) == 1.3
  {
    var t := "1.3";
    TrimNoop(t);
    assert t[..1] == "1" && t[2..] == "3";
    BeforeSeparator("1", '.', "3");
    assert t == "1" + ['.'] + "3";
    ParseUnsigned(t);
    assert ParseDecimal(t) == Some(1.3);
    RateNumeric(t);
  }

  /** A word that is no number gives 1. */
  lemma RateWordText()
    ensures NormalizeRateMultiplier(Str("garbage")) == 1.0
  {
    var t := "garbage";
    TrimNoop(t);
    BeforeWhole(t, '.');
    ParseUnsigned(t);
    assert !IsDigit(t[0]);
    RateGarbage(t);
  }

  // ---- the cache key ---------------------------------------------------------

  /** The string `buildCacheKey` hashes: `region|voice|rate.toFixed(2)|format|text`.
      The multiplier is always finite here, so the "1.00" branch never applies. */
  function CacheKeyPreimage(text: string, voice: string, rate: real, region: string, format: string): string {
    region + "|" + voice + "|" + ToFixed2(rate) + "|" + format + "|" + text
  }

  /** `buildCacheKey`: the digest of the preimage, the digest being a parameter. */
  function CacheKey(digest: string -> string, text: string, voice: string, rate: real, region: string, format: string): string {
    digest(CacheKeyPreimage(text, voice, rate, region, format))
  }

  lemma NoBarInFixed(x: real)
    requires x >= 0.0
    ensures '|' !in ToFixed2(x)
  {
    var n := Round(x * 100.0);
    assert n >= 0;
    var w := NatToString(n / 100);
    assert '|' !in w by {
      forall i | 0 <= i < |w| ensures w[i] != '|' { assert IsDigit(w[i]); }
    }
  }

  lemma SplitField(a: string, b: string)
    requires '|' !in a
    ensures Before(a + "|" + b, '|') == a && (a + "|" + b)[|a| + 1..] == b
  {
    BeforeSeparator(a, '|', b);
  }

  /** Cutting a preimage at its first four bars gives back its five fields. */
  lemma PreimageFields(text: string, voice: string, rate: real, region: string, format: string)
    requires '|' !in region && '|' !in voice && '|' !in format && rate >= 0.0
    ensures var p := CacheKeyPreimage(text, voice, rate, region, format);
            var p1 := p[|region| + 1..];
            var p2 := p1[|voice| + 1..];
            var p3 := p2[|ToFixed2(rate)| + 1..];
            Before(p, '|') == region && Before(p1, '|') == voice
            && Before(p2, '|') == ToFixed2(rate) && Before(p3, '|') == format
            && p3[|format| + 1..] == text
  {
    var f := ToFixed2(rate);
    NoBarInFixed(rate);
    var t4 := format + "|" + text;
    var t3 := f + "|" + t4;
    var t2 := voice + "|" + t3;
    assert CacheKeyPreimage(text, voice, rate, region, format) == region + "|" + t2;
    SplitField(region, t2);
    SplitField(voice, t3);
    SplitField(f, t4);
    SplitField(format, text);
  }

  /** Two requests share a preimage only if they share text, voice, region and
      format (none of the last three holding `|`) and their rates round to the
      same hundredths. */
  lemma CacheKeyPreimageInjective(text: string, voice: string, rate: real, region: string, format: string,
                                  text': string, voice': string, rate': real, region': string, format': string)
    requires '|' !in region && '|' !in voice && '|' !in format && rate >= 0.0
    requires '|' !in region' && '|' !in voice' && '|' !in format' && rate' >= 0.0
    requires CacheKeyPreimage(text, voice, rate, region, format) == CacheKeyPreimage(text', voice', rate', region', format')
    ensures text == text' && voice == voice' && region == region' && format == format'
    ensures Round(rate * 100.0) == Round(rate' * 100.0)
  {
    var p := CacheKeyPreimage(text, voice, rate, region, format);
    PreimageFields(text, voice, rate, region, format);
    PreimageFields(text', voice', rate', region', format');
    assert region == region';
    var p1 := p[|region| + 1..];
    assert voice == voice';
    var p2 := p1[|voice| + 1..];
    assert ToFixed2(rate) == ToFixed2(rate');
    var p3 := p2[|ToFixed2(rate)| + 1..];
    assert format == format' && text == text';
    ToFixed2Injective(rate, rate');
  }

  lemma MiddleDiffers(q: string, a: string, b: string, p: string)
    requires a != b
    ensures q + a + p != q + b + p
  {
    if |a| == |b| {
      assert (q + a + p)[|q|..|q| + |a|] == a;
      assert (q + b + p)[|q|..|q| + |b|] == b;
    }
  }

  /** Rates at least 0.01 apart get different preimages. */
  lemma CacheKeySeparatesRates(text: string, voice: string, rate: real, rate': real, region: string, format: string)
    requires rate >= 0.0 && rate' - rate >= 0.01
    ensures CacheKeyPreimage(text, voice, rate, region, format) != CacheKeyPreimage(text, voice, rate', region, format)
  {
    var p := "|" + format + "|" + text;
    var q := region + "|" + voice + "|";
    assert CacheKeyPreimage(text, voice, rate, region, format) == q + ToFixed2(rate) + p;
    assert CacheKeyPreimage(text, voice, rate', region, format) == q + ToFixed2(rate') + p;
    ToFixed2Separates(rate, rate');
    MiddleDiffers(q, ToFixed2(rate), ToFixed2(rate'), p);
  }

  // ---- synthesis ---------------------------------------------------------------

  /** The locale `fetchTts` writes: `localeFromVoice(voice) || (lang ? lang : "en-US")`.
      `localeFromVoice` never returns "", so the detected language is never used. */
  function TtsLocale(voice: string, lang: string): (r: string)
    ensures r == LocaleFromVoice(voice)
  {
    var l := LocaleFromVoice(voice);
    if l != "" then l else if lang != "" then lang else FallbackLocale
  }

  /** The POST `fetchTts` sends. */
  datatype TtsRequest = TtsRequest(endpoint: string, apiKey: string, contentType: string, outputFormat: string,
                                   userAgent: string, body: string)

  function TtsEndpoint(region: string): string {
    "https://" + region + ".tts.speech.microsoft.com/cognitiveservices/v1"
  }

  /** The request for `text` read with `voice` at prosody `rate`. */
  function BuildTtsRequest(text: string, voice: string, rate: string, region: string, apiKey: string,
                           outputFormat: string, lang: string): TtsRequest {
    TtsRequest(TtsEndpoint(region), apiKey, "application/ssml+xml", outputFormat, "fafa-tts",
               SsmlDocument(TtsLocale(voice, lang), voice, rate, text))
  }

  /** The request body is the SSML document of the voice's own locale, and
      its prosody element carries the text exactly. */
  lemma TtsRequestCarriesText(text: string, voice: string, rate: string, region: string, apiKey: string,
                              outputFormat: string, lang: string)
    ensures var req := BuildTtsRequest(text, voice, rate, region, apiKey, outputFormat, lang);
            var head := SsmlHead(LocaleFromVoice(voice), voice, rate);
            StartsWith(req.body, head) && Unescape(Before(req.body[|head|..], '<')) == text
  {
    SsmlCarriesText(LocaleFromVoice(voice), voice, rate, text);
  }

  /** The part of the response `fetchTts` looks at: status, body text, and the
      base64 of the audio bytes (base64 encoding is not modelled). */
  datatype HttpResponse = HttpResponse(status: int, bodyText: string, audioBase64: string)

  datatype TtsOutcome = Audio(dataUrl: string) | TtsFailure(message: string)

  const AudioDataUrlPrefix: string := "data:audio/mpeg;base64,"

  /** The second half of `fetchTts`: a 2xx response becomes an MP3 data URL of
      its audio, any other status an error naming the status and body. */
  function TtsResult(resp: HttpResponse): (r: TtsOutcome)
    ensures r.Audio? <==> 200 <= resp.status <= 299
    ensures r.Audio? ==> StartsWith(r.dataUrl, AudioDataUrlPrefix)
    ensures r.Audio? ==> r.dataUrl[|AudioDataUrlPrefix|..] == resp.audioBase64
    ensures r.TtsFailure? ==> EndsWith(r.message, ": " + resp.bodyText)
  {
    if 200 <= resp.status <= 299 then
      var u := AudioDataUrlPrefix + resp.audioBase64;
      assert u[..|AudioDataUrlPrefix|] == AudioDataUrlPrefix;
      Audio(u)
    else
      var m := "Azure TTS error " + IntToString(resp.status) + ": " + resp.bodyText;
      assert m[|m| - |": " + resp.bodyText|..] == ": " + resp.bodyText;
      TtsFailure(m)
  }
}
