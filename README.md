# fafa-tts in Dafny

fafa-tts is a Chrome extension that reads the selected text aloud through the
Azure speech service. This project models its three scripts:

- **the background worker** (`background.js`):
  - merging the stored settings over the defaults;
  - choosing the detected language and the voice (`pickVoice`);
  - normalising the rate and turning it into an SSML prosody rate;
  - escaping the text and writing the SSML document;
  - the cache key preimage;
  - the bounded FIFO audio cache (`saveToCache`);
  - the `isPlaying` flag with its badge, the message listener, the toolbar
    toggle and the context menu.
- **the options page** (`options.js`):
  - grouping the voice catalogue by language and sorting it;
  - normalising the voice map and choosing the preferred voice per group;
  - the page's own `clampRate`;
  - building the settings from the form and saving them;
  - the preview request;
  - the cache listing.
- **the offscreen document** (`offscreen.js`): the single audio slot and its
  message dispatcher.

Pure code is modelled as functions, with lemmas about them. Code that updates
state in place is modelled as classes:

- `AudioCache.Store`: the two storage keys `audioCache` and `audioCacheOrder`.
- `Controller.Worker`: `isPlaying`, whether the offscreen document exists,
  and a log of every effect asked of Chrome and the network.
- `Options.Page`: `voiceGroups`, `draftVoiceMap`, `activeLanguage` and
  `lastSavedSettings`.
- `Options.PreviewPlayer`: `previewAudio`.
- `Offscreen.Player`: `currentAudio`, plus an outbox of the messages sent back
  to the worker.

The JavaScript value model is as follows:

- A JavaScript plain object (`voiceMap`) is a sequence of key/value entries,
  because the code depends on its insertion order:
  `Object.keys(...).find` and `Object.values(...)[0]`.
- Text fields are `string`, and numbers are `real`.
- A stored `rate` is a `JsValue.Value`, so `Number(...)` can be modelled on
  strings, booleans, `null` and `undefined`.
- Effects on the outside world are values appended to a log:
  - `chrome.contextMenus.create`;
  - the badge calls;
  - `offscreen.createDocument`;
  - `runtime.sendMessage`;
  - the POST to the speech service.
- Everything read from the outside is a parameter (`Controller.World`):
  - the stored settings;
  - the language detection result;
  - the SHA-256 digest, as an uninterpreted function;
  - the HTTP response;
  - `Date.now()`.

The scripts duplicate a few helpers, and the duplicates differ:

- `clampRate` in the options page maps a non-finite rate to 1. The worker's
  `clampRate` does not.
- The default English voice is `en-GB-OliverNeural` in the worker and
  `en-US-JennyNeural` on the page.
- Only the worker has `cacheMaxEntries`.

Each file's version is therefore modelled on its own
(`Background.ClampRate` / `Options.ClampRate`, `Background.DefaultVoiceMap` /
`Options.DefaultVoiceMap`). `Options.LoadAgreesWithBackground` states exactly
where the two settings merges part ways.

Behaviour of the code worth stating:

- When synthesis fails, `speakText` throws before `playAudio` and never calls
  `setPlayingState` (background.js:127-155). A clip that is already playing
  keeps playing, and `isPlaying` stays as it was.
- The offscreen player sends `play-ended` for every clip that ends or fails,
  including one a newer clip has replaced (offscreen.js:24-36). The worker
  clears `isPlaying` on every such message (background.js:84-86)
  (`Offscreen.SupersededClipScenario`).
- `localeFromVoice` never returns "", so the SSML locale always comes from
  the voice and `lang` is never used (background.js:283, `Background.TtsLocale`).
- `saveToCache` keeps the cache order free of duplicates, and every key in it
  has a truthy entry. The order need not list every stored entry
  (background.js:323-342).

## Model

| member | source | states |
|---|---|---|
| Dict.Keys | background.js:206-208 | the keys of an object, in insertion order |
| Dict.Get | background.js:190-199 | a missing property reads as "" (falsy) |
| Dict.GetAt | background.js:206-210 | in an object with unique keys, the i-th entry's key reads the i-th value |
| Dict.Put | options.js:304 | assigning a property sets it, leaves every other property as it was, and appends the key only when it is new |
| Dict.PutUnique | options.js:304 | assignment keeps the keys unique |
| Dict.Remove | options.js:397 | `delete` makes the property read "", leaves every other property, and removes exactly that key |
| Dict.RemoveUnique | options.js:397 | `delete` keeps the keys unique |
| Dict.SpreadGet | background.js:95-98 | in `{...base, ...over}` a key of `over` reads over's value, any other key reads base's value |
| Dict.SpreadKeys | background.js:95-98 | the spread keeps base's keys first and unique, and has exactly the keys of both |
| Dict.PrefixKeyIndex | background.js:206-208 | the index `find` stops at: no earlier key has the prefix, and the key found has it |
| JsValue.Round | background.js:252 | `Math.round` is the integer within half a unit, with halves rounded up |
| JsValue.ParseIntToString | background.js:232-235 | `Number` of a written-out integer gives that integer back |
| JsValue.ToFixed2Injective | background.js:347 | two non-negative rates with the same `toFixed(2)` round to the same hundredths |
| JsValue.ToFixed2Separates | background.js:347 | non-negative rates 0.01 or more apart have different `toFixed(2)` text |
| Speech.NormalizeLanguageKey | background.js:261-263 | the result is "zh" exactly for the seven Chinese subtags, and the input otherwise |
| Speech.NormalizeIdempotent | background.js:261-263 | normalising twice is normalising once |
| Speech.LocaleFromVoice | background.js:256-259 | the leading `xx-XX` of the voice when it has one, else en-US; never empty |
| Speech.LocaleFromVoiceIdempotent | background.js:256-259 | a locale is its own locale |
| Speech.RateToProsodyExamples | background.js:251-254 | multipliers 1, 1.5, 0.5 and 2 give "0%", "50%", "-50%" and "100%" |
| Speech.ProsodyBounds | background.js:251-254 | a clamped multiplier gives a percentage between -50 and 100, written as that integer followed by `%` |
| Speech.EscapeForSsmlConcat | background.js:265-272 | escaping works character by character: escaping a concatenation is concatenating the escapes |
| Speech.EscapedIsSafe | background.js:265-272 | escaped text has no raw `<`, `>`, `"` or `'`, and each `&` starts one of the five entities |
| Speech.EscapeRoundTrip | background.js:265-272 | unescaping the escaped text restores it exactly |
| Speech.SsmlCarriesText | background.js:283-290 | the document opens with the speak/voice/prosody head, closes the three elements, and its prosody content unescapes to the text |
| Background.GetSettings | background.js:89-100 | each stored field that is present overrides the default; with nothing stored the defaults |
| Background.GetSettingsVoiceMap | background.js:95-98 | the merged voice map has unique keys, always has "zh" and "en", and answers from the stored map first |
| Background.BestIndex | background.js:164 | the first candidate of highest confidence, which is what a stable descending sort puts first |
| Background.DetectLanguage | background.js:157-170 | no result when detection failed or found nothing, else a candidate no other candidate beats |
| Background.FallbackVoice | background.js:215-219 | the default voice if set, else the first map value, else the built-in voice; never "" |
| Background.PickVoice | background.js:186-220 | the voice is the default, the built-in voice or a map value; it is "" only for a detected language with an empty default or an empty map value; with no language it is the final rung |
| Background.PickVoiceMapRungs | background.js:188-212 | rungs 1-3: the exact tag, then the primary subtag, then its alias-normalised key, the first with a non-empty value; a tag with an empty primary subtag that misses rung 1 gets the fallback voice |
| Background.PickVoiceLocaleRungs | background.js:202-215 | rungs 4-5: the default voice when its locale starts with the language, else the value of the first map key with that prefix, else the final rung |
| Background.PickVoiceUnparseableDefault | background.js:202-205 | a default voice without a locale counts as en-US, so English text reads with it |
| Background.PickVoiceChineseExamples | background.js:186-220 | with map {zh: V1, en: V2}, "zh-CN" and the alias "yue" both pick V1 |
| Background.PickVoiceFallbackExamples | background.js:186-220 | with that map and default en-US-X, "fr" and no language both pick en-US-X |
| Background.ClampRate | background.js:247-249 | the result is in [0.5, 2]; in-range values are kept and others go to the nearer bound |
| Background.NormalizeRateMultiplier | background.js:222-245 | the multiplier is always in [0.5, 2], and a number is just clamped |
| Background.RateBlank | background.js:227-230 | a blank string gives 1 |
| Background.RatePercent | background.js:232-237 | a string `p%` gives clamp(1 + p/100) |
| Background.RateNumeric | background.js:239-242 | any other numeric string gives its clamped value |
| Background.RateGarbage | background.js:239-244 | an unparseable string gives 1 |
| Background.NormalizeRateNonFinite | background.js:222-245 | NaN, the infinities, null, undefined and booleans give 1 |
| Background.NormalizeRateIdempotent | background.js:222-245 | normalising a normalised rate changes nothing |
| Background.PercentRate | background.js:232-237 | the text of any integer followed by `%` gives clamp(1 + p/100) |
| Background.TrimmedPercent | background.js:232-237 | a trimmed `p%` string gives clamp(1 + p/100) |
| Background.NormalizeRateExamples | background.js:222-245 | 150 gives 2, 0.8 stays 0.8, and "" gives 1 |
| Background.RateMinusFiftyPercent | background.js:232-237 | "-50%" gives 0.5 |
| Background.RateDecimalText | background.js:239-242 | "1.3" gives 1.3 |
| Background.RateWordText | background.js:239-244 | "garbage" gives 1 |
| Background.PreimageFields | background.js:345-348 | cutting the preimage at its bars gives back region, voice, rate and format |
| Background.CacheKeyPreimageInjective | background.js:345-348 | equal preimages have equal text, voice, region and format, and rates equal to the hundredth |
| Background.CacheKeySeparatesRates | background.js:345-348 | rates 0.01 or more apart give different preimages |
| Background.TtsLocale | background.js:283 | the SSML locale is always the voice's own locale, so the detected-language fallback is never used |
| Background.TtsRequestCarriesText | background.js:283-301 | the request body is the SSML document of the voice's locale, and its prosody content is exactly the text |
| Background.TtsResult | background.js:304-311 | audio exactly for a 2xx status, as `data:audio/mpeg;base64,` followed by the payload; otherwise an error ending in the response body |
| AudioCache.Kept | background.js:335-339 | shifting from the head leaves a suffix of at most `max` keys, and nothing is shifted from an order that fits |
| AudioCache.CachedDataUrl | background.js:123-131 | a hit exactly when the entry is truthy with a non-empty data URL, and the URL is the entry's own |
| AudioCache.Store.constructor | background.js:324-326 | an empty cache is consistent |
| AudioCache.Store.Save | background.js:323-342 | the new order and entries are those of one `saveToCache`, and a consistent cache stays consistent |
| AudioCache.Store.EvictOverflow | background.js:335-339 | the loop keeps the last `max` keys and deletes exactly the shifted ones |
| AudioCache.SaveBound | background.js:335-339 | after a save the order has at most `max` keys, and exactly `max` when something was evicted |
| AudioCache.SaveIsFifo | background.js:328-339 | a new key is appended at the tail, an existing one is not moved, and eviction takes only from the head |
| AudioCache.SaveNewKeyAtTail | background.js:328-333 | a new key ends up last in the order and holds the entry |
| AudioCache.SaveExistingKey | background.js:328-333 | overwriting a key of a cache within bounds keeps the order and changes only that entry |
| AudioCache.SaveOthersUnchanged | background.js:333-339 | every other key that was not evicted keeps its entry |
| AudioCache.SaveConsistent | background.js:328-341 | saving a truthy entry keeps the order duplicate-free with every key present |
| AudioCache.EvictionConsistent | background.js:335-339 | eviction keeps the cache consistent |
| AudioCache.SaveThenLookup | background.js:123-153 | storing an entry and reading its own key returns the same data URL |
| AudioCache.DecodeEntry | options.js:612-618 | a legacy string is its own data URL with no text, voice, rate or date; an object gives its own fields |
| AudioCache.ListingKeys | options.js:599-602 | the order reversed (newest first) when it is non-empty, else the object's keys |
| AudioCache.Listing | options.js:599-618 | one decoded view per listed key; given the object's keys (each cache key once), an empty order lists every cached entry exactly once, each decoded from its own entry |
| AudioCache.ListingAgreesWithLookup | options.js:599-618 | the first card is the newest key, and it shows the data URL the worker would play for it |
| Offscreen.StopMessages | offscreen.js:48-55 | one `play-ended` exactly when a clip was current |
| Offscreen.Player.constructor | offscreen.js:1 | an empty slot |
| Offscreen.Player.Stop | offscreen.js:48-56 | the current clip is paused and cleared, with one `play-ended` only if there was one |
| Offscreen.Player.Play | offscreen.js:16-46 | the old clip is stopped first, and the new clip becomes the current one |
| Offscreen.Player.OnPlay | offscreen.js:21-23 | `play-started` is sent and nothing else changes |
| Offscreen.Player.Finished | offscreen.js:24-45 | the slot is cleared only if this clip is still current, and `play-ended` is sent either way |
| Offscreen.Player.Dispatch | offscreen.js:3-14 | play-audio plays and stop-audio stops, each pausing the clip that was current and answered `{ok: true}`; other messages change nothing and get no answer |
| Offscreen.SupersededClipScenario | offscreen.js:16-45 | after clip 0 is replaced by clip 1 and clip 0 ends late, clip 1 is still current and two `play-ended` were sent |
| Controller.BadgeTracksPlaying | background.js:387-398 | after a state change the last badge text is "●" exactly when playing; the colour is set when playback starts |
| Controller.BadgeAfterSend | background.js:357-385 | creating the document and sending a message keep the badge in step with the new state |
| Controller.NotConfiguredIsSilent | background.js:103-107 | speech gives up exactly when the key or the region is missing, and then makes no request, plays nothing, throws nothing and stores nothing |
| Controller.SpeakEffectsCases | background.js:102-155 | a cache hit plays without a request; a synthesis sends one request first and then plays or throws; nothing is played after a failure |
| Controller.SynthesisRequest | background.js:109-141 | the request goes to the configured region with the key and format, in the picked voice, at a prosody in [-50, 100], with the text exactly |
| Controller.SecondReadIsCached | background.js:121-153 | when a read has stored its audio, the same read again plays that audio from the cache |
| Controller.Worker.constructor | background.js:24 | idle, with no effects so far |
| Controller.Worker.OnInstalled | background.js:26-37 | the two context menu entries are created |
| Controller.Worker.SetPlayingState | background.js:387-398 | the flag changes, and the badge calls are made only on a change |
| Controller.Worker.SendToOffscreen | background.js:357-385 | the document is created when absent, the message is sent, and the state then set |
| Controller.Worker.PlayAudio | background.js:370-377 | playback is sent and the worker is playing |
| Controller.Worker.StopPlayback | background.js:379-385 | stop is sent and the worker is idle |
| Controller.Worker.OnMessage | background.js:80-87 | `play-started` sets playing, `play-ended` clears it, and anything else changes nothing |
| Controller.Worker.SpeakText | background.js:102-155 | effects, thrown error, playing state and cache are those the plan of the text prescribes |
| Controller.Worker.Perform | background.js:104-154 | carrying out each kind of plan does what that plan prescribes |
| Controller.Worker.Synthesis | background.js:133-154 | the request, then on success cache the structured entry and play it, else throw |
| Controller.Worker.SynthesisFailed | background.js:304-307 | the failed request is logged and its error thrown; nothing is stored or played |
| Controller.Worker.SynthesisSucceeded | background.js:143-154 | the entry is saved to the cache and then played |
| Controller.Worker.ActionClicked | background.js:59-78 | a click while playing only stops; without a tab or a selection nothing happens; otherwise the selection is read |
| Controller.Worker.MenuClicked | background.js:39-57 | the settings entry opens the options page; the read entry reads the trimmed selection, or does nothing when it is blank |
| Catalog.LanguageLabel | options.js:375-377 | the table's label for the key, else the key upper-cased |
| Catalog.MatchingMember | options.js:326-342 | a voice belongs to a key's list exactly when it has a locale and a name and its normalised base is the key |
| Catalog.GroupIndex | options.js:333 | the position of the key among the groups, or past the end exactly when it is missing |
| Catalog.CollectKeysUnique | options.js:325-343 | the map of groups has unique keys |
| Catalog.CollectCovers | options.js:326-343 | every listed voice is in its key's group |
| Catalog.CollectFits | options.js:333-342 | each group holds exactly the matching voices in input order, and its sample locale is the first one's locale |
| Catalog.PriorityRank | options.js:356-358 | en, zh and ja rank 0, 1 and 2, and everything else ranks after them |
| Catalog.CompareAgreesWithOrder | options.js:355-369 | the comparator's sign agrees with ordering by rank and then by label, both ways |
| Catalog.PriorityLanguagesFirst | options.js:355-369 | en before zh, zh before ja, and ja before any other language |
| Catalog.SortGroupVoices | options.js:346-351 | each group's voices are sorted by name, and nothing else changes |
| Catalog.BuildLanguageGroups | options.js:324-353 | the loop builds the groups the grouping function defines |
| Catalog.LanguageGroupsUnique | options.js:324-353 | the groups have unique keys |
| Catalog.LanguageGroupsMembers | options.js:333-351 | a group's voices are sorted and are a permutation of the matching voices, the sample locale is the first match's, and the label comes from the table |
| Catalog.LanguageGroupsCover | options.js:326-342 | a voice with a locale and a name lands in its language's group; any other voice lands in none |
| VoiceMap.CollapseMeaning | options.js:381-389 | collapsing gives each base key the first non-empty value stored under it |
| VoiceMap.PruneMeaning | options.js:391-399 | pruning deletes exactly the keys whose voice some group of that key lacks |
| VoiceMap.NormalizeVoiceMap | options.js:379-402 | the normalised map has unique keys, and no group's choice is outside that group |
| VoiceMap.CollapseKeys | options.js:381-389 | the loop computes the collapse |
| VoiceMap.DropContradicted | options.js:391-399 | the loop computes the prune |
| VoiceMap.NormalizedVoiceMapMeaning | options.js:379-402 | a base reads its first non-empty stored value unless a group of that key lacks it; only non-empty values are kept |
| VoiceMap.NormalizedKeepsUngrouped | options.js:379-402 | a base with no group keeps its first stored value |
| VoiceMap.NormalizedFitsGroups | options.js:391-399 | after normalising, each group's entry is either absent or one of its voices |
| VoiceMap.PreferredVoiceForGroup | options.js:404-422 | the stored voice when it is set and in the group; otherwise the default voice when it is set and in the group; otherwise the group's first voice, or "" for an empty group; always "" or a member |
| VoiceMap.PreferredInCatalog | options.js:404-422 | for a catalogue group the preferred voice is never "" |
| VoiceMap.PreferredAfterNormalize | options.js:404-411 | after normalising, a group's stored choice is its preferred voice |
| Options.LoadSettings | options.js:91-100 | the page's merge: stored fields over the page defaults, with unique voice map keys |
| Options.LoadAgreesWithBackground | options.js:91-100 | page and worker read the same settings except for the English default voice when none is stored |
| Options.ClampRate | options.js:142-148 | a non-finite rate gives 1; any other is clamped to [0.5, 2] |
| Options.DefaultVoiceValue | options.js:516-522 | the form's voice, else the last saved one, else the built-in voice; never "" |
| Options.SettingsFromForm | options.js:524-538 | the trimmed key and region, the clamped rate, the default voice, the draft map (or the last saved or default map when empty) |
| Options.FormVoiceMapUnique | options.js:524-538 | the saved voice map has unique keys |
| Options.SavedSettingsReachBackground | options.js:502-507 | the worker reads back the saved key, region, voice, format and rate, with the default cache size |
| Options.SavedVoiceMapReachesBackground | options.js:502-507 | the worker's voice map answers from the saved map first, and from its own defaults otherwise |
| Options.SampleTextForLocale | options.js:722-754 | Chinese for zh and its aliases, the language's sample when there is one, English otherwise; never empty |
| Options.PreviewTtsRequest | options.js:756-786 | the page's request is the worker's request, whatever language the worker detected |
| Options.PreviewPlan | options.js:470-500 | refuse without a key or a region, then without a voice; otherwise send to the trimmed region with the trimmed key |
| Options.PreviewSpeaksSample | options.js:470-500 | a preview reads the locale's sample text, exactly, in the chosen voice at the slider's rate |
| Options.VoiceLabelShape | options.js:460-468 | a label starts with the voice's short name, and is just that name without gender and locale |
| Options.LanguageGroupsNamed | options.js:324-353 | every catalogue group has a first voice with a name |
| Options.RenderedStateFits | options.js:210-228 | what the selectors install keeps the page's invariant |
| Options.Page.constructor | options.js:76-80 | the page's initial state |
| Options.Page.Load | options.js:84-103 | `lastSavedSettings` becomes the merged settings |
| Options.Page.RenderVoiceSelectors | options.js:210-228 | groups from the catalogue, a normalised draft, and the active language kept only if it is still a group |
| Options.Page.Install | options.js:210-228 | installs groups and a draft that fit, and resets a vanished active language |
| Options.Page.SelectLanguage | options.js:260-265 | clicking a group makes it the active language |
| Options.Page.ChooseVoice | options.js:303-306 | choosing a voice records it for that group only, and the draft still fits |
| Options.Page.PreferredVoice | options.js:298-301 | the preselected voice is a member of the group: the draft's choice when it has one, else the form's default voice when the group has it, else the group's first voice |
| Options.Page.SaveSettings | options.js:502-507 | `lastSavedSettings` becomes the form's settings, and that is what is stored |
| Options.PreviewPlayer.constructor | options.js:79 | no preview clip |
| Options.PreviewPlayer.Play | options.js:806-833 | the previous preview is paused, and the new one becomes current |
| Options.PreviewPlayer.Finished | options.js:806-833 | the slot is cleared only if this clip is still current |
| Sorting.SortBy | options.js:348-352 | the result is sorted and is a permutation of the input |
| Sorting.InsertLastSorted | options.js:348-352 | inserting into a sorted sequence keeps it sorted |
| Sorting.SortByStable | options.js:348-352 | the sort is stable: for every key, the elements with that key keep their input order |
| Sorting.InsertLastWithKey | options.js:348-352 | an inserted element comes after every element with its key |
| Text.TrimStripsBothEnds | background.js:47 | trimmed text neither starts nor ends with whitespace |
| Text.Before | background.js:193 | `split(sep)[0]`: a prefix without the separator, cut at its first occurrence |
| Text.StrCompare | options.js:349 | a three-way comparison that agrees with the string order both ways |

## Left out

- Chrome APIs are not called. Storage reads, language detection, the page selection and the digest are parameters, and the calls the worker makes are entries in its effect log.
- `getSelectionFromTab` (background.js:172-184) is the selection `executeScript` returned, trimmed. A failure reads as no selection.
- SHA-256, its hex rendering, base64 and `arrayBufferToBase64` are library code. The digest is an uninterpreted function of the preimage, and the base64 audio is a field of the HTTP response.
- The network is not modelled. `fetchTts` is its request plus the status-based outcome, and `fetchVoiceList`, `testConnection` and `loadVoiceCatalog` are not modelled at all.
- The DOM and the page's event wiring are not modelled:
  - `renderVoiceList`, `renderVoiceDetail`, `renderDefaultVoice`, `getVoiceLabelForGroup`;
  - `updateRateDisplay`, `setStatus`, `toggleCachePanel`;
  - `refreshCacheList`, `updateCacheCount`, `clearCache`;
  - `buildCacheMeta`, `buildDownloadName`, `downloadDataUrl`.
  They format text or move the DOM, and drive no state the model keeps.
- The actual audio playback of the `Audio` element is not modelled. Its callbacks are methods the environment calls.
- Asynchronous interleavings are not modelled:
  - two `saveToCache` calls racing on the stored blob;
  - `playAudio` setting playing after a fast `play-ended`;
  - messages arriving out of order.
  Each handler runs to completion.
- The offscreen document closing on its own is not modelled. Once created it stays open.
- Controller.Worker.constructor: models one lifetime of the service worker, from an empty badge and no offscreen document. When Chrome restarts a suspended worker, `isPlaying` is reset to false (background.js:24), but the badge text and the offscreen document survive. So `Valid()`'s "the badge shows `isPlaying`" holds only within one lifetime. After a restart during playback the badge can show "●" while the worker believes it is idle.
- Dict.Keys: keeps plain insertion order for every key of a voice map. `Object.keys`, `Object.values` and spreads list integer-like keys ("0", "12") first, in ascending order. The voice maps' keys are language tags, which never take that form. The cache listing takes `Object.keys(audioCache)` in any order (`AudioCache.ObjectKeysOf`), so it does not rely on insertion order.
- JsValue.ParseNumber: `Number` is modelled for decimal text with sign, `Infinity`, surrounding whitespace and "". Exponent, hexadecimal, octal and binary forms read as not finite. They are rare in a rate field.
- Text.ToLower: only ASCII letters change case (`toLowerCase`). Voice locales and language tags are ASCII.
- Text.ToUpper: only ASCII letters change case (`toUpperCase`, used by Catalog.LanguageLabel for keys without a name). Language keys are ASCII.
- Catalog.SortGroupVoices: `localeCompare` is taken as code-unit string order, not host collation.
- Catalog.CompareAgreesWithOrder: `localeCompare` is taken as code-unit string order, not host collation.
- Floating point is not modelled. Rates are exact reals, so `Math.round` and `toFixed(2)` round exact values half up, without IEEE artefacts.
- Looking up a key such as "constructor" in the alias and label tables can hit a JavaScript prototype property. The model does not capture this.
- AudioCache.Store.Save: takes `maxEntries` as a natural number. With a negative bound the source loop never ends, because `shift` on an empty array keeps the guard true. A stored `cacheMaxEntries` is likewise a natural number.
- AudioCache.Store.Save: keeps the consistency invariant only for a truthy entry. The only caller stores an object, and a falsy legacy entry would be pushed again on the next save.
- Options.SavedSettingsReachBackground: takes settings whose rate is already clamped, as `SettingsFromForm` always produces.
- Background.PickVoice: can return "", for a detected language with an empty default voice or an empty map value. This is modelled as written; `speakText` then sends that empty voice name.
- Options.SampleTextForLocale: compares the language prefix case-sensitively, as the source does.
