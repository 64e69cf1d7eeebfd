/** The background service worker of background.js: its listeners, the
    `speakText` pipeline and the playing state shown on the toolbar badge.
    Every call into Chrome or the network that changes something outside the
    worker is recorded as an `Effect`; what the worker reads from outside
    (stored settings, language detection, the digest, the speech service's
    answer, the clock) arrives in a `World`. */
module Controller {
  import opened Wrappers
  import opened Text
  import opened JsValue
  import opened Speech
  import opened Background
  import opened AudioCache
  import opened Messages

  const ReadMenuId: string := "fafa-tts-read"
  const SettingsMenuId: string := "fafa-tts-settings"
  /** The badge while audio plays, U+25CF BLACK CIRCLE. */
  const PlayingBadge: string := "\U{25CF}"
  const PlayingBadgeColor: string := "#d97706"

  datatype MenuContext = SelectionContext | ActionContext

  /** What the worker asks of Chrome and the network. */
  datatype Effect =
    | CreateMenu(id: string, title: string, context: MenuContext)
    | SetBadgeText(text: string)
    | SetBadgeColor(color: string)
    | CreateOffscreenDocument
    | OpenOptionsPage
    | Send(msg: Message)
    | PostTts(request: TtsRequest)

  /** The two menus `onInstalled` creates: "read aloud" on a selection and
      "open settings" on the toolbar button. */
  const InstalledMenus: seq<Effect> :=
    [CreateMenu(ReadMenuId, "\U{6717}\U{8BFB}", SelectionContext),
     CreateMenu(SettingsMenuId, "\U{6253}\U{5F00}\U{8BBE}\U{7F6E}", ActionContext)]

  // ---- the badge -------------------------------------------------------------

  function BadgeText(playing: bool): string {
    if playing then PlayingBadge else ""
  }

  /** What `setPlayingState(next)` does from state `current`: nothing when the
      state does not change, else the new badge text, and the badge colour
      when playback starts. */
  function PlayingStateEffects(current: bool, next: bool): seq<Effect> {
    if current == next then []
    else [SetBadgeText(BadgeText(next))] + (if next then [SetBadgeColor(PlayingBadgeColor)] else [])
  }

  /** The badge text Chrome shows after `effects`: the last one set, or the
      initial empty badge. */
  function LastBadge(effects: seq<Effect>): string {
    if effects == [] then ""
    else if effects[|effects| - 1].SetBadgeText? then effects[|effects| - 1].text
    else LastBadge(effects[..|effects| - 1])
  }

  predicate NoBadgeText(effects: seq<Effect>) {
    forall i :: 0 <= i < |effects| ==> !effects[i].SetBadgeText?
  }

  /** Effects that do not set the badge text leave it as it was. */
  lemma {:induction false} LastBadgeSkips(a: seq<Effect>, b: seq<Effect>)
    requires NoBadgeText(b)
    ensures LastBadge(a + b) == LastBadge(a)
    decreases |b|
  {
    if b != [] {
      var b' := b[..|b| - 1];
      assert (a + b)[|a + b| - 1] == b[|b| - 1];
      assert !b[|b| - 1].SetBadgeText?;
      assert (a + b)[..|a + b| - 1] == a + b';
      assert NoBadgeText(b') by {
        forall i | 0 <= i < |b'| ensures !b'[i].SetBadgeText? { assert b'[i] == b[i]; }
      }
      LastBadgeSkips(a, b');
    } else {
      assert a + b == a;
    }
  }

  /** `setPlayingState` keeps the badge in step with the state: if the badge
      showed `current`, it shows `next` afterwards. */
  lemma BadgeTracksPlaying(effects: seq<Effect>, current: bool, next: bool)
    requires LastBadge(effects) == BadgeText(current)
    ensures LastBadge(effects + PlayingStateEffects(current, next)) == BadgeText(next)
    ensures !current && next ==> (effects + PlayingStateEffects(current, next))[|effects| + 1] == SetBadgeColor(PlayingBadgeColor)
  {
    if current == next {
      assert effects + PlayingStateEffects(current, next) == effects;
    } else {
      var e := effects + [SetBadgeText(BadgeText(next))];
      assert e[..|e| - 1] == effects;
      assert LastBadge(e) == BadgeText(next);
      if next {
        assert effects + PlayingStateEffects(current, next) == e + [SetBadgeColor(PlayingBadgeColor)];
        LastBadgeSkips(e, [SetBadgeColor(PlayingBadgeColor)]);
      } else {
        assert effects + PlayingStateEffects(current, next) == e;
      }
    }
  }

  // ---- talking to the offscreen document ---------------------------------------

  /** `ensureOffscreenDocument`: create the document unless it exists. */
  function OffscreenEffects(open: bool): seq<Effect> {
    if open then [] else [CreateOffscreenDocument]
  }

  /** `playAudio` (message `PlayAudio`, state `true`) and `stopPlayback`
      (message `StopAudio`, state `false`): make sure the document exists,
      send it the message, then set the playing state. */
  function SendEffects(open: bool, playing: bool, msg: Message, next: bool): seq<Effect> {
    OffscreenEffects(open) + [Send(msg)] + PlayingStateEffects(playing, next)
  }

  /** Commanding the offscreen document also keeps the badge in step. */
  lemma BadgeAfterSend(effects: seq<Effect>, open: bool, playing: bool, msg: Message, next: bool)
    requires LastBadge(effects) == BadgeText(playing)
    ensures LastBadge(effects + SendEffects(open, playing, msg, next)) == BadgeText(next)
  {
    var pre := effects + (OffscreenEffects(open) + [Send(msg)]);
    LastBadgeSkips(effects, OffscreenEffects(open) + [Send(msg)]);
    BadgeTracksPlaying(pre, playing, next);
    assert effects + SendEffects(open, playing, msg, next) == pre + PlayingStateEffects(playing, next);
  }

  // ---- speakText -------------------------------------------------------------

  /** What one `speakText` call reads from outside the worker. */
  datatype World = World(
    stored: Option<StoredSettings>,               // `chrome.storage.local` `settings`
    detection: Option<seq<DetectedLanguage>>,     // `chrome.i18n.detectLanguage`; None when it fails
    digest: string -> string,                     // SHA-256 as lower-case hex
    response: HttpResponse,                       // the speech service's answer
    now: int)                                     // `Date.now()`

  /** The decision `speakText` takes before any effect: give up without
      credentials, play a cached clip, or synthesize. */
  datatype SpeakPlan =
    | NotConfigured
    | PlayCached(dataUrl: string)
    | Synthesize(key: string, voice: string, rate: real, request: TtsRequest, maxEntries: nat)

  function PlanSpeech(text: string, w: World, entries: map<string, CacheEntry>): SpeakPlan {
    var s := GetSettings(w.stored);
    if s.apiKey == "" || s.region == "" then NotConfigured
    else
      var detected := DetectLanguage(w.detection);
      var voice := PickVoice(s, detected);
      var rate := NormalizeRateMultiplier(s.rate);
      var key := CacheKey(w.digest, text, voice, rate, s.region, s.outputFormat);
      match CachedDataUrl(entries, key)
      case Some(u) => PlayCached(u)
      case None =>
        Synthesize(key, voice, rate,
                   BuildTtsRequest(text, voice, RateToProsody(rate), s.region, s.apiKey, s.outputFormat,
                                   DetectedTag(detected)),
                   s.cacheMaxEntries)
  }

  /** The data URL a call ends up playing, if any. */
  function Played(plan: SpeakPlan, resp: HttpResponse): Option<string> {
    match plan
    case NotConfigured => None
    case PlayCached(u) => Some(u)
    case Synthesize(_, _, _, _, _) => if TtsResult(resp).Audio? then Some(TtsResult(resp).dataUrl) else None
  }

  /** The error a call throws (and its listener logs), if any. */
  function Thrown(plan: SpeakPlan, resp: HttpResponse): Option<string> {
    if plan.Synthesize? && TtsResult(resp).TtsFailure? then Some(TtsResult(resp).message) else None
  }

  /** The entry a call stores, if any. */
  datatype Saved = Saved(key: string, entry: CacheEntry, maxEntries: nat)

  function SavedEntry(plan: SpeakPlan, resp: HttpResponse, text: string, now: int): Option<Saved> {
    if plan.Synthesize? && TtsResult(resp).Audio? then
      Some(Saved(plan.key, Structured(TtsResult(resp).dataUrl, text, plan.voice, plan.rate, now), plan.maxEntries))
    else None
  }

  /** The effects of a call: the request when synthesizing, then playback of
      whatever is played. */
  function SpeakEffects(plan: SpeakPlan, resp: HttpResponse, open: bool, playing: bool): seq<Effect> {
    (if plan.Synthesize? then [PostTts(plan.request)] else [])
    + (if Played(plan, resp).Some? then SendEffects(open, playing, PlayAudio(Played(plan, resp).value), true) else [])
  }

  /** Without an API key or a region nothing at all happens. */
  lemma NotConfiguredIsSilent(text: string, w: World, entries: map<string, CacheEntry>, open: bool, playing: bool)
    ensures var s := GetSettings(w.stored);
            var plan := PlanSpeech(text, w, entries);
            (s.apiKey == "" || s.region == "") <==> plan.NotConfigured?
    ensures var s := GetSettings(w.stored);
            var plan := PlanSpeech(text, w, entries);
            (s.apiKey == "" || s.region == "") ==>
              SpeakEffects(plan, w.response, open, playing) == []
              && Thrown(plan, w.response).None?
              && SavedEntry(plan, w.response, text, w.now).None?
  {
  }

  /** A cache hit plays without contacting the service; a synthesis sends
      exactly one request, first, and then plays its audio or throws its
      error; giving up does nothing at all. */
  lemma SpeakEffectsCases(plan: SpeakPlan, resp: HttpResponse, open: bool, playing: bool)
    ensures var es := SpeakEffects(plan, resp, open, playing);
            (plan.NotConfigured? <==> es == [])
            && (plan.PlayCached? ==> (forall i :: 0 <= i < |es| ==> !es[i].PostTts?) && Send(Message.PlayAudio(plan.dataUrl)) in es)
            && (plan.Synthesize? ==> es[0] == PostTts(plan.request) && (forall i :: 1 <= i < |es| ==> !es[i].PostTts?))
            && (Thrown(plan, resp).Some? <==> (plan.Synthesize? && Played(plan, resp).None?))
            && (Played(plan, resp).None? ==> forall i :: 0 <= i < |es| ==> !es[i].Send?)
  {
    var es := SpeakEffects(plan, resp, open, playing);
    if plan.PlayCached? {
      assert es == OffscreenEffects(open) + [Send(Message.PlayAudio(plan.dataUrl))] + PlayingStateEffects(playing, true);
      assert es[|OffscreenEffects(open)|] == Send(Message.PlayAudio(plan.dataUrl));
    }
  }

  /** The request `speakText` sends: to the configured region with the
      configured key and format, in the voice `pickVoice` chose, at a prosody
      rate between -50% and +100%, with the text carried exactly. */
  lemma SynthesisRequest(text: string, w: World, entries: map<string, CacheEntry>)
    requires PlanSpeech(text, w, entries).Synthesize?
    ensures var s := GetSettings(w.stored);
            var plan := PlanSpeech(text, w, entries);
            var req := plan.request;
            var voice := PickVoice(s, DetectLanguage(w.detection));
            var prosody := RateToProsody(plan.rate);
            var head := SsmlHead(LocaleFromVoice(voice), voice, prosody);
            plan.voice == voice && plan.rate == NormalizeRateMultiplier(s.rate)
            && req.endpoint == TtsEndpoint(s.region) && req.apiKey == s.apiKey && req.outputFormat == s.outputFormat
            && StartsWith(req.body, head) && Unescape(Before(req.body[|head|..], '<')) == text
            && -50 <= Round((plan.rate - 1.0) * 100.0) <= 100
  {
    var s := GetSettings(w.stored);
    var plan := PlanSpeech(text, w, entries);
    var voice := PickVoice(s, DetectLanguage(w.detection));
    TtsRequestCarriesText(text, voice, RateToProsody(plan.rate), s.region, s.apiKey, s.outputFormat,
                          DetectedTag(DetectLanguage(w.detection)));
    ProsodyBounds(plan.rate);
  }

  /** Reading the same text twice: once the first call stored the audio it
      synthesized, the second call finds it in the cache and plays the very
      same data URL without a request, as long as the cache bound is at least
      one and was respected. */
  lemma SecondReadIsCached(text: string, w: World, order: seq<string>, entries: map<string, CacheEntry>)
    requires Consistent(order, entries)
    requires |order| <= GetSettings(w.stored).cacheMaxEntries && GetSettings(w.stored).cacheMaxEntries >= 1
    requires SavedEntry(PlanSpeech(text, w, entries), w.response, text, w.now).Some?
    ensures var plan := PlanSpeech(text, w, entries);
            var saved := SavedEntry(plan, w.response, text, w.now).value;
            var max := GetSettings(w.stored).cacheMaxEntries;
            PlanSpeech(text, w, SaveEntries(order, entries, saved.key, saved.entry, max))
            == PlayCached(Played(plan, w.response).value)
  {
    var plan := PlanSpeech(text, w, entries);
    var saved := SavedEntry(plan, w.response, text, w.now).value;
    var max := GetSettings(w.stored).cacheMaxEntries;
    assert saved.entry.DataUrl() == TtsResult(w.response).dataUrl;
    assert saved.entry.DataUrl() != "" by {
      assert StartsWith(TtsResult(w.response).dataUrl, AudioDataUrlPrefix);
      assert |AudioDataUrlPrefix| > 0;
    }
    SaveThenLookup(order, entries, saved.key, saved.entry, max);
  }

  /** The text a toolbar click reads: nothing without a tab id (0 counts as
      none), else the page selection, trimmed. */
  function ActionText(tabId: Option<int>, selection: Option<string>): string {
    if tabId.None? || tabId.value == 0 then "" else Trim(OrElse(selection, ""))
  }

  /** The text a context-menu click reads: the selection, trimmed. */
  function MenuText(selectionText: Option<string>): string {
    Trim(OrElse(selectionText, ""))
  }

  // ---- the worker ------------------------------------------------------------

  class Worker {
    /** `isPlaying`. */
    var isPlaying: bool
    /** Whether the offscreen document exists. */
    var offscreenOpen: bool
    /** Everything asked of Chrome and the network so far, oldest first. */
    var effects: seq<Effect>
    /** The two cache keys of `chrome.storage.local`. */
    const cache: Store

    /** The cache is consistent and the badge shows the playing state. */
    predicate Valid()
      reads this, cache
    {
      cache.Valid() && LastBadge(effects) == BadgeText(isPlaying)
    }

    constructor (store: Store)
      requires store.Valid()
      ensures cache == store && !isPlaying && !offscreenOpen && effects == []
      ensures Valid()
    {
      isPlaying := false;
      offscreenOpen := false;
      effects := [];
      cache := store;
    }

    /** Record Chrome calls that leave the badge alone. */
    method Emit(es: seq<Effect>)
      requires Valid() && NoBadgeText(es)
      modifies this
      ensures Valid()
      ensures effects == old(effects) + es
      ensures isPlaying == old(isPlaying) && offscreenOpen == old(offscreenOpen)
    {
      LastBadgeSkips(effects, es);
      effects := effects + es;
    }

    /** `onInstalled`: create the two menus. */
    method OnInstalled()
      requires Valid()
      modifies this
      ensures Valid()
      ensures effects == old(effects) + InstalledMenus
      ensures isPlaying == old(isPlaying) && offscreenOpen == old(offscreenOpen)
    {
      Emit(InstalledMenus);
    }

    /** `setPlayingState`. */
    method SetPlayingState(next: bool)
      requires Valid()
      modifies this
      ensures Valid()
      ensures isPlaying == next && offscreenOpen == old(offscreenOpen)
      ensures effects == old(effects) + PlayingStateEffects(old(isPlaying), next)
    {
      BadgeTracksPlaying(effects, isPlaying, next);
      if isPlaying == next {
        return;
      }
      isPlaying := next;
      effects := effects + [SetBadgeText(BadgeText(isPlaying))];
      if isPlaying {
        effects := effects + [SetBadgeColor(PlayingBadgeColor)];
      }
    }

    /** `ensureOffscreenDocument` followed by the message and the new playing
        state: `playAudio` and `stopPlayback`. */
    method SendToOffscreen(msg: Message, next: bool)
      requires Valid()
      modifies this
      ensures Valid()
      ensures isPlaying == next && offscreenOpen
      ensures effects == old(effects) + SendEffects(old(offscreenOpen), old(isPlaying), msg, next)
    {
      var sent := OffscreenEffects(offscreenOpen) + [Send(msg)];
      Emit(sent);
      offscreenOpen := true;
      SetPlayingState(next);
      ghost var switched := PlayingStateEffects(old(isPlaying), next);
      assert effects == old(effects) + (sent + switched);
    }

    /** `playAudio`. */
    method PlayAudio(dataUrl: string)
      requires Valid()
      modifies this
      ensures Valid()
      ensures isPlaying && offscreenOpen
      ensures effects == old(effects) + SendEffects(old(offscreenOpen), old(isPlaying), Message.PlayAudio(dataUrl), true)
    {
      SendToOffscreen(Message.PlayAudio(dataUrl), true);
    }

    /** `stopPlayback`. */
    method StopPlayback()
      requires Valid()
      modifies this
      ensures Valid()
      ensures !isPlaying && offscreenOpen
      ensures effects == old(effects) + SendEffects(old(offscreenOpen), old(isPlaying), StopAudio, false)
    {
      SendToOffscreen(StopAudio, false);
    }

    /** The `onMessage` listener: the offscreen document reports playback
        starting and ending; other messages are ignored. */
    method OnMessage(msg: Message)
      requires Valid()
      modifies this
      ensures Valid()
      ensures offscreenOpen == old(offscreenOpen)
      ensures msg == PlayStarted ==> isPlaying && effects == old(effects) + PlayingStateEffects(old(isPlaying), true)
      ensures msg == PlayEnded ==> !isPlaying && effects == old(effects) + PlayingStateEffects(old(isPlaying), false)
      ensures msg != PlayStarted && msg != PlayEnded ==> isPlaying == old(isPlaying) && effects == old(effects)
    {
      if msg == PlayStarted {
        SetPlayingState(true);
      }
      if msg == PlayEnded {
        SetPlayingState(false);
      }
    }

    /** What carrying out `plan` for `text` does to the worker and the cache. */
    twostate predicate Performed(plan: SpeakPlan, text: string, w: World, new error: Option<string>)
      reads this, cache
    {
      var played := Played(plan, w.response);
      var saved := SavedEntry(plan, w.response, text, w.now);
      effects == old(effects) + SpeakEffects(plan, w.response, old(offscreenOpen), old(isPlaying))
      && error == Thrown(plan, w.response)
      && (played.Some? ==> isPlaying && offscreenOpen)
      && (played.None? ==> isPlaying == old(isPlaying) && offscreenOpen == old(offscreenOpen))
      && (saved.Some? ==>
            var max := saved.value.maxEntries;
            cache.order == SaveOrder(old(cache.order), old(cache.entries), saved.value.key, max)
            && cache.entries == SaveEntries(old(cache.order), old(cache.entries), saved.value.key, saved.value.entry, max))
      && (saved.None? ==> cache.order == old(cache.order) && cache.entries == old(cache.entries))
    }

    /** What one `speakText(text)` call does: carry out the plan of `text`. */
    twostate predicate Spoke(text: string, w: World, new error: Option<string>)
      reads this, cache
    {
      Performed(PlanSpeech(text, w, old(cache.entries)), text, w, error)
    }

    /** `speakText`: resolve the settings, voice, rate and cache key and read
        the cache (`PlanSpeech`), then carry that out. */
    method SpeakText(text: string, w: World) returns (error: Option<string>)
      requires Valid()
      modifies this, cache
      ensures Valid()
      ensures Spoke(text, w, error)
    {
      error := Perform(PlanSpeech(text, w, cache.entries), text, w);
    }

    /** The effectful half of `speakText`: give up, play a cache hit, or
        synthesize, store the audio and play it. A failed synthesis is
        returned as the error thrown. */
    method Perform(plan: SpeakPlan, text: string, w: World) returns (error: Option<string>)
      requires Valid()
      modifies this, cache
      ensures Valid()
      ensures Performed(plan, text, w, error)
    {
      match plan {
        case NotConfigured =>
          return None;
        case PlayCached(u) =>
          PlayAudio(u);
          return None;
        case Synthesize(_, _, _, _, _) =>
          error := Synthesis(plan, text, w);
      }
    }

    /** The synthesis branch of `speakText`: send the request (`fetchTts`);
        on success store the audio (`saveToCache`) and play it, on failure
        return the error. */
    method Synthesis(plan: SpeakPlan, text: string, w: World) returns (error: Option<string>)
      requires Valid() && plan.Synthesize?
      modifies this, cache
      ensures Valid()
      ensures Performed(plan, text, w, error)
    {
      var outcome := TtsResult(w.response);
      if outcome.TtsFailure? {
        error := SynthesisFailed(plan, text, w);
      } else {
        var entry := Structured(outcome.dataUrl, text, plan.voice, plan.rate, w.now);
        SynthesisSucceeded(plan.request, plan.key, entry, plan.maxEntries, outcome.dataUrl);
        assert Played(plan, w.response) == Some(outcome.dataUrl);
        assert SavedEntry(plan, w.response, text, w.now) == Some(Saved(plan.key, entry, plan.maxEntries));
        assert effects == old(effects) + ([PostTts(plan.request)]
                          + SendEffects(old(offscreenOpen), old(isPlaying), Message.PlayAudio(outcome.dataUrl), true));
        error := None;
      }
    }

    /** `fetchTts` throws: only the request was made. */
    method SynthesisFailed(plan: SpeakPlan, text: string, w: World) returns (error: Option<string>)
      requires Valid() && plan.Synthesize? && TtsResult(w.response).TtsFailure?
      modifies this
      ensures Valid()
      ensures Performed(plan, text, w, error)
    {
      Emit([PostTts(plan.request)]);
      error := Some(TtsResult(w.response).message);
    }

    /** `fetchTts` answers with audio: the request was made; then the cache
        write and the playback. */
    method SynthesisSucceeded(request: TtsRequest, key: string, entry: CacheEntry, maxEntries: nat, dataUrl: string)
      requires Valid() && entry.Truthy()
      modifies this, cache
      ensures Valid() && isPlaying && offscreenOpen
      ensures effects == old(effects) + [PostTts(request)]
                         + SendEffects(old(offscreenOpen), old(isPlaying), Message.PlayAudio(dataUrl), true)
      ensures cache.order == SaveOrder(old(cache.order), old(cache.entries), key, maxEntries)
      ensures cache.entries == SaveEntries(old(cache.order), old(cache.entries), key, entry, maxEntries)
    {
      Emit([PostTts(request)]);
      cache.Save(key, entry, maxEntries);
      PlayAudio(dataUrl);
    }

    /** The toolbar button: stop while playing; otherwise read the page
        selection of the tab, if any. */
    method ActionClicked(tabId: Option<int>, selection: Option<string>, w: World) returns (error: Option<string>)
      requires Valid()
      modifies this, cache
      ensures Valid()
      ensures old(isPlaying) ==>
                !isPlaying && offscreenOpen && error.None?
                && effects == old(effects) + SendEffects(old(offscreenOpen), true, StopAudio, false)
                && cache.order == old(cache.order) && cache.entries == old(cache.entries)
      ensures !old(isPlaying) && ActionText(tabId, selection) == "" ==>
                error.None? && effects == old(effects) && !isPlaying && offscreenOpen == old(offscreenOpen)
                && cache.order == old(cache.order) && cache.entries == old(cache.entries)
      ensures !old(isPlaying) && ActionText(tabId, selection) != "" ==> Spoke(ActionText(tabId, selection), w, error)
    {
      if isPlaying {
        StopPlayback();
        return None;
      }
      if tabId.None? || tabId.value == 0 {
        return None;
      }
      var text := Trim(OrElse(selection, ""));
      if text == "" {
        return None;
      }
      error := SpeakText(text, w);
    }

    /** A context-menu click: the settings item opens the options page, the
        read item reads the selection; any other item does nothing. */
    method MenuClicked(menuId: string, selectionText: Option<string>, w: World) returns (error: Option<string>)
      requires Valid()
      modifies this, cache
      ensures Valid()
      ensures menuId != ReadMenuId ==>
                error.None? && isPlaying == old(isPlaying) && offscreenOpen == old(offscreenOpen)
                && cache.order == old(cache.order) && cache.entries == old(cache.entries)
                && effects == old(effects) + (if menuId == SettingsMenuId then [OpenOptionsPage] else [])
      ensures menuId == ReadMenuId && MenuText(selectionText) == "" ==> error.None? && unchanged(this, cache)
      ensures menuId == ReadMenuId && MenuText(selectionText) != "" ==> Spoke(MenuText(selectionText), w, error)
    {
      if menuId == ReadMenuId {
        var text := MenuText(selectionText);
        if text != "" {
          error := SpeakText(text, w);
        } else {
          error := None;
        }
      } else {
        if menuId == SettingsMenuId {
          Emit([OpenOptionsPage]);
        }
        error := None;
      }
    }
  }
}
