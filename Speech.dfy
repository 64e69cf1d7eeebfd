/** Helpers that background.js and options.js define identically: the language
    alias table, the locale prefix of a voice name, the prosody rate string,
    and the SSML document sent to the synthesis endpoint (Azure SSML, after the
    W3C Speech Synthesis Markup Language 1.0: section 3.1.1 `speak`, section
    3.2.1 `voice`, section 3.2.4 `prosody`). */
module Speech {
  import opened Text
  import opened Wrappers
  import opened JsValue

  /** `LANGUAGE_ALIASES`: Chinese dialect and script tags folded onto "zh". */
  const LanguageAliases: map<string, string> :=
    map["yue" := "zh", "lzh" := "zh", "wuu" := "zh", "nan" := "zh", "hak" := "zh", "cmn" := "zh"]

  /** The primary subtags that denote Chinese once aliases are applied. */
  const ChineseSubtags: set<string> := {"zh", "yue", "lzh", "wuu", "nan", "hak", "cmn"}

  /** `normalizeLanguageKey`: `LANGUAGE_ALIASES[base] || base`. */
  function NormalizeLanguageKey(base: string): (r: string)
    ensures r == base || r == "zh"
    ensures r == "zh" <==> base in ChineseSubtags
  {
    if base in LanguageAliases then LanguageAliases[base] else base
  }

  /** Normalising twice changes nothing more. */
  lemma NormalizeIdempotent(base: string)
    ensures NormalizeLanguageKey(NormalizeLanguageKey(base)) == NormalizeLanguageKey(base)
  {
  }

  predicate IsLowerAscii(c: char) { 'a' <= c <= 'z' }
  predicate IsUpperAscii(c: char) { 'A' <= c <= 'Z' }

  /** `s` begins with a match of `/^[a-z]{2}-[A-Z]{2}/`. */
  predicate HasLocalePrefix(s: string) {
    |s| >= 5 && IsLowerAscii(s[0]) && IsLowerAscii(s[1]) && s[2] == '-'
    && IsUpperAscii(s[3]) && IsUpperAscii(s[4])
  }

  const FallbackLocale: string := "en-US"

  /** `localeFromVoice`: the leading `xx-XX` of a voice name, else "en-US".
      The result is always itself a locale, so it is never empty. */
  function LocaleFromVoice(voice: string): (r: string)
    ensures HasLocalePrefix(r) && |r| == 5
    ensures HasLocalePrefix(voice) ==> r == voice[..5]
    ensures !HasLocalePrefix(voice) ==> r == FallbackLocale
  {
    if HasLocalePrefix(voice) then voice[..5] else FallbackLocale
  }

  /** A locale is its own locale. */
  lemma LocaleFromVoiceIdempotent(voice: string)
    ensures LocaleFromVoice(LocaleFromVoice(voice)) == LocaleFromVoice(voice)
  {
  }

  /** `rateToProsody`: the percent change `Math.round((m - 1) * 100)` followed by "%". */
  function RateToProsody(m: real): string {
    IntToString(Round((m - 1.0) * 100.0)) + "%"
  }

  lemma RateToProsodyExamples()
    ensures RateToProsody(1.0) == "0%"
    ensures RateToProsody(1.5) == "50%"
    ensures RateToProsody(0.5) == "-50%"
    ensures RateToProsody(2.0) == "100%"
  {
    assert Round(0.0) == 0 && Round(50.0) == 50 && Round(-50.0) == -50 && Round(100.0) == 100;
    assert NatToString(50) == "50" by { assert NatToString(5) == "5"; }
    assert NatToString(100) == "100" by {
      assert NatToString(1) == "1";
      assert NatToString(10) == "10";
    }
  }

  /** A clamped rate gives a percentage between -50 and 100, and the string
      is that integer in decimal followed by "%". */
  lemma ProsodyBounds(m: real)
    requires 0.5 <= m <= 2.0
    ensures -50 <= Round((m - 1.0) * 100.0) <= 100
    ensures EndsWith(RateToProsody(m), "%")
    ensures ParseNumber(RateToProsody(m)[..|RateToProsody(m)| - 1]) == Some(Round((m - 1.0) * 100.0) as real)
  {
    var p := Round((m - 1.0) * 100.0);
    var s := RateToProsody(m);
    assert s[..|s| - 1] == IntToString(p);
    ParseIntToString(p);
  }

  // ---- escaping --------------------------------------------------------

  /** `s.replace(/c/g, rep)`. */
  function ReplaceAll(s: string, c: char, rep: string): string {
    if s == [] then [] else (if s[0] == c then rep else [s[0]]) + ReplaceAll(s[1..], c, rep)
  }

  /** `escapeForSsml`: five global replacements, `&` first. */
  function EscapeForSsml(text: string): string {
    var amp := ReplaceAll(text, '&', "&amp;");
    var lt := ReplaceAll(amp, '<', "&lt;");
    var gt := ReplaceAll(lt, '>', "&gt;");
    var quot := ReplaceAll(gt, '"', "&quot;");
    ReplaceAll(quot, '\'', "&apos;")
  }

  /** The entity (or the character itself) that escaping puts in place of `c`. */
  function EscapeChar(c: char): string {
    if c == '&' then "&amp;"
    else if c == '<' then "&lt;"
    else if c == '>' then "&gt;"
    else if c == '"' then "&quot;"
    else if c == '\'' then "&apos;"
    else [c]
  }

  /** Character-by-character escaping: the reference the five passes are proved against. */
  function EscapeEach(s: string): string {
    if s == [] then [] else EscapeChar(s[0]) + EscapeEach(s[1..])
  }

  lemma {:induction false} ReplaceAllConcat(a: string, b: string, c: char, rep: string)
    ensures ReplaceAll(a + b, c, rep) == ReplaceAll(a, c, rep) + ReplaceAll(b, c, rep)
  {
    if a != [] {
      assert (a + b)[0] == a[0];
      assert (a + b)[1..] == a[1..] + b;
      ReplaceAllConcat(a[1..], b, c, rep);
    } else {
      assert a + b == b;
    }
  }

  lemma ReplaceAllSingle(x: char, c: char, rep: string)
    ensures ReplaceAll([x], c, rep) == if x == c then rep else [x]
  {
    assert [x][1..] == [];
    assert ReplaceAll([], c, rep) == [];
    assert ReplaceAll([x], c, rep) == (if x == c then rep else [x]) + [];
  }

  /** Each pass distributes over concatenation, so the whole pipeline does. */
  lemma EscapeForSsmlConcat(a: string, b: string)
    ensures EscapeForSsml(a + b) == EscapeForSsml(a) + EscapeForSsml(b)
  {
    var a1, b1 := ReplaceAll(a, '&', "&amp;"), ReplaceAll(b, '&', "&amp;");
    ReplaceAllConcat(a, b, '&', "&amp;");
    var a2, b2 := ReplaceAll(a1, '<', "&lt;"), ReplaceAll(b1, '<', "&lt;");
    ReplaceAllConcat(a1, b1, '<', "&lt;");
    var a3, b3 := ReplaceAll(a2, '>', "&gt;"), ReplaceAll(b2, '>', "&gt;");
    ReplaceAllConcat(a2, b2, '>', "&gt;");
    var a4, b4 := ReplaceAll(a3, '"', "&quot;"), ReplaceAll(b3, '"', "&quot;");
    ReplaceAllConcat(a3, b3, '"', "&quot;");
    ReplaceAllConcat(a4, b4, '\'', "&apos;");
  }

  /** Replacing in a string that lacks the character changes nothing. */
  lemma {:induction false} ReplaceAllAbsent(s: string, c: char, rep: string)
    requires c !in s
    ensures ReplaceAll(s, c, rep) == s
  {
    if s != [] {
      ReplaceAllAbsent(s[1..], c, rep);
    }
  }

  /** The last four passes leave a string without their characters alone. */
  lemma LaterPassesKeep(e: string)
    requires forall i :: 0 <= i < |e| ==> !IsMarkupChar(e[i])
    ensures ReplaceAll(ReplaceAll(ReplaceAll(ReplaceAll(e, '<', "&lt;"), '>', "&gt;"), '"', "&quot;"), '\'', "&apos;") == e
  {
    ReplaceAllAbsent(e, '<', "&lt;");
    ReplaceAllAbsent(e, '>', "&gt;");
    ReplaceAllAbsent(e, '"', "&quot;");
    ReplaceAllAbsent(e, '\'', "&apos;");
  }

  /** On one character the five passes produce that character's entity: no
      later pass touches what an earlier one wrote, because `&` goes first. */
  lemma EscapeForSsmlChar(c: char)
    ensures EscapeForSsml([c]) == EscapeChar(c)
  {
    ReplaceAllSingle(c, '&', "&amp;");
    if c == '&' {
      assert forall i :: 0 <= i < |"&amp;"| ==> !IsMarkupChar("&amp;"[i]);
      LaterPassesKeep("&amp;");
    } else {
      EscapeNonAmpersand(c);
    }
  }

  lemma EscapeNonAmpersand(c: char)
    requires c != '&'
    ensures ReplaceAll(ReplaceAll(ReplaceAll(ReplaceAll([c], '<', "&lt;"), '>', "&gt;"), '"', "&quot;"), '\'', "&apos;") == EscapeChar(c)
  {
    ReplaceAllSingle(c, '<', "&lt;");
    if c == '<' {
      ReplaceAllAbsent("&lt;", '>', "&gt;");
      ReplaceAllAbsent("&lt;", '"', "&quot;");
      ReplaceAllAbsent("&lt;", '\'', "&apos;");
    } else {
      ReplaceAllSingle(c, '>', "&gt;");
      if c == '>' {
        ReplaceAllAbsent("&gt;", '"', "&quot;");
        ReplaceAllAbsent("&gt;", '\'', "&apos;");
      } else {
        ReplaceAllSingle(c, '"', "&quot;");
        if c == '"' {
          ReplaceAllAbsent("&quot;", '\'', "&apos;");
        } else {
          ReplaceAllSingle(c, '\'', "&apos;");
        }
      }
    }
  }

  /** The source's five sequential passes equal character-by-character escaping. */
  lemma {:induction false} EscapeForSsmlIsPerChar(s: string)
    ensures EscapeForSsml(s) == EscapeEach(s)
  {
    if s != [] {
      assert s == [s[0]] + s[1..];
      EscapeForSsmlConcat([s[0]], s[1..]);
      EscapeForSsmlChar(s[0]);
      EscapeForSsmlIsPerChar(s[1..]);
    }
  }

  /** The XML metacharacters that may not appear raw in escaped text (`&` may,
      but only to open an entity). */
  predicate IsMarkupChar(c: char) {
    c == '<' || c == '>' || c == '"' || c == '\''
  }

  /** One of the five predefined XML entities starts at position `i`. */
  predicate EntityAt(r: string, i: nat)
    requires i <= |r|
  {
    var t := r[i..];
    StartsWith(t, "&amp;") || StartsWith(t, "&lt;") || StartsWith(t, "&gt;")
    || StartsWith(t, "&quot;") || StartsWith(t, "&apos;")
  }

  lemma EntityAtShift(e: string, r: string, i: nat)
    requires |e| <= i <= |e| + |r|
    ensures EntityAt(e + r, i) == EntityAt(r, i - |e|)
  {
    assert (e + r)[i..] == r[i - |e|..];
  }

  /** Escaped text holds no raw `<`, `>`, `"` or `'`, and each of its `&`
      opens one of the five entities. */
  lemma {:induction false} EscapedIsSafe(s: string)
    ensures forall i :: 0 <= i < |EscapeForSsml(s)| ==> !IsMarkupChar(EscapeForSsml(s)[i])
    ensures forall i :: 0 <= i < |EscapeForSsml(s)| && EscapeForSsml(s)[i] == '&' ==> EntityAt(EscapeForSsml(s), i)
  {
    EscapeForSsmlIsPerChar(s);
    EscapeEachIsSafe(s);
  }

  lemma {:induction false} EscapeEachIsSafe(s: string)
    ensures forall i :: 0 <= i < |EscapeEach(s)| ==> !IsMarkupChar(EscapeEach(s)[i])
    ensures forall i :: 0 <= i < |EscapeEach(s)| && EscapeEach(s)[i] == '&' ==> EntityAt(EscapeEach(s), i)
  {
    if s != [] {
      var e := EscapeChar(s[0]);
      var rest := EscapeEach(s[1..]);
      var r := e + rest;
      EscapeEachIsSafe(s[1..]);
      forall i | 0 <= i < |r|
        ensures !IsMarkupChar(r[i])
        ensures r[i] == '&' ==> EntityAt(r, i)
      {
        if i < |e| {
          assert r[i] == e[i];
          if e[i] == '&' {
            assert i == 0;
            assert r[0..] == e + rest;
            assert (e + rest)[..|e|] == e;
          }
        } else {
          assert r[i] == rest[i - |e|];
          EntityAtShift(e, rest, i);
        }
      }
    }
  }

  /** Reads the five entities back into the characters they stand for. */
  function Unescape(s: string): string
    decreases |s|
  {
    if s == [] then []
    else if StartsWith(s, "&amp;") then "&" + Unescape(s[5..])
    else if StartsWith(s, "&lt;") then "<" + Unescape(s[4..])
    else if StartsWith(s, "&gt;") then ">" + Unescape(s[4..])
    else if StartsWith(s, "&quot;") then "\"" + Unescape(s[6..])
    else if StartsWith(s, "&apos;") then "'" + Unescape(s[6..])
    else [s[0]] + Unescape(s[1..])
  }

  /** `t` does not start with `e` when they differ at position `i`. */
  lemma Mismatch(t: string, e: string, i: nat)
    requires i < |e| && i < |t| && t[i] != e[i]
    ensures !StartsWith(t, e)
  {
    if |e| <= |t| {
      assert t[..|e|][i] == t[i];
    }
  }

  lemma UnescapeStep(c: char, rest: string)
    ensures Unescape(EscapeChar(c) + rest) == [c] + Unescape(rest)
  {
    var e := EscapeChar(c);
    var t := e + rest;
    assert t[..|e|] == e;
    assert t[|e|..] == rest;
    assert t[0] == e[0];
    if c == '&' {
    } else if c == '<' {
      assert t[1] == 'l';
      Mismatch(t, "&amp;", 1);
    } else if c == '>' {
      assert t[1] == 'g';
      Mismatch(t, "&amp;", 1);
      Mismatch(t, "&lt;", 1);
    } else if c == '"' {
      assert t[1] == 'q';
      Mismatch(t, "&amp;", 1);
      Mismatch(t, "&lt;", 1);
      Mismatch(t, "&gt;", 1);
    } else if c == '\'' {
      assert t[1] == 'a' && t[2] == 'p';
      Mismatch(t, "&amp;", 2);
      Mismatch(t, "&lt;", 1);
      Mismatch(t, "&gt;", 1);
      Mismatch(t, "&quot;", 1);
    } else {
      Mismatch(t, "&amp;", 0);
      Mismatch(t, "&lt;", 0);
      Mismatch(t, "&gt;", 0);
      Mismatch(t, "&quot;", 0);
      Mismatch(t, "&apos;", 0);
      assert t[1..] == rest;
    }
  }

  /** Unescaping undoes escaping: the escaped text still carries the input exactly. */
  lemma {:induction false} EscapeRoundTrip(s: string)
    ensures Unescape(EscapeForSsml(s)) == s
  {
    EscapeForSsmlIsPerChar(s);
    EscapeEachRoundTrip(s);
  }

  lemma {:induction false} EscapeEachRoundTrip(s: string)
    ensures Unescape(EscapeEach(s)) == s
  {
    if s != [] {
      UnescapeStep(s[0], EscapeEach(s[1..]));
      EscapeEachRoundTrip(s[1..]);
    }
  }

  // ---- the document -------------------------------------------------------

  /** Everything of the document before the escaped text. */
  function SsmlHead(locale: string, voice: string, rate: string): string {
    "<?xml version=\"1.0\" encoding=\"UTF-8\"?>\n"
    + "<speak version=\"1.0\" xml:lang=\"" + locale + "\">"
    + "<voice name=\"" + voice + "\">"
    + "<prosody rate=\"" + rate + "\">"
  }

  const SsmlTail: string := "</prosody></voice></speak>"

  /** The SSML template of `fetchTts`: a `speak` root with version and
      `xml:lang`, a `voice` naming the voice, a `prosody` carrying the rate,
      and the escaped text as the prosody element's content. */
  function SsmlDocument(locale: string, voice: string, rate: string, text: string): string {
    "<?xml version=\"1.0\" encoding=\"UTF-8\"?>\n"
    + "<speak version=\"1.0\" xml:lang=\"" + locale + "\">"
    + "<voice name=\"" + voice + "\">"
    + "<prosody rate=\"" + rate + "\">" + EscapeForSsml(text) + "</prosody>"
    + "</voice>"
    + "</speak>"
  }

  /** The text content of the prosody element (everything after the head up to
      the next `<`) unescapes to exactly the input text, and the document
      closes the three elements in order. */
  lemma SsmlCarriesText(locale: string, voice: string, rate: string, text: string)
    ensures var doc := SsmlDocument(locale, voice, rate, text);
            var head := SsmlHead(locale, voice, rate);
            StartsWith(doc, head) && EndsWith(doc, SsmlTail)
            && Unescape(Before(doc[|head|..], '<')) == text
  {
    var doc := SsmlDocument(locale, voice, rate, text);
    var head := SsmlHead(locale, voice, rate);
    var esc := EscapeForSsml(text);
    assert doc == head + esc + SsmlTail;
    assert doc[..|head|] == head;
    assert doc[|head|..] == esc + ['<'] + SsmlTail[1..];
    EscapedIsSafe(text);
    assert '<' !in esc by {
      forall i | 0 <= i < |esc| ensures esc[i] != '<' {
        assert !IsMarkupChar(esc[i]);
      }
    }
    BeforeSeparator(esc, '<', SsmlTail[1..]);
    EscapeRoundTrip(text);
  }
}
