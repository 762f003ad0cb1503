/**
 * The Apple voice catalogue of lib/voices-database.ts: the `VoiceData`
 * record, the query functions over the table, the three-tier matching of a
 * browser voice against the table, the grouping by language and the display
 * name. The table is a parameter of every query; `Excerpt` holds a few of its
 * real rows.
 */
module VoiceCatalog {
  import opened Strings
  import opened Collections

  datatype Quality = Default | Enhanced | Premium
  datatype Gender = Male | Female

  /** One row of `APPLE_VOICES`. */
  datatype VoiceData = VoiceData(
    language: string,
    languageCode: string,
    name: string,
    quality: Quality,
    identifier: string,
    voiceClass: string,
    gender: Option<Gender>,
    description: Option<string>,
    supportsIOS: bool,
    supportsMacOS: bool,
    supportsWeb: bool)

  /** The fields of a browser `SpeechSynthesisVoice` that the code reads. */
  datatype BrowserVoice = BrowserVoice(name: string, lang: string, voiceURI: string)

  function QualityName(q: Quality): string {
    match q
    case Default => "Default"
    case Enhanced => "Enhanced"
    case Premium => "Premium"
  }

  function GenderName(g: Gender): string {
    match g
    case Male => "Male"
    case Female => "Female"
  }

  // ----- filters over the table -----

  /** `getVoicesByLanguage(code)`. */
  function VoicesByLanguage(table: seq<VoiceData>, code: string): (r: seq<VoiceData>)
    ensures IsSubsequence(r, table)
    ensures forall v :: v in r <==> v in table && v.languageCode == code
    ensures forall v :: multiset(r)[v] == if v.languageCode == code then multiset(table)[v] else 0
  {
    Filter(table, (v: VoiceData) => v.languageCode == code)
  }

  /** `getVoicesByQuality(q)`. */
  function VoicesByQuality(table: seq<VoiceData>, q: Quality): (r: seq<VoiceData>)
    ensures IsSubsequence(r, table)
    ensures forall v :: v in r <==> v in table && v.quality == q
    ensures forall v :: multiset(r)[v] == if v.quality == q then multiset(table)[v] else 0
  {
    Filter(table, (v: VoiceData) => v.quality == q)
  }

  /** `getEnglishVoices()`. */
  function EnglishVoices(table: seq<VoiceData>): (r: seq<VoiceData>)
    ensures IsSubsequence(r, table)
    ensures forall v :: v in r <==> v in table && StartsWith(v.languageCode, "en-")
    ensures forall v :: multiset(r)[v] == if StartsWith(v.languageCode, "en-") then multiset(table)[v] else 0
  {
    Filter(table, (v: VoiceData) => StartsWith(v.languageCode, "en-"))
  }

  /** `getUSEnglishVoices()`. */
  function USEnglishVoices(table: seq<VoiceData>): (r: seq<VoiceData>)
    ensures IsSubsequence(r, table)
    ensures forall v :: v in r <==> v in table && v.languageCode == "en-US"
    ensures forall v :: multiset(r)[v] == if v.languageCode == "en-US" then multiset(table)[v] else 0
  {
    Filter(table, (v: VoiceData) => v.languageCode == "en-US")
  }

  /** `getSiriVoices()`: the description, when there is one, mentions Siri. */
  function SiriVoices(table: seq<VoiceData>): (r: seq<VoiceData>)
    ensures IsSubsequence(r, table)
    ensures forall v :: v in r <==> v in table && v.description.Some? && Contains(v.description.value, "Siri")
    ensures forall v :: multiset(r)[v] == if v.description.Some? && Contains(v.description.value, "Siri") then multiset(table)[v] else 0
  {
    Filter(table, (v: VoiceData) => v.description.Some? && Contains(v.description.value, "Siri"))
  }

  /** `getPremiumVoices()`. */
  function PremiumVoices(table: seq<VoiceData>): (r: seq<VoiceData>)
    ensures IsSubsequence(r, table)
    ensures forall v :: v in r <==> v in table && v.quality == Premium
    ensures forall v :: multiset(r)[v] == if v.quality == Premium then multiset(table)[v] else 0
  {
    Filter(table, (v: VoiceData) => v.quality == Premium)
  }

  /** `getEnhancedVoices()`. */
  function EnhancedVoices(table: seq<VoiceData>): (r: seq<VoiceData>)
    ensures IsSubsequence(r, table)
    ensures forall v :: v in r <==> v in table && v.quality == Enhanced
    ensures forall v :: multiset(r)[v] == if v.quality == Enhanced then multiset(table)[v] else 0
  {
    Filter(table, (v: VoiceData) => v.quality == Enhanced)
  }

  /** `getIOSCompatibleVoices()`. */
  function IOSCompatibleVoices(table: seq<VoiceData>): (r: seq<VoiceData>)
    ensures IsSubsequence(r, table)
    ensures forall v :: v in r <==> v in table && v.supportsIOS
    ensures forall v :: multiset(r)[v] == if v.supportsIOS then multiset(table)[v] else 0
  {
    Filter(table, (v: VoiceData) => v.supportsIOS)
  }

  /** `getMacOSCompatibleVoices()`. */
  function MacOSCompatibleVoices(table: seq<VoiceData>): (r: seq<VoiceData>)
    ensures IsSubsequence(r, table)
    ensures forall v :: v in r <==> v in table && v.supportsMacOS
    ensures forall v :: multiset(r)[v] == if v.supportsMacOS then multiset(table)[v] else 0
  {
    Filter(table, (v: VoiceData) => v.supportsMacOS)
  }

  /** `getWebCompatibleVoices()`. */
  function WebCompatibleVoices(table: seq<VoiceData>): (r: seq<VoiceData>)
    ensures IsSubsequence(r, table)
    ensures forall v :: v in r <==> v in table && v.supportsWeb
    ensures forall v :: multiset(r)[v] == if v.supportsWeb then multiset(table)[v] else 0
  {
    Filter(table, (v: VoiceData) => v.supportsWeb)
  }

  /** `getAccessibilityRecommendedVoices()`: Enhanced or Premium, and usable on the web. */
  function AccessibilityRecommendedVoices(table: seq<VoiceData>): (r: seq<VoiceData>)
    ensures IsSubsequence(r, table)
    ensures forall v :: v in r <==> v in table && (v.quality == Enhanced || v.quality == Premium) && v.supportsWeb
    ensures forall v :: multiset(r)[v] == if (v.quality == Enhanced || v.quality == Premium) && v.supportsWeb then multiset(table)[v] else 0
  {
    Filter(table, (v: VoiceData) => (v.quality == Enhanced || v.quality == Premium) && v.supportsWeb)
  }

  /** Every US English voice is an English voice, and keeps its place: `"en-US"` starts with `"en-"`. */
  lemma USEnglishWithinEnglish(table: seq<VoiceData>)
    ensures IsSubsequence(USEnglishVoices(table), EnglishVoices(table))
  {
    assert StartsWith("en-US", "en-");
    FilterMonotone(table, (v: VoiceData) => v.languageCode == "en-US", (v: VoiceData) => StartsWith(v.languageCode, "en-"));
  }

  /** `getPremiumVoices()` and `getEnhancedVoices()` are `getVoicesByQuality` at a fixed quality. */
  lemma QualityShortcuts(table: seq<VoiceData>)
    ensures PremiumVoices(table) == VoicesByQuality(table, Premium)
    ensures EnhancedVoices(table) == VoicesByQuality(table, Enhanced)
  {
    FilterCongruent(table, (v: VoiceData) => v.quality == Premium, (v: VoiceData) => v.quality == Premium);
    FilterCongruent(table, (v: VoiceData) => v.quality == Enhanced, (v: VoiceData) => v.quality == Enhanced);
  }

  /** The rows of one language and one quality come out the same, in the same order, whichever query runs first. */
  lemma LanguageAndQualityCommute(table: seq<VoiceData>, code: string, q: Quality)
    ensures Filter(VoicesByLanguage(table, code), (v: VoiceData) => v.quality == q)
         == Filter(VoicesByQuality(table, q), (v: VoiceData) => v.languageCode == code)
  {
    var byCode := (v: VoiceData) => v.languageCode == code;
    var byQuality := (v: VoiceData) => v.quality == q;
    var a, b := VoicesByLanguage(table, code), VoicesByQuality(table, q);
    assert a == Filter(table, byCode) by {
      FilterCongruent(table, (v: VoiceData) => v.languageCode == code, byCode);
    }
    assert b == Filter(table, byQuality) by {
      FilterCongruent(table, (v: VoiceData) => v.quality == q, byQuality);
    }
    FilterCongruent(a, (v: VoiceData) => v.quality == q, byQuality);
    FilterCongruent(b, (v: VoiceData) => v.languageCode == code, byCode);
    FilterCommutes(table, byCode, byQuality);
  }

  // ----- lookups -----

  /** `getVoiceByName(name)`: the first row with that name. */
  function VoiceByName(table: seq<VoiceData>, name: string): (r: Option<VoiceData>)
    ensures r.None? <==> forall i :: 0 <= i < |table| ==> table[i].name != name
    ensures r.Some? ==> exists i :: IsFirst(table, i, (v: VoiceData) => v.name == name) && table[i] == r.value
  {
    Find(table, (v: VoiceData) => v.name == name)
  }

  /** `getVoiceByIdentifier(identifier)`: the first row with that identifier. */
  function VoiceByIdentifier(table: seq<VoiceData>, identifier: string): (r: Option<VoiceData>)
    ensures r.None? <==> forall i :: 0 <= i < |table| ==> table[i].identifier != identifier
    ensures r.Some? ==> exists i :: IsFirst(table, i, (v: VoiceData) => v.identifier == identifier) && table[i] == r.value
  {
    Find(table, (v: VoiceData) => v.identifier == identifier)
  }

  function LanguageCodes(table: seq<VoiceData>): (r: seq<string>)
    ensures |r| == |table| && forall i :: 0 <= i < |table| ==> r[i] == table[i].languageCode
  {
    seq(|table|, i requires 0 <= i < |table| => table[i].languageCode)
  }

  function VoiceNames(table: seq<VoiceData>): (r: seq<string>)
    ensures |r| == |table| && forall i :: 0 <= i < |table| ==> r[i] == table[i].name
  {
    seq(|table|, i requires 0 <= i < |table| => table[i].name)
  }

  /** `getAvailableLanguages()`: the distinct language codes, sorted. */
  function AvailableLanguages(table: seq<VoiceData>): (r: seq<string>)
    ensures StrictlyAscending(r)
    ensures forall c :: c in r <==> exists i :: 0 <= i < |table| && table[i].languageCode == c
  {
    var codes := LanguageCodes(table);
    assert forall c :: c in codes <==> exists i :: 0 <= i < |table| && table[i].languageCode == c by {
      forall c | c in codes ensures exists i :: 0 <= i < |table| && table[i].languageCode == c {
        var i :| 0 <= i < |codes| && codes[i] == c;
      }
    }
    SortedDistinct(codes)
  }

  /** `getAvailableVoiceNames()`: the distinct voice names, sorted. */
  function AvailableVoiceNames(table: seq<VoiceData>): (r: seq<string>)
    ensures StrictlyAscending(r)
    ensures forall n :: n in r <==> exists i :: 0 <= i < |table| && table[i].name == n
  {
    var names := VoiceNames(table);
    assert forall n :: n in names <==> exists i :: 0 <= i < |table| && table[i].name == n by {
      forall n | n in names ensures exists i :: 0 <= i < |table| && table[i].name == n {
        var i :| 0 <= i < |names| && names[i] == n;
      }
    }
    SortedDistinct(names)
  }

  /** Any sorted list without duplicates of exactly the codes in use is `getAvailableLanguages()`. */
  lemma AvailableLanguagesUnique(table: seq<VoiceData>, xs: seq<string>)
    requires StrictlyAscending(xs)
    requires forall c :: c in xs <==> exists i :: 0 <= i < |table| && table[i].languageCode == c
    ensures xs == AvailableLanguages(table)
  {
    StrictlyAscendingUnique(xs, AvailableLanguages(table));
  }

  // ----- matching a browser voice -----

  /** Tier 1: the voice URI contains the identifier, or the identifier contains the voice URI. */
  predicate IdentifierMatch(bv: BrowserVoice, v: VoiceData) {
    Contains(bv.voiceURI, v.identifier) || Contains(v.identifier, bv.voiceURI)
  }

  /** Tier 2: same name and language. */
  predicate NameAndLanguageMatch(bv: BrowserVoice, v: VoiceData) {
    v.name == bv.name && v.languageCode == bv.lang
  }

  /** Tier 3: same name. */
  predicate NameMatch(bv: BrowserVoice, v: VoiceData) {
    v.name == bv.name
  }

  /** `matchBrowserVoice(bv)`: the first tier that matches any row decides, and its first row is the answer. */
  function MatchBrowserVoice(table: seq<VoiceData>, bv: BrowserVoice): (r: Option<VoiceData>)
    ensures r.Some? ==> r.value in table
    ensures r.None? <==> forall v :: v in table ==> !IdentifierMatch(bv, v) && !NameMatch(bv, v)
  {
    var byIdentifier := Find(table, (v: VoiceData) => IdentifierMatch(bv, v));
    if byIdentifier.Some? then byIdentifier
    else
      var byNameAndLanguage := Find(table, (v: VoiceData) => NameAndLanguageMatch(bv, v));
      if byNameAndLanguage.Some? then byNameAndLanguage
      else Find(table, (v: VoiceData) => NameMatch(bv, v))
  }

  /**
   * The tiers are tried in order: the result is the first identifier match
   * when there is one, else the first name-and-language match when there is
   * one, else the first name match; a name-and-language result means no
   * identifier match exists, and a name-only result means neither earlier
   * tier matches.
   */
  lemma MatchTiers(table: seq<VoiceData>, bv: BrowserVoice)
    ensures var r := MatchBrowserVoice(table, bv);
      && ((exists i :: 0 <= i < |table| && IdentifierMatch(bv, table[i])) ==>
            exists i :: IsFirst(table, i, (v: VoiceData) => IdentifierMatch(bv, v)) && r == Some(table[i]))
      && (r.Some? && !IdentifierMatch(bv, r.value) ==>
            NameAndLanguageMatch(bv, r.value) || NameMatch(bv, r.value))
      && (r.Some? && !IdentifierMatch(bv, r.value) ==>
            forall v :: v in table ==> !IdentifierMatch(bv, v))
      && (r.Some? && !IdentifierMatch(bv, r.value) && !NameAndLanguageMatch(bv, r.value) ==>
            forall v :: v in table ==> !NameAndLanguageMatch(bv, v))
      && ((forall v :: v in table ==> !IdentifierMatch(bv, v)) &&
          (exists i :: 0 <= i < |table| && NameAndLanguageMatch(bv, table[i])) ==>
            exists i :: IsFirst(table, i, (v: VoiceData) => NameAndLanguageMatch(bv, v)) && r == Some(table[i]))
      && ((forall v :: v in table ==> !IdentifierMatch(bv, v) && !NameAndLanguageMatch(bv, v)) &&
          (exists i :: 0 <= i < |table| && NameMatch(bv, table[i])) ==>
            exists i :: IsFirst(table, i, (v: VoiceData) => NameMatch(bv, v)) && r == Some(table[i]))
  {
    var p1 := (v: VoiceData) => IdentifierMatch(bv, v);
    var p2 := (v: VoiceData) => NameAndLanguageMatch(bv, v);
    var p3 := (v: VoiceData) => NameMatch(bv, v);
    var f1 := Find(table, p1);
    if f1.None? {
      var f2 := Find(table, p2);
      if f2.Some? {
        var i :| IsFirst(table, i, p2) && table[i] == f2.value;
      } else {
        var f3 := Find(table, p3);
        if f3.Some? {
          var i :| IsFirst(table, i, p3) && table[i] == f3.value;
        }
      }
    }
  }

  /** An empty voice URI is contained in every identifier, so it matches the first row. */
  lemma EmptyURIMatchesFirst(table: seq<VoiceData>, bv: BrowserVoice)
    requires bv.voiceURI == "" && table != []
    ensures MatchBrowserVoice(table, bv) == Some(table[0])
  {
    ContainsEmpty(table[0].identifier);
    assert IdentifierMatch(bv, table[0]);
  }

  // ----- grouping and display -----

  function LanguageOf(v: VoiceData): string {
    v.language
  }

  /** `getVoicesGroupedByLanguage()`: each voice pushed onto the list of its `language`. */
  method VoicesGroupedByLanguage(table: seq<VoiceData>) returns (g: Grouping<VoiceData>)
    ensures IsGroupingOf(g, table, LanguageOf)
    ensures forall k :: k in g.groups ==> g.groups[k] != [] && forall v :: v in g.groups[k] ==> v.language == k
  {
    g := GroupBy(table, LanguageOf);
    forall k | k in g.groups ensures forall v :: v in g.groups[k] ==> v.language == k {
      assert g.groups[k] == Filter(table, KeyIs(LanguageOf, k));
    }
  }

  /** The badge `getVoiceDisplayName` puts after the name. */
  function QualityBadge(q: Quality): string {
    match q
    case Premium => " ⭐"
    case Enhanced => " ✨"
    case Default => ""
  }

  function GenderSuffix(g: Option<Gender>): string {
    match g
    case Some(x) => " (" + GenderName(x) + ")"
    case None => ""
  }

  /** `getVoiceDisplayName(v)`: name, quality badge, gender, then " - " and the language. */
  function VoiceDisplayName(v: VoiceData): string {
    v.name + QualityBadge(v.quality) + GenderSuffix(v.gender) + " - " + v.language
  }

  /** The display name starts with the voice's name and ends with " - " and its language. */
  lemma DisplayNameFrame(v: VoiceData)
    ensures StartsWith(VoiceDisplayName(v), v.name)
    ensures var r := VoiceDisplayName(v);
      |r| >= |v.name| + 3 + |v.language| && r[|r| - |v.language| - 3..] == " - " + v.language
  {
    var r := VoiceDisplayName(v);
    var head := v.name + QualityBadge(v.quality) + GenderSuffix(v.gender);
    assert r == head + (" - " + v.language);
    assert r[..|v.name|] == v.name;
  }

  /** The display name tells the quality apart: voices differing only in quality show differently. */
  lemma DisplayNameShowsQuality(v: VoiceData, w: VoiceData)
    requires v.name == w.name && v.gender == w.gender && v.language == w.language
    requires v.quality != w.quality
    ensures VoiceDisplayName(v) != VoiceDisplayName(w)
  {
    var n := |v.name|;
    var tail := GenderSuffix(v.gender) + " - " + v.language;
    var bv, bw := QualityBadge(v.quality), QualityBadge(w.quality);
    var dv, dw := VoiceDisplayName(v), VoiceDisplayName(w);
    assert dv == v.name + bv + tail;
    assert dw == v.name + bw + tail;
    if |bv| != |bw| {
      assert |dv| != |dw|;
    } else {
      assert bv[1] != bw[1];
      assert dv[n + 1] == bv[1];
      assert dw[n + 1] == bw[1];
    }
  }

  // ----- an excerpt of the table -----

  /** Seven rows of `APPLE_VOICES`, in table order. */
  function Excerpt(): seq<VoiceData> {
    [
      VoiceData("Arabic (Saudi Arabia)", "ar-SA", "Maged", Default, "com.apple.ttsbundle.Maged-compact",
        "AVSpeechSynthesisVoice", Some(Male), None, true, true, true),
      VoiceData("English (United Kingdom)", "en-GB", "Daniel", Default, "com.apple.ttsbundle.Daniel-compact",
        "AVSpeechSynthesisVoice", Some(Male), None, true, true, true),
      VoiceData("English (United Kingdom)", "en-GB", "Daniel", Enhanced, "com.apple.ttsbundle.Daniel-premium",
        "AVSpeechSynthesisVoice", Some(Male), None, true, true, false),
      VoiceData("English (United States)", "en-US", "Aaron", Default, "com.apple.ttsbundle.siri_male_en-US_compact",
        "AVSpeechSynthesisVoice", Some(Male), Some("Siri Voice"), true, true, true),
      VoiceData("English (United States)", "en-US", "Aaron", Premium, "com.apple.ttsbundle.siri_male_en-US_premium",
        "AVSpeechSynthesisVoice", Some(Male), Some("Siri Voice - Premium Quality"), true, true, false),
      VoiceData("French (France)", "fr-FR", "Daniel", Default, "com.apple.ttsbundle.siri_male_fr-FR_compact",
        "AVSpeechSynthesisVoice", Some(Male), Some("Siri Voice"), true, true, true),
      VoiceData("French (France)", "fr-FR", "Daniel", Premium, "com.apple.ttsbundle.siri_male_fr-FR_premium",
        "AVSpeechSynthesisVoice", Some(Male), Some("Siri Voice - Premium Quality"), true, true, false)
    ]
  }

  /** "Daniel" finds the British Default row, which comes before the French ones. */
  lemma DanielIsBritish()
    ensures VoiceByName(Excerpt(), "Daniel") == Some(Excerpt()[1])
    ensures Excerpt()[1].languageCode == "en-GB" && Excerpt()[1].quality == Default
  {
    var t := Excerpt();
    var r := VoiceByName(t, "Daniel");
    var i :| IsFirst(t, i, (v: VoiceData) => v.name == "Daniel") && t[i] == r.value;
    assert t[0].name != "Daniel";
    assert i == 1;
  }
}
