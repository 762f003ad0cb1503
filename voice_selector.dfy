/**
 * The voice picker of pages/pdf-to-speech/VoiceSelector.tsx: browser voices
 * enriched with their catalogue entry, filtered by language and web support,
 * sorted in place by quality rank and name, the automatic choice of a voice,
 * the "hide Default" filter, the grouping by language, the badges and the
 * dropdown lookup.
 */
module VoiceSelection {
  import opened Strings
  import opened Collections
  import opened VoiceCatalog

  /** A browser voice and its catalogue entry, if `matchBrowserVoice` found one. */
  datatype EnrichedVoice = EnrichedVoice(browserVoice: BrowserVoice, dbVoice: Option<VoiceData>)

  /** The sort key: Premium 0, Enhanced 1, Default and unmatched voices 2. */
  function Rank(v: EnrichedVoice): (r: nat)
    ensures r <= 2
    ensures r < 2 <==> v.dbVoice.Some? && v.dbVoice.value.quality != Default
  {
    if v.dbVoice.None? then 2
    else match v.dbVoice.value.quality
      case Premium => 0
      case Enhanced => 1
      case Default => 2
  }

  /** The comparator does not put `b` before `a`: lower rank first, then names in order. */
  predicate Ordered(a: EnrichedVoice, b: EnrichedVoice) {
    Rank(a) < Rank(b) || (Rank(a) == Rank(b) && !LexLess(b.browserVoice.name, a.browserVoice.name))
  }

  lemma OrderedTotal(a: EnrichedVoice, b: EnrichedVoice)
    ensures Ordered(a, b) || Ordered(b, a)
  {
    var x, y := a.browserVoice.name, b.browserVoice.name;
    if x == y {
      LexLessIrreflexive(x);
    } else {
      LexLessTotal(x, y);
      if LexLess(x, y) { LexLessAsymmetric(x, y); } else { LexLessAsymmetric(y, x); }
    }
  }

  lemma OrderedTransitive(a: EnrichedVoice, b: EnrichedVoice, c: EnrichedVoice)
    requires Ordered(a, b) && Ordered(b, c)
    ensures Ordered(a, c)
  {
    var x, y, z := a.browserVoice.name, b.browserVoice.name, c.browserVoice.name;
    if Rank(a) == Rank(b) == Rank(c) && LexLess(z, x) {
      // y is not before x and z is not before y; x, y, z otherwise total
      if x == y {
      } else if y == z {
      } else {
        LexLessTotal(x, y);
        LexLessTotal(y, z);
        LexLessTransitive(x, y, z);
        LexLessAsymmetric(x, z);
      }
    }
  }

  ghost predicate Sorted(s: seq<EnrichedVoice>) {
    forall i, j :: 0 <= i < j < |s| ==> Ordered(s[i], s[j])
  }

  // ----- the pipeline -----

  /** `browserVoices.map(bv => ({ browserVoice: bv, dbVoice: matchBrowserVoice(bv) }))`. */
  function Enrich(browserVoices: seq<BrowserVoice>, table: seq<VoiceData>): (r: seq<EnrichedVoice>)
    ensures |r| == |browserVoices|
    ensures forall i :: 0 <= i < |r| ==>
      r[i].browserVoice == browserVoices[i] && r[i].dbVoice == MatchBrowserVoice(table, browserVoices[i])
  {
    seq(|browserVoices|, i requires 0 <= i < |browserVoices| =>
      EnrichedVoice(browserVoices[i], MatchBrowserVoice(table, browserVoices[i])))
  }

  /** The language filter; an empty `filterLanguage` keeps everything. */
  predicate InLanguage(filterLanguage: string, v: EnrichedVoice) {
    filterLanguage == "" || StartsWith(v.browserVoice.lang, filterLanguage)
  }

  /** Unmatched voices are kept; matched ones only when usable on the web. */
  predicate WebUsable(v: EnrichedVoice) {
    v.dbVoice.None? || v.dbVoice.value.supportsWeb
  }

  /** The voices `loadVoices` keeps, before sorting. */
  function Candidates(browserVoices: seq<BrowserVoice>, table: seq<VoiceData>, filterLanguage: string): seq<EnrichedVoice> {
    var byLanguage := Filter(Enrich(browserVoices, table), v => InLanguage(filterLanguage, v));
    Filter(byLanguage, WebUsable)
  }

  /** The candidates are exactly the enriched voices that pass both filters. */
  lemma CandidatesAreKept(browserVoices: seq<BrowserVoice>, table: seq<VoiceData>, filterLanguage: string)
    ensures forall v :: v in Candidates(browserVoices, table, filterLanguage) <==>
      v in Enrich(browserVoices, table) && InLanguage(filterLanguage, v) && WebUsable(v)
  {
  }

  /** A candidate's browser voice is one of the browser's, in the language asked for. */
  lemma CandidateFacts(browserVoices: seq<BrowserVoice>, table: seq<VoiceData>, filterLanguage: string, v: EnrichedVoice)
    requires v in Candidates(browserVoices, table, filterLanguage)
    ensures v.browserVoice in browserVoices
    ensures filterLanguage == "" || StartsWith(v.browserVoice.lang, filterLanguage)
    ensures v.dbVoice == MatchBrowserVoice(table, v.browserVoice)
    ensures v.dbVoice.Some? ==> v.dbVoice.value.supportsWeb
  {
    CandidatesAreKept(browserVoices, table, filterLanguage);
    var e := Enrich(browserVoices, table);
    var i :| 0 <= i < |e| && e[i] == v;
  }

  // ----- sorting in place -----

  /** While `a[j]` sinks into `a[..i+1]`: every other pair is in order, and `a[j]` is before all to its right. */
  ghost predicate Sinking(s: seq<EnrichedVoice>, i: int, j: int) {
    && 0 <= j <= i < |s|
    && (forall x, y :: 0 <= x < y <= i && x != j && y != j ==> Ordered(s[x], s[y]))
    && (forall y :: j < y <= i ==> Ordered(s[j], s[y]))
  }

  /** Swapping `a[j-1]` and `a[j]` when they are out of order lets `a[j]` sink one place. */
  lemma SinkStep(s: seq<EnrichedVoice>, i: int, j: int)
    requires Sinking(s, i, j) && j > 0 && !Ordered(s[j - 1], s[j])
    ensures Sinking(s[j - 1 := s[j]][j := s[j - 1]], i, j - 1)
  {
    var t := s[j - 1 := s[j]][j := s[j - 1]];
    OrderedTotal(s[j - 1], s[j]);
    forall x, y | 0 <= x < y <= i && x != j - 1 && y != j - 1
      ensures Ordered(t[x], t[y])
    {
      if y == j {
        assert t[x] == s[x] && t[y] == s[j - 1];
      } else if x == j {
        assert t[x] == s[j - 1] && t[y] == s[y];
      } else {
        assert t[x] == s[x] && t[y] == s[y];
      }
    }
  }

  /** Once `a[j]` stops sinking, `a[..i+1]` is sorted. */
  lemma SinkDone(s: seq<EnrichedVoice>, i: int, j: int)
    requires Sinking(s, i, j) && (j == 0 || Ordered(s[j - 1], s[j]))
    ensures forall x, y :: 0 <= x < y <= i ==> Ordered(s[x], s[y])
  {
    forall x, y | 0 <= x < y <= i
      ensures Ordered(s[x], s[y])
    {
      if y == j && x < j - 1 {
        OrderedTransitive(s[x], s[j - 1], s[j]);
      }
    }
  }

  // ----- ties and stability -----

  /** The comparator returns 0: same rank and same name. */
  predicate Tied(a: EnrichedVoice, b: EnrichedVoice) {
    Rank(a) == Rank(b) && a.browserVoice.name == b.browserVoice.name
  }

  /** Tied voices are exactly those the comparator orders both ways. */
  lemma TiedIffBothOrdered(a: EnrichedVoice, b: EnrichedVoice)
    ensures Tied(a, b) <==> Ordered(a, b) && Ordered(b, a)
  {
    var x, y := a.browserVoice.name, b.browserVoice.name;
    if x == y {
      LexLessIrreflexive(x);
    } else {
      LexLessTotal(x, y);
    }
  }

  function TiedWith(z: EnrichedVoice): EnrichedVoice -> bool {
    v => Tied(v, z)
  }

  /** Every group of tied voices appears in `r` in the order it has in `s`. */
  ghost predicate KeepsTieOrder(r: seq<EnrichedVoice>, s: seq<EnrichedVoice>) {
    forall z :: Filter(r, TiedWith(z)) == Filter(s, TiedWith(z))
  }

  /** At most one of two voices that are not tied is tied with `z`. */
  lemma PairTieClass(x: EnrichedVoice, y: EnrichedVoice, z: EnrichedVoice)
    requires !Tied(x, y)
    ensures Filter([x, y], TiedWith(z)) == Filter([y, x], TiedWith(z))
  {
    assert [x, y][1..] == [y] && [y, x][1..] == [x];
    assert [x][1..] == [] && [y][1..] == [];
  }

  /** Swapping two neighbours that are not tied keeps every group of tied voices in order. */
  lemma SwapKeepsTieOrder(s: seq<EnrichedVoice>, j: int)
    requires 0 < j < |s| && !Tied(s[j - 1], s[j])
    ensures KeepsTieOrder(s[j - 1 := s[j]][j := s[j - 1]], s)
  {
    var pre, x, y, post := s[..j - 1], s[j - 1], s[j], s[j + 1..];
    assert s == (pre + [x, y]) + post;
    assert s[j - 1 := s[j]][j := s[j - 1]] == (pre + [y, x]) + post;
    forall z
      ensures Filter((pre + [y, x]) + post, TiedWith(z)) == Filter((pre + [x, y]) + post, TiedWith(z))
    {
      FilterAppend(pre + [x, y], post, TiedWith(z));
      FilterAppend(pre + [y, x], post, TiedWith(z));
      FilterAppend(pre, [x, y], TiedWith(z));
      FilterAppend(pre, [y, x], TiedWith(z));
      PairTieClass(x, y, z);
    }
  }

  /** `a[i]` sinks into the sorted `a[..i]` by swapping it with larger neighbours. */
  method Sink(a: array<EnrichedVoice>, i: int)
    requires 0 <= i < a.Length
    requires forall x, y :: 0 <= x < y < i ==> Ordered(a[x], a[y])
    modifies a
    ensures forall x, y :: 0 <= x < y <= i ==> Ordered(a[x], a[y])
    ensures multiset(a[..]) == multiset(old(a[..]))
    ensures KeepsTieOrder(a[..], old(a[..]))
  {
    var j := i;
    while j > 0 && !Ordered(a[j - 1], a[j])
      invariant Sinking(a[..], i, j)
      invariant multiset(a[..]) == multiset(old(a[..]))
      invariant KeepsTieOrder(a[..], old(a[..]))
    {
      SinkStep(a[..], i, j);
      TiedIffBothOrdered(a[j - 1], a[j]);
      SwapKeepsTieOrder(a[..], j);
      a[j - 1], a[j] := a[j], a[j - 1];
      j := j - 1;
    }
    SinkDone(a[..], i, j);
  }

  /**
   * `matched.sort(...)`: sorts the array in place by rank, then name, and,
   * as JavaScript's sort is stable, keeps tied voices in their old order.
   */
  method SortVoices(a: array<EnrichedVoice>)
    modifies a
    ensures Sorted(a[..])
    ensures multiset(a[..]) == multiset(old(a[..]))
    ensures KeepsTieOrder(a[..], old(a[..]))
  {
    var i := 0;
    while i < a.Length
      invariant 0 <= i <= a.Length
      invariant forall x, y :: 0 <= x < y < i ==> Ordered(a[x], a[y])
      invariant multiset(a[..]) == multiset(old(a[..]))
      invariant KeepsTieOrder(a[..], old(a[..]))
    {
      Sink(a, i);
      i := i + 1;
    }
  }

  /** The sorted list `loadVoices` keeps, sorted in an array of its own. */
  method SortedCopy(voices: seq<EnrichedVoice>) returns (r: seq<EnrichedVoice>)
    ensures Sorted(r)
    ensures multiset(r) == multiset(voices)
    ensures KeepsTieOrder(r, voices)
  {
    var a := new EnrichedVoice[|voices|](i requires 0 <= i < |voices| => voices[i]);
    assert a[..] == voices;
    SortVoices(a);
    r := a[..];
  }

  /** The first voice of a sorted list comes before, or ties with, every voice in it. */
  lemma SortedHeadIsLeast(r: seq<EnrichedVoice>, v: EnrichedVoice)
    requires Sorted(r) && v in r
    ensures Ordered(r[0], v)
  {
    var k :| 0 <= k < |r| && r[k] == v;
    if k == 0 {
      TiedIffBothOrdered(v, v);
    }
  }

  /** Two sorted orderings of the same voices that keep tied voices in the same order start alike. */
  lemma SortedHeadsAgree(r1: seq<EnrichedVoice>, r2: seq<EnrichedVoice>)
    requires Sorted(r1) && Sorted(r2) && r1 != []
    requires multiset(r1) == multiset(r2)
    requires KeepsTieOrder(r1, r2)
    ensures r2 != [] && r1[0] == r2[0]
  {
    var x := r1[0];
    assert x in multiset(r2);
    var y := r2[0];
    assert y in multiset(r1);
    SortedHeadIsLeast(r2, x);
    SortedHeadIsLeast(r1, y);
    TiedIffBothOrdered(x, y);
    var c1, c2 := Filter(r1, TiedWith(x)), Filter(r2, TiedWith(x));
    assert c1 == c2;
    assert c1 == [x] + Filter(r1[1..], TiedWith(x));
    assert c2 == [y] + Filter(r2[1..], TiedWith(x));
  }

  /** Dropping the same first voice from both keeps the tie order. */
  lemma TailsKeepTieOrder(r1: seq<EnrichedVoice>, r2: seq<EnrichedVoice>)
    requires r1 != [] && r2 != [] && r1[0] == r2[0]
    requires KeepsTieOrder(r1, r2)
    ensures KeepsTieOrder(r1[1..], r2[1..])
  {
    var x := r1[0];
    forall z
      ensures Filter(r1[1..], TiedWith(z)) == Filter(r2[1..], TiedWith(z))
    {
      var t1, t2 := Filter(r1[1..], TiedWith(z)), Filter(r2[1..], TiedWith(z));
      assert Filter(r1, TiedWith(z)) == Filter(r2, TiedWith(z));
      if Tied(x, z) {
        assert ([x] + t1)[1..] == t1 && ([x] + t2)[1..] == t2;
      }
    }
  }

  lemma SortedTail(r: seq<EnrichedVoice>)
    requires Sorted(r) && r != []
    ensures Sorted(r[1..])
  {
    forall i, j | 0 <= i < j < |r| - 1
      ensures Ordered(r[1..][i], r[1..][j])
    {
      assert r[1..][i] == r[i + 1] && r[1..][j] == r[j + 1];
    }
  }

  /**
   * Sorted, a permutation, and tied voices in their old order: these fix the
   * result, so it is the one a stable sort with this comparator returns.
   */
  lemma {:induction false} StableSortIsUnique(r1: seq<EnrichedVoice>, r2: seq<EnrichedVoice>)
    requires Sorted(r1) && Sorted(r2)
    requires multiset(r1) == multiset(r2)
    requires KeepsTieOrder(r1, r2)
    ensures r1 == r2
  {
    if r1 == [] {
      assert |multiset(r2)| == 0;
    } else {
      SortedHeadsAgree(r1, r2);
      SortedTail(r1);
      SortedTail(r2);
      MultisetTail(r1, r2);
      TailsKeepTieOrder(r1, r2);
      StableSortIsUnique(r1[1..], r2[1..]);
      assert r1 == [r1[0]] + r1[1..] && r2 == [r2[0]] + r2[1..];
    }
  }

  // ----- the automatic choice -----

  /** Premium and Enhanced catalogue voices, which the page recommends. */
  predicate Recommended(v: EnrichedVoice) {
    v.dbVoice.Some? && (v.dbVoice.value.quality == Premium || v.dbVoice.value.quality == Enhanced)
  }

  /** The voice chosen when none is selected: the first recommended one, else the first one. */
  function AutoPick(s: seq<EnrichedVoice>): (r: EnrichedVoice)
    requires |s| > 0
    ensures r in s
    ensures (exists i :: 0 <= i < |s| && Recommended(s[i])) ==> Recommended(r)
    ensures Recommended(r) ==> exists i :: IsFirst(s, i, Recommended) && s[i] == r
    ensures (forall i :: 0 <= i < |s| ==> !Recommended(s[i])) ==> r == s[0]
  {
    match Find(s, Recommended)
    case Some(v) => v
    case None => s[0]
  }

  /** In a sorted list the automatic choice is always the first voice. */
  lemma AutoPickOfSortedIsFirst(s: seq<EnrichedVoice>)
    requires |s| > 0 && Sorted(s)
    ensures AutoPick(s) == s[0]
  {
    if Recommended(s[0]) {
      var f := Find(s, Recommended);
      assert f.Some?;
      var i :| IsFirst(s, i, Recommended) && s[i] == f.value;
      assert 0 <= i < |s|;
      assert Recommended(s[i]);
      assert i == 0;
    } else {
      forall i | 0 <= i < |s|
        ensures !Recommended(s[i])
      {
        if i > 0 { assert Ordered(s[0], s[i]); }
      }
    }
  }

  // ----- what the page shows -----

  /** Kept when Default voices are hidden: unmatched voices and non-Default catalogue voices. */
  predicate NotDefault(v: EnrichedVoice) {
    v.dbVoice.None? || v.dbVoice.value.quality != Default
  }

  /** `filteredVoices`. */
  function FilteredVoices(voices: seq<EnrichedVoice>, showAllQualities: bool): (r: seq<EnrichedVoice>)
    ensures IsSubsequence(r, voices)
    ensures forall v :: v in r <==> v in voices && (showAllQualities || NotDefault(v))
    ensures forall v :: multiset(r)[v] == if showAllQualities || NotDefault(v) then multiset(voices)[v] else 0
  {
    if showAllQualities then SubsequenceRefl(voices); voices
    else Filter(voices, NotDefault)
  }

  /** With Default voices hidden, exactly the catalogue Default entries go, and every recommended voice stays. */
  lemma HidingDefaultsDropsOnlyDefaults(voices: seq<EnrichedVoice>, v: EnrichedVoice)
    requires v in voices
    ensures v !in FilteredVoices(voices, false) <==> v.dbVoice.Some? && v.dbVoice.value.quality == Default
    ensures Recommended(v) ==> v in FilteredVoices(voices, false)
    ensures v.dbVoice.None? ==> v in FilteredVoices(voices, false)
  {
  }

  /** The group a voice is listed under: its catalogue language, else its browser `lang`. */
  function GroupKey(v: EnrichedVoice): string {
    if v.dbVoice.Some? && v.dbVoice.value.language != "" then v.dbVoice.value.language else v.browserVoice.lang
  }

  /** `groupedVoices`: `None` unless grouping by language is on. */
  method GroupedVoices(voices: seq<EnrichedVoice>, groupByLanguage: bool) returns (r: Option<Grouping<EnrichedVoice>>)
    ensures r.Some? <==> groupByLanguage
    ensures r.Some? ==> IsGroupingOf(r.value, voices, GroupKey)
  {
    if !groupByLanguage {
      return None;
    }
    var g := GroupBy(voices, GroupKey);
    return Some(g);
  }

  /** `getQualityBadge(quality)`: the badge text, or nothing for an unknown quality. */
  function QualityBadgeText(quality: Option<Quality>): (r: Option<string>)
    ensures r.Some? <==> quality.Some?
  {
    match quality
    case None => None
    case Some(Premium) => Some("⭐ Premium")
    case Some(Enhanced) => Some("✨ Enhanced")
    case Some(Default) => Some("🔵 Default")
  }

  /** Different qualities get different badges, and each badge names its quality after the icon. */
  lemma BadgesNameQuality(p: Quality, q: Quality)
    ensures QualityBadgeText(Some(p)).value[2..] == QualityName(p)
    ensures p != q ==> QualityBadgeText(Some(p)) != QualityBadgeText(Some(q))
  {
  }

  /** `getDownloadIndicator(voice)`: the download mark, shown for catalogue Premium and Enhanced voices. */
  function DownloadIndicator(v: EnrichedVoice): (r: Option<string>)
    ensures r.Some? <==> Recommended(v)
  {
    if v.dbVoice.None? then None
    else if v.dbVoice.value.quality == Premium || v.dbVoice.value.quality == Enhanced then Some("📥")
    else None
  }

  /** The mark is on exactly the voices ranked above Default, which hiding Default voices never drops. */
  lemma DownloadIndicatorMeansRanked(v: EnrichedVoice)
    ensures DownloadIndicator(v).Some? <==> Rank(v) < 2
    ensures DownloadIndicator(v).Some? ==> NotDefault(v) && v.dbVoice.Some?
  {
  }

  /** The dropdown's label: the catalogue display name, else "name (lang)". */
  function OptionLabel(v: EnrichedVoice): (r: string)
    ensures v.dbVoice.None? ==> StartsWith(r, v.browserVoice.name) && |r| > 0 && r[|r| - 1] == ')'
    ensures v.dbVoice.None? ==>
      |r| == |v.browserVoice.name| + |v.browserVoice.lang| + 3 && r[|v.browserVoice.name|..] == " (" + v.browserVoice.lang + ")"
    ensures v.dbVoice.Some? ==> StartsWith(r, v.dbVoice.value.name)
    ensures v.dbVoice.Some? ==> r == VoiceDisplayName(v.dbVoice.value)
  {
    if v.dbVoice.Some? then
      DisplayNameFrame(v.dbVoice.value);
      VoiceDisplayName(v.dbVoice.value)
    else
      var name, tail := v.browserVoice.name, " (" + v.browserVoice.lang + ")";
      var r := name + tail;
      assert r[..|name|] == name && r[|name|..] == tail;
      r
  }

  /** The dropdown's `onChange`: the listed voice with that URI, if any. */
  function VoiceWithURI(voices: seq<EnrichedVoice>, uri: string): (r: Option<BrowserVoice>)
    ensures r.None? <==> forall i :: 0 <= i < |voices| ==> voices[i].browserVoice.voiceURI != uri
    ensures r.Some? ==> r.value.voiceURI == uri && exists i :: 0 <= i < |voices| && voices[i].browserVoice == r.value
    ensures r.Some? ==> exists i :: IsFirst(voices, i, (v: EnrichedVoice) => v.browserVoice.voiceURI == uri) && voices[i].browserVoice == r.value
  {
    match Find(voices, (v: EnrichedVoice) => v.browserVoice.voiceURI == uri)
    case None => None
    case Some(v) => Some(v.browserVoice)
  }

  // ----- the component -----

  /** The component's state; `voiceChanges` records the calls to `onVoiceChange`. */
  class VoiceSelector {
    var enrichedVoices: seq<EnrichedVoice>
    var showAllQualities: bool
    var showDetails: bool
    var groupByLanguage: bool
    var voiceChanges: seq<BrowserVoice>

    constructor ()
      ensures enrichedVoices == [] && !showAllQualities && !showDetails && !groupByLanguage && voiceChanges == []
    {
      enrichedVoices, showAllQualities, showDetails, groupByLanguage, voiceChanges := [], false, false, false, [];
    }

    /**
     * `loadVoices`: the candidates sorted by rank and name; when nothing is
     * selected, the first recommended voice, else the first voice, is reported
     * (by `AutoPickOfSortedIsFirst`, always the first voice).
     */
    method LoadVoices(browserVoices: seq<BrowserVoice>, table: seq<VoiceData>, filterLanguage: string,
                      selectedVoice: Option<BrowserVoice>)
      modifies this`enrichedVoices, this`voiceChanges
      ensures Sorted(enrichedVoices)
      ensures multiset(enrichedVoices) == multiset(Candidates(browserVoices, table, filterLanguage))
      ensures KeepsTieOrder(enrichedVoices, Candidates(browserVoices, table, filterLanguage))
      ensures voiceChanges == old(voiceChanges) +
        if selectedVoice.None? && enrichedVoices != [] then [AutoPick(enrichedVoices).browserVoice] else []
    {
      var matched := Candidates(browserVoices, table, filterLanguage);
      enrichedVoices := SortedCopy(matched);
      if selectedVoice.None? && |enrichedVoices| > 0 {
        var recommended := AutoPick(enrichedVoices);
        voiceChanges := voiceChanges + [recommended.browserVoice];
      }
    }

    /** The dropdown's `onChange`: reports the listed voice with that URI, if there is one. */
    method SelectByURI(uri: string)
      modifies this`voiceChanges
      ensures voiceChanges == old(voiceChanges) +
        match VoiceWithURI(enrichedVoices, uri) { case Some(v) => [v] case None => [] }
    {
      var found := VoiceWithURI(enrichedVoices, uri);
      if found.Some? {
        voiceChanges := voiceChanges + [found.value];
      }
    }

    method ToggleShowAllQualities()
      modifies this`showAllQualities
      ensures showAllQualities == !old(showAllQualities)
    {
      showAllQualities := !showAllQualities;
    }

    method ToggleGroupByLanguage()
      modifies this`groupByLanguage
      ensures groupByLanguage == !old(groupByLanguage)
    {
      groupByLanguage := !groupByLanguage;
    }

    method ToggleShowDetails()
      modifies this`showDetails
      ensures showDetails == !old(showDetails)
    {
      showDetails := !showDetails;
    }
  }
}
