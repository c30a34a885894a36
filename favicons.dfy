/**
 The logic of the favicon report handler (FaviconManager.swift, lines 35-131) as
 functions: which reports are screened out, which `url → typeCode` entries become
 candidates, how the best candidate is picked, and where the download retry chain ends.
 The imperative handler in module FaviconManagement is proved against these.
 */
module Favicons {
  import opened Wrappers
  import opened SwiftStrings
  import opened SizeHint

  /** An `IconType`, known by its raw value. */
  datatype IconType = IconType(rawValue: int)

  /** A `Favicon` record; its creation date comes from the clock and is not modelled. */
  datatype Favicon = Favicon(
    url: string,
    iconType: IconType,
    belongsTo: string,
    width: Option<int>,
    height: Option<int>)

  datatype Site = Site(url: string, title: string)

  /**
   Behaviour the handler takes from elsewhere: whether `NSURL(string:)` accepts a
   string, whether `IconType(rawValue:)` accepts a raw value, the `isPreferredTo`
   order of icon types, and the local web server's base URL.
   */
  datatype Platform = Platform(
    isUrl: string -> bool,
    isIconType: int -> bool,
    isPreferredTo: (IconType, IconType) -> bool,
    webServerBase: string)

  /** A script message body: a `[String: String]` dictionary, or anything else. */
  datatype Body = StringMap(entries: map<string, string>) | OtherBody

  const DocumentLocationKey: string := "documentLocation"

  // ---------------------------------------------------------------------------
  // Screening and candidates (lines 41-59)

  /** The guards of lines 41-46: the page URL of a report that is processed further. */
  function ScreenReport(body: Body, p: Platform): Option<string> {
    match body
    case OtherBody => None
    case StringMap(entries) =>
      if DocumentLocationKey !in entries then None
      else
        var documentLocation := entries[DocumentLocationKey];
        if !p.isUrl(documentLocation) then None
        else if Contains(documentLocation, p.webServerBase) then None
        else Some(documentLocation)
  }

  /** A report from a page served by the local web server is dropped whole. */
  lemma SelfReferentialReportDropped(entries: map<string, string>, p: Platform, before: string, after: string)
    requires DocumentLocationKey in entries
    requires entries[DocumentLocationKey] == before + p.webServerBase + after
    ensures ScreenReport(StringMap(entries), p) == None
  {
    ContainsInfix(before, p.webServerBase, after);
  }

  /** The per-entry test of line 55: the icon type of an entry that becomes a candidate. */
  function EntryType(url: string, typeCode: string, p: Platform): Option<IconType> {
    match ParseInt(typeCode)
    case None => None
    case Some(code) => if p.isUrl(url) && p.isIconType(code) then Some(IconType(code)) else None
  }

  /** The candidate an accepted entry turns into (line 56). */
  function Candidate(url: string, t: IconType, documentLocation: string): Favicon {
    Favicon(url, t, documentLocation, None, None)
  }

  /** `order` is an iteration order of the dictionary: every key exactly once. */
  predicate IterationOrder(entries: map<string, string>, order: seq<string>) {
    && (forall k :: 0 <= k < |order| ==> order[k] in entries)
    && (forall key :: key in entries ==> key in order)
    && (forall i, j :: 0 <= i < j < |order| ==> order[i] != order[j])
  }

  /** The candidates the loop of lines 50-59 collects, visiting the keys in `order`. */
  function Candidates(entries: map<string, string>, order: seq<string>, documentLocation: string, p: Platform): seq<Favicon>
    requires forall k :: 0 <= k < |order| ==> order[k] in entries
  {
    if order == [] then []
    else
      var key := order[|order| - 1];
      var earlier := Candidates(entries, order[..|order| - 1], documentLocation, p);
      if key == DocumentLocationKey then earlier
      else
        match EntryType(key, entries[key], p)
        case Some(t) => earlier + [Candidate(key, t, documentLocation)]
        case None => earlier
  }

  /** Whether the entry for `key` passes the test of lines 51-55 with icon type `t`. */
  predicate Accepted(entries: map<string, string>, key: string, t: IconType, p: Platform)
    requires key in entries
  {
    key != DocumentLocationKey && EntryType(key, entries[key], p) == Some(t)
  }

  lemma {:induction false} CandidatesFromOrder(entries: map<string, string>, order: seq<string>, documentLocation: string, p: Platform, f: Favicon)
    requires forall k :: 0 <= k < |order| ==> order[k] in entries
    ensures f in Candidates(entries, order, documentLocation, p) <==>
      f.url in order && Accepted(entries, f.url, f.iconType, p) && f == Candidate(f.url, f.iconType, documentLocation)
  {
    if order != [] {
      var init := order[..|order| - 1];
      CandidatesFromOrder(entries, init, documentLocation, p, f);
      assert order == init + [order[|order| - 1]];
      assert f.url in order <==> f.url in init || f.url == order[|order| - 1];
    }
  }

  /**
   The candidates are exactly the accepted entries, each once: a malformed entry is
   dropped and costs its well-formed siblings nothing.
   */
  lemma CandidatesExactly(entries: map<string, string>, order: seq<string>, documentLocation: string, p: Platform, f: Favicon)
    requires IterationOrder(entries, order)
    ensures f in Candidates(entries, order, documentLocation, p) <==>
      f.url in entries && Accepted(entries, f.url, f.iconType, p) && f == Candidate(f.url, f.iconType, documentLocation)
  {
    CandidatesFromOrder(entries, order, documentLocation, p, f);
  }

  /** No two candidates share a URL. */
  predicate DistinctUrls(favicons: seq<Favicon>) {
    forall i, j :: 0 <= i < j < |favicons| ==> favicons[i].url != favicons[j].url
  }

  /** Dictionary keys are unique, so the candidates' URLs are too. */
  lemma {:induction false} CandidatesDistinct(entries: map<string, string>, order: seq<string>, documentLocation: string, p: Platform)
    requires forall k :: 0 <= k < |order| ==> order[k] in entries
    requires forall i, j :: 0 <= i < j < |order| ==> order[i] != order[j]
    ensures DistinctUrls(Candidates(entries, order, documentLocation, p))
  {
    if order != [] {
      var init := order[..|order| - 1];
      var key := order[|order| - 1];
      var earlier := Candidates(entries, init, documentLocation, p);
      CandidatesDistinct(entries, init, documentLocation, p);
      forall f | f in earlier ensures f.url != key {
        CandidatesFromOrder(entries, init, documentLocation, p, f);
      }
    }
  }

  // ---------------------------------------------------------------------------
  // Selection (lines 97-126)

  /**
   One step of the loop of lines 98-125: `icon` replaces `best` when its type is
   preferred, and otherwise when both URLs hold a number and its number is larger.
   */
  function Step(best: Favicon, icon: Favicon, p: Platform): Favicon {
    if p.isPreferredTo(icon.iconType, best.iconType) then icon
    else
      match (ExtractNumberFromUrl(icon.url), ExtractNumberFromUrl(best.url))
      case (Some(next), Some(bestNum)) => if next > bestNum then icon else best
      case _ => best
  }

  /** The left fold of `Step` over `rest`, starting from `best`. */
  function Fold(best: Favicon, rest: seq<Favicon>, p: Platform): (r: Favicon)
    ensures r == best || r in rest
    decreases |rest|
  {
    if rest == [] then best else Fold(Step(best, rest[0], p), rest[1..], p)
  }

  /** The candidate the loop of lines 97-125 ends with: the fold started from the first. */
  function BestOf(favicons: seq<Favicon>, p: Platform): (best: Favicon)
    requires favicons != []
    ensures best in favicons
  {
    Fold(favicons[0], favicons[1..], p)
  }

  lemma {:induction false} FoldAppend(best: Favicon, rest: seq<Favicon>, icon: Favicon, p: Platform)
    ensures Fold(best, rest + [icon], p) == Step(Fold(best, rest, p), icon, p)
    decreases |rest|
  {
    if rest != [] {
      assert (rest + [icon])[1..] == rest[1..] + [icon];
      FoldAppend(Step(best, rest[0], p), rest[1..], icon, p);
    }
  }

  /** One more candidate is one more step of the loop from the best so far. */
  lemma BestOfAppend(favicons: seq<Favicon>, icon: Favicon, p: Platform)
    requires favicons != []
    ensures BestOf(favicons + [icon], p) == Step(BestOf(favicons, p), icon, p)
  {
    assert (favicons + [icon])[1..] == favicons[1..] + [icon];
    FoldAppend(favicons[0], favicons[1..], icon, p);
  }

  /** A list of one candidate selects it. */
  lemma BestOfSingle(icon: Favicon, p: Platform)
    ensures BestOf([icon], p) == icon
  {
  }

  /** A candidate whose type is preferred to the best so far always replaces it. */
  lemma PreferredReplacesBest(favicons: seq<Favicon>, icon: Favicon, p: Platform)
    requires favicons != []
    requires p.isPreferredTo(icon.iconType, BestOf(favicons, p).iconType)
    ensures BestOf(favicons + [icon], p) == icon
  {
    assert (favicons + [icon])[1..] == favicons[1..] + [icon];
    FoldAppend(favicons[0], favicons[1..], icon, p);
  }

  /**
   A candidate whose type is not preferred replaces the best so far exactly when both
   URLs hold a number and its number is larger, whether or not the two types tie.
   */
  lemma NumberDecidesOtherwise(favicons: seq<Favicon>, icon: Favicon, p: Platform)
    requires favicons != []
    requires !p.isPreferredTo(icon.iconType, BestOf(favicons, p).iconType)
    ensures var best := BestOf(favicons, p);
      var next := ExtractNumberFromUrl(icon.url);
      var bestNum := ExtractNumberFromUrl(best.url);
      BestOf(favicons + [icon], p) ==
        if next.Some? && bestNum.Some? && next.value > bestNum.value then icon else best
  {
    assert (favicons + [icon])[1..] == favicons[1..] + [icon];
    FoldAppend(favicons[0], favicons[1..], icon, p);
  }

  lemma {:induction false} FoldKeepsUnnumbered(best: Favicon, rest: seq<Favicon>, p: Platform)
    requires ExtractNumberFromUrl(best.url) == None
    requires forall k :: 0 <= k < |rest| ==> !p.isPreferredTo(rest[k].iconType, best.iconType)
    ensures Fold(best, rest, p) == best
  {
    if rest != [] {
      FoldKeepsUnnumbered(best, rest[1..], p);
    }
  }

  /**
   When the first candidate's URL holds no number and no later type is preferred to
   its type, the first one seen stays the best.
   */
  lemma FirstSeenRetained(favicons: seq<Favicon>, p: Platform)
    requires favicons != []
    requires ExtractNumberFromUrl(favicons[0].url) == None
    requires forall k :: 0 <= k < |favicons| ==> !p.isPreferredTo(favicons[k].iconType, favicons[0].iconType)
    ensures BestOf(favicons, p) == favicons[0]
  {
    FoldKeepsUnnumbered(favicons[0], favicons[1..], p);
  }

  lemma BestOfPair(first: Favicon, second: Favicon, p: Platform)
    ensures BestOf([first, second], p) == Step(first, second, p)
  {
    assert [first, second][1..] == [second];
  }

  /** Of two candidates of one type, the one with the larger number wins in either order. */
  lemma LargerNumberWinsEitherOrder(a: Favicon, b: Favicon, p: Platform)
    requires a.iconType == b.iconType && !p.isPreferredTo(a.iconType, a.iconType)
    requires ExtractNumberFromUrl(a.url).Some? && ExtractNumberFromUrl(b.url).Some?
    requires ExtractNumberFromUrl(b.url).value > ExtractNumberFromUrl(a.url).value
    ensures BestOf([a, b], p) == b && BestOf([b, a], p) == b
  {
    BestOfPair(a, b, p);
    BestOfPair(b, a, p);
  }

  /** The preference order of the example below: the larger raw value is preferred. */
  function RawValueOrder(): (IconType, IconType) -> bool {
    (t: IconType, u: IconType) => t.rawValue > u.rawValue
  }

  /**
   An icon of a less preferred type with a larger number replaces an earlier icon of
   a more preferred type, but not a later one: the fold depends on the order.
   */
  lemma LowerTypeLargerNumberReplaces(high: Favicon, low: Favicon, p: Platform)
    requires p.isPreferredTo(high.iconType, low.iconType) && !p.isPreferredTo(low.iconType, high.iconType)
    requires ExtractNumberFromUrl(high.url).Some? && ExtractNumberFromUrl(low.url).Some?
    requires ExtractNumberFromUrl(low.url).value > ExtractNumberFromUrl(high.url).value
    ensures BestOf([high, low], p) == low
    ensures BestOf([low, high], p) == high
  {
    BestOfPair(high, low, p);
    BestOfPair(low, high, p);
  }

  /** Two concrete icons for which the selection depends on the order of the candidates. */
  lemma SelectionDependsOnOrder(high: Favicon, low: Favicon, p: Platform)
    requires p.isPreferredTo == RawValueOrder()
    requires high == Favicon("http://example.com/icon-16x16.png", IconType(2), "http://example.com/", None, None)
    requires low == Favicon("http://example.com/icon-72x72.png", IconType(1), "http://example.com/", None, None)
    ensures BestOf([high, low], p) != BestOf([low, high], p)
  {
    ExtractNumberExample(low.url);
    SixteenPixelIcon(high.url);
    LowerTypeLargerNumberReplaces(high, low, p);
  }

  /** `favicons.filter { $0 != best }` (line 126). */
  function Without(favicons: seq<Favicon>, best: Favicon): (rest: seq<Favicon>)
    ensures forall f :: f in rest <==> f in favicons && f != best
    ensures best in favicons ==> |rest| < |favicons|
    ensures |rest| <= |favicons|
  {
    if favicons == [] then []
    else if favicons[0] == best then Without(favicons[1..], best)
    else [favicons[0]] + Without(favicons[1..], best)
  }

  /** With distinct URLs the filter removes exactly the selected position. */
  lemma {:induction false} WithoutDistinct(favicons: seq<Favicon>, k: nat)
    requires DistinctUrls(favicons) && k < |favicons|
    ensures Without(favicons, favicons[k]) == favicons[..k] + favicons[k + 1..]
  {
    if k == 0 {
      assert favicons[0] !in favicons[1..];
      WithoutAbsent(favicons[1..], favicons[0]);
    } else {
      WithoutDistinct(favicons[1..], k - 1);
      assert favicons[0] != favicons[k];
      assert favicons[1..][..k - 1] == favicons[1..k];
      assert favicons[1..][k..] == favicons[k + 1..];
      assert favicons[..k] == [favicons[0]] + favicons[1..k];
    }
  }

  lemma {:induction false} WithoutAbsent(favicons: seq<Favicon>, best: Favicon)
    requires best !in favicons
    ensures Without(favicons, best) == favicons
  {
    if favicons != [] {
      WithoutAbsent(favicons[1..], best);
    }
  }

  lemma WithoutKeepsDistinct(favicons: seq<Favicon>, best: Favicon)
    requires DistinctUrls(favicons) && best in favicons
    ensures DistinctUrls(Without(favicons, best))
    ensures multiset(Without(favicons, best)) + multiset{best} == multiset(favicons)
  {
    var k :| 0 <= k < |favicons| && favicons[k] == best;
    WithoutDistinct(favicons, k);
    RemoveAtKeepsDistinct(favicons, k);
    RemoveAtMultiset(favicons, k);
  }

  /** Removing one position removes one copy of its element. */
  lemma RemoveAtMultiset(favicons: seq<Favicon>, k: nat)
    requires k < |favicons|
    ensures multiset(favicons[..k] + favicons[k + 1..]) + multiset{favicons[k]} == multiset(favicons)
  {
    var before, after := favicons[..k], favicons[k + 1..];
    assert favicons == before + [favicons[k]] + after;
  }

  /** Removing one position keeps the remaining URLs distinct. */
  lemma RemoveAtKeepsDistinct(favicons: seq<Favicon>, k: nat)
    requires DistinctUrls(favicons) && k < |favicons|
    ensures DistinctUrls(favicons[..k] + favicons[k + 1..])
  {
  }

  // ---------------------------------------------------------------------------
  // The download retry chain (lines 64-95 and 127-130)

  /** The image a completed download delivers; its size as integers. */
  datatype Image = Image(width: int, height: int)

  /** The outcome of one download: no image, or an image fetched from `finalUrl`. */
  datatype Download = Failed | Loaded(finalUrl: string, image: Image)

  /** How a chain of attempts ends. */
  datatype Status =
    | Exhausted                                 // no candidate left (line 93)
    | UrlRejected                               // `NSURL(string:)` refused the best URL (line 65)
    | InFlight                                  // its download has not completed yet
    | Downloaded(icon: Favicon, finalUrl: string, image: Image)

  /** The candidates selected, in order, and how the chain ended. */
  datatype Chain = Chain(selected: seq<Favicon>, status: Status)

  /**
   `downloadBestIcon`, with the download outcomes in order: select the best, filter it
   out, download it; a failure starts over on what is left.
   */
  function RunChain(favicons: seq<Favicon>, downloads: seq<Download>, p: Platform): Chain
    decreases |favicons|
  {
    if |favicons| < 1 then Chain([], Exhausted)
    else
      var best := BestOf(favicons, p);
      var rest := Without(favicons, best);
      if !p.isUrl(best.url) then Chain([best], UrlRejected)
      else if downloads == [] then Chain([best], InFlight)
      else
        match downloads[0]
        case Failed =>
          var c := RunChain(rest, downloads[1..], p);
          Chain([best] + c.selected, c.status)
        case Loaded(finalUrl, image) => Chain([best], Downloaded(best, finalUrl, image))
  }

  /**
   The icon recorded for a downloaded candidate (lines 67-71): the URL the download
   ended at, the candidate's type, the page it belongs to and the image's size.
   */
  function Resolved(icon: Favicon, finalUrl: string, image: Image, currentUrl: string): Favicon {
    Favicon(finalUrl, icon.iconType, currentUrl, Some(image.width), Some(image.height))
  }

  /**
   Every candidate is selected at most once, only candidates are selected, and the
   chain stops after at most one selection per candidate.
   */
  lemma {:induction false} ChainSelectsEachAtMostOnce(favicons: seq<Favicon>, downloads: seq<Download>, p: Platform)
    ensures var s := RunChain(favicons, downloads, p).selected;
      && |s| <= |favicons|
      && (forall k :: 0 <= k < |s| ==> s[k] in favicons)
      && (forall i, j :: 0 <= i < j < |s| ==> s[i] != s[j])
    decreases |favicons|
  {
    if |favicons| >= 1 && downloads != [] && downloads[0].Failed? {
      var best := BestOf(favicons, p);
      if p.isUrl(best.url) {
        var rest := Without(favicons, best);
        ChainSelectsEachAtMostOnce(rest, downloads[1..], p);
        var s' := RunChain(rest, downloads[1..], p).selected;
        assert forall k :: 0 <= k < |s'| ==> s'[k] in rest;
      }
    }
  }

  /** A successful chain ends with the candidate whose download succeeded. */
  lemma {:induction false} DownloadedComesFromCandidate(favicons: seq<Favicon>, downloads: seq<Download>, p: Platform)
    requires RunChain(favicons, downloads, p).status.Downloaded?
    ensures var c := RunChain(favicons, downloads, p);
      c.selected != [] && c.selected[|c.selected| - 1] == c.status.icon && c.status.icon in favicons
    decreases |favicons|
  {
    var best := BestOf(favicons, p);
    if downloads[0].Failed? {
      var rest := Without(favicons, best);
      DownloadedComesFromCandidate(rest, downloads[1..], p);
    }
  }

  /** Enough failed downloads exhaust the list, silently. */
  lemma {:induction false} FailuresExhaust(favicons: seq<Favicon>, downloads: seq<Download>, p: Platform)
    requires forall k :: 0 <= k < |favicons| ==> p.isUrl(favicons[k].url)
    requires |downloads| >= |favicons|
    requires forall k :: 0 <= k < |downloads| ==> downloads[k] == Failed
    ensures RunChain(favicons, downloads, p).status == Exhausted
    decreases |favicons|
  {
    if |favicons| >= 1 {
      var best := BestOf(favicons, p);
      var rest := Without(favicons, best);
      assert forall k :: 0 <= k < |rest| ==> rest[k] in favicons;
      FailuresExhaust(rest, downloads[1..], p);
    }
  }

  /** When the list runs out, every candidate of distinct URLs was tried exactly once. */
  lemma {:induction false} ExhaustedTriedAll(favicons: seq<Favicon>, downloads: seq<Download>, p: Platform)
    requires DistinctUrls(favicons)
    requires RunChain(favicons, downloads, p).status == Exhausted
    ensures multiset(RunChain(favicons, downloads, p).selected) == multiset(favicons)
    decreases |favicons|
  {
    if |favicons| >= 1 {
      var best := BestOf(favicons, p);
      var rest := Without(favicons, best);
      WithoutKeepsDistinct(favicons, best);
      ExhaustedTriedAll(rest, downloads[1..], p);
      var c := RunChain(rest, downloads[1..], p);
      assert RunChain(favicons, downloads, p).selected == [best] + c.selected;
      assert multiset([best] + c.selected) == multiset{best} + multiset(c.selected);
    }
  }

  /** A chain over icons whose URLs are all valid never refuses a URL. */
  lemma {:induction false} ValidUrlsNeverRejected(favicons: seq<Favicon>, downloads: seq<Download>, p: Platform)
    requires forall k :: 0 <= k < |favicons| ==> p.isUrl(favicons[k].url)
    ensures RunChain(favicons, downloads, p).status != UrlRejected
    decreases |favicons|
  {
    if |favicons| >= 1 {
      var best := BestOf(favicons, p);
      var i :| 0 <= i < |favicons| && favicons[i] == best;
      if downloads != [] && downloads[0].Failed? {
        var rest := Without(favicons, best);
        forall k | 0 <= k < |rest| ensures p.isUrl(rest[k].url) {
          assert rest[k] in rest;
          var j :| 0 <= j < |favicons| && favicons[j] == rest[k];
        }
        ValidUrlsNeverRejected(rest, downloads[1..], p);
      }
    }
  }

  /** Every candidate passed the URL test of line 55. */
  lemma CandidatesHaveValidUrls(entries: map<string, string>, order: seq<string>, documentLocation: string, p: Platform)
    requires forall k :: 0 <= k < |order| ==> order[k] in entries
    ensures forall k :: 0 <= k < |Candidates(entries, order, documentLocation, p)| ==>
      p.isUrl(Candidates(entries, order, documentLocation, p)[k].url)
  {
    var cs := Candidates(entries, order, documentLocation, p);
    forall k | 0 <= k < |cs| ensures p.isUrl(cs[k].url) {
      CandidatesFromOrder(entries, order, documentLocation, p, cs[k]);
    }
  }

  /**
   The handler's candidates all passed `NSURL(string:)` at line 55, and line 65 asks
   again about the same string: its chain never ends on a refused URL.
   */
  lemma CandidatesNeverRejected(entries: map<string, string>, order: seq<string>, documentLocation: string,
                                downloads: seq<Download>, p: Platform)
    requires forall k :: 0 <= k < |order| ==> order[k] in entries
    ensures RunChain(Candidates(entries, order, documentLocation, p), downloads, p).status != UrlRejected
  {
    var cs := Candidates(entries, order, documentLocation, p);
    CandidatesHaveValidUrls(entries, order, documentLocation, p);
    assert forall k :: 0 <= k < |cs| ==> p.isUrl(cs[k].url);
    ValidUrlsNeverRejected(cs, downloads, p);
  }

  /**
   When every download fails, the handler's chain tries each candidate exactly once and
   ends silently with none left.
   */
  lemma CandidateFailuresExhaust(entries: map<string, string>, order: seq<string>, documentLocation: string,
                                 downloads: seq<Download>, p: Platform)
    requires IterationOrder(entries, order)
    requires |downloads| >= |Candidates(entries, order, documentLocation, p)|
    requires forall k :: 0 <= k < |downloads| ==> downloads[k] == Failed
    ensures var cs := Candidates(entries, order, documentLocation, p);
      var c := RunChain(cs, downloads, p);
      c.status == Exhausted && multiset(c.selected) == multiset(cs)
  {
    var cs := Candidates(entries, order, documentLocation, p);
    CandidatesHaveValidUrls(entries, order, documentLocation, p);
    assert forall k :: 0 <= k < |cs| ==> p.isUrl(cs[k].url);
    FailuresExhaust(cs, downloads, p);
    CandidatesDistinct(entries, order, documentLocation, p);
    ExhaustedTriedAll(cs, downloads, p);
  }
}
