/**
 The favicon manager of a browser tab (FaviconManager.swift): the handler of a favicon
 report, which clears the tab's icons, collects candidates, picks the best one and
 downloads candidates until one arrives. Network downloads are given as a sequence of
 outcomes; the calls into the profile's favicon store and the Spotlight helper are
 recorded as events.
 */
module FaviconManagement {
  import opened Wrappers
  import opened SwiftStrings
  import opened SizeHint
  import opened Favicons

  /** The tab the manager serves: its icons, updated in place, and its privacy. */
  class Browser {
    var favicons: seq<Favicon>
    const isPrivate: bool

    constructor (isPrivate: bool)
      ensures this.isPrivate == isPrivate && favicons == []
    {
      this.isPrivate := isPrivate;
      favicons := [];
    }
  }

  /** A call the handler makes into code it does not own. */
  datatype Event =
    | AddFavicon(favicon: Favicon, site: Site)                          // profile.favicons.addFavicon (line 82)
    | MakeFaviconAvailable(pageUrl: string, favicon: Favicon, image: Image) // line 84

  /** What a chain adds to the tab's icons: the resolved icon of a successful download. */
  function Appended(c: Chain, currentUrl: string): seq<Favicon> {
    match c.status
    case Downloaded(icon, finalUrl, image) => [Resolved(icon, finalUrl, image, currentUrl)]
    case _ => []
  }

  /**
   The calls a chain makes (lines 81-86): none for a private tab; otherwise the store
   receives the resolved icon, and the Spotlight helper too when the tab had no icon.
   */
  function Notifications(c: Chain, site: Site, currentUrl: string, hadNoIcon: bool, isPrivate: bool): seq<Event> {
    match c.status
    case Downloaded(icon, finalUrl, image) =>
      if isPrivate then []
      else
        var fav := Resolved(icon, finalUrl, image, currentUrl);
        [AddFavicon(fav, site)] + if hadNoIcon then [MakeFaviconAvailable(currentUrl, fav, image)] else []
    case _ => []
  }

  /** The loop of lines 50-59: the accepted entries, in iteration order. */
  method CollectCandidates(icons: map<string, string>, order: seq<string>, documentLocation: string, p: Platform)
    returns (favicons: seq<Favicon>)
    requires IterationOrder(icons, order)
    ensures favicons == Candidates(icons, order, documentLocation, p)
    ensures forall f :: f in favicons <==>
      f.url in icons && Accepted(icons, f.url, f.iconType, p) && f == Candidate(f.url, f.iconType, documentLocation)
    ensures DistinctUrls(favicons)
  {
    favicons := [];
    for i := 0 to |order|
      invariant favicons == Candidates(icons, order[..i], documentLocation, p)
    {
      assert order[..i + 1][..i] == order[..i];
      var key := order[i];
      if key != DocumentLocationKey {
        match EntryType(key, icons[key], p)
        case Some(iconType) =>
          favicons := favicons + [Candidate(key, iconType, documentLocation)];
        case None =>
      }
    }
    assert order[..|order|] == order;
    forall f {
      CandidatesExactly(icons, order, documentLocation, p, f);
    }
    CandidatesDistinct(icons, order, documentLocation, p);
  }

  /** The loop of lines 97-125: the best of a non-empty list of candidates. */
  method SelectBest(favicons: seq<Favicon>, p: Platform) returns (best: Favicon)
    requires |favicons| >= 1
    ensures best == BestOf(favicons, p)
    ensures best in favicons
  {
    var current: Option<Favicon> := None;
    for i := 0 to |favicons|
      invariant current.None? <==> i == 0
      invariant current.Some? ==> current.value == BestOf(favicons[..i], p)
    {
      var icon := favicons[i];
      assert favicons[..i + 1] == favicons[..i] + [icon];
      if current.None? {
        BestOfSingle(icon, p);
        current := Some(icon);
      } else {
        BestOfAppend(favicons[..i], icon, p);
        if p.isPreferredTo(icon.iconType, current.value.iconType) {
          current := Some(icon);
        } else {
          var nextNum := ExtractNumberFromUrl(icon.url);
          var bestNum := ExtractNumberFromUrl(current.value.url);
          if nextNum.Some? && bestNum.Some? && nextNum.value > bestNum.value {
            current := Some(icon);
          }
        }
      }
    }
    assert favicons[..|favicons|] == favicons;
    best := current.value;
  }

  class FaviconManager {
    /** The tab, held weakly: it may be gone when a report arrives. */
    var browser: Browser?
    const platform: Platform
    /** The calls made into the favicon store and the Spotlight helper, in order. */
    ghost var events: seq<Event>

    constructor (browser: Browser, platform: Platform)
      ensures this.browser == browser && this.platform == platform && events == []
    {
      this.browser := browser;
      this.platform := platform;
      events := [];
    }

    /**
     `downloadBestIcon` with `downloadIcon` (lines 64-95, 126-127): select, filter out
     and download candidates until one download delivers an image, the list is empty,
     a URL is refused, or a download has not completed.
     */
    method DownloadBestIcon(favicons: seq<Favicon>, downloads: seq<Download>, tab: Browser, site: Site, currentUrl: string)
      modifies tab`favicons, this`events
      ensures var c := RunChain(favicons, downloads, platform);
        && tab.favicons == old(tab.favicons) + Appended(c, currentUrl)
        && events == old(events) + Notifications(c, site, currentUrl, old(tab.favicons) == [], tab.isPrivate)
      ensures tab.isPrivate ==> events == old(events)
      ensures |tab.favicons| <= |old(tab.favicons)| + 1
    {
      var working := favicons;
      var k := 0;
      ghost var selected: seq<Favicon> := [];
      while |working| >= 1
        invariant 0 <= k <= |downloads|
        invariant var c := RunChain(working, downloads[k..], platform);
          RunChain(favicons, downloads, platform) == Chain(selected + c.selected, c.status)
        invariant tab.favicons == old(tab.favicons) && events == old(events)
        decreases |working|
      {
        var best := SelectBest(working, platform);
        working := Without(working, best);
        if !platform.isUrl(best.url) {
          return;
        }
        if k == |downloads| {
          // the download of `best` has not completed
          return;
        }
        var outcome := downloads[k];
        assert downloads[k..][1..] == downloads[k + 1..];
        k := k + 1;
        match outcome {
          case Failed =>
            selected := selected + [best];
          case Loaded(finalUrl, image) =>
            RecordIcon(Resolved(best, finalUrl, image, currentUrl), image, tab, site, currentUrl);
            return;
        }
      }
    }

    /**
     The end of a successful download (lines 81-87): unless the tab is private, the
     store receives the icon, and the Spotlight helper the image when the tab has no
     icon yet; then the icon joins the tab's icons.
     */
    method RecordIcon(fav: Favicon, image: Image, tab: Browser, site: Site, currentUrl: string)
      modifies tab`favicons, this`events
      ensures tab.favicons == old(tab.favicons) + [fav]
      ensures events == old(events) +
        if tab.isPrivate then []
        else [AddFavicon(fav, site)] + if old(tab.favicons) == [] then [MakeFaviconAvailable(currentUrl, fav, image)] else []
    {
      if !tab.isPrivate {
        events := events + [AddFavicon(fav, site)];
        if tab.favicons == [] {
          events := events + [MakeFaviconAvailable(currentUrl, fav, image)];
        }
      }
      tab.favicons := tab.favicons + [fav];
    }

    /**
     `userContentController(_:didReceiveScriptMessage:)` (lines 35-131). `order` is
     the order in which the dictionary yields its keys; `downloads` are the outcomes of
     the downloads the chain starts, in order.
     */
    method UserContentController(body: Body, order: seq<string>, downloads: seq<Download>)
      requires body.StringMap? ==> IterationOrder(body.entries, order)
      modifies browser, this`events
      ensures browser == null ==> events == old(events)
      ensures browser != null && ScreenReport(body, platform).None? ==>
        browser.favicons == [] && events == old(events)
      ensures browser != null && ScreenReport(body, platform).Some? ==>
        var documentLocation := ScreenReport(body, platform).value;
        var c := RunChain(Candidates(body.entries, order, documentLocation, platform), downloads, platform);
        && browser.favicons == Appended(c, documentLocation)
        && events == old(events) + Notifications(c, Site(documentLocation, ""), documentLocation, true, browser.isPrivate)
    {
      var tab := browser;
      if tab == null {
        return;
      }
      tab.favicons := [];
      if body.OtherBody? {
        return;
      }
      var icons := body.entries;
      if DocumentLocationKey !in icons {
        return;
      }
      var documentLocation := icons[DocumentLocationKey];
      if !platform.isUrl(documentLocation) {
        return;
      }
      if Contains(documentLocation, platform.webServerBase) {
        return;
      }
      var site := Site(documentLocation, "");
      var favicons := CollectCandidates(icons, order, documentLocation, platform);
      DownloadBestIcon(favicons, downloads, tab, site, documentLocation);
    }
  }
}
