/**
 * The PDF drawers of the services section: an accordion of drawers, one per
 * service id, each of which lazily loads the presentation configured for its
 * service the first time it is opened.
 *
 * The DOM is replaced by explicit state: the `open` class of each
 * `drawer-<id>` element is a boolean, and what the placeholder and the
 * `slides-<id>` container show is a `Content` value. The network existence
 * probe is split off: issuing it is recorded, and its outcome arrives later
 * as the boolean argument of `ResolveProbe`.
 */
module Drawers {

  datatype Option<T> = None | Some(value: T)

  /** The resource map of the page: service id to the PDF that presents it. */
  const PdfFiles: map<string, string> := map[
    "revenue" := "pdfs/Revenue management.pdf",
    "smm" := "pdfs/Social Media Marketing workflow.pdf",
    "seo" := "pdfs/SEO services.pdf",
    "gmb" := "pdfs/GMB Services.pdf"
  ]

  /** The name a downloaded presentation is saved under, after the service id. */
  const PresentationSuffix: string := "-presentation.pdf"

  /** What a drawer's content region shows. */
  datatype Content =
    | Empty                  // nothing rendered yet: the drawer's content was never loaded
    | NotConfigured          // the "PDF NOT CONFIGURED" placeholder
    | Loading                // the "LOADING PDF..." placeholder, while the probe is in flight
    | Viewer(url: string)    // placeholder hidden; embedded viewer with open and download controls for url
    | NotFound(url: string)  // the "PDF FILE NOT FOUND" placeholder naming url

  /**
   * The lookup of a service's PDF followed by the truthiness test on it: a
   * missing entry and an empty path both mean "not configured".
   */
  function PdfUrl(files: map<string, string>, id: string): (r: Option<string>)
    ensures r.None? <==> id !in files || files[id] == ""
    ensures r.Some? ==> r.value == files[id]
  {
    if id in files && files[id] != "" then Some(files[id]) else None
  }

  /** The accordion's invariant: no two drawers are open at once. */
  predicate AtMostOneOpen(open: map<string, bool>)
  {
    forall a, b :: a in open && b in open && open[a] && open[b] ==> a == b
  }

  /**
   * The open flags after the user toggles drawer `id`: every other drawer is
   * closed and `id` flips. Mutual exclusion holds afterwards whatever held
   * before.
   */
  function AfterToggle(open: map<string, bool>, id: string): (r: map<string, bool>)
    requires id in open
    ensures r.Keys == open.Keys
    ensures r[id] <==> !open[id]
    ensures forall d :: d in r && d != id ==> !r[d]
    ensures AtMostOneOpen(r)
  {
    map d | d in open :: if d == id then !open[id] else false
  }

  /** Toggling the drawer that is open closes it and leaves every drawer closed. */
  lemma ClosingOpenDrawerClosesAll(open: map<string, bool>, id: string)
    requires id in open && open[id]
    ensures forall d :: d in AfterToggle(open, id) ==> !AfterToggle(open, id)[d]
  {
  }

  /**
   * Toggling a drawer twice in a row, from a state in which it was the only
   * drawer that could be open, restores the state.
   */
  lemma ToggleTwiceRestores(open: map<string, bool>, id: string)
    requires id in open
    requires forall d :: d in open && d != id ==> !open[d]
    ensures AfterToggle(AfterToggle(open, id), id) == open
  {
  }

  /** The content a probe's resolution renders for `url`: exactly one of the two outcomes. */
  function ProbeOutcome(url: string, ok: bool): (c: Content)
    ensures c.Viewer? || c.NotFound?
    ensures c.url == url
    ensures c.Viewer? <==> ok
  {
    if ok then Viewer(url) else NotFound(url)
  }

  /** The name under which a service's presentation is downloaded. */
  function DownloadName(serviceId: string): (name: string)
    ensures |name| == |serviceId| + |PresentationSuffix|
    ensures name[..|serviceId|] == serviceId
    ensures name[|serviceId|..] == PresentationSuffix
  {
    serviceId + PresentationSuffix
  }

  /** Different services never share a download name. */
  lemma DownloadNamesDistinct(a: string, b: string)
    ensures DownloadName(a) == DownloadName(b) <==> a == b
  {
  }

  /** The temporary link element the download control creates and clicks. */
  datatype DownloadLink = DownloadLink(href: string, download: string, target: string)

  /**
   * The download control: the link points at the PDF itself, opens in a new
   * browsing context and saves under the service's download name. The link
   * is removed again after the click, so the page is left as it was.
   */
  method DownloadPdf(pdfUrl: string, serviceId: string) returns (link: DownloadLink)
    ensures link.href == pdfUrl
    ensures link.download == DownloadName(serviceId)
    ensures link.target == "_blank"
  {
    link := DownloadLink(pdfUrl, serviceId + PresentationSuffix, "_blank");
  }

  /**
   * The load bookkeeping of a page is consistent: a drawer shows something
   * exactly when its load was started, what it shows agrees with the
   * resource map, the loading placeholder is up exactly while a probe is in
   * flight, and every configured drawer that was loaded was probed exactly
   * once.
   */
  ghost predicate LoadsConsistent(files: map<string, string>, drawers: set<string>, loaded: set<string>,
                                  content: map<string, Content>, probes: seq<string>, pending: set<string>)
  {
    content.Keys == drawers && loaded <= drawers && pending <= loaded &&
    (forall d :: d in content ==> (content[d] == Empty <==> d !in loaded)) &&
    (forall d :: d in content && content[d] == NotConfigured ==> PdfUrl(files, d).None?) &&
    (forall d :: d in content && (content[d].Viewer? || content[d].NotFound?) ==>
       PdfUrl(files, d) == Some(content[d].url)) &&
    (forall d :: d in content ==> (content[d] == Loading <==> d in pending)) &&
    (forall d :: d in pending ==> PdfUrl(files, d).Some?) &&
    (forall i :: 0 <= i < |probes| ==> probes[i] in loaded && PdfUrl(files, probes[i]).Some?) &&
    (forall i, j :: 0 <= i < j < |probes| ==> probes[i] != probes[j]) &&
    (forall d :: d in loaded && PdfUrl(files, d).Some? ==> d in probes)
  }

  /**
   * Starting the load of a drawer that was never loaded keeps the
   * bookkeeping consistent, and so the new probe, if any, is the first one
   * issued for that drawer.
   */
  lemma StartLoadKeepsConsistent(files: map<string, string>, drawers: set<string>, loaded: set<string>,
                                 content: map<string, Content>, probes: seq<string>, pending: set<string>, id: string)
    requires LoadsConsistent(files, drawers, loaded, content, probes, pending)
    requires id in drawers && id !in loaded
    ensures id !in probes
    ensures PdfUrl(files, id).None? ==>
      LoadsConsistent(files, drawers, loaded + {id}, content[id := NotConfigured], probes, pending)
    ensures PdfUrl(files, id).Some? ==>
      LoadsConsistent(files, drawers, loaded + {id}, content[id := Loading], probes + [id], pending + {id})
  {
  }

  /** Settling a pending probe keeps the bookkeeping consistent. */
  lemma ResolveKeepsConsistent(files: map<string, string>, drawers: set<string>, loaded: set<string>,
                               content: map<string, Content>, probes: seq<string>, pending: set<string>,
                               id: string, ok: bool)
    requires LoadsConsistent(files, drawers, loaded, content, probes, pending)
    requires id in pending
    ensures PdfUrl(files, id).Some?
    ensures LoadsConsistent(files, drawers, loaded, content[id := ProbeOutcome(PdfUrl(files, id).value, ok)],
                            probes, pending - {id})
  {
  }

  /** The drawer accordion of one page, with its resource map and loaded set. */
  class DrawerController {
    /** Ids of the drawers on the page: each has a `drawer-<id>` and a `slides-<id>` element. */
    const drawers: set<string>
    /** The resource map, fixed at page load. */
    const files: map<string, string>
    /** Whether each drawer carries the `open` class. */
    var open: map<string, bool>
    /** Ids whose content load has been started; only ever grows. */
    var loaded: set<string>
    /** What each drawer's content region shows. */
    var content: map<string, Content>
    /** Ids whose existence probe has been issued, in the order issued. */
    var probes: seq<string>
    /** Ids whose probe has been issued and has not resolved yet. */
    var pending: set<string>

    ghost predicate Valid()
      reads this
    {
      open.Keys == drawers && AtMostOneOpen(open) &&
      LoadsConsistent(files, drawers, loaded, content, probes, pending)
    }

    /** The page after load: every drawer closed, nothing loaded, no probe issued. */
    constructor (drawers: set<string>, files: map<string, string>)
      ensures Valid()
      ensures this.drawers == drawers && this.files == files
      ensures forall d :: d in drawers ==> d in open && !open[d]
      ensures forall d :: d in drawers ==> d in content && content[d] == Empty
      ensures loaded == {} && probes == [] && pending == {}
    {
      this.drawers := drawers;
      this.files := files;
      open := map d | d in drawers :: false;
      content := map d | d in drawers :: Empty;
      loaded := {};
      probes := [];
      pending := {};
    }

    /**
     * The content load of drawer `id`: an unconfigured service gets the
     * not-configured placeholder and no probe; a configured one gets the
     * loading placeholder and then its probe is issued. It does not consult
     * the loaded set itself.
     */
    method LoadPdf(id: string)
      requires id in content
      modifies this`content, this`probes, this`pending
      ensures PdfUrl(files, id).None? ==>
        content == old(content)[id := NotConfigured] && probes == old(probes) && pending == old(pending)
      ensures PdfUrl(files, id).Some? ==>
        content == old(content)[id := Loading] && probes == old(probes) + [id] && pending == old(pending) + {id}
    {
      var pdfUrl := PdfUrl(files, id);
      if pdfUrl.None? {
        content := content[id := NotConfigured];
        return;
      }
      content := content[id := Loading];
      probes := probes + [id];
      pending := pending + {id};
    }

    /** Removes the `open` class from every drawer other than `id`. */
    method CloseOthers(id: string)
      requires open.Keys == drawers && id in drawers
      modifies this`open
      ensures open.Keys == drawers
      ensures open[id] == old(open)[id]
      ensures forall d :: d in open && d != id ==> !open[d]
    {
      var rest := drawers;
      while rest != {}
        invariant rest <= drawers
        invariant open.Keys == drawers
        invariant forall d :: d in drawers && d !in rest && d != id ==> !open[d]
        invariant forall d :: d in rest ==> open[d] == old(open)[d]
        invariant open[id] == old(open)[id]
        decreases rest
      {
        var d :| d in rest;
        if d != id {
          open := open[d := false];
        }
        rest := rest - {d};
      }
    }

    /**
     * A click on the button of drawer `id`: every other drawer is closed,
     * `id` flips, and on the opening path its content is loaded unless it
     * already was.
     */
    method Toggle(id: string)
      requires Valid() && id in drawers
      modifies this`open, this`loaded, this`content, this`probes, this`pending
      ensures Valid()
      ensures open == AfterToggle(old(open), id)
      ensures loaded == if old(open)[id] then old(loaded) else old(loaded) + {id}
      ensures old(open)[id] || id in old(loaded) ==>
        content == old(content) && probes == old(probes) && pending == old(pending)
      ensures !old(open)[id] && id !in old(loaded) && PdfUrl(files, id).None? ==>
        content == old(content)[id := NotConfigured] && probes == old(probes) && pending == old(pending)
      ensures !old(open)[id] && id !in old(loaded) && PdfUrl(files, id).Some? ==>
        content == old(content)[id := Loading] && probes == old(probes) + [id] && pending == old(pending) + {id}
    {
      var isOpen := open[id];
      CloseOthers(id);
      if isOpen {
        open := open[id := false];
        assert open == AfterToggle(old(open), id);
      } else {
        open := open[id := true];
        assert open == AfterToggle(old(open), id);
        if id !in loaded {
          StartLoad(id);
        }
      }
    }

    /**
     * The guarded load on the opening path: the content load runs, then the
     * id joins the loaded set.
     */
    method StartLoad(id: string)
      requires LoadsConsistent(files, drawers, loaded, content, probes, pending)
      requires id in drawers && id !in loaded
      modifies this`loaded, this`content, this`probes, this`pending
      ensures LoadsConsistent(files, drawers, loaded, content, probes, pending)
      ensures loaded == old(loaded) + {id}
      ensures PdfUrl(files, id).None? ==>
        content == old(content)[id := NotConfigured] && probes == old(probes) && pending == old(pending)
      ensures PdfUrl(files, id).Some? ==>
        content == old(content)[id := Loading] && probes == old(probes) + [id] && pending == old(pending) + {id}
    {
      StartLoadKeepsConsistent(files, drawers, loaded, content, probes, pending, id);
      LoadPdf(id);
      loaded := loaded + {id};
    }

    /**
     * The probe of drawer `id` settles: a successful response replaces the
     * placeholder by the viewer for the PDF, a failed or rejected one by the
     * not-found message naming it. Whether the drawer is still open plays no
     * part.
     */
    method ResolveProbe(id: string, ok: bool)
      requires Valid() && id in pending
      modifies this`content, this`pending
      ensures Valid()
      ensures pending == old(pending) - {id}
      ensures PdfUrl(files, id).Some?
      ensures content == old(content)[id := ProbeOutcome(PdfUrl(files, id).value, ok)]
    {
      ResolveKeepsConsistent(files, drawers, loaded, content, probes, pending, id, ok);
      var pdfUrl := PdfUrl(files, id).value;
      if ok {
        content := content[id := Viewer(pdfUrl)];
      } else {
        content := content[id := NotFound(pdfUrl)];
      }
      pending := pending - {id};
    }
  }

  /**
   * Opening, closing and reopening a configured drawer issues one probe only;
   * when it succeeds the drawer shows the viewer for its PDF.
   */
  method ReopeningIssuesOneProbe() returns (probeCount: nat, shown: Content)
    ensures probeCount == 1
    ensures shown == Viewer("pdfs/Revenue management.pdf")
  {
    var page := new DrawerController({"revenue", "smm", "seo", "gmb"}, PdfFiles);
    assert PdfUrl(PdfFiles, "revenue") == Some("pdfs/Revenue management.pdf");
    page.Toggle("revenue");  // opens, shows the loading placeholder, issues the probe
    assert page.open["revenue"] && page.probes == ["revenue"];
    page.Toggle("revenue");  // closes
    assert !page.open["revenue"] && page.probes == ["revenue"];
    page.Toggle("revenue");  // reopens: already loaded, no new probe
    assert page.probes == ["revenue"] && "revenue" in page.pending;
    probeCount := |page.probes|;
    page.ResolveProbe("revenue", true);
    assert page.content["revenue"] == ProbeOutcome("pdfs/Revenue management.pdf", true);
    shown := page.content["revenue"];
  }

  /**
   * With only "revenue" configured, opening "smm" shows the not-configured
   * placeholder and issues no probe; opening "revenue" next leaves it the
   * only open drawer, and a failed probe names its PDF.
   */
  method UnconfiguredDrawerIssuesNoProbe() returns (smmShown: Content, probeCount: nat, smmOpen: bool, revenueShown: Content)
    ensures smmShown == NotConfigured
    ensures probeCount == 1
    ensures !smmOpen
    ensures revenueShown == NotFound("/pdfs/revenue.pdf")
  {
    var files := map["revenue" := "/pdfs/revenue.pdf"];
    var page := new DrawerController({"revenue", "smm"}, files);
    assert PdfUrl(files, "smm") == None;
    assert PdfUrl(files, "revenue") == Some("/pdfs/revenue.pdf");
    page.Toggle("smm");
    assert page.probes == [] && page.open["smm"];
    smmShown := page.content["smm"];
    page.Toggle("revenue");
    assert page.probes == ["revenue"] && "revenue" in page.pending;
    probeCount := |page.probes|;
    smmOpen := page.open["smm"];
    page.ResolveProbe("revenue", false);
    assert page.content["revenue"] == ProbeOutcome("/pdfs/revenue.pdf", false);
    revenueShown := page.content["revenue"];
  }
}
