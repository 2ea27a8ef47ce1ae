/** The "update profile" dialog: it downloads the account's game list, as
    the XML feed or as the HTML page depending on the configured list
    source, falling back from XML to HTML when XML is preferred and fails,
    and then merges the downloaded document into the game list.

    The downloads and the merges are calls into code that is not part of
    this model; they are inputs here. A download either returns a document,
    possibly null, or throws. */
module UpdateProfile {
  import opened Wrappers
  import opened Numbers
  import opened XmlTree

  /** `Settings.ListSource`; `Unhandled` stands for any other value of the
      enumeration, which the dialog does not act on. */
  datatype ListSource = XmlPreferred | XmlOnly | WebsiteOnly | Unhandled(code: int)

  /** Whose list is downloaded: an account id or a custom profile URL. */
  datatype Target = Account(steamId: Int64) | CustomUrl(url: string)

  /** The outcome of a call that may throw. */
  datatype Outcome<T> = Returned(value: T) | Threw

  /** The downloads, `GameList.FetchXmlGameList` and
      `GameList.FetchHtmlGameList`; `None` is a null document. */
  datatype Downloads = Downloads(xml: Target -> Outcome<Option<XNode>>, html: Target -> Outcome<Option<string>>)

  /** What a merge reports: the number of games in the document and the
      number that were new. */
  datatype Counts = Counts(fetched: Int32, added: Int32)

  /** The merges, `IntegrateXmlGameList` and `IntegrateHtmlGameList`, given
      the document, the overwrite flag and the ignore list. */
  datatype Mergers = Mergers(xml: (XNode, bool, set<Int32>) -> Counts, html: (string, bool, set<Int32>) -> Counts)

  /** Which document `Finish` merged. */
  datatype DocKind = XmlDocument | HtmlDocument

  /** The dialog's mutable state. */
  datatype FetchState = FetchState(
    useHtml: bool,
    failover: bool,
    added: Int32,
    fetched: Int32,
    removed: Int32,
    doc: Option<XNode>,
    htmlDoc: Option<string>)

  /** A state together with whether an exception escaped. */
  datatype Step = Step(state: FetchState, threw: bool)

  /** The state both constructors leave: no counts, XML, no failover, no
      documents; `Removed` keeps its default 0. */
  function InitialState(): FetchState {
    FetchState(false, false, 0, 0, 0, None, None)
  }

  // ---------------------------------------------------------------------
  // Specification of the steps

  /** `FetchXml`: `UseHtml` is cleared before the download, so it is clear
      even when the download throws; the document is replaced only when the
      download returns. */
  function FetchXmlStep(s: FetchState, t: Target, dl: Downloads): Step {
    match dl.xml(t)
    case Returned(d) => Step(s.(useHtml := false, doc := d), false)
    case Threw => Step(s.(useHtml := false), true)
  }

  /** `FetchHtml`, the same with `UseHtml` set. */
  function FetchHtmlStep(s: FetchState, t: Target, dl: Downloads): Step {
    match dl.html(t)
    case Returned(d) => Step(s.(useHtml := true, htmlDoc := d), false)
    case Threw => Step(s.(useHtml := true), true)
  }

  /** `FetchXmlPref`: an XML download that throws is swallowed, `Failover`
      is set and the HTML download is made, whose exception escapes. */
  function FetchXmlPrefStep(s: FetchState, t: Target, dl: Downloads): Step {
    var x := FetchXmlStep(s, t, dl);
    if !x.threw then x else FetchHtmlStep(x.state.(failover := true), t, dl)
  }

  /** `RunProcess`: the counts are reset, then the configured download is
      made; a source the switch does not handle downloads nothing. */
  function RunStep(s: FetchState, source: ListSource, t: Target, dl: Downloads): Step {
    var r := s.(added := 0, fetched := 0);
    match source
    case XmlPreferred => FetchXmlPrefStep(r, t, dl)
    case XmlOnly => FetchXmlStep(r, t, dl)
    case WebsiteOnly => FetchHtmlStep(r, t, dl)
    case Unhandled(_) => Step(r, false)
  }

  /** The document `Finish` would merge: the HTML one when `UseHtml`, the XML
      one otherwise, provided it is not null. */
  predicate HasDocument(s: FetchState) {
    if s.useHtml then s.htmlDoc.Some? else s.doc.Some?
  }

  /** `Finish`: nothing when the run was cancelled, recorded an error or
      left a null document; otherwise the document of the method used is
      merged and the counts come from the merge. */
  function FinishStep(s: FetchState, canceled: bool, error: bool, overwrite: bool,
                      ignore: set<Int32>, m: Mergers): (FetchState, Option<DocKind>) {
    if canceled || error || !HasDocument(s) then (s, None)
    else if s.useHtml then
      var c := m.html(s.htmlDoc.value, overwrite, ignore);
      (s.(fetched := c.fetched, added := c.added), Some(HtmlDocument))
    else
      var c := m.xml(s.doc.value, overwrite, ignore);
      (s.(fetched := c.fetched, added := c.added), Some(XmlDocument))
  }

  // ---------------------------------------------------------------------
  // The dialog

  class UpdateProfileDialog {
    const custom: bool
    const customUrl: string
    const steamId: Int64
    const overwrite: bool
    const ignore: set<Int32>

    var added: Int32
    var failover: bool
    var fetched: Int32
    var removed: Int32
    var useHtml: bool
    var doc: Option<XNode>
    var htmlDoc: Option<string>

    function Value(): FetchState
      reads this
    {
      FetchState(useHtml, failover, added, fetched, removed, doc, htmlDoc)
    }

    /** The download target the constructor chose. */
    function Target(): Target {
      if custom then CustomUrl(customUrl) else Account(steamId)
    }

    /** The constructor for an account id. */
    constructor ForAccount(accountId: Int64, overwrite: bool, ignore: set<Int32>)
      ensures Value() == InitialState()
      ensures Target() == Account(accountId)
      ensures this.overwrite == overwrite && this.ignore == ignore
    {
      custom := false;
      customUrl := "";
      steamId := accountId;
      added := 0;
      fetched := 0;
      useHtml := false;
      failover := false;
      removed := 0;
      doc := None;
      htmlDoc := None;
      this.overwrite := overwrite;
      this.ignore := ignore;
    }

    /** The constructor for a custom profile URL. */
    constructor ForUrl(customUrl: string, overwrite: bool, ignore: set<Int32>)
      ensures Value() == InitialState()
      ensures Target() == CustomUrl(customUrl)
      ensures this.overwrite == overwrite && this.ignore == ignore
    {
      custom := true;
      this.customUrl := customUrl;
      steamId := 0;
      added := 0;
      fetched := 0;
      useHtml := false;
      failover := false;
      removed := 0;
      doc := None;
      htmlDoc := None;
      this.overwrite := overwrite;
      this.ignore := ignore;
    }

    method FetchHtml(dl: Downloads) returns (threw: bool)
      modifies this
      ensures Step(Value(), threw) == FetchHtmlStep(old(Value()), Target(), dl)
    {
      useHtml := true;
      match dl.html(Target())
      case Returned(d) =>
        htmlDoc := d;
        threw := false;
      case Threw =>
        threw := true;
    }

    method FetchXml(dl: Downloads) returns (threw: bool)
      modifies this
      ensures Step(Value(), threw) == FetchXmlStep(old(Value()), Target(), dl)
    {
      useHtml := false;
      match dl.xml(Target())
      case Returned(d) =>
        doc := d;
        threw := false;
      case Threw =>
        threw := true;
    }

    method FetchXmlPref(dl: Downloads) returns (threw: bool)
      modifies this
      ensures Step(Value(), threw) == FetchXmlPrefStep(old(Value()), Target(), dl)
    {
      threw := FetchXml(dl);
      if !threw {
        return;
      }
      failover := true;
      threw := FetchHtml(dl);
    }

    /** The worker's body; `threw` tells whether an exception escaped it. */
    method RunProcess(source: ListSource, dl: Downloads) returns (threw: bool)
      modifies this
      ensures Step(Value(), threw) == RunStep(old(Value()), source, Target(), dl)
    {
      added := 0;
      fetched := 0;
      match source
      case XmlPreferred =>
        threw := FetchXmlPref(dl);
      case XmlOnly =>
        threw := FetchXml(dl);
      case WebsiteOnly =>
        threw := FetchHtml(dl);
      case Unhandled(_) =>
        threw := false;
    }

    /** Runs after the worker; `canceled` and `error` are the dialog's
        `Canceled` and `Error != null`. */
    method Finish(canceled: bool, error: bool, m: Mergers) returns (merged: Option<DocKind>)
      modifies this
      ensures (Value(), merged) == FinishStep(old(Value()), canceled, error, overwrite, ignore, m)
    {
      if canceled || error || (if useHtml then htmlDoc.None? else doc.None?) {
        return None;
      }
      if useHtml {
        var c := m.html(htmlDoc.value, overwrite, ignore);
        fetched := c.fetched;
        added := c.added;
        merged := Some(HtmlDocument);
      } else {
        var c := m.xml(doc.value, overwrite, ignore);
        fetched := c.fetched;
        added := c.added;
        merged := Some(XmlDocument);
      }
    }
  }

  // ---------------------------------------------------------------------
  // Properties

  /** Under `XmlPreferred` an XML download that returns ends the fetch: no
      HTML download, no failover, and no exception. */
  lemma XmlPreferredSuccess(s: FetchState, t: Target, dl: Downloads)
    requires dl.xml(t).Returned?
    ensures var r := RunStep(s, XmlPreferred, t, dl);
      !r.threw && !r.state.useHtml && r.state.failover == s.failover &&
      r.state.doc == dl.xml(t).value && r.state.htmlDoc == s.htmlDoc
  {
  }

  /** Under `XmlPreferred` an XML download that throws turns into failover:
      the HTML download is made and its outcome is the outcome of the run;
      the XML document is left as it was. */
  lemma XmlPreferredFailover(s: FetchState, t: Target, dl: Downloads)
    requires dl.xml(t).Threw?
    ensures var r := RunStep(s, XmlPreferred, t, dl);
      r.state.failover && r.state.useHtml && r.state.doc == s.doc &&
      r.threw == dl.html(t).Threw? &&
      r.state.htmlDoc == (if dl.html(t).Returned? then dl.html(t).value else s.htmlDoc)
  {
  }

  /** `XmlOnly` and `WebsiteOnly` make exactly their own download: the other
      document is untouched, failover is never set, and the download's
      exception escapes. */
  lemma SingleSourceNoFallback(s: FetchState, t: Target, dl: Downloads)
    ensures var r := RunStep(s, XmlOnly, t, dl);
      r.state.failover == s.failover && r.state.htmlDoc == s.htmlDoc && !r.state.useHtml &&
      r.threw == dl.xml(t).Threw?
    ensures var r := RunStep(s, WebsiteOnly, t, dl);
      r.state.failover == s.failover && r.state.doc == s.doc && r.state.useHtml &&
      r.threw == dl.html(t).Threw?
  {
  }

  /** Whether a run with this source makes the HTML download. */
  predicate HtmlAttempted(source: ListSource, t: Target, dl: Downloads) {
    source == WebsiteOnly || (source == XmlPreferred && dl.xml(t).Threw?)
  }

  /** Whether a run with this source makes the XML download. */
  predicate XmlAttempted(source: ListSource) {
    source == XmlPreferred || source == XmlOnly
  }

  /** After a run `UseHtml` tells which download was attempted last, and
      `Failover` is set exactly when XML was preferred and threw. */
  lemma UseHtmlNamesLastAttempt(s: FetchState, source: ListSource, t: Target, dl: Downloads)
    ensures var r := RunStep(s, source, t, dl);
      (HtmlAttempted(source, t, dl) ==> r.state.useHtml) &&
      (XmlAttempted(source) && !HtmlAttempted(source, t, dl) ==> !r.state.useHtml) &&
      (!XmlAttempted(source) && !HtmlAttempted(source, t, dl) ==> r.state.useHtml == s.useHtml)
    ensures RunStep(s, source, t, dl).state.failover <==>
              s.failover || (source == XmlPreferred && dl.xml(t).Threw?)
  {
  }

  /** A run starts from zero counts and never touches `Removed`; a list
      source the switch does not handle leaves everything else as it was. */
  lemma RunResetsCounts(s: FetchState, source: ListSource, t: Target, dl: Downloads)
    ensures RunStep(s, source, t, dl).state.added == 0
    ensures RunStep(s, source, t, dl).state.fetched == 0
    ensures RunStep(s, source, t, dl).state.removed == s.removed
    ensures source.Unhandled? ==> RunStep(s, source, t, dl) == Step(s.(added := 0, fetched := 0), false)
  {
  }

  /** `Finish` merges exactly when the run was neither cancelled nor failed
      and left a document for the method used; it merges that one document
      only, and only the counts change. */
  lemma FinishMergesAtMostOne(s: FetchState, canceled: bool, error: bool, overwrite: bool,
                              ignore: set<Int32>, m: Mergers)
    ensures var (r, merged) := FinishStep(s, canceled, error, overwrite, ignore, m);
      (merged.Some? <==> !canceled && !error && HasDocument(s)) &&
      (merged.None? ==> r == s) &&
      (merged == Some(HtmlDocument) ==>
         s.useHtml && Counts(r.fetched, r.added) == m.html(s.htmlDoc.value, overwrite, ignore)) &&
      (merged == Some(XmlDocument) ==>
         !s.useHtml && Counts(r.fetched, r.added) == m.xml(s.doc.value, overwrite, ignore)) &&
      r.(fetched := s.fetched, added := s.added) == s
  {
  }

  /** A whole update from a fresh dialog: the worker's run, then `Finish`,
      where an exception that escaped the run is the recorded error. */
  function Update(source: ListSource, t: Target, dl: Downloads, canceled: bool,
                  overwrite: bool, ignore: set<Int32>, m: Mergers): (FetchState, Option<DocKind>) {
    var run := RunStep(InitialState(), source, t, dl);
    FinishStep(run.state, canceled, run.threw, overwrite, ignore, m)
  }

  /** With XML preferred, an update that is not cancelled merges the XML
      document when the XML download returns one, and otherwise merges the
      HTML document when that download returns one. `Removed` stays 0. */
  lemma XmlPreferredUpdate(t: Target, dl: Downloads, overwrite: bool, ignore: set<Int32>, m: Mergers)
    ensures var (r, merged) := Update(XmlPreferred, t, dl, false, overwrite, ignore, m);
      r.removed == 0 &&
      (dl.xml(t).Returned? && dl.xml(t).value.Some? ==> merged == Some(XmlDocument) && !r.failover) &&
      (dl.xml(t).Returned? && dl.xml(t).value.None? ==> merged == None) &&
      (dl.xml(t).Threw? ==>
         r.failover &&
         (merged == Some(HtmlDocument) <==> dl.html(t).Returned? && dl.html(t).value.Some?) &&
         merged != Some(XmlDocument))
  {
    var run := RunStep(InitialState(), XmlPreferred, t, dl);
    if dl.xml(t).Threw? {
      XmlPreferredFailover(InitialState(), t, dl);
    } else {
      XmlPreferredSuccess(InitialState(), t, dl);
    }
    FinishMergesAtMostOne(run.state, false, run.threw, overwrite, ignore, m);
  }
}
