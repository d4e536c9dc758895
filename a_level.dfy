/** The AS/A-level scraper: for each subject, the session listing is filtered by name and year,
    each accepted session's documents are filtered by paper badge, title and info link, the
    link is resolved through the `download_file.php?files=` redirector, and each file is
    downloaded, once, into `level/subject/session`. */
module ALevel {
  import opened Wrappers
  import opened Strings
  import opened Percent
  import opened Query
  import opened Paths
  import opened Runs
  import opened FileSystem

  const BaseUrl: string := "https://pastpapers.papacambridge.com"
  const AsSubjects: seq<string> := ["physics-9702", "chemistry-9701", "biology-9700"]
  const ASubjects: seq<string> := ["physics-9702", "chemistry-9701", "biology-9700"]
  const AsPapers: seq<string> := ["Paper 1", "Paper 2"]
  const APapers: seq<string> := ["Paper 4"]
  const StartYear: int := 2017
  const EndYear: int := 2025
  const Redirector: string := "download_file.php?files="

  // ---------------------------------------------------------------------------------------
  // Year extraction: the first match of \b(20\d{2})\b, over ASCII.

  /** A regular-expression word character: letter, digit or underscore. */
  predicate IsWordChar(c: char) {
    IsDigit(c) || 'a' <= c <= 'z' || 'A' <= c <= 'Z' || c == '_'
  }

  /** `20dd` at `i` with a word boundary on each side: where `\b(20\d{2})\b` matches. */
  predicate YearTokenAt(s: string, i: int) {
    && 0 <= i && i + 4 <= |s|
    && s[i] == '2' && s[i + 1] == '0' && IsDigit(s[i + 2]) && IsDigit(s[i + 3])
    && (i == 0 || !IsWordChar(s[i - 1]))
    && (i + 4 == |s| || !IsWordChar(s[i + 4]))
  }

  /** `int(match.group(1))`. */
  function YearValue(s: string, i: int): int
    requires YearTokenAt(s, i)
  {
    2000 + 10 * DigitValue(s[i + 2]) + DigitValue(s[i + 3])
  }

  /** The first token at or after `i`, as `re.search` scans. */
  function FindYearToken(s: string, i: nat): (r: Option<nat>)
    ensures r.Some? ==> i <= r.value && YearTokenAt(s, r.value)
                        && forall j :: i <= j < r.value ==> !YearTokenAt(s, j)
    ensures r.None? ==> forall j :: i <= j ==> !YearTokenAt(s, j)
    decreases |s| - i
  {
    if i + 4 > |s| then None
    else if YearTokenAt(s, i) then Some(i)
    else FindYearToken(s, i + 1)
  }

  /** `extract_year`: the year of the leftmost word-bounded `20dd` token, or none. */
  function ExtractYear(s: string): (r: Option<int>)
    ensures r.None? <==> forall i :: !YearTokenAt(s, i)
    ensures r.Some? ==> 2000 <= r.value <= 2099
    ensures r.Some? ==> exists i :: YearTokenAt(s, i) && r.value == YearValue(s, i)
                                    && forall j :: 0 <= j < i ==> !YearTokenAt(s, j)
  {
    match FindYearToken(s, 0)
    case None => None
    case Some(i) => Some(YearValue(s, i))
  }

  // ---------------------------------------------------------------------------------------
  // The filters.

  /** The session filter: no "Topical" or "Tropical" (case-sensitive), and the extracted year,
      when there is one, within [StartYear, EndYear]. Read without `ExtractYear`, only the
      leftmost year token decides, so a name whose first year is in range passes whatever years
      follow it. */
  function AcceptSession(name: string): (r: bool)
    ensures r <==>
      && !Contains(name, "Topical") && !Contains(name, "Tropical")
      && forall i :: YearTokenAt(name, i) && (forall j :: 0 <= j < i ==> !YearTokenAt(name, j))
                     ==> StartYear <= YearValue(name, i) <= EndYear
  {
    LeftmostYearDecides(name);
    && !Contains(name, "Topical")
    && !Contains(name, "Tropical")
    && match ExtractYear(name)
       case None => true
       case Some(y) => StartYear <= y <= EndYear
  }

  /** The year test reads only the leftmost year token. */
  lemma LeftmostYearDecides(name: string)
    ensures (match ExtractYear(name) case None => true case Some(y) => StartYear <= y <= EndYear) <==>
      forall i :: YearTokenAt(name, i) && (forall j :: 0 <= j < i ==> !YearTokenAt(name, j))
                  ==> StartYear <= YearValue(name, i) <= EndYear
  {
    match ExtractYear(name)
    case None =>
    case Some(y) =>
      var i0 :| YearTokenAt(name, i0) && y == YearValue(name, i0)
                && forall j :: 0 <= j < i0 ==> !YearTokenAt(name, j);
      forall i | YearTokenAt(name, i) && (forall j :: 0 <= j < i ==> !YearTokenAt(name, j))
        ensures i == i0
      {
      }
  }

  /** The `a.badge-info` anchor of a document item, with its `href` attribute if it has one. */
  datatype Anchor = Anchor(href: Option<string>)

  /** One `div.item-pdf-type`: the stripped text of its first success/danger badge, of its first
      `span.wraptext`, and its first info anchor; each may be missing. */
  datatype PdfItem = PdfItem(badge: Option<string>, title: Option<string>, info: Option<Anchor>)

  /** One session anchor: the stripped text of its `span.wraptext` and its `href`. */
  datatype SessionLink = SessionLink(text: Option<string>, href: Option<string>)

  /** The document filter: a badge whose exact text is one of the allowed papers, a title in
      which "Question" occurs (case-sensitive), and an info anchor. For the AS list only
      "Paper 1" and "Paper 2" badges pass, for the A list only "Paper 4". */
  function AcceptDocument(item: PdfItem, allowed: seq<string>): (r: bool)
    ensures r <==>
      && item.badge.Some? && (exists k :: 0 <= k < |allowed| && allowed[k] == item.badge.value)
      && item.title.Some? && (exists i :: ContainsAt(item.title.value, "Question", i))
      && item.info.Some?
    ensures r && allowed == AsPapers ==> item.badge.value == "Paper 1" || item.badge.value == "Paper 2"
    ensures r && allowed == APapers ==> item.badge.value == "Paper 4"
  {
    && item.badge.Some? && item.badge.value in allowed
    && item.title.Some? && Contains(item.title.value, "Question")
    && item.info.Some?
  }

  // ---------------------------------------------------------------------------------------
  // Links, file names and folders.

  /** The exceptions that end the program: `select_one(...)` returning None for a session label
      (AttributeError), an anchor without `href` (KeyError), and a redirector link whose query
      has no non-empty `files` value (KeyError). */
  datatype Crash = MissingSessionLabel | MissingSessionHref | MissingInfoHref | MissingFilesValue

  /** The file URL of an info link: the first `files` query value when the link goes through
      the redirector, the link itself otherwise. */
  function ResolveFileUrl(href: string): (r: Result<string, Crash>)
    ensures !Contains(href, Redirector) ==> r == Ok(href)
    ensures r.Err? ==> r.error == MissingFilesValue && Contains(href, Redirector)
    ensures Contains(href, Redirector) && r.Ok? ==> |r.value| > 0
    ensures var fs := ParseQsl(QueryOf(href));
      Contains(href, Redirector) ==> (r.Err? <==> forall k :: 0 <= k < |fs| ==> fs[k].0 != "files")
    ensures var fs := ParseQsl(QueryOf(href));
      Contains(href, Redirector) && r.Ok? ==>
        exists k :: 0 <= k < |fs| && fs[k] == ("files", r.value) && forall j :: 0 <= j < k ==> fs[j].0 != "files"
  {
    if Contains(href, Redirector) then
      match FirstValue(ParseQsl(QueryOf(href)), "files")
      case None => Err(MissingFilesValue)
      case Some(v) =>
        assert exists k :: 0 <= k < |ParseQsl(QueryOf(href))| && ParseQsl(QueryOf(href))[k].1 == v;
        Ok(v)
    else
      Ok(href)
  }

  /** The file name: the text after the last `/` of the file URL, percent-decoded. */
  function Filename(fileUrl: string): string {
    Unquote(AfterLast(fileUrl, '/'))
  }

  function SubjectUrl(subject: string): string {
    BaseUrl + "/papers/caie/as-and-a-level-" + subject
  }

  /** The session page URL: the base, one `/`, and the link without its leading slashes. */
  function SessionUrl(href: string): (r: string)
    ensures exists k :: 0 <= k <= |href| && (forall j :: 0 <= j < k ==> href[j] == '/')
                        && (k == |href| || href[k] != '/') && r == BaseUrl + "/" + href[k..]
  {
    var rest := LStrip(href, '/');
    assert href[|href| - |rest|..] == rest;
    BaseUrl + "/" + rest
  }

  /** `os.path.join(level, subj, session_name)`. */
  function Folder(level: string, subject: string, session: string): string {
    PathJoin(PathJoin(level, subject), session)
  }

  /** Where a download lands. */
  datatype Target = Target(url: string, folder: string, filename: string)

  function TargetPath(t: Target): string {
    PathJoin(t.folder, t.filename)
  }

  // ---------------------------------------------------------------------------------------
  // download_file

  /** `download_file`: an existing path is left alone and nothing is requested; an empty file
      name names the folder itself, which `os.makedirs` has just created, so it is skipped too.
      Otherwise the body is written only for a fully read response that `raise_for_status`
      lets through (any status outside 400..599). */
  function DownloadEffect(files: map<string, Bytes>, t: Target, server: map<string, Response>)
    : (Outcome, map<string, Bytes>)
  {
    var path := TargetPath(t);
    if path in files || t.filename == "" then (Skipped, files)
    else
      match Answer(server, t.url)
      case Unreachable => (Failed, files)
      case Response(status, body, complete) =>
        if !complete || 400 <= status < 600 then (Failed, files) else (Saved, files[path := body])
  }

  method DownloadFile(disk: Disk, url: string, folder: string, filename: string, server: map<string, Response>)
    returns (outcome: Outcome)
    modifies disk
    ensures (outcome, disk.files) == DownloadEffect(old(disk.files), Target(url, folder, filename), server)
  {
    var path := PathJoin(folder, filename);
    if path in disk.files || filename == "" {
      return Skipped;
    }
    var response := Answer(server, url);
    match response {
      case Unreachable =>
        outcome := Failed;
      case Response(status, body, complete) =>
        if !complete || 400 <= status < 600 {
          outcome := Failed;
        } else {
          disk.files := disk.files[path := body];
          outcome := Saved;
        }
    }
  }

  /** The disk after the downloads `ts`, one after the other. */
  function DownloadAll(files: map<string, Bytes>, ts: seq<Target>, server: map<string, Response>)
    : map<string, Bytes>
    decreases |ts|
  {
    if |ts| == 0 then files
    else DownloadEffect(DownloadAll(files, ts[..|ts| - 1], server), ts[|ts| - 1], server).1
  }

  // ---------------------------------------------------------------------------------------
  // scrape_subject, as the sequence of events it performs.

  datatype Event =
    | SubjectOpened(subject: string, url: string)
    | SessionOpened(subject: string, session: string, url: string)
    | DownloadCalled(subject: string, session: string, item: PdfItem, target: Target)

  type ARun = Run<Event, Crash>

  /** The listing pages the server would return: a URL that is missing is one `get_soup` gave
      up on (None after its retries). */
  datatype Site = Site(subjectPages: map<string, seq<SessionLink>>, sessionPages: map<string, seq<PdfItem>>)

  /** The download targets of a run, in order. */
  function Targets(events: seq<Event>): seq<Target>
    decreases |events|
  {
    if |events| == 0 then []
    else (if events[0].DownloadCalled? then [events[0].target] else []) + Targets(events[1..])
  }

  /** One document of an accepted session. */
  function ItemRun(level: string, subject: string, session: string, allowed: seq<string>, item: PdfItem): ARun {
    if !AcceptDocument(item, allowed) then Done([])
    else
      match item.info.value.href
      case None => Run([], Some(MissingInfoHref))
      case Some(h) =>
        match ResolveFileUrl(h)
        case Err(c) => Run([], Some(c))
        case Ok(u) =>
          Done([DownloadCalled(subject, session, item, Target(u, Folder(level, subject, session), Filename(u)))])
  }

  function ItemStep(level: string, subject: string, session: string, allowed: seq<string>): PdfItem -> ARun {
    item => ItemRun(level, subject, session, allowed, item)
  }

  /** One session link of a subject page. */
  function SessionRun(level: string, subject: string, allowed: seq<string>, site: Site, link: SessionLink): ARun {
    match link.text
    case None => Run([], Some(MissingSessionLabel))
    case Some(name) =>
      if !AcceptSession(name) then Done([])
      else
        match link.href
        case None => Run([], Some(MissingSessionHref))
        case Some(h) => OpenedRun(level, subject, allowed, site, name, SessionUrl(h))
  }

  /** An accepted session, once its URL is known: opened, then its documents, if the page could
      be fetched. */
  function OpenedRun(level: string, subject: string, allowed: seq<string>, site: Site, name: string, url: string): ARun {
    Then(Done([SessionOpened(subject, name, url)]),
         if url in site.sessionPages then Sequence(site.sessionPages[url], ItemStep(level, subject, name, allowed))
         else Done([]))
  }

  function SessionStep(level: string, subject: string, allowed: seq<string>, site: Site): SessionLink -> ARun {
    link => SessionRun(level, subject, allowed, site, link)
  }

  /** One subject. */
  function SubjectRun(level: string, allowed: seq<string>, site: Site, subject: string): ARun {
    var url := SubjectUrl(subject);
    Then(Done([SubjectOpened(subject, url)]),
         if url in site.subjectPages then Sequence(site.subjectPages[url], SessionStep(level, subject, allowed, site))
         else Done([]))
  }

  function SubjectStep(level: string, allowed: seq<string>, site: Site): string -> ARun {
    subject => SubjectRun(level, allowed, site, subject)
  }

  /** `scrape_subject(level, subjects, papers_allowed)`. */
  function ScrapeRun(level: string, subjects: seq<string>, allowed: seq<string>, site: Site): ARun {
    Sequence(subjects, SubjectStep(level, allowed, site))
  }

  /** `main`: AS level, then A level, unless the first ended the program. */
  function MainRun(site: Site): ARun {
    Then(ScrapeRun("AS_Level", AsSubjects, AsPapers, site), ScrapeRun("A_Level", ASubjects, APapers, site))
  }

  // ---------------------------------------------------------------------------------------
  // The loops of scrape_subject, proved against the runs above.

  /** The targets of two runs one after the other. */
  lemma {:induction false} TargetsAppend(a: seq<Event>, b: seq<Event>)
    ensures Targets(a + b) == Targets(a) + Targets(b)
    decreases |a|
  {
    if |a| > 0 {
      assert (a + b)[1..] == a[1..] + b;
      TargetsAppend(a[1..], b);
    } else {
      assert a + b == b;
    }
  }

  /** Downloading `a` then `b` is downloading `a + b`. */
  lemma {:induction false} DownloadAllAppend(files: map<string, Bytes>, a: seq<Target>, b: seq<Target>, server: map<string, Response>)
    ensures DownloadAll(files, a + b, server) == DownloadAll(DownloadAll(files, a, server), b, server)
    decreases |b|
  {
    if |b| == 0 {
      assert a + b == a;
    } else {
      var init := b[..|b| - 1];
      DownloadAllAppend(files, a, init, server);
      assert (a + b)[..|a + b| - 1] == a + init;
      assert (a + b)[|a + b| - 1] == b[|b| - 1];
    }
  }

  /** The disk after the downloads of two runs one after the other. */
  lemma DownloadEvents(files: map<string, Bytes>, a: seq<Event>, b: seq<Event>, server: map<string, Response>)
    ensures DownloadAll(files, Targets(a + b), server) == DownloadAll(DownloadAll(files, Targets(a), server), Targets(b), server)
  {
    TargetsAppend(a, b);
    DownloadAllAppend(files, Targets(a), Targets(b), server);
  }

  /** The body of the innermost loop, for one `div.item-pdf-type`. */
  method VisitItem(disk: Disk, level: string, subject: string, session: string, allowed: seq<string>,
                   item: PdfItem, server: map<string, Response>)
    returns (r: ARun)
    modifies disk
    ensures r == ItemRun(level, subject, session, allowed, item)
    ensures disk.files == DownloadAll(old(disk.files), Targets(r.events), server)
  {
    if item.badge.None? || item.badge.value !in allowed {
      return Done([]);
    }
    if item.title.None? || !Contains(item.title.value, "Question") {
      return Done([]);
    }
    if item.info.None? {
      return Done([]);
    }
    if item.info.value.href.None? {
      return Run([], Some(MissingInfoHref));
    }
    var href := item.info.value.href.value;
    var fileUrl := href;
    if Contains(fileUrl, Redirector) {
      var v := FirstValue(ParseQsl(QueryOf(fileUrl)), "files");
      if v.None? {
        return Run([], Some(MissingFilesValue));
      }
      fileUrl := v.value;
    }
    assert ResolveFileUrl(href) == Ok(fileUrl);
    var filename := Filename(fileUrl);
    var folder := Folder(level, subject, session);
    var _ := DownloadFile(disk, fileUrl, folder, filename, server);
    r := Done([DownloadCalled(subject, session, item, Target(fileUrl, folder, filename))]);
    SingleDownload(old(disk.files), r.events, server);
  }

  lemma SingleDownload(files: map<string, Bytes>, events: seq<Event>, server: map<string, Response>)
    requires |events| == 1 && events[0].DownloadCalled?
    ensures DownloadAll(files, Targets(events), server) == DownloadEffect(files, events[0].target, server).1
  {
    assert Targets(events) == [events[0].target] + Targets([]);
    assert DownloadAll(files, [events[0].target], server)
        == DownloadEffect(DownloadAll(files, [], server), events[0].target, server).1;
  }

  /** `for pdf in pdf_divs`. */
  method VisitItems(disk: Disk, level: string, subject: string, session: string, allowed: seq<string>,
                    items: seq<PdfItem>, server: map<string, Response>)
    returns (r: ARun)
    modifies disk
    ensures r == Sequence(items, ItemStep(level, subject, session, allowed))
    ensures disk.files == DownloadAll(old(disk.files), Targets(r.events), server)
  {
    var step := ItemStep(level, subject, session, allowed);
    r := Done([]);
    for i := 0 to |items|
      invariant r == Sequence(items[..i], step)
      invariant r.crash.None?
      invariant disk.files == DownloadAll(old(disk.files), Targets(r.events), server)
    {
      var s := VisitItem(disk, level, subject, session, allowed, items[i], server);
      assert s == step(items[i]);
      SequencePrefix(items, i, step);
      DownloadEvents(old(disk.files), r.events, s.events, server);
      r := Then(r, s);
      if s.crash.Some? {
        SequenceStopsAt(items, i, step);
        return;
      }
    }
    assert items[..|items|] == items;
  }

  /** The body of `for sess in session_divs`. */
  method VisitSession(disk: Disk, level: string, subject: string, allowed: seq<string>, site: Site,
                      link: SessionLink, server: map<string, Response>)
    returns (r: ARun)
    modifies disk
    ensures r == SessionRun(level, subject, allowed, site, link)
    ensures disk.files == DownloadAll(old(disk.files), Targets(r.events), server)
  {
    if link.text.None? {
      return Run([], Some(MissingSessionLabel));
    }
    var name := link.text.value;
    if Contains(name, "Topical") || Contains(name, "Tropical") {
      return Done([]);
    }
    var year := ExtractYear(name);
    if year.Some? && (year.value < StartYear || year.value > EndYear) {
      return Done([]);
    }
    if link.href.None? {
      return Run([], Some(MissingSessionHref));
    }
    assert AcceptSession(name);
    r := OpenSession(disk, level, subject, allowed, site, name, SessionUrl(link.href.value), server);
  }

  /** The rest of the session loop body: open the session page and visit its documents. */
  method OpenSession(disk: Disk, level: string, subject: string, allowed: seq<string>, site: Site,
                     name: string, url: string, server: map<string, Response>)
    returns (r: ARun)
    modifies disk
    ensures r == OpenedRun(level, subject, allowed, site, name, url)
    ensures disk.files == DownloadAll(old(disk.files), Targets(r.events), server)
  {
    var entry: ARun := Done([SessionOpened(subject, name, url)]);
    assert Targets(entry.events) == [];
    if url !in site.sessionPages {
      assert entry.events + [] == entry.events;
      return entry;
    }
    var inner := VisitItems(disk, level, subject, name, allowed, site.sessionPages[url], server);
    DownloadEvents(old(disk.files), entry.events, inner.events, server);
    r := Then(entry, inner);
  }

  /** `for sess in session_divs`. */
  method VisitSessions(disk: Disk, level: string, subject: string, allowed: seq<string>, site: Site,
                       links: seq<SessionLink>, server: map<string, Response>)
    returns (r: ARun)
    modifies disk
    ensures r == Sequence(links, SessionStep(level, subject, allowed, site))
    ensures disk.files == DownloadAll(old(disk.files), Targets(r.events), server)
  {
    var step := SessionStep(level, subject, allowed, site);
    r := Done([]);
    for i := 0 to |links|
      invariant r == Sequence(links[..i], step)
      invariant r.crash.None?
      invariant disk.files == DownloadAll(old(disk.files), Targets(r.events), server)
    {
      var s := VisitSession(disk, level, subject, allowed, site, links[i], server);
      assert s == step(links[i]);
      SequencePrefix(links, i, step);
      DownloadEvents(old(disk.files), r.events, s.events, server);
      r := Then(r, s);
      if s.crash.Some? {
        SequenceStopsAt(links, i, step);
        return;
      }
    }
    assert links[..|links|] == links;
  }

  /** The body of `for subj in subjects`: a subject page that cannot be fetched is skipped. */
  method VisitSubject(disk: Disk, level: string, allowed: seq<string>, site: Site, subject: string,
                      server: map<string, Response>)
    returns (r: ARun)
    modifies disk
    ensures r == SubjectRun(level, allowed, site, subject)
    ensures disk.files == DownloadAll(old(disk.files), Targets(r.events), server)
  {
    var url := SubjectUrl(subject);
    var entry: ARun := Done([SubjectOpened(subject, url)]);
    assert Targets(entry.events) == [];
    if url !in site.subjectPages {
      assert entry.events + [] == entry.events;
      return entry;
    }
    var inner := VisitSessions(disk, level, subject, allowed, site, site.subjectPages[url], server);
    DownloadEvents(old(disk.files), entry.events, inner.events, server);
    r := Then(entry, inner);
  }

  /** `scrape_subject(level, subjects, papers_allowed)`. */
  method ScrapeSubject(disk: Disk, level: string, subjects: seq<string>, allowed: seq<string>, site: Site,
                       server: map<string, Response>)
    returns (r: ARun)
    modifies disk
    ensures r == ScrapeRun(level, subjects, allowed, site)
    ensures disk.files == DownloadAll(old(disk.files), Targets(r.events), server)
  {
    var step := SubjectStep(level, allowed, site);
    r := Done([]);
    for i := 0 to |subjects|
      invariant r == Sequence(subjects[..i], step)
      invariant r.crash.None?
      invariant disk.files == DownloadAll(old(disk.files), Targets(r.events), server)
    {
      var s := VisitSubject(disk, level, allowed, site, subjects[i], server);
      assert s == step(subjects[i]);
      SequencePrefix(subjects, i, step);
      DownloadEvents(old(disk.files), r.events, s.events, server);
      r := Then(r, s);
      if s.crash.Some? {
        SequenceStopsAt(subjects, i, step);
        return;
      }
    }
    assert subjects[..|subjects|] == subjects;
  }

  /** `main`: the AS-level pass, then the A-level pass unless the first ended the program. */
  method ScrapeBothLevels(disk: Disk, site: Site, server: map<string, Response>)
    returns (r: ARun)
    modifies disk
    ensures r == MainRun(site)
    ensures disk.files == DownloadAll(old(disk.files), Targets(r.events), server)
  {
    var first := ScrapeSubject(disk, "AS_Level", AsSubjects, AsPapers, site, server);
    if first.crash.Some? {
      return first;
    }
    var second := ScrapeSubject(disk, "A_Level", ASubjects, APapers, site, server);
    DownloadEvents(old(disk.files), first.events, second.events, server);
    r := Then(first, second);
  }

  // ---------------------------------------------------------------------------------------
  // What the filters and derivations promise.

  /** A document is downloaded exactly when it passes the filter, its info anchor has an `href`,
      and that link resolves; a document failing the filter does nothing at all. */
  lemma ItemRunDownloads(level: string, subject: string, session: string, allowed: seq<string>, item: PdfItem)
    ensures !AcceptDocument(item, allowed) ==> ItemRun(level, subject, session, allowed, item) == Done([])
    ensures |ItemRun(level, subject, session, allowed, item).events| > 0 <==>
      && AcceptDocument(item, allowed)
      && item.info.value.href.Some?
      && ResolveFileUrl(item.info.value.href.value).Ok?
    ensures ItemRun(level, subject, session, allowed, item).crash.Some? <==>
      && AcceptDocument(item, allowed)
      && (item.info.value.href.None? || ResolveFileUrl(item.info.value.href.value).Err?)
  {
  }

  /** What every download of one document is: a document that passed the filter, whose link
      resolved to the target's URL, saved under the session folder with the derived name. */
  predicate DownloadOk(level: string, allowed: seq<string>, e: Event) {
    && e.DownloadCalled?
    && AcceptDocument(e.item, allowed)
    && e.item.info.value.href.Some?
    && ResolveFileUrl(e.item.info.value.href.value) == Ok(e.target.url)
    && e.target.folder == Folder(level, e.subject, e.session)
    && e.target.filename == Filename(e.target.url)
  }

  /** What every event of a run is. */
  predicate EventOk(level: string, allowed: seq<string>, e: Event) {
    match e
    case SubjectOpened(subject, url) => url == SubjectUrl(subject)
    case SessionOpened(_, name, _) => AcceptSession(name)
    case DownloadCalled(_, name, _, _) => AcceptSession(name) && DownloadOk(level, allowed, e)
  }

  lemma ItemRunSound(level: string, subject: string, session: string, allowed: seq<string>, item: PdfItem)
    ensures forall e :: e in ItemRun(level, subject, session, allowed, item).events ==>
      e.DownloadCalled? && e.subject == subject && e.session == session && DownloadOk(level, allowed, e)
  {
  }

  lemma {:induction false} SessionRunSound(level: string, subject: string, allowed: seq<string>, site: Site, link: SessionLink)
    ensures forall e :: e in SessionRun(level, subject, allowed, site, link).events ==>
      !e.SubjectOpened? && e.subject == subject && EventOk(level, allowed, e)
  {
    if link.text.Some? && AcceptSession(link.text.value) && link.href.Some? {
      OpenedRunSound(level, subject, allowed, site, link.text.value, SessionUrl(link.href.value));
    }
  }

  lemma {:induction false} OpenedRunSound(level: string, subject: string, allowed: seq<string>, site: Site, name: string, url: string)
    requires AcceptSession(name)
    ensures forall e :: e in OpenedRun(level, subject, allowed, site, name, url).events ==>
      !e.SubjectOpened? && e.subject == subject && EventOk(level, allowed, e)
  {
    if url in site.sessionPages {
      var items := site.sessionPages[url];
      var step := ItemStep(level, subject, name, allowed);
      var ok := (e: Event) => e.DownloadCalled? && e.subject == subject && e.session == name && DownloadOk(level, allowed, e);
      forall x | x in items ensures forall e :: e in step(x).events ==> ok(e) {
        ItemRunSound(level, subject, name, allowed, x);
      }
      SequenceEvents(items, step, ok);
    }
  }

  lemma {:induction false} SubjectRunSound(level: string, allowed: seq<string>, site: Site, subject: string)
    ensures forall e :: e in SubjectRun(level, allowed, site, subject).events ==>
      e.subject == subject && EventOk(level, allowed, e)
  {
    var url := SubjectUrl(subject);
    if url in site.subjectPages {
      var links := site.subjectPages[url];
      var step := SessionStep(level, subject, allowed, site);
      var ok := (e: Event) => e.subject == subject && EventOk(level, allowed, e);
      forall x | x in links ensures forall e :: e in step(x).events ==> ok(e) {
        SessionRunSound(level, subject, allowed, site, x);
      }
      SequenceEvents(links, step, ok);
    }
  }

  /** Every event of `scrape_subject`: only listed subjects are visited, only sessions passing the
      name and year filter are opened, and every download is a filtered document saved under
      `level/subject/session` with its resolved URL and derived name. */
  lemma {:induction false} ScrapeRunSound(level: string, subjects: seq<string>, allowed: seq<string>, site: Site)
    ensures forall e :: e in ScrapeRun(level, subjects, allowed, site).events ==>
      e.subject in subjects && EventOk(level, allowed, e)
  {
    var step := SubjectStep(level, allowed, site);
    var ok := (e: Event) => e.subject in subjects && EventOk(level, allowed, e);
    forall x | x in subjects ensures forall e :: e in step(x).events ==> ok(e) {
      SubjectRunSound(level, allowed, site, x);
    }
    SequenceEvents(subjects, step, ok);
  }

  /** A session named "Topical" or "Tropical" is never opened, whatever its year. */
  lemma TopicalNeverOpened(site: Site)
    ensures forall e :: e in MainRun(site).events && e.SessionOpened? ==>
      !Contains(e.session, "Topical") && !Contains(e.session, "Tropical")
  {
    ScrapeRunSound("AS_Level", AsSubjects, AsPapers, site);
    ScrapeRunSound("A_Level", ASubjects, APapers, site);
  }

  /** A session link with a label and an `href` is opened exactly when its label passes the
      filter, and then it is opened first, at `SessionUrl(href)`. */
  lemma SessionOpenedIffAccepted(level: string, subject: string, allowed: seq<string>, site: Site, link: SessionLink)
    requires link.text.Some? && link.href.Some?
    ensures var r := SessionRun(level, subject, allowed, site, link);
      (|r.events| > 0 && r.events[0] == SessionOpened(subject, link.text.value, SessionUrl(link.href.value)))
      <==> AcceptSession(link.text.value)
    ensures !AcceptSession(link.text.value) ==> SessionRun(level, subject, allowed, site, link) == Done([])
  {
  }

  /** A link through the redirector written as `<base>/download_file.php?files=<quote_plus(v)>`
      resolves to `v`. */
  lemma ResolveRedirectRoundTrip(base: string, v: string)
    requires forall i :: 0 <= i < |base| ==> base[i] != '?' && base[i] != '#' && !IsControlOrSpace(base[i])
    requires IsByteText(v) && |v| > 0
    ensures ResolveFileUrl(base + "/download_file.php?files=" + QuotePlus(v)) == Ok(v)
  {
    var enc := QuotePlus(v);
    var prefix := base + "/download_file.php";
    RedirectUrlShape(base, enc);
    ContainsConcat(base + "/", Redirector, enc);
    RedirectPrefixPlain(base);
    RedirectTargetRoundTrip(prefix, v);
  }

  lemma RedirectUrlShape(base: string, enc: string)
    ensures base + "/download_file.php?files=" + enc == base + "/" + Redirector + enc
    ensures base + "/download_file.php?files=" + enc == base + "/download_file.php" + "?files=" + enc
  {
  }

  lemma RedirectPrefixPlain(base: string)
    requires forall i :: 0 <= i < |base| ==> base[i] != '?' && base[i] != '#' && !IsControlOrSpace(base[i])
    ensures var prefix := base + "/download_file.php";
      forall i :: 0 <= i < |prefix| ==> prefix[i] != '?' && prefix[i] != '#' && !IsControlOrSpace(prefix[i])
  {
    var prefix := base + "/download_file.php";
    forall i | 0 <= i < |prefix| ensures prefix[i] != '?' && prefix[i] != '#' && !IsControlOrSpace(prefix[i]) {
      if i >= |base| { assert prefix[i] == "/download_file.php"[i - |base|]; }
    }
  }

  /** The file name is the decoded last segment: the segment holds no `/`, is what follows the
      last `/` of a URL that has one, and is kept as it is when it holds no `%`. */
  lemma FilenameOfSegment(dir: string, segment: string)
    requires '/' !in segment
    ensures Filename(dir + "/" + segment) == Unquote(segment)
    ensures '%' !in segment ==> Filename(dir + "/" + segment) == segment
  {
    AfterLastOf(dir, '/', segment);
  }

  /** Percent-decoding can put a `/` back into the name, so the file is written outside its
      session folder: `<dir>/..%2F<name>` is saved as `../<name>`. */
  lemma FilenameMayClimbOut(dir: string, name: string)
    requires '%' !in name && '/' !in name
    ensures Filename(dir + "/..%2F" + name) == "../" + name
  {
    var segment := ".." + ("%2F" + name);
    ClimbShape(dir, name);
    forall i | 0 <= i < |segment| ensures segment[i] != '/' {
      if i >= 5 { assert segment[i] == name[i - 5]; }
    }
    FilenameOfSegment(dir, segment);
    UnquotePlainPrefix("..", "%2F" + name);
    DecodeSlash(name);
  }

  lemma ClimbShape(dir: string, name: string)
    ensures dir + "/..%2F" + name == dir + "/" + (".." + ("%2F" + name))
    ensures ".." + ("/" + name) == "../" + name
  {
  }

  lemma DecodeSlash(rest: string)
    requires '%' !in rest
    ensures Unquote("%2F" + rest) == "/" + rest
  {
    var s := "%2F" + rest;
    assert s[..3] == "%2F" && s[3..] == rest;
    assert EscapeAt(s);
    assert HexValue('2') == 2 && HexValue('F') == 15;
    assert (16 * 2 + 15) as char == '/';
  }

  /** Exactly one `/` separates the base from the session path, and leading slashes of the link
      do not matter. */
  lemma SessionUrlOneSlash(href: string)
    ensures SessionUrl(href)[..|BaseUrl| + 1] == BaseUrl + "/"
    ensures |SessionUrl(href)| > |BaseUrl| + 1 ==> SessionUrl(href)[|BaseUrl| + 1] != '/'
    ensures SessionUrl("/" + href) == SessionUrl(href)
  {
    assert ("/" + href)[1..] == href;
  }

  /** `level/subject/session` for plain names, while a session name starting with `/` replaces
      the whole folder. */
  lemma FolderLayout(level: string, subject: string, session: string)
    requires level != "" && level[|level| - 1] != '/'
    requires subject != "" && subject[0] != '/' && subject[|subject| - 1] != '/'
    ensures session == "" || session[0] != '/' ==> Folder(level, subject, session) == level + "/" + subject + "/" + session
    ensures StartsWith(session, "/") ==> Folder(level, subject, session) == session
  {
    PathJoinRelative(level, subject);
    var ls := level + "/" + subject;
    assert ls[|ls| - 1] == subject[|subject| - 1];
    if session == "" || session[0] != '/' {
      PathJoinRelative(ls, session);
    }
  }

  // ---------------------------------------------------------------------------------------
  // Downloads and the disk.

  /** A response `raise_for_status` lets through and that was read to the end. */
  predicate Succeeds(response: Response) {
    response.Response? && response.complete && !(400 <= response.status < 600)
  }

  /** One download call never touches an existing file: it writes at most its own path, which
      was absent, with the body of a successful response. */
  lemma DownloadEffectWrites(files: map<string, Bytes>, t: Target, server: map<string, Response>)
    ensures var (outcome, after) := DownloadEffect(files, t, server);
      && (outcome == Skipped <==> TargetPath(t) in files || t.filename == "")
      && (outcome == Saved <==> TargetPath(t) !in files && t.filename != "" && Succeeds(Answer(server, t.url)))
      && (outcome == Saved ==> after == files[TargetPath(t) := Answer(server, t.url).body])
      && (outcome != Saved ==> after == files)
  {
  }

  /** An existing path is skipped with no request: the server's answers do not matter. */
  lemma DownloadExistingSkips(files: map<string, Bytes>, t: Target, server1: map<string, Response>, server2: map<string, Response>)
    requires TargetPath(t) in files
    ensures DownloadEffect(files, t, server1) == DownloadEffect(files, t, server2) == (Skipped, files)
  {
  }

  /** A download once done is not redone: the second identical call is skipped. */
  lemma DownloadTwice(files: map<string, Bytes>, t: Target, server: map<string, Response>)
    ensures var after := DownloadEffect(files, t, server).1;
      DownloadEffect(after, t, server).1 == after
  {
  }

  /** One download call keeps every existing file and settles its own target. */
  lemma EffectKeeps(files: map<string, Bytes>, t: Target, server: map<string, Response>)
    ensures var after := DownloadEffect(files, t, server).1;
      && (forall p :: p in files ==> p in after && after[p] == files[p])
      && Settled(after, t, server)
  {
  }

  /** The files on disk before a run are still there, unchanged, after it. */
  lemma {:induction false} DownloadAllKeeps(files: map<string, Bytes>, ts: seq<Target>, server: map<string, Response>)
    ensures forall p :: p in files ==> p in DownloadAll(files, ts, server) && DownloadAll(files, ts, server)[p] == files[p]
    decreases |ts|
  {
    if |ts| > 0 {
      DownloadAllKeeps(files, ts[..|ts| - 1], server);
      EffectKeeps(DownloadAll(files, ts[..|ts| - 1], server), ts[|ts| - 1], server);
    }
  }

  /** A target whose file exists, that names no file, or whose download cannot succeed. */
  predicate Settled(files: map<string, Bytes>, t: Target, server: map<string, Response>) {
    TargetPath(t) in files || t.filename == "" || !Succeeds(Answer(server, t.url))
  }

  /** After the downloads, every target is settled. */
  lemma {:induction false} DownloadAllSettles(files: map<string, Bytes>, ts: seq<Target>, server: map<string, Response>)
    ensures forall t :: t in ts ==> Settled(DownloadAll(files, ts, server), t, server)
    decreases |ts|
  {
    if |ts| > 0 {
      var init := ts[..|ts| - 1];
      var last := ts[|ts| - 1];
      var before := DownloadAll(files, init, server);
      var after := DownloadAll(files, ts, server);
      assert after == DownloadEffect(before, last, server).1;
      DownloadAllSettles(files, init, server);
      EffectKeeps(before, last, server);
      forall t | t in ts ensures Settled(after, t, server) {
        var k :| 0 <= k < |ts| && ts[k] == t;
        if k < |ts| - 1 {
          assert init[k] == t;
          assert Settled(before, t, server);
        }
      }
    }
  }

  /** Downloads of settled targets change nothing. */
  lemma {:induction false} DownloadAllSettled(files: map<string, Bytes>, ts: seq<Target>, server: map<string, Response>)
    requires forall t :: t in ts ==> Settled(files, t, server)
    ensures DownloadAll(files, ts, server) == files
    decreases |ts|
  {
    if |ts| > 0 {
      DownloadAllSettled(files, ts[..|ts| - 1], server);
      assert ts[|ts| - 1] in ts;
    }
  }

  /** Running the same downloads again, against a server that answers the same, leaves the disk
      as the first run left it. */
  lemma DownloadAllIdempotent(files: map<string, Bytes>, ts: seq<Target>, server: map<string, Response>)
    ensures DownloadAll(DownloadAll(files, ts, server), ts, server) == DownloadAll(files, ts, server)
  {
    DownloadAllSettles(files, ts, server);
    DownloadAllSettled(DownloadAll(files, ts, server), ts, server);
  }

  /** Running the whole program a second time on the same site changes no file. */
  lemma MainRunIdempotent(files: map<string, Bytes>, site: Site, server: map<string, Response>)
    ensures var ts := Targets(MainRun(site).events);
      DownloadAll(DownloadAll(files, ts, server), ts, server) == DownloadAll(files, ts, server)
  {
    DownloadAllIdempotent(files, Targets(MainRun(site).events), server);
  }
}
