/** The O-level scraper: for each subject, the folder links of the subject page are filtered by
    a year occurring anywhere in their sanitised text, each accepted session page's blocks are
    filtered by title and badges into a list of download tasks, and each is downloaded
    into `Past_Papers/subject/session`. */
module OLevel {
  import opened Wrappers
  import opened Strings
  import opened Paths
  import opened Runs
  import opened Lists
  import opened FileSystem
  import opened Query

  const BaseUrl: string := "https://pastpapers.papacambridge.com/"
  /** `BaseUrl` without its path. */
  const Origin: string := "https://pastpapers.papacambridge.com"
  const SaveDir: string := "Past_Papers"
  const Redirector: string := "download_file.php?files="
  const FirstYear: nat := 2017
  /** One past the last year, as in `range(2017, 2026)`. */
  const YearLimit: nat := 2026

  /** An entry of `SUBJECTS`: the folder name and the page path. */
  datatype Subject = Subject(name: string, path: string)

  /** `SUBJECTS`, in its insertion order. */
  const Subjects: seq<Subject> := [
    Subject("O_Level_Physics", "papers/caie/o-level-physics-5054"),
    Subject("O_Level_Chemistry", "papers/caie/o-level-chemistry-5070"),
    Subject("O_Level_Biology", "papers/caie/o-level-biology-5090")
  ]

  // ---------------------------------------------------------------------------------------
  // urljoin against BaseUrl

  predicate IsAsciiLetter(c: char) {
    'a' <= c <= 'z' || 'A' <= c <= 'Z'
  }

  /** The characters `urlsplit` allows in a scheme. */
  predicate IsSchemeChar(c: char) {
    IsAsciiLetter(c) || IsDigit(c) || c == '+' || c == '-' || c == '.'
  }

  predicate AllSchemeChars(s: string)
    decreases |s|
  {
    |s| == 0 || (IsSchemeChar(s[0]) && AllSchemeChars(s[1..]))
  }

  /** The scheme `urlsplit` finds: a letter, then scheme characters, up to the first `:`. */
  function SchemeOf(href: string): (r: Option<string>)
    ensures r.Some? ==> 0 < |r.value| < |href| && href[..|r.value|] == r.value && href[|r.value|] == ':'
  {
    match IndexOf(href, ':')
    case None => None
    case Some(i) =>
      if i > 0 && IsAsciiLetter(href[0]) && AllSchemeChars(href[..i]) then Some(href[..i]) else None
  }

  /** The scheme is `https` once lower-cased, as `urlsplit` lower-cases it. */
  predicate IsHttps(scheme: string) {
    && |scheme| == 5
    && LowerChar(scheme[0]) == 'h' && LowerChar(scheme[1]) == 't' && LowerChar(scheme[2]) == 't'
    && LowerChar(scheme[3]) == 'p' && LowerChar(scheme[4]) == 's'
  }

  lemma IsHttpsLower(scheme: string)
    ensures IsHttps(scheme) <==> Lower(scheme) == "https"
  {
    var l := Lower(scheme);
    if IsHttps(scheme) {
      assert l == [l[0], l[1], l[2], l[3], l[4]];
    }
    if l == "https" {
      assert l[0] == 'h' && l[1] == 't' && l[2] == 't' && l[3] == 'p' && l[4] == 's';
    }
  }

  /** After `//`, a link names a host when a character other than `/`, `?` or `#` follows. */
  predicate HasHost(rest: string) {
    |rest| > 2 && rest[2] != '/' && rest[2] != '?' && rest[2] != '#'
  }

  /** A path, query or fragment with no host, resolved against the base: an empty one is the
      base, an absolute path goes after the base's origin, and anything else after its path `/`. */
  function ResolvePath(path: string): (r: string)
    ensures StartsWith(r, "https://")
  {
    if path == "" then BaseUrl
    else if StartsWith(path, "/") then Origin + path
    else BaseUrl + path
  }

  /** `urljoin(BASE_URL, rest)` for what follows the scheme, or for a link with none: a
      network-path link with a host takes the base's scheme, and any other link is resolved
      against the base on its path part (a `//` with an empty host is dropped). */
  function JoinRelative(rest: string): (r: string)
    ensures StartsWith(r, "https:")
  {
    if StartsWith(rest, "//") then
      if HasHost(rest) then "https:" + rest else ResolvePath(rest[2..])
    else ResolvePath(rest)
  }

  /** `urljoin(BASE_URL, href)` for the links these pages hold. An empty link is the base. Every
      other link is read after `urlsplit`'s clean-up (leading controls and spaces stripped, tabs
      and newlines removed): with a scheme other than `https` the link is kept as it was given,
      and with no scheme or the base's own scheme it is resolved against the base from what
      follows the scheme. */
  function Join(href: string): string {
    if href == "" then BaseUrl
    else
      var h := CleanUrl(href);
      match SchemeOf(h)
      case None => JoinRelative(h)
      case Some(scheme) =>
        if !IsHttps(scheme) then href else JoinRelative(h[|scheme| + 1..])
  }

  /** The links `urljoin(BASE_URL, href)` resolves against the base with no scheme of their own,
      read on the cleaned-up link `h`: the empty link is the base, a plain relative link goes
      after the base, an absolute path after its origin, and a network-path link with a host
      takes the base's scheme. */
  lemma JoinRelativeCases(href: string)
    ensures href == "" ==> Join(href) == BaseUrl
    ensures var h := CleanUrl(href);
      href != "" && SchemeOf(h).None? && !StartsWith(h, "/") ==> Join(href) == BaseUrl + h
    ensures var h := CleanUrl(href);
      href != "" && StartsWith(h, "/") && !StartsWith(h, "//") ==> Join(href) == Origin + h
    ensures var h := CleanUrl(href);
      href != "" && StartsWith(h, "//") && HasHost(h) ==> Join(href) == "https:" + h
  {
    var h := CleanUrl(href);
    if href != "" && StartsWith(h, "/") {
      assert h[0] == '/';
      assert SchemeOf(h).None?;
    }
  }

  /** An `https://` link with a host is the cleaned-up link. */
  lemma JoinHttps(href: string)
    ensures var h := CleanUrl(href);
      StartsWith(h, "https://") && HasHost(h[6..]) ==> Join(href) == h
  {
    var h := CleanUrl(href);
    if StartsWith(h, "https://") && HasHost(h[6..]) {
      assert href != "";
      HttpsScheme(h);
      var rest := h[6..];
      assert h[|"https"| + 1..] == rest;
      assert StartsWith(rest, "//");
      assert JoinRelative(rest) == "https:" + rest;
    }
  }

  /** A link with a scheme other than `https` is kept as it was given. */
  lemma JoinOtherScheme(href: string)
    ensures var h := CleanUrl(href);
      SchemeOf(h).Some? && Lower(SchemeOf(h).value) != "https" ==> Join(href) == href
  {
    var h := CleanUrl(href);
    if SchemeOf(h).Some? {
      IsHttpsLower(SchemeOf(h).value);
    }
  }

  /** A joined link is the link itself or an `https:` URL. */
  lemma JoinAbsolute(href: string)
    ensures Join(href) == href || StartsWith(Join(href), "https:")
  {
  }

  /** An `https://` link has the scheme `https`, and `//` and what follows after it. */
  lemma HttpsScheme(href: string)
    ensures StartsWith(href, "https://") ==> SchemeOf(href) == Some("https") && href == "https:" + href[6..]
  {
    if StartsWith(href, "https://") {
      assert href[..8] == "https://";
      assert href[..5] == "https" && href[5] == ':';
      IndexOfAt(href, ':', 5);
      assert AllSchemeChars("https");
      assert href == href[..6] + href[6..];
    }
  }

  /** The link a block's task downloads: kept when it starts with "http", joined otherwise. */
  function TaskUrl(href: string): (r: string)
    ensures StartsWith(href, "http") ==> r == href
  {
    if StartsWith(href, "http") then href else Join(href)
  }

  // ---------------------------------------------------------------------------------------
  // Session filter and folder names.

  /** `text.replace("/", "-")`. */
  function Sanitise(text: string): (r: string)
    ensures |r| == |text|
    ensures '/' !in r
  {
    ReplaceChar(text, '/', '-')
  }

  /** `str(n)`. */
  function DecimalText(n: nat): (r: string)
    ensures |r| > 0
    decreases n
  {
    if n < 10 then [('0' as int + n) as char] else DecimalText(n / 10) + [('0' as int + n % 10) as char]
  }

  /** `any(str(y) in name for y in range(lo, hi))`. */
  function AnyYearOccurs(name: string, lo: nat, hi: nat): (r: bool)
    ensures r ==> exists y :: 0 <= y && lo <= y < hi && Contains(name, DecimalText(y))
    ensures (exists y :: 0 <= y && lo <= y < hi && Contains(name, DecimalText(y))) ==> r
    decreases hi - lo
  {
    if lo >= hi then false
    else if Contains(name, DecimalText(lo)) then true
    else AnyYearOccurs(name, lo + 1, hi)
  }

  /** The session filter: some year of 2017..2025 written anywhere in the name. Read as a scan of
      the name, it is some `20dd` anywhere in it, inside a longer number or word or not, with a
      value in 2017..2025. */
  function AcceptSession(name: string): (r: bool)
    ensures r <==> exists i :: YearDigitsAt(name, i) && FirstYear <= YearDigitsValue(name, i) < YearLimit
  {
    YearOccursDigits(name);
    AnyYearOccurs(name, FirstYear, YearLimit)
  }

  // ---------------------------------------------------------------------------------------
  // The block filter and the list of downloads.

  /** One `.item-pdf-type` block: its whole text (stripped pieces run together), the stripped
      text of each `.badge`, and the `href` of each anchor that has one, in document order. */
  datatype Block = Block(text: string, badges: seq<string>, hrefs: seq<string>)

  /** The title filter, on the lower-cased text: "question paper" occurs in the text, case
      ignored, and none of "mark scheme", "insert" and "grade threshold" does. */
  function AcceptTitle(text: string): (r: bool)
    ensures r <==>
      && OccursIgnoringCase(text, "question paper")
      && !OccursIgnoringCase(text, "mark scheme")
      && !OccursIgnoringCase(text, "insert")
      && !OccursIgnoringCase(text, "grade threshold")
  {
    var title := Lower(text);
    ContainsLower(text, "question paper");
    ContainsLower(text, "mark scheme");
    ContainsLower(text, "insert");
    ContainsLower(text, "grade threshold");
    && Contains(title, "question paper")
    && !Contains(title, "mark scheme")
    && !Contains(title, "insert")
    && !Contains(title, "grade threshold")
  }

  /** `any("paper 1" in b or "paper 2" in b for b in badges)`, on lower-cased badges. */
  function AnyPaperBadge(badges: seq<string>): (r: bool)
    ensures r <==> exists k :: 0 <= k < |badges|
                              && (Contains(Lower(badges[k]), "paper 1") || Contains(Lower(badges[k]), "paper 2"))
  {
    if |badges| == 0 then false
    else
      var b := Lower(badges[0]);
      if Contains(b, "paper 1") || Contains(b, "paper 2") then true
      else
        assert forall k :: 1 <= k < |badges| ==> badges[k] == badges[1..][k - 1];
        AnyPaperBadge(badges[1..])
  }

  /** The first anchor whose `href` contains the redirector. */
  function DownloadHref(hrefs: seq<string>): (r: Option<string>)
    ensures r.None? <==> forall k :: 0 <= k < |hrefs| ==> !Contains(hrefs[k], Redirector)
    ensures r.Some? ==> exists k :: 0 <= k < |hrefs| && hrefs[k] == r.value && Contains(r.value, Redirector)
                                    && forall j :: 0 <= j < k ==> !Contains(hrefs[j], Redirector)
  {
    if |hrefs| == 0 then None
    else if Contains(hrefs[0], Redirector) then Some(hrefs[0])
    else
      var r := DownloadHref(hrefs[1..]);
      assert forall k :: 1 <= k < |hrefs| ==> hrefs[k] == hrefs[1..][k - 1];
      if r.Some? then
        var k :| 0 <= k < |hrefs[1..]| && hrefs[1..][k] == r.value && Contains(r.value, Redirector)
                 && forall j :: 0 <= j < k ==> !Contains(hrefs[1..][j], Redirector);
        assert hrefs[k + 1] == r.value;
        r
      else r
  }

  /** One download: the file URL and the session folder. */
  datatype Task = Task(url: string, folder: string)

  /** What a block adds to the list of downloads, if anything. */
  function BlockTask(b: Block, folder: string): Option<Task> {
    if !(AcceptTitle(b.text) && AnyPaperBadge(b.badges)) then None
    else
      match DownloadHref(b.hrefs)
      case None => None
      case Some(h) => Some(Task(TaskUrl(h), folder))
  }

  function TaskOf(folder: string): Block -> Option<Task> {
    b => BlockTask(b, folder)
  }

  /** `tasks` after the loop of `scrape_pdfs`. */
  function TasksOf(blocks: seq<Block>, folder: string): seq<Task> {
    FilterMap(blocks, TaskOf(folder))
  }

  /** This task-building loop of `scrape_pdfs`. */
  method BuildTasks(blocks: seq<Block>, folder: string) returns (tasks: seq<Task>)
    ensures tasks == TasksOf(blocks, folder)
  {
    tasks := [];
    for i := 0 to |blocks|
      invariant tasks == TasksOf(blocks[..i], folder)
    {
      assert blocks[..i + 1][..i] == blocks[..i];
      assert TaskOf(folder)(blocks[i]) == BlockTask(blocks[i], folder);
      var pdf := blocks[i];
      if !AcceptTitle(pdf.text) {
        continue;
      }
      if !AnyPaperBadge(pdf.badges) {
        continue;
      }
      var tag := DownloadHref(pdf.hrefs);
      if tag.Some? {
        var url := tag.value;
        if !StartsWith(url, "http") {
          url := Join(url);
        }
        tasks := tasks + [Task(url, folder)];
      }
    }
    assert blocks[..|blocks|] == blocks;
  }

  // ---------------------------------------------------------------------------------------
  // download_pdf

  /** The file name: the raw text after the last `/` of the URL. */
  function FileName(url: string): string {
    AfterLast(url, '/')
  }

  /** Where a task's file lands. */
  function TaskPath(t: Task): string {
    PathJoin(t.folder, FileName(t.url))
  }

  /** The file name is the last `/`-separated segment of the URL: it holds no `/`, ends the URL,
      and is the whole URL or follows a `/`. */
  lemma FileNameShape(url: string)
    ensures var name := FileName(url);
      && '/' !in name
      && |name| <= |url| && name == url[|url| - |name|..]
      && (|name| < |url| ==> url[|url| - |name| - 1] == '/')
  {
  }

  /** A task's file lands in its session folder: the folder, one `/` and the file name, and it
      always ends with the file name. */
  lemma TaskPathShape(t: Task)
    ensures var name := FileName(t.url); var r := TaskPath(t);
      |r| >= |name| && r[|r| - |name|..] == name
    ensures t.folder != "" && t.folder[|t.folder| - 1] != '/' ==> TaskPath(t) == t.folder + "/" + FileName(t.url)
  {
    var name := FileName(t.url);
    assert '/' !in name;
    assert !StartsWith(name, "/") by {
      if |name| > 0 {
        assert name[0] in name;
      }
    }
    assert TaskPath(t) == PathJoin(t.folder, name);
  }

  /** `download_pdf`: an existing path (or an empty name, which names the session folder) is
      skipped with no request; a status other than 200 writes nothing; a 200 response is
      streamed into the file, so a broken stream leaves what arrived on disk. */
  function DownloadEffect(files: map<string, Bytes>, t: Task, server: map<string, Response>)
    : (Outcome, map<string, Bytes>)
  {
    var path := TaskPath(t);
    if path in files || FileName(t.url) == "" then (Skipped, files)
    else
      match Answer(server, t.url)
      case Unreachable => (Failed, files)
      case Response(status, body, complete) =>
        if status != 200 then (Failed, files)
        else if complete then (Saved, files[path := body])
        else (Failed, files[path := body])
  }

  method DownloadPdf(disk: Disk, url: string, folder: string, server: map<string, Response>)
    returns (outcome: Outcome)
    modifies disk
    ensures (outcome, disk.files) == DownloadEffect(old(disk.files), Task(url, folder), server)
  {
    var name := AfterLast(url, '/');
    var path := PathJoin(folder, name);
    assert name == FileName(url) && path == TaskPath(Task(url, folder));
    if path in disk.files || name == "" {
      return Skipped;
    }
    var response := Answer(server, url);
    match response {
      case Unreachable =>
        outcome := Failed;
      case Response(status, body, complete) =>
        if status == 200 {
          disk.files := disk.files[path := body];
          outcome := if complete then Saved else Failed;
        } else {
          outcome := Failed;
        }
    }
  }

  /** The disk after the downloads `ts`, one after the other. */
  function DownloadAll(files: map<string, Bytes>, ts: seq<Task>, server: map<string, Response>): map<string, Bytes>
    decreases |ts|
  {
    if |ts| == 0 then files
    else DownloadEffect(DownloadAll(files, ts[..|ts| - 1], server), ts[|ts| - 1], server).1
  }

  // ---------------------------------------------------------------------------------------
  // The run of the program.

  /** A folder anchor of a subject page that has an `href`: its stripped text and its link. */
  datatype FolderLink = FolderLink(text: string, href: string)

  /** The pages the server would return; a missing URL is one whose fetch raised. */
  datatype Site = Site(subjectPages: map<string, seq<FolderLink>>, sessionPages: map<string, seq<Block>>)

  datatype Event =
    | SubjectOpened(subject: string, url: string)
    | SessionOpened(subject: string, session: string, url: string)
    | Download(subject: string, session: string, task: Task)

  /** `get_soup` raising: the request failed or `raise_for_status` refused the answer. */
  datatype Crash = PageUnavailable(url: string)

  type ORun = Run<Event, Crash>

  /** The anchors the folder selector picks: an `href` containing "o-level-" or "a-level-". */
  function SessionFolders(links: seq<FolderLink>): (r: seq<FolderLink>)
    ensures forall k :: 0 <= k < |r| ==> r[k] in links
    ensures forall k :: 0 <= k < |r| ==> Contains(r[k].href, "o-level-") || Contains(r[k].href, "a-level-")
    ensures forall l :: l in links && (Contains(l.href, "o-level-") || Contains(l.href, "a-level-")) ==> l in r
    decreases |links|
  {
    if |links| == 0 then []
    else
      var l := links[0];
      var rest := SessionFolders(links[1..]);
      if Contains(l.href, "o-level-") || Contains(l.href, "a-level-") then [l] + rest else rest
  }

  /** The selection of two runs of anchors is the selection of each, in document order. */
  lemma {:induction false} SessionFoldersAppend(a: seq<FolderLink>, b: seq<FolderLink>)
    ensures SessionFolders(a + b) == SessionFolders(a) + SessionFolders(b)
    decreases |a|
  {
    if |a| == 0 {
      assert a + b == b;
    } else {
      assert (a + b)[0] == a[0];
      assert (a + b)[1..] == a[1..] + b;
      SessionFoldersAppend(a[1..], b);
    }
  }

  /** One anchor is selected once when its href contains "o-level-" or "a-level-", and not at
      all otherwise. */
  lemma SessionFoldersOne(l: FolderLink)
    ensures SessionFolders([l]) == if Contains(l.href, "o-level-") || Contains(l.href, "a-level-") then [l] else []
  {
    assert [l][1..] == [];
  }

  /** One download event per task, in order. */
  function Downloads(subject: string, session: string, tasks: seq<Task>): (r: seq<Event>)
    ensures |r| == |tasks|
    ensures forall k :: 0 <= k < |r| ==> r[k] == Download(subject, session, tasks[k])
  {
    seq(|tasks|, k requires 0 <= k < |tasks| => Download(subject, session, tasks[k]))
  }

  /** `scrape_pdfs(session_url, session_folder)`: each download of the session page, performed in
      order. */
  function PdfsRun(site: Site, subject: string, session: string, url: string): ORun {
    if url in site.sessionPages then Done(Downloads(subject, session, TasksOf(site.sessionPages[url], SessionFolder(subject, session))))
    else Run([], Some(PageUnavailable(url)))
  }

  function SessionFolder(subject: string, session: string): string {
    PathJoin(PathJoin(SaveDir, subject), session)
  }

  /** One folder anchor of a subject page. */
  function FolderRun(site: Site, subject: string, link: FolderLink): ORun {
    var session := Sanitise(link.text);
    if !AcceptSession(session) then Done([])
    else
      var url := Join(link.href);
      Then(Done([SessionOpened(subject, session, url)]), PdfsRun(site, subject, session, url))
  }

  function FolderStep(site: Site, subject: string): FolderLink -> ORun {
    link => FolderRun(site, subject, link)
  }

  /** `scrape_subject(subject_name, subject_path)`. */
  function SubjectRun(site: Site, subject: Subject): ORun {
    var url := Join(subject.path);
    Then(Done([SubjectOpened(subject.name, url)]),
         if url in site.subjectPages then Sequence(SessionFolders(site.subjectPages[url]), FolderStep(site, subject.name))
         else Run([], Some(PageUnavailable(url))))
  }

  function SubjectStep(site: Site): Subject -> ORun {
    subject => SubjectRun(site, subject)
  }

  /** The main block: every subject in turn, until a page cannot be fetched. */
  function MainRun(site: Site): ORun {
    Sequence(Subjects, SubjectStep(site))
  }

  /** The downloads of a run, in order. */
  function TasksIn(events: seq<Event>): seq<Task>
    decreases |events|
  {
    if |events| == 0 then []
    else (if events[0].Download? then [events[0].task] else []) + TasksIn(events[1..])
  }

  // ---------------------------------------------------------------------------------------
  // The loops, proved against the runs above.

  lemma {:induction false} TasksInAppend(a: seq<Event>, b: seq<Event>)
    ensures TasksIn(a + b) == TasksIn(a) + TasksIn(b)
    decreases |a|
  {
    if |a| > 0 {
      assert (a + b)[1..] == a[1..] + b;
      TasksInAppend(a[1..], b);
    } else {
      assert a + b == b;
    }
  }

  lemma {:induction false} TasksInDownloads(subject: string, session: string, tasks: seq<Task>)
    ensures TasksIn(Downloads(subject, session, tasks)) == tasks
    decreases |tasks|
  {
    if |tasks| > 0 {
      assert Downloads(subject, session, tasks)[1..] == Downloads(subject, session, tasks[1..]);
      TasksInDownloads(subject, session, tasks[1..]);
    }
  }

  lemma {:induction false} DownloadAllAppend(files: map<string, Bytes>, a: seq<Task>, b: seq<Task>, server: map<string, Response>)
    ensures DownloadAll(files, a + b, server) == DownloadAll(DownloadAll(files, a, server), b, server)
    decreases |b|
  {
    if |b| == 0 {
      assert a + b == a;
    } else {
      var init := b[..|b| - 1];
      DownloadAllAppend(files, a, init, server);
      assert (a + b)[..|a + b| - 1] == a + init;
      assert (a + b)[|a + b| - 1] == b[|b| - 1];
    }
  }

  lemma DownloadAllStep(files: map<string, Bytes>, ts: seq<Task>, k: nat, server: map<string, Response>)
    requires k < |ts|
    ensures DownloadAll(files, ts[..k + 1], server) == DownloadEffect(DownloadAll(files, ts[..k], server), ts[k], server).1
  {
    assert ts[..k + 1][..k] == ts[..k];
  }

  /** The disk after the downloads of two runs one after the other. */
  lemma DownloadEvents(files: map<string, Bytes>, a: seq<Event>, b: seq<Event>, server: map<string, Response>)
    ensures DownloadAll(files, TasksIn(a + b), server) == DownloadAll(DownloadAll(files, TasksIn(a), server), TasksIn(b), server)
  {
    TasksInAppend(a, b);
    DownloadAllAppend(files, TasksIn(a), TasksIn(b), server);
  }

  /** `scrape_pdfs`: fetch the page, build its task list, then download each task; the thread
      pool is run here one task after the other. */
  method ScrapePdfs(disk: Disk, site: Site, subject: string, session: string, url: string, server: map<string, Response>)
    returns (r: ORun)
    modifies disk
    ensures r == PdfsRun(site, subject, session, url)
    ensures disk.files == DownloadAll(old(disk.files), TasksIn(r.events), server)
  {
    if url !in site.sessionPages {
      return Run([], Some(PageUnavailable(url)));
    }
    var tasks := BuildTasks(site.sessionPages[url], SessionFolder(subject, session));
    for i := 0 to |tasks|
      invariant disk.files == DownloadAll(old(disk.files), tasks[..i], server)
    {
      assert Task(tasks[i].url, tasks[i].folder) == tasks[i];
      DownloadAllStep(old(disk.files), tasks, i, server);
      var _ := DownloadPdf(disk, tasks[i].url, tasks[i].folder, server);
    }
    assert tasks[..|tasks|] == tasks;
    r := Done(Downloads(subject, session, tasks));
    TasksInDownloads(subject, session, tasks);
  }

  /** The body of `for folder in folders`. */
  method VisitFolder(disk: Disk, site: Site, subject: string, link: FolderLink, server: map<string, Response>)
    returns (r: ORun)
    modifies disk
    ensures r == FolderRun(site, subject, link)
    ensures disk.files == DownloadAll(old(disk.files), TasksIn(r.events), server)
  {
    var session := Sanitise(link.text);
    if !AnyYearOccurs(session, FirstYear, YearLimit) {
      return Done([]);
    }
    var url := Join(link.href);
    var entry: ORun := Done([SessionOpened(subject, session, url)]);
    assert TasksIn(entry.events) == [];
    var inner := ScrapePdfs(disk, site, subject, session, url, server);
    DownloadEvents(old(disk.files), entry.events, inner.events, server);
    r := Then(entry, inner);
  }

  /** `scrape_subject`: fetch the subject page, then visit its session folders in order. */
  method ScrapeSubject(disk: Disk, site: Site, subject: Subject, server: map<string, Response>)
    returns (r: ORun)
    modifies disk
    ensures r == SubjectRun(site, subject)
    ensures disk.files == DownloadAll(old(disk.files), TasksIn(r.events), server)
  {
    var url := Join(subject.path);
    var entry: ORun := Done([SubjectOpened(subject.name, url)]);
    assert TasksIn(entry.events) == [];
    if url !in site.subjectPages {
      return Then(entry, Run([], Some(PageUnavailable(url))));
    }
    var inner := VisitFolders(disk, site, subject.name, SessionFolders(site.subjectPages[url]), server);
    DownloadEvents(old(disk.files), entry.events, inner.events, server);
    r := Then(entry, inner);
  }

  /** The loop `for folder in folders` of `scrape_subject`: the folders in order, until a page
      cannot be fetched. */
  method VisitFolders(disk: Disk, site: Site, subject: string, folders: seq<FolderLink>, server: map<string, Response>)
    returns (inner: ORun)
    modifies disk
    ensures inner == Sequence(folders, FolderStep(site, subject))
    ensures disk.files == DownloadAll(old(disk.files), TasksIn(inner.events), server)
  {
    var step := FolderStep(site, subject);
    inner := Done([]);
    for i := 0 to |folders|
      invariant inner == Sequence(folders[..i], step)
      invariant inner.crash.None?
      invariant disk.files == DownloadAll(old(disk.files), TasksIn(inner.events), server)
    {
      var s := VisitFolder(disk, site, subject, folders[i], server);
      assert s == step(folders[i]);
      SequencePrefix(folders, i, step);
      DownloadEvents(old(disk.files), inner.events, s.events, server);
      inner := Then(inner, s);
      if s.crash.Some? {
        SequenceStopsAt(folders, i, step);
        return;
      }
    }
    assert folders[..|folders|] == folders;
  }

  /** The main block: `scrape_subject` for each entry of `SUBJECTS`. */
  method ScrapeAll(disk: Disk, site: Site, server: map<string, Response>)
    returns (r: ORun)
    modifies disk
    ensures r == MainRun(site)
    ensures disk.files == DownloadAll(old(disk.files), TasksIn(r.events), server)
  {
    var step := SubjectStep(site);
    r := Done([]);
    for i := 0 to |Subjects|
      invariant r == Sequence(Subjects[..i], step)
      invariant r.crash.None?
      invariant disk.files == DownloadAll(old(disk.files), TasksIn(r.events), server)
    {
      var s := ScrapeSubject(disk, site, Subjects[i], server);
      assert s == step(Subjects[i]);
      SequencePrefix(Subjects, i, step);
      DownloadEvents(old(disk.files), r.events, s.events, server);
      r := Then(r, s);
      if s.crash.Some? {
        SequenceStopsAt(Subjects, i, step);
        return;
      }
    }
    assert Subjects[..|Subjects|] == Subjects;
  }

  // ---------------------------------------------------------------------------------------
  // What the filters and derivations promise.

  /** `20dd` at `i`, with no condition on its neighbours. */
  predicate YearDigitsAt(name: string, i: int) {
    && 0 <= i && i + 4 <= |name|
    && name[i] == '2' && name[i + 1] == '0' && IsDigit(name[i + 2]) && IsDigit(name[i + 3])
  }

  function YearDigitsValue(name: string, i: int): int
    requires YearDigitsAt(name, i)
  {
    2000 + 10 * DigitValue(name[i + 2]) + DigitValue(name[i + 3])
  }

  function DigitChar(d: nat): char
    requires d < 10
  {
    ('0' as int + d) as char
  }

  /** `str(y)` for a year of this century is `20` and its two last digits. */
  lemma DecimalTextYear(a: nat, b: nat)
    requires a < 10 && b < 10
    ensures DecimalText(2000 + 10 * a + b) == ['2', '0', DigitChar(a), DigitChar(b)]
  {
    var n := 2000 + 10 * a + b;
    assert n / 10 == 200 + a && n % 10 == b;
    assert (200 + a) / 10 == 20 && (200 + a) % 10 == a;
    assert DecimalText(20) == ['2', '0'];
  }

  /** Some year of 2017..2025 written in the name is some `20dd` of the name with such a value. */
  lemma YearOccursDigits(name: string)
    ensures AnyYearOccurs(name, FirstYear, YearLimit) <==>
      exists i :: YearDigitsAt(name, i) && FirstYear <= YearDigitsValue(name, i) < YearLimit
  {
    if AnyYearOccurs(name, FirstYear, YearLimit) {
      var y :| 0 <= y && FirstYear <= y < YearLimit && Contains(name, DecimalText(y));
      var i :| ContainsAt(name, DecimalText(y), i);
      YearTextFound(name, y, i);
    }
    if i :| YearDigitsAt(name, i) && FirstYear <= YearDigitsValue(name, i) < YearLimit {
      YearDigitsFound(name, i);
    }
  }

  lemma YearTextFound(name: string, y: nat, i: int)
    requires 2000 <= y < 2100 && ContainsAt(name, DecimalText(y), i)
    ensures YearDigitsAt(name, i) && YearDigitsValue(name, i) == y
  {
    var a, b := (y - 2000) / 10, y % 10;
    assert y == 2000 + 10 * a + b;
    DecimalTextYear(a, b);
    var t := DecimalText(y);
    assert |t| == 4;
    assert name[i..i + 4] == t;
    assert name[i] == t[0] && name[i + 1] == t[1] && name[i + 2] == t[2] && name[i + 3] == t[3];
  }

  lemma YearDigitsFound(name: string, i: int)
    requires YearDigitsAt(name, i)
    ensures ContainsAt(name, DecimalText(YearDigitsValue(name, i)), i)
  {
    var a, b := DigitValue(name[i + 2]), DigitValue(name[i + 3]);
    DecimalTextYear(a, b);
    assert DigitChar(a) == name[i + 2] && DigitChar(b) == name[i + 3];
    assert name[i..i + 4] == ['2', '0', name[i + 2], name[i + 3]];
  }

  /** The sanitised name is the text with each `/` turned into `-`, and sanitising again changes
      nothing. */
  lemma SanitiseFacts(text: string)
    ensures forall i :: 0 <= i < |text| ==> Sanitise(text)[i] == (if text[i] == '/' then '-' else text[i])
    ensures Sanitise(Sanitise(text)) == Sanitise(text)
    ensures '/' !in text ==> Sanitise(text) == text
  {
  }

  /** The title filter does not see case. */
  lemma AcceptTitleIgnoresCase(text: string)
    ensures AcceptTitle(Lower(text)) == AcceptTitle(text)
  {
    LowerIdempotent(text);
  }

  /** A block yields a task exactly when its title and badges pass and it has a redirector link;
      that task is the link, absolutised, in the given folder. */
  lemma BlockTaskIff(b: Block, folder: string)
    ensures BlockTask(b, folder).Some? <==> AcceptTitle(b.text) && AnyPaperBadge(b.badges) && DownloadHref(b.hrefs).Some?
    ensures BlockTask(b, folder).Some? ==>
      BlockTask(b, folder).value == Task(TaskUrl(DownloadHref(b.hrefs).value), folder)
  {
  }

  /** A task list of consecutive listings is the concatenation of their task lists: tasks come
      out in listing order. */
  lemma TasksOfAppend(a: seq<Block>, b: seq<Block>, folder: string)
    ensures TasksOf(a + b, folder) == TasksOf(a, folder) + TasksOf(b, folder)
  {
    FilterMapAppend(a, b, TaskOf(folder));
  }

  /** Every task comes from an accepted block of the listing, and is in the session folder. */
  lemma TasksOfSound(blocks: seq<Block>, folder: string, t: Task)
    requires t in TasksOf(blocks, folder)
    ensures t.folder == folder
    ensures exists k :: 0 <= k < |blocks| && BlockTask(blocks[k], folder) == Some(t)
  {
    FilterMapSound(blocks, TaskOf(folder), t);
    var k :| 0 <= k < |blocks| && TaskOf(folder)(blocks[k]) == Some(t);
    assert BlockTask(blocks[k], folder) == Some(t);
  }

  /** Every accepted block of the listing adds its task. */
  lemma TasksOfComplete(blocks: seq<Block>, folder: string, k: nat, t: Task)
    requires k < |blocks| && BlockTask(blocks[k], folder) == Some(t)
    ensures t in TasksOf(blocks, folder)
  {
    assert TaskOf(folder)(blocks[k]) == Some(t);
    FilterMapComplete(blocks, TaskOf(folder), k, t);
  }

  /** A link starting with "http" is kept; a relative link with no `:` and no leading `/` is
      appended, once cleaned up, to the base. */
  lemma TaskUrlRelative(href: string)
    requires href != "" && ':' !in href && !StartsWith(CleanUrl(href), "/")
    ensures TaskUrl(href) == if StartsWith(href, "http") then href else BaseUrl + CleanUrl(href)
  {
    CleanUrlDrops(href);
  }

  /** Absolutising an absolutised link changes nothing. */
  lemma TaskUrlIdempotent(href: string)
    ensures TaskUrl(TaskUrl(href)) == TaskUrl(href)
  {
    JoinAbsolute(href);
  }

  // ---------------------------------------------------------------------------------------
  // Downloads and the disk.

  /** What a call writes to a free path: the body of a 200 response, whole or, when the stream
      broke, truncated; nothing for an empty name. */
  function Written(t: Task, server: map<string, Response>): Option<Bytes> {
    if FileName(t.url) == "" then None
    else
      match Answer(server, t.url)
      case Unreachable => None
      case Response(status, body, _) => if status == 200 then Some(body) else None
  }

  /** One download call never touches an existing file: it writes at most its own path, when that
      was absent, with what a 200 response delivered; it saves only a complete one. */
  lemma DownloadEffectWrites(files: map<string, Bytes>, t: Task, server: map<string, Response>)
    ensures DownloadEffect(files, t, server).0 == Skipped <==> TaskPath(t) in files || FileName(t.url) == ""
    ensures DownloadEffect(files, t, server).0 == Saved <==>
      && TaskPath(t) !in files && FileName(t.url) != ""
      && Answer(server, t.url).Response? && Answer(server, t.url).status == 200 && Answer(server, t.url).complete
    ensures DownloadEffect(files, t, server).1 == WriteIfAbsent(files, TaskPath(t), Written(t, server))
  {
  }

  /** The disk after writing `w`, if any, to `path` when `path` is free. */
  function WriteIfAbsent(files: map<string, Bytes>, path: string, w: Option<Bytes>): (r: map<string, Bytes>)
    ensures files.Keys <= r.Keys
    ensures forall p :: p in files ==> r[p] == files[p]
  {
    if path in files then files else match w case None => files case Some(body) => files[path := body]
  }

  lemma WritesCommute(files: map<string, Bytes>, p: string, v: Option<Bytes>, q: string, w: Option<Bytes>)
    requires p != q
    ensures WriteIfAbsent(WriteIfAbsent(files, p, v), q, w) == WriteIfAbsent(WriteIfAbsent(files, q, w), p, v)
  {
    if p !in files && q !in files && v.Some? && w.Some? {
      assert files[p := v.value][q := w.value] == files[q := w.value][p := v.value];
    }
  }

  /** A stream that broke leaves a truncated file, and every later call skips it, whatever the
      server then answers: the truncated file is never repaired. */
  lemma PartialFileSticks(files: map<string, Bytes>, t: Task, server: map<string, Response>, later: map<string, Response>)
    requires TaskPath(t) !in files && FileName(t.url) != ""
    requires Answer(server, t.url).Response? && Answer(server, t.url).status == 200 && !Answer(server, t.url).complete
    ensures var (outcome, after) := DownloadEffect(files, t, server);
      && outcome == Failed
      && after == files[TaskPath(t) := Answer(server, t.url).body]
      && DownloadEffect(after, t, later) == (Skipped, after)
  {
  }

  /** Two downloads to different paths give the same disk in either order. */
  lemma DownloadsCommute(files: map<string, Bytes>, a: Task, b: Task, server: map<string, Response>)
    requires TaskPath(a) != TaskPath(b)
    ensures DownloadEffect(DownloadEffect(files, a, server).1, b, server).1
         == DownloadEffect(DownloadEffect(files, b, server).1, a, server).1
  {
    var fa := DownloadEffect(files, a, server).1;
    var fb := DownloadEffect(files, b, server).1;
    DownloadEffectWrites(files, a, server);
    DownloadEffectWrites(files, b, server);
    DownloadEffectWrites(fa, b, server);
    DownloadEffectWrites(fb, a, server);
    WritesCommute(files, TaskPath(a), Written(a, server), TaskPath(b), Written(b, server));
  }

  /** A task whose file exists, that names no file, or whose request cannot answer 200. */
  predicate Settled(files: map<string, Bytes>, t: Task, server: map<string, Response>) {
    TaskPath(t) in files || FileName(t.url) == "" || !(Answer(server, t.url).Response? && Answer(server, t.url).status == 200)
  }

  /** One download settles its own task and removes no file. */
  lemma EffectSettles(files: map<string, Bytes>, t: Task, server: map<string, Response>)
    ensures Settled(DownloadEffect(files, t, server).1, t, server)
    ensures files.Keys <= DownloadEffect(files, t, server).1.Keys
  {
    DownloadEffectWrites(files, t, server);
  }

  lemma SettledGrows(before: map<string, Bytes>, after: map<string, Bytes>, t: Task, server: map<string, Response>)
    requires Settled(before, t, server) && before.Keys <= after.Keys
    ensures Settled(after, t, server)
  {
  }

  lemma {:induction false} DownloadAllKeeps(files: map<string, Bytes>, ts: seq<Task>, server: map<string, Response>)
    ensures forall p :: p in files ==> p in DownloadAll(files, ts, server) && DownloadAll(files, ts, server)[p] == files[p]
    decreases |ts|
  {
    if |ts| > 0 {
      var before := DownloadAll(files, ts[..|ts| - 1], server);
      DownloadAllKeeps(files, ts[..|ts| - 1], server);
      DownloadEffectWrites(before, ts[|ts| - 1], server);
      assert DownloadAll(files, ts, server) == WriteIfAbsent(before, TaskPath(ts[|ts| - 1]), Written(ts[|ts| - 1], server));
    }
  }

  lemma {:induction false} DownloadAllSettles(files: map<string, Bytes>, ts: seq<Task>, server: map<string, Response>)
    ensures forall t :: t in ts ==> Settled(DownloadAll(files, ts, server), t, server)
    decreases |ts|
  {
    if |ts| > 0 {
      var init, last := ts[..|ts| - 1], ts[|ts| - 1];
      DownloadAllSettles(files, init, server);
      var before := DownloadAll(files, init, server);
      SettlesLast(before, init, last, server);
      var after := DownloadEffect(before, last, server).1;
      DownloadAllLast(files, ts, server);
      forall t | t in ts ensures Settled(after, t, server) {
        var k :| 0 <= k < |ts| && ts[k] == t;
        if k < |ts| - 1 {
          assert init[k] == t;
        }
      }
    }
  }

  lemma DownloadAllLast(files: map<string, Bytes>, ts: seq<Task>, server: map<string, Response>)
    requires |ts| > 0
    ensures DownloadAll(files, ts, server) == DownloadEffect(DownloadAll(files, ts[..|ts| - 1], server), ts[|ts| - 1], server).1
  {
  }

  /** Downloading one more task keeps the earlier tasks settled and settles the new one. */
  lemma SettlesLast(before: map<string, Bytes>, init: seq<Task>, last: Task, server: map<string, Response>)
    requires forall t :: t in init ==> Settled(before, t, server)
    ensures forall t :: t in init ==> Settled(DownloadEffect(before, last, server).1, t, server)
    ensures Settled(DownloadEffect(before, last, server).1, last, server)
  {
    var after := DownloadEffect(before, last, server).1;
    EffectSettles(before, last, server);
    forall t | t in init ensures Settled(after, t, server) {
      SettledGrows(before, after, t, server);
    }
  }

  lemma {:induction false} DownloadAllSettled(files: map<string, Bytes>, ts: seq<Task>, server: map<string, Response>)
    requires forall t :: t in ts ==> Settled(files, t, server)
    ensures DownloadAll(files, ts, server) == files
    decreases |ts|
  {
    if |ts| > 0 {
      DownloadAllSettled(files, ts[..|ts| - 1], server);
      assert ts[|ts| - 1] in ts;
    }
  }

  /** Running the same tasks again, against a server that answers the same, leaves the disk as
      the first run left it. */
  lemma DownloadAllIdempotent(files: map<string, Bytes>, ts: seq<Task>, server: map<string, Response>)
    ensures DownloadAll(DownloadAll(files, ts, server), ts, server) == DownloadAll(files, ts, server)
  {
    DownloadAllSettles(files, ts, server);
    DownloadAllSettled(DownloadAll(files, ts, server), ts, server);
  }

  /** Running the whole program a second time on the same site changes no file. */
  lemma MainRunIdempotent(files: map<string, Bytes>, site: Site, server: map<string, Response>)
    ensures var ts := TasksIn(MainRun(site).events);
      DownloadAll(DownloadAll(files, ts, server), ts, server) == DownloadAll(files, ts, server)
  {
    DownloadAllIdempotent(files, TasksIn(MainRun(site).events), server);
  }

  // ---------------------------------------------------------------------------------------
  // What a run does.

  /** What every event of a run is. */
  predicate EventOk(site: Site, e: Event) {
    match e
    case SubjectOpened(_, _) => true
    case SessionOpened(subject, session, _) => AcceptSession(session) && '/' !in session
    case Download(subject, session, task) =>
      && AcceptSession(session) && '/' !in session
      && task.folder == SessionFolder(subject, session)
  }

  /** The downloads of an accepted session all go to its folder. */
  lemma PdfsRunSound(site: Site, subject: string, session: string, url: string)
    requires AcceptSession(session) && '/' !in session
    ensures forall e :: e in PdfsRun(site, subject, session, url).events ==>
      e.Download? && e.subject == subject && EventOk(site, e)
  {
    if url in site.sessionPages {
      var folder := SessionFolder(subject, session);
      var tasks := TasksOf(site.sessionPages[url], folder);
      var events := Downloads(subject, session, tasks);
      assert PdfsRun(site, subject, session, url).events == events;
      forall e | e in events ensures e.Download? && e.subject == subject && EventOk(site, e) {
        var k :| 0 <= k < |events| && events[k] == e;
        TasksOfSound(site.sessionPages[url], folder, tasks[k]);
      }
    }
  }

  lemma FolderRunSound(site: Site, subject: string, link: FolderLink)
    ensures forall e :: e in FolderRun(site, subject, link).events ==>
      !e.SubjectOpened? && e.subject == subject && EventOk(site, e)
  {
    var session := Sanitise(link.text);
    if AcceptSession(session) {
      var url := Join(link.href);
      var entry: ORun := Done([SessionOpened(subject, session, url)]);
      var pdfs := PdfsRun(site, subject, session, url);
      PdfsRunSound(site, subject, session, url);
      assert FolderRun(site, subject, link).events == entry.events + pdfs.events;
    }
  }

  lemma {:induction false} SubjectRunSound(site: Site, subject: Subject)
    ensures forall e :: e in SubjectRun(site, subject).events ==> e.subject == subject.name && EventOk(site, e)
  {
    var url := Join(subject.path);
    if url in site.subjectPages {
      var links := SessionFolders(site.subjectPages[url]);
      var step := FolderStep(site, subject.name);
      var ok := (e: Event) => e.subject == subject.name && EventOk(site, e);
      forall x | x in links ensures forall e :: e in step(x).events ==> ok(e) {
        FolderRunSound(site, subject.name, x);
      }
      SequenceEvents(links, step, ok);
    }
  }

  /** Every event of the program: only sessions whose sanitised name holds a year of 2017..2025
      are opened, and every download goes to `Past_Papers/subject/session` of such a session. */
  lemma {:induction false} MainRunSound(site: Site)
    ensures forall e :: e in MainRun(site).events ==> EventOk(site, e)
  {
    var step := SubjectStep(site);
    var ok := (e: Event) => EventOk(site, e);
    forall x | x in Subjects ensures forall e :: e in step(x).events ==> ok(e) {
      SubjectRunSound(site, x);
    }
    SequenceEvents(Subjects, step, ok);
  }

  /** A folder anchor is opened exactly when its sanitised text passes the year filter, and its
      downloads are then the session page's tasks, in order. */
  lemma FolderOpenedIffAccepted(site: Site, subject: string, link: FolderLink)
    ensures var r := FolderRun(site, subject, link);
      (|r.events| > 0 && r.events[0] == SessionOpened(subject, Sanitise(link.text), Join(link.href)))
      <==> AcceptSession(Sanitise(link.text))
    ensures var r := FolderRun(site, subject, link);
      AcceptSession(Sanitise(link.text)) && Join(link.href) in site.sessionPages ==>
      TasksIn(r.events) == TasksOf(site.sessionPages[Join(link.href)], SessionFolder(subject, Sanitise(link.text)))
  {
    var session := Sanitise(link.text);
    var url := Join(link.href);
    if AcceptSession(session) && url in site.sessionPages {
      var tasks := TasksOf(site.sessionPages[url], SessionFolder(subject, session));
      TasksInAppend([SessionOpened(subject, session, url)], Downloads(subject, session, tasks));
      TasksInDownloads(subject, session, tasks);
    }
  }
}
