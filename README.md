# Past-paper scrapers, modelled in Dafny

The repository holds two scripts. Each walks the papacambridge past-paper site and downloads
Cambridge question papers into a local folder tree.

- `A_level_scraper.py` scrapes AS and A level physics, chemistry and biology. For each subject
  it opens the subject page and keeps the session folders that are not "Topical" or "Tropical".
  A session is also kept only if its first word-bounded `20dd` year is absent or within
  2017..2025. In each kept session it keeps the documents whose badge is an allowed paper, whose
  title contains "Question" and which have an info link. It resolves that link through the
  `download_file.php?files=` redirector, percent-decodes the last path segment into a file name,
  and downloads the file once into `level/subject/session`.
- `O_level_scraper.py` scrapes three O level subjects. It keeps the session folders whose
  sanitised name (each `/` turned into `-`) contains any of the texts `2017`..`2025`, anywhere.
  In each kept session it keeps the blocks titled "question paper" (not mark schemes, inserts or
  grade thresholds) with a "paper 1" or "paper 2" badge. It takes the first redirector link of
  each such block and, unless it already starts with "http", makes it absolute with `urljoin`.
  It then downloads each resulting file into
  `Past_Papers/subject/session`, streaming each body into its file.

The model has these parts:

- The web server is a map from URL to answer: a status, a body, whether the body was read to
  the end, or unreachable.
- The disk is a `Disk` object whose `files` map the loops update in place.
- The parsed HTML of each listing page is a `Site` value, holding the session links, PDF items
  and blocks as the selectors return them.
- Each scraper is a set of imperative methods that mirror the source loops. Each method is
  proved equal to a run specification: the events it performs, and the exception that ended the
  program, if any.
- The disk after a method is proved to be the fold of a pure download function over the
  run's targets.
- Lemmas over those specifications state what the scripts promise:
  - which sessions and documents are fetched;
  - where files land;
  - that an existing file is never touched;
  - that a second run of either program changes nothing.

Modules:

- `Wrappers`: `Option` and `Result`.
- `Strings`: the string operations used on names and URLs.
- `Percent`: `unquote`, `unquote_plus` and `quote_plus`.
- `Query`: `urlparse(...).query` and `parse_qs`.
- `Paths`: `posixpath.join`, which is what `os.path.join` is on POSIX systems.
- `Runs`: a generic run of events that may stop on an exception.
- `Lists`: append-if-yielded loops.
- `FileSystem`: the server and the disk.
- `ALevel` and `OLevel`: the two scrapers.
- `Compare`: where the two session filters agree and differ.

## Model

| member | source | states |
|---|---|---|
| ALevel.ExtractYear | A_level_scraper.py:43-49 | none exactly when the name holds no `20dd` with a word boundary on both sides; otherwise the value of the leftmost such token, within 2000..2099 |
| ALevel.AcceptSession | A_level_scraper.py:68-75 | a session is kept iff its name contains neither "Topical" nor "Tropical" and the leftmost year token, if any, is in 2017..2025; later years in the name do not matter |
| ALevel.LeftmostYearDecides | A_level_scraper.py:73-75 | the year test passes iff the leftmost word-bounded year token, if there is one, is in 2017..2025 |
| ALevel.AcceptDocument | A_level_scraper.py:90-104 | a document passes iff its badge text is one of the allowed papers, "Question" occurs in its title and it has an info anchor; with the AS list only "Paper 1" or "Paper 2" passes, with the A list only "Paper 4" |
| ALevel.SessionOpenedIffAccepted | A_level_scraper.py:65-80 | a session link with a label and an href is opened, first and at `SessionUrl(href)`, exactly when its label passes the filter; a rejected one does nothing |
| ALevel.TopicalNeverOpened | A_level_scraper.py:69-70 | in the whole program no opened session name contains "Topical" or "Tropical" |
| ALevel.SessionUrl | A_level_scraper.py:77 | the URL is the base, one `/`, and the href with its leading slashes removed |
| ALevel.SessionUrlOneSlash | A_level_scraper.py:77 | exactly one `/` follows the base, and a leading slash on the href does not change the URL |
| ALevel.ItemRunDownloads | A_level_scraper.py:90-117 | a document leads to a download call iff it has an allowed badge, a "Question" title and an info link whose href resolves; it crashes iff it passes the filter but the href is missing or the redirector query has no `files` value; a filtered-out document does nothing |
| ALevel.ResolveFileUrl | A_level_scraper.py:105-110 | a link without the redirector is used as is; for a redirector link, the KeyError crash happens exactly when no field of `parse_qsl` of its query is named `files`, and otherwise the result is the non-empty value of the first `files` field |
| ALevel.ResolveRedirectRoundTrip | A_level_scraper.py:107-110 | a redirector link `<base>/download_file.php?files=<quote_plus(v)>` resolves to `v` |
| ALevel.FilenameOfSegment | A_level_scraper.py:112-113 | the file name is the percent-decoded text after the last `/`, and is that text unchanged when it holds no `%` |
| ALevel.FilenameMayClimbOut | A_level_scraper.py:112-113 | decoding can put a `/` back into the name: a last segment `..%2F<name>` gives the file name `../<name>` |
| ALevel.FolderLayout | A_level_scraper.py:116 | the folder is `level/subject/session` for a session name not starting with `/`; a name starting with `/` replaces the whole path |
| ALevel.DownloadFile | A_level_scraper.py:29-41 | the outcome and the new disk are `DownloadEffect` of the old disk |
| ALevel.DownloadEffectWrites | A_level_scraper.py:29-41 | skipped iff the path exists or the name is empty; saved iff the path is free and the response was complete with a status outside 400..599; a save writes exactly the body at that path, and anything else leaves the disk unchanged |
| ALevel.DownloadExistingSkips | A_level_scraper.py:32-33 | an existing path is skipped whatever the server would answer |
| ALevel.DownloadTwice | A_level_scraper.py:29-41 | a second identical call changes nothing |
| ALevel.EffectKeeps | A_level_scraper.py:29-41 | one call keeps every existing file and its contents, and leaves its own target settled |
| ALevel.DownloadAllKeeps | A_level_scraper.py:29-41 | every file present before a sequence of downloads is still present, with the same contents, after it |
| ALevel.DownloadAllSettles | A_level_scraper.py:29-41 | after a sequence of downloads, each target exists, names no file, or cannot succeed |
| ALevel.DownloadAllSettled | A_level_scraper.py:29-41 | downloads of targets that are all settled leave the disk unchanged |
| ALevel.DownloadAllIdempotent | A_level_scraper.py:29-41 | repeating the same downloads against the same server leaves the disk as the first pass left it |
| ALevel.MainRunIdempotent | A_level_scraper.py:119-122 | running the whole program a second time on the same site and server changes no file |
| ALevel.VisitItem | A_level_scraper.py:90-117 | one pass of the document loop performs `ItemRun`, and the disk is the download of its target, if any |
| ALevel.VisitItems | A_level_scraper.py:90-117 | the document loop performs the documents' runs in order, stopping at the first crash; the disk is the fold of their downloads |
| ALevel.VisitSession | A_level_scraper.py:65-77 | one pass of the session loop performs `SessionRun`; the disk is the fold of its downloads |
| ALevel.OpenSession | A_level_scraper.py:77-117 | an accepted session is opened at its URL; if the page could be fetched its documents are visited in order; the disk is the fold of their downloads |
| ALevel.VisitSessions | A_level_scraper.py:65-117 | the session loop performs the sessions' runs in order, stopping at the first crash |
| ALevel.VisitSubject | A_level_scraper.py:52-63 | one subject: the page is opened; if it could not be fetched it is skipped, otherwise its sessions are visited |
| ALevel.ScrapeSubject | A_level_scraper.py:51-117 | `scrape_subject` performs `ScrapeRun`, and the disk is the fold of that run's downloads |
| ALevel.ScrapeBothLevels | A_level_scraper.py:119-122 | `main` performs the AS pass and then, unless it crashed, the A pass; the disk is the fold of all downloads |
| ALevel.ItemRunSound | A_level_scraper.py:90-117 | every event of one document is a download of an accepted document, at its resolved URL, in `level/subject/session`, under its derived name |
| ALevel.OpenedRunSound | A_level_scraper.py:78-117 | every event of an accepted session is its opening, or a download of an accepted document of that session |
| ALevel.SessionRunSound | A_level_scraper.py:65-117 | every event of a session link belongs to an accepted session of that subject |
| ALevel.SubjectRunSound | A_level_scraper.py:52-117 | every event of a subject is about that subject; it opens the subject URL, accepted sessions and accepted documents |
| ALevel.ScrapeRunSound | A_level_scraper.py:51-117 | every event of `scrape_subject` is about a listed subject, an accepted session and an accepted, correctly placed download |
| OLevel.JoinRelativeCases | O_level_scraper.py:62 | `urljoin(BASE_URL, href)` after `urlsplit`'s clean-up `h` of the href: the base for an empty href; before path normalisation, the base followed by `h` for a relative `h` with no scheme and the origin followed by `h` for an absolute path; `https:` followed by `h` for a network-path link with a host |
| OLevel.JoinHttps | O_level_scraper.py:62 | an `https://` link with a host is its cleaned-up text |
| OLevel.JoinOtherScheme | O_level_scraper.py:62 | a link whose scheme, lower-cased, is not `https` is returned exactly as given |
| OLevel.JoinAbsolute | O_level_scraper.py:62 | a joined link is the link itself or starts with `https:` |
| OLevel.IsHttpsLower | O_level_scraper.py:62 | the scheme test is `https` once lower-cased |
| OLevel.TaskUrl | O_level_scraper.py:61-62 | a link starting with "http" is kept |
| OLevel.TaskUrlRelative | O_level_scraper.py:61-62 | a link with no `:` whose cleaned-up text does not start with `/` is kept if it starts with "http", and otherwise is, before path normalisation, the base followed by its cleaned-up text |
| OLevel.TaskUrlIdempotent | O_level_scraper.py:61-62 | absolutising an absolutised link changes nothing |
| OLevel.Sanitise | O_level_scraper.py:86 | same length, no `/` left |
| OLevel.SanitiseFacts | O_level_scraper.py:86 | each `/` becomes `-` and every other character stays; sanitising twice is sanitising once |
| OLevel.AnyYearOccurs | O_level_scraper.py:89 | true iff some `str(y)` with `lo <= y < hi` occurs in the name |
| OLevel.AcceptSession | O_level_scraper.py:89 | a session is kept iff some `20dd` anywhere in its name, word-bounded or not, has a value in 2017..2025 |
| OLevel.YearOccursDigits | O_level_scraper.py:89 | some `str(y)` for y in 2017..2025 occurs in the name iff some `20dd` of the name has such a value |
| OLevel.AcceptTitle | O_level_scraper.py:47-53 | a title passes iff "question paper" occurs in it with case ignored and none of "mark scheme", "insert" and "grade threshold" does |
| OLevel.AcceptTitleIgnoresCase | O_level_scraper.py:47-53 | the title filter gives the same answer on the lower-cased text |
| OLevel.AnyPaperBadge | O_level_scraper.py:54-56 | true iff some lower-cased badge contains "paper 1" or "paper 2" |
| OLevel.DownloadHref | O_level_scraper.py:58-60 | the first href that contains the redirector, or none iff no href does |
| OLevel.BlockTaskIff | O_level_scraper.py:46-63 | a block adds a task iff its title and badges pass and it has a redirector link; that task is the link, absolutised, in the session folder |
| OLevel.BuildTasks | O_level_scraper.py:44-63 | the loop's task list is `TasksOf` the blocks |
| OLevel.TasksOfAppend | O_level_scraper.py:46-63 | tasks come out in block order: the list for two listings is the concatenation of theirs |
| OLevel.TasksOfSound | O_level_scraper.py:46-63 | every task is in the session folder and is what some block yields |
| OLevel.TasksOfComplete | O_level_scraper.py:46-63 | every block that yields a task has that task in the list |
| OLevel.SessionFolders | O_level_scraper.py:78 | the selected anchors are exactly the links whose href contains "o-level-" or "a-level-" |
| OLevel.SessionFoldersAppend | O_level_scraper.py:78 | the selection of two runs of anchors is the selection of the first followed by that of the second, so it keeps document order |
| OLevel.SessionFoldersOne | O_level_scraper.py:78 | one anchor is selected once when its href matches, and not at all otherwise |
| OLevel.FileNameShape | O_level_scraper.py:27 | the file name is the last `/`-separated segment of the URL: no `/` in it, it ends the URL, and it is the whole URL or follows a `/` |
| OLevel.TaskPathShape | O_level_scraper.py:27 | the path ends with the file name, and is the session folder, one `/` and the file name when the folder does not end in `/` |
| OLevel.DownloadPdf | O_level_scraper.py:26-38 | the outcome and the new disk are `DownloadEffect` of the old disk |
| OLevel.DownloadEffectWrites | O_level_scraper.py:26-38 | skipped iff the path exists or the name is empty; saved iff the path is free and a complete 200 arrived; the disk gains, at a free path, the body of any 200 response, complete or not, and is otherwise unchanged |
| OLevel.WriteIfAbsent | O_level_scraper.py:26-38 | a write never removes or changes an existing file |
| OLevel.PartialFileSticks | O_level_scraper.py:31-35 | a 200 whose stream breaks leaves the truncated body on disk as a failure, and every later call skips that file whatever the server then answers |
| OLevel.DownloadsCommute | O_level_scraper.py:65-68 | two downloads to different paths give the same disk in either order |
| OLevel.EffectSettles | O_level_scraper.py:26-38 | one download settles its own task and removes no file |
| OLevel.DownloadAllKeeps | O_level_scraper.py:65-68 | files present before a session's downloads keep their contents |
| OLevel.DownloadAllSettles | O_level_scraper.py:65-68 | after the downloads every task exists, names no file, or cannot answer 200 |
| OLevel.DownloadAllSettled | O_level_scraper.py:65-68 | downloads of settled tasks change nothing |
| OLevel.DownloadAllIdempotent | O_level_scraper.py:65-68 | repeating the same tasks against the same server leaves the disk as the first pass left it |
| OLevel.MainRunIdempotent | O_level_scraper.py:99-101 | running the whole program a second time on the same site and server changes no file |
| OLevel.ScrapePdfs | O_level_scraper.py:41-68 | `scrape_pdfs` crashes when the page cannot be fetched, else downloads each of its tasks in order; the disk is their fold |
| OLevel.VisitFolder | O_level_scraper.py:84-96 | one pass of the folder loop performs `FolderRun`; the disk is the fold of its downloads |
| OLevel.ScrapeSubject | O_level_scraper.py:71-96 | `scrape_subject` opens the subject URL, crashes if it cannot be fetched, and otherwise visits the selected folders in order until a crash |
| OLevel.VisitFolders | O_level_scraper.py:84-96 | the folder loop performs the folders' runs in order, stopping at the first crash; the disk is the fold of their downloads |
| OLevel.ScrapeAll | O_level_scraper.py:99-101 | the main block runs each subject in order until a crash; the disk is the fold of all downloads |
| OLevel.FolderOpenedIffAccepted | O_level_scraper.py:84-95 | a folder is opened, first, at `urljoin(BASE_URL, href)` iff its sanitised name passes the year filter; its downloads are then exactly the session page's tasks, in order |
| OLevel.PdfsRunSound | O_level_scraper.py:41-68 | every event of an accepted session's page is a download into that session's folder |
| OLevel.FolderRunSound | O_level_scraper.py:84-95 | every event of a folder is about that subject and an accepted session without `/`, and each download goes to that session's folder |
| OLevel.SubjectRunSound | O_level_scraper.py:71-96 | every event of a subject is about that subject and satisfies `EventOk` |
| OLevel.MainRunSound | O_level_scraper.py:99-101 | every session opened holds a year of 2017..2025, and every download goes to `Past_Papers/subject/session` |
| Compare.YearAcceptedByBoth | O_level_scraper.py:89 | a session the A-level filter keeps for a year it found is also kept by the O-level filter |
| Compare.TopicalOnlyRejectedByA | A_level_scraper.py:69-70 | `Topical 2019` is rejected by the A-level filter and kept by the O-level one |
| Compare.FirstYearOnlyForA | A_level_scraper.py:73-75 | `2016-2018` is rejected by the A-level filter, which sees only 2016, and kept by the O-level one |
| Compare.NoYearOnlyAcceptedByA | A_level_scraper.py:74 | a name with no year, `Specimen`, is kept by the A-level filter and rejected by the O-level one |
| Compare.YearInsideNumber | O_level_scraper.py:89 | the O-level filter keeps `12017`, in which the A-level filter finds no year |
| Compare.PaperTwelve | O_level_scraper.py:55 | a `Paper 12` badge passes the O-level badge test, but is not an allowed A-level paper |
| Percent.Unquote | A_level_scraper.py:113 | decoding never lengthens the text, keeps a non-empty text non-empty, and leaves text without `%` as it is |
| Percent.UnquoteEscape | A_level_scraper.py:113 | a leading `%XX` with hexadecimal digits of either case decodes to the one character with that code |
| Percent.UnquoteLonePercent | A_level_scraper.py:113 | a `%` not followed by two hexadecimal digits is kept |
| Percent.UnquoteSlash | A_level_scraper.py:113 | `%2f` and `%2F` both decode to `/`, and `%`, `%2` and `%zz` are kept as written |
| Percent.UnquotePlusQuotePlus | A_level_scraper.py:110 | `unquote_plus(quote_plus(s)) == s` for byte-range text |
| Percent.UnquotePlainPrefix | A_level_scraper.py:113 | decoding leaves a prefix without `%` as it is |
| Query.RedirectTargetRoundTrip | A_level_scraper.py:109-110 | the first `files` value of `<prefix>?files=<quote_plus(v)>` is `v` |
| Query.QueryOf | A_level_scraper.py:109 | after the clean-up and with the fragment cut off, the query is empty when there is no `?`, and otherwise the text after the first `?`; it holds no `#` |
| Query.CleanUrlDrops | O_level_scraper.py:62 | every character left by `urlsplit`'s clean-up is in the URL, and none is a tab or newline |
| Query.CleanUrlKeepsOrder | O_level_scraper.py:62 | the clean-up cuts the leading run of controls and spaces, then removes the tabs and newlines of the rest |
| Query.RemoveTabsAndNewlinesAppend | O_level_scraper.py:62 | removing tabs and newlines from `a + b` removes them from `a` and from `b`, keeping the order |
| Query.RemoveTabsAndNewlinesChar | O_level_scraper.py:62 | a single character is dropped when it is a tab, CR or LF, and kept otherwise |
| Query.CleanUrlPlain | A_level_scraper.py:109 | a URL without control characters or spaces is left as it is by the clean-up |
| Query.FirstValue | A_level_scraper.py:110 | none iff no field has the name; otherwise the value of the first field with that name |
| Query.ParseQsl | A_level_scraper.py:110 | no kept field has an empty value, as `parse_qs` drops them by default |
| Query.FieldCases | A_level_scraper.py:110 | a piece gives a field iff it has a `=` with text after the first one, and the field is the `unquote_plus`ed text before and after that `=` |
| Query.ParseQslPieces | A_level_scraper.py:110 | the fields of a query are the fields of its `&`-separated pieces, the empty query included |
| Query.ParseQslAppend | A_level_scraper.py:110 | the fields of `p&q` are the fields of `p` followed by those of `q`, so fields keep query order |
| Query.ParseQslPiece | A_level_scraper.py:110 | a query without `&` gives the one field of that piece, or none when it is dropped |
| Query.FieldsAppend | A_level_scraper.py:110 | the fields of two lists of pieces are the fields of each, in order |
| Strings.Contains | A_level_scraper.py:69 | `sub in s` holds iff `sub` occurs in `s` at some index |
| Strings.Lower | O_level_scraper.py:47 | same length, each character lower-cased |
| Strings.ContainsLower | O_level_scraper.py:47-55 | searching the lower-cased text is searching the text with case ignored |
| Strings.AfterLast | A_level_scraper.py:112 | a suffix of the text without the separator, preceded by the separator whenever it is not the whole text |
| Strings.SplitJoined | A_level_scraper.py:110 | splitting the join of separator-free parts gives back the parts |
| Strings.JoinedAppend | A_level_scraper.py:110 | joining two lists of parts is joining each and gluing them with the separator |
| Strings.SplitAppend | A_level_scraper.py:110 | splitting `p + c + q` at `c` gives the parts of `p` followed by the parts of `q` |
| Strings.LStrip | A_level_scraper.py:77 | the longest suffix not starting with the character, after a prefix made only of that character |
| Paths.PathJoin | A_level_scraper.py:116 | the result ends with the second part; an absolute second part replaces the first |
| Paths.PathJoinRelative | O_level_scraper.py:91 | joining a relative part to a directory without a trailing `/` inserts exactly one `/` |
| Paths.PathJoinNoSeparator | A_level_scraper.py:116 | joining a relative part to an empty directory or one ending in `/` inserts no `/` |

## Left out

- The network. HTTP requests, headers, timeouts, the A-level three-try retry with its sleep,
  and the O-level `sleep(0.5)` are not modelled. The server is a map from URL to answer, and
  listing pages are a map from URL to parsed content. An A-level page is missing when
  `get_soup` gave up. An O-level page is missing when the fetch raised.
- HTML parsing and CSS selection with BeautifulSoup. The model takes, as input, what the
  selectors return: labels, hrefs, badges, titles and block text, already stripped.
- The thread pool of `scrape_pdfs`. Its tasks are run one after the other, in submission order.
  `OLevel.DownloadsCommute` shows that two tasks writing different paths give the same disk in
  either order. Two workers racing on the same path are not modelled.
- Directories. `os.makedirs` is not modelled, nor its failure (for example a session name that
  names an existing file). An empty file name names the session folder, which exists, so the
  download is skipped. A file name that names some other existing directory is not modelled.
- The console output (`print`) and the exit status.
- Unicode. `\d`, `\b` and `lower()` are modelled on ASCII letters and digits only. `unquote`
  decodes each `%XX` escape to the single character of that code: multi-byte UTF-8 sequences
  are not joined, and invalid ones are not replaced.
- OLevel.Join, OLevel.JoinRelativeCases and OLevel.TaskUrlRelative: model `urljoin` against
  the fixed base only, and state their results before path normalisation. `.` and `..`
  segments are not resolved, and the empty segments `urljoin` drops from the inside of a
  relative path (`a//b`) are kept. An empty query (`?`), fragment (`#`) or parameter (`;`),
  which `urlunparse` drops, is kept.
- OLevel.JoinHttps: keeps an `https://` link as given only when it is clean and has a host. A
  link is first cleaned up as `urlsplit` does, and one with an empty host (`https://`,
  `https:///x`) resolves against the base, as `urljoin` does.
- ALevel.DownloadEffect and OLevel.DownloadEffect: the disk is a map from path texts to
  contents, not a directory tree. A file name holding a `/` (a decoded `%2F`) is written under
  that path even when the directory it names does not exist, where `open` would fail and the
  call would only print an error. A name holding NUL, which `open` refuses, is written too.
  Paths are not normalised, so `session/../x.pdf` and `x.pdf` are different keys. A file name
  `.` or `..` names an existing directory, so the source skips it; the model downloads it.
- `urlparse` raising ValueError on a malformed IPv6 host is not modelled.
- Percent.QuotePlus: defined only for text whose characters are below 256; it serves as the
  inverse in the round-trip lemmas, not as a model of a source call.
