# Sistema Barrueco: the article and login core, in Dafny

Sistema Barrueco is the website of a law firm with a small admin area. The
Express server in `backend/app.js` does several jobs:

- It guards the admin routes with a JWT cookie (`checkToken`).
- It logs administrators in against plaintext records (`POST /auth/login`).
- It publishes, updates and deletes articles, each with an optional PDF
  (`POST /postArt`, `PUT` and `DELETE /artigos/:id`).
- It lists the ten newest articles (`GET /artigos`).
- It merges three RSS feeds into one news list (`buscarNoticias`).

Two scripts run in the browser:

- `middle.js` finds the token, in a cookie or in localStorage, and attaches it
  to requests.
- `artigos.js` drives the article list page: checkboxes, the tri-state
  select-all box, the bulk action bar, the title filter, the sort selector,
  bulk delete and the text shown on each card.

The project has one module per concern:

| module | models |
|---|---|
| `Wrappers`, `Http` | `Option`; the three kinds of response |
| `JsStrings` | JavaScript truthiness, `\|\|`, `trim`, `split`, `toLowerCase`, `includes` |
| `AuthGate` | `checkToken` |
| `Login` | the login handler and the admin lookup |
| `Articles` | article records, the upload filter, the create checks, the update merge |
| `ArticleStore` | the collection and the upload directory as a `Store` class, the write routes, the top-ten listing |
| `News` | `buscarNoticias` |
| `ClientAuth` | `checkAuthentication`, `authenticatedFetch` |
| `ArticleList` | the article page as an `ArticlesPage` class over checkbox and display arrays |
| `CardSort` | the sort selector, as a stable sort by the page's comparator |

Some things are parameters rather than code:

- JWT signing and verification;
- the Mongoose Date cast (`parse`);
- the RSS fetch (`fetch`);
- the HTTP server behind `fetch` in the browser (`server`);
- `localeCompare` (`collate`);
- `toLocaleDateString` (`format`);
- where a stored PDF path lands on disk, `path.join(__dirname, '..', p)`
  (`Store.resolve`);
- which paths on disk are directories (`Store.dirs`).

Some behaviours of the code are modelled as written, even where they surprise:

- `checkToken` treats a request without an Accept header as an HTML caller,
  so it redirects that caller.
- Login ignores the `ativo` flag.
- multer writes an uploaded file before the handler checks the body. So a
  create that fails validation still leaves the file on disk.
- A rejected upload (wrong type or too large) ends in Express's default error
  page, status 500.
- A malformed `:id` fails Mongoose's ObjectId cast inside the `try`, so it
  gets 500, not 400.
- `PUT` removes the old PDF before it writes the record. So a date that does
  not cast leaves the record pointing at a removed file.
- `PUT` copies a `pdf` field sent in the body into the record. `DELETE` and a
  later `PUT` with a file then unlink whatever file that path resolves to,
  even one that belongs to another record. When it resolves to a directory,
  the unlink throws and the route answers 500.
- With no cards on the page, the select-all box ends up checked, whatever the
  user chose.
- Only the piece between the first and the second `=` of a cookie entry is
  read as its value.

## Model

| member | source | states |
|---|---|---|
| JsStrings.Truthy | backend/app.js:134-145 | a string field is truthy exactly when it is present and not '' |
| JsStrings.Or | backend/app.js:221-222 | `v \|\| fallback` for a string: the value when truthy, the fallback otherwise |
| JsStrings.IsJsSpace | public/paginas/sistema/middle.js:16 | the characters `trim` removes: the ECMAScript WhiteSpace and LineTerminator code points |
| JsStrings.LeadEnd | public/paginas/sistema/middle.js:16 | the first non-white-space index from a position, with only white space before it |
| JsStrings.TrailStart | public/paginas/sistema/middle.js:16 | the end of the last non-white-space character, with only white space after it |
| JsStrings.Trim | public/paginas/sistema/middle.js:16 | `trim` is the slice between the leading and the trailing white space |
| JsStrings.TrimKeepsMiddle | public/paginas/sistema/middle.js:16 | `trim` keeps a slice of its input, with only white space outside it and none at its ends |
| JsStrings.TrimNoop | public/paginas/sistema/middle.js:16 | a string with no white space at either end is its own trim |
| JsStrings.TrimIdempotent | public/paginas/sistema/middle.js:16 | trimming twice is trimming once |
| JsStrings.IndexOf | public/paginas/sistema/middle.js:14-16 | the first occurrence of the separator, with none before it |
| JsStrings.Split | public/paginas/sistema/middle.js:14-16 | `split` always returns at least one piece |
| JsStrings.SplitSingleIff | public/paginas/sistema/middle.js:16 | a split gives one piece exactly when the separator does not occur |
| JsStrings.SplitPiecesLackSeparator | public/paginas/sistema/middle.js:14-16 | no piece of a split contains the separator |
| JsStrings.JoinSplit | public/paginas/sistema/middle.js:14-16 | joining the pieces of a split gives back the string |
| JsStrings.SplitJoin | public/paginas/sistema/middle.js:14-16 | splitting a join of separator-free pieces gives back the pieces |
| JsStrings.SplitAtFirst | public/paginas/sistema/middle.js:16 | the first piece is everything before the first separator, and the rest splits the remainder |
| JsStrings.SplitWithout | public/paginas/sistema/middle.js:16 | a string without the separator splits into itself alone |
| JsStrings.LowerChar | public/paginas/sistema/artigos.js:44-48 | the model's lowering of one character: ASCII and Latin-1 capitals move down by 32; the model leaves every other character as it is |
| JsStrings.ToLower | public/paginas/sistema/artigos.js:44-48 | `toLowerCase` lowers each character in place and keeps the length |
| JsStrings.ToLowerIdempotent | public/paginas/sistema/artigos.js:44-48 | lowering twice is lowering once |
| JsStrings.Includes | public/paginas/sistema/artigos.js:49 | `includes` tries each start position in turn |
| JsStrings.OccursImpliesIncludes | public/paginas/sistema/artigos.js:49 | `includes` finds every occurrence |
| JsStrings.IncludesGivesOccurrence | public/paginas/sistema/artigos.js:49 | when `includes` holds, the term occurs at some position |
| JsStrings.IncludesIffOccurs | public/paginas/sistema/artigos.js:49 | `includes` holds exactly when the term occurs somewhere |
| JsStrings.IncludesEmpty | public/paginas/sistema/artigos.js:37-40 | every string includes the empty string |
| AuthGate.Verified | backend/app.js:39-48 | a token lets the request through when it is present, not empty, and `jwt.verify` accepts it |
| AuthGate.CheckToken | backend/app.js:35-55 | it proceeds, with the token's admin id, exactly when the token is present and verifies; otherwise an HTML caller is redirected, and a JSON caller gets 401 for a missing token and 400 for one that does not verify |
| AuthGate.GateResponse | backend/app.js:39-44 | a refusal is a redirect to `/login` for an HTML caller, or the status and message as JSON |
| AuthGate.MissingTokenIgnoresVerifier | backend/app.js:39-44 | a missing or empty token is refused before any verification |
| Login.Matches | backend/app.js:108 | the `findOne({ username, password })` filter: the stored username and password equal the given ones, compared as plaintext |
| Login.FindFrom | backend/app.js:108 | the first record from a position that matches both username and password, with none before it |
| Login.FindAdmin | backend/app.js:108 | `findOne` finds a record exactly when some record matches both fields, and what it finds matches |
| Login.HandleLogin | backend/app.js:97-128 | 422 exactly when a field is missing or empty; 422 exactly when the password is shorter than 8; 404 exactly when no record matches; it logs in exactly when the checks pass and a record matches, with that admin's id and signed token |
| Login.ValidationPrecedesLookup | backend/app.js:100-106 | the validation answers do not depend on the stored admins |
| Login.FailureHidesWhichField | backend/app.js:108-111 | a wrong username and a wrong password get the same answer |
| Login.MatchingAdminLogsIn | backend/app.js:104-113 | valid credentials that match any record log in, whatever the record's `ativo` flag |
| Articles.UploadAccepted | backend/app.js:77-85 | multer accepts no file, or a file of type `application/pdf` of at most 10 MiB |
| Articles.StoredPath | backend/app.js:153 | the stored path is `/uploads/` followed by the file name |
| Articles.UploadedFiles | backend/app.js:63-85 | multer writes exactly one file for a file part, where its stored path resolves, and none otherwise |
| Articles.PdfFiles | backend/app.js:169-172 | a record points to the file its `pdf` resolves to exactly when `pdf` is truthy |
| Articles.MissingField | backend/app.js:132-145 | no message exactly when all four fields are truthy; otherwise the message of the first falsy field in source order |
| Articles.CastDate | backend/models/artigo.js:7 | '' casts to null; any other string fails exactly when the date parser rejects it |
| Articles.NewArticle | backend/app.js:148-154 | the new record holds the four sent fields, the parsed date, and the upload path or null |
| Articles.UpdateData | backend/app.js:187-194 | the update is the body, with `pdf` replaced by the new upload's path when there is one |
| Articles.Pick | backend/app.js:196 | a field sent in the update replaces the stored one; a field not sent keeps the stored one |
| Articles.ApplyUpdate | backend/app.js:196 | fields that were sent replace the stored ones and the rest are kept; it fails exactly when a sent date does not cast |
| Articles.EmptyUpdateIsIdentity | backend/app.js:187-196 | an update that sends nothing leaves the record unchanged |
| Articles.UpdateIdempotent | backend/app.js:196 | applying the same update twice is applying it once |
| Articles.UnsentFieldsKept | backend/app.js:187-196 | every field the update does not send keeps its stored value |
| ArticleStore.DateLe | backend/app.js:237 | the order of `sort({ data: -1 })`: a null date is below every date |
| ArticleStore.DateLeTotal | backend/app.js:237 | the date order of `sort({ data: -1 })`, with nulls lowest, is total |
| ArticleStore.Newest | backend/app.js:237 | picks a record of the candidate set whose date no candidate exceeds |
| ArticleStore.StepKeepsOrder | backend/app.js:237 | appending the newest remaining record keeps the page in date order and above what remains |
| ArticleStore.SelectionStep | backend/app.js:237 | taking the newest remaining record extends a valid partial selection |
| ArticleStore.TopByDate | backend/app.js:237 | returns min(10, n) distinct records, newest first, and no record left out is newer than any listed |
| ArticleStore.Store.ReceiveUpload | backend/app.js:77-85 | an accepted upload adds its file to the upload directory |
| ArticleStore.Store.UnlinkThrows | backend/app.js:169-172 | the model's condition for `unlinkSync` to throw: the record's `pdf` is truthy and resolves to a directory |
| ArticleStore.Store.RemovePdf | backend/app.js:169-172 | succeeds exactly when the unlink does not throw, and then removes only the file `pdf` resolves to; on failure nothing is removed |
| ArticleStore.Store.PostArt | backend/app.js:131-161 | gate first, then the upload filter (500), then 422 with the first missing field's message, then 500 for a date that does not cast, else 201 with a new record under a fresh id; the uploaded file stays even when the create fails |
| ArticleStore.Store.Delete | backend/app.js:164-179 | 404 and no change for an unknown id; 500 and no change for a malformed one, or when the unlink throws; otherwise the record and the file its `pdf` resolves to are removed and nothing else changes |
| ArticleStore.Store.Update | backend/app.js:182-201 | 404 or 500 for an unknown or malformed id; with a new file, the file the old `pdf` resolves to is removed first, and an unlink that throws gives 500 with the record unchanged; the record becomes the merged one, or stays as it was when the date does not cast (500) |
| ArticleStore.Store.List | backend/app.js:236-238 | at most ten records, exactly as stored, newest first, and no omitted record is newer than a listed one |
| News.ToNoticia | backend/app.js:217-223 | each item is tagged with its source's name |
| News.NoticiaFallbacks | backend/app.js:219-222 | title and link are copied; the date is pubDate, else isoDate, else ''; the summary is contentSnippet, else content, else '' |
| News.Firsts | backend/app.js:216 | `slice(0, 6)` keeps the first min(6, n) items, in order |
| News.MapItems | backend/app.js:216-224 | every kept item is mapped, one to one, in feed order |
| News.Contribution | backend/app.js:214-227 | a source that throws adds nothing; one that is read adds its first six items, mapped |
| News.ContributionShape | backend/app.js:213-227 | a feed that fails adds nothing; one that is read adds its first min(6, n) items, mapped in order |
| News.Aggregate | backend/app.js:212-229 | the answer over a list of sources is their contributions, in list order |
| News.AggregateAppend | backend/app.js:212-229 | the answer for two lists of sources is the two answers concatenated |
| News.AggregateSnoc | backend/app.js:213-228 | reading one more source appends its contribution |
| News.PushFirsts | backend/app.js:216-224 | the push loop appends exactly the mapped first six items |
| News.BuscarNoticias | backend/app.js:204-230 | the loop over the three sources returns every source's contribution, in list order |
| News.AllFailedGivesEmpty | backend/app.js:225-227 | when every feed fails, the answer is empty and not an error |
| News.AggregateBound | backend/app.js:216 | each source adds at most six items |
| News.ItemsFromReadSources | backend/app.js:213-228 | every item names a listed source whose feed was read |
| News.NewsBound | backend/app.js:205-216 | the answer holds at most eighteen items |
| ClientAuth.ParseEntry | public/paginas/sistema/middle.js:16 | neither the name nor the value of an entry contains `=`; the value is missing exactly when the trimmed entry has no `=` |
| ClientAuth.EntryParts | public/paginas/sistema/middle.js:16 | in `name=a=b` only `a` is the value; the rest is dropped |
| ClientAuth.EntryPair | public/paginas/sistema/middle.js:16 | `name=a` parses to that name and value |
| ClientAuth.BareEntry | public/paginas/sistema/middle.js:16 | an entry without `=` has no value |
| ClientAuth.TokenAmong | public/paginas/sistema/middle.js:15-21 | the value of the first entry named `token`, or nothing when there is none |
| ClientAuth.CookieToken | public/paginas/sistema/middle.js:14-22 | the cookie string split on `;`, then scanned for the first `token` entry |
| ClientAuth.FirstTokenEntryWins | public/paginas/sistema/middle.js:14-21 | the first entry named `token` decides, whatever follows it |
| ClientAuth.NoTokenEntry | public/paginas/sistema/middle.js:14-22 | with no entry named `token`, the cookie gives nothing |
| ClientAuth.ScanCookies | public/paginas/sistema/middle.js:14-22 | the scanning loop with its `break` returns the value of the first `token` entry |
| ClientAuth.FindToken | public/paginas/sistema/middle.js:2-38 | a token it returns is never empty |
| ClientAuth.FindTokenCases | public/paginas/sistema/middle.js:9-37 | local mode reads only localStorage; otherwise a truthy cookie value wins and localStorage is the fallback; there is no token exactly when neither source gives one |
| ClientAuth.LocalModeIgnoresCookies | public/paginas/sistema/middle.js:9-11 | in local mode the cookies never matter |
| ClientAuth.CookieValueIsSecondSegment | public/paginas/sistema/middle.js:14-21 | a first `token=a=b` entry yields `a` |
| ClientAuth.BareOrEmptyTokenFallsBack | public/paginas/sistema/middle.js:16-28 | a first `token` entry that is bare or empty gives the same outcome as localStorage alone |
| ClientAuth.Bearer | public/paginas/sistema/middle.js:52 | the header value is `Bearer ` followed by the token |
| ClientAuth.Page.LocalMode | public/paginas/sistema/middle.js:3-9 | local mode is exactly the URL parameter `auth` being `local` |
| ClientAuth.Page.Stored | public/paginas/sistema/middle.js:10 | the stored token exactly when `jwt_token` is in localStorage |
| ClientAuth.Page.CheckAuthentication | public/paginas/sistema/middle.js:2-38 | returns the token the decision gives; with none, the browser goes to `/login`; otherwise the location is unchanged |
| ClientAuth.Page.AuthenticatedFetch | public/paginas/sistema/middle.js:41-74 | no token means no request and null; otherwise the token goes in a Bearer header (local mode), or credentials are included; a 401 removes the stored token, goes to `/login` and gives null; a network error is rethrown; any other response is returned |
| ArticleList.CountTrue | public/paginas/sistema/artigos.js:4 | the number of checked boxes is at most the number of boxes |
| ArticleList.SomeCheckedIff | public/paginas/sistema/artigos.js:8-13 | the count is positive exactly when some box is checked |
| ArticleList.AllCheckedIff | public/paginas/sistema/artigos.js:16-18 | the count equals the number of boxes exactly when none is unchecked |
| ArticleList.NextSelectAll | public/paginas/sistema/artigos.js:15-24 | the box is indeterminate exactly when some but not all boxes are checked (then `checked` is unchanged); otherwise it is checked exactly when all are |
| ArticleList.TitleMatches | public/paginas/sistema/artigos.js:44-49 | a card matches when its lowercased title includes the lowercased term |
| ArticleList.FilterIgnoresCase | public/paginas/sistema/artigos.js:44-49 | the filter gives the same result whatever the case of the title and the term |
| ArticleList.EmptyTermMatchesAll | public/paginas/sistema/artigos.js:37-49 | the empty term keeps every card |
| ArticleList.SelectedIds | public/paginas/sistema/artigos.js:385 | one id for each checked card, each of them a card's id |
| ArticleList.CheckedIdsSelected | public/paginas/sistema/artigos.js:385-395 | every checked card's id is requested for deletion |
| ArticleList.DisplayTitle | public/paginas/sistema/artigos.js:158 | the title, or 'Sem título' when it is missing or empty; never empty |
| ArticleList.DisplayAuthor | public/paginas/sistema/artigos.js:162 | the author, or 'Anônimo' when missing or empty; never empty |
| ArticleList.DateLabel | public/paginas/sistema/artigos.js:161 | the formatted date when truthy, 'Sem data' otherwise |
| ArticleList.Excerpt | public/paginas/sistema/artigos.js:159 | content of at most 100 characters is shown whole; longer content shows its first 100 characters and then `...` |
| ArticleList.ExcerptBounded | public/paginas/sistema/artigos.js:159 | the excerpt has at most 103 characters and begins as the content does |
| ArticleList.ArticlesPage.CountSelected | public/paginas/sistema/artigos.js:3-4 | counts the checked boxes |
| ArticleList.ArticlesPage.UpdateBulkActions | public/paginas/sistema/artigos.js:2-25 | the bar is shown exactly when some box is checked, and then carries the count; the select-all box follows the count |
| ArticleList.ArticlesPage.OnSelectAllChange | public/paginas/sistema/artigos.js:28-34 | every box takes the select-all value; the bar shows exactly when there are cards and the value is true; with no cards the box ends up checked |
| ArticleList.ArticlesPage.FilterArticles | public/paginas/sistema/artigos.js:43-51 | each card is displayed exactly when its lowercased title includes the lowercased term |
| ArticleList.ArticlesPage.ClearFilters | public/paginas/sistema/artigos.js:37-40 | the term is emptied and every card is displayed |
| ArticleList.ArticlesPage.BulkDelete | public/paginas/sistema/artigos.js:384-397 | warns exactly when no box is checked; once confirmed, asks to delete exactly the checked cards' ids, in page order; otherwise nothing |
| CardSort.Compare | public/paginas/sistema/artigos.js:61-77 | the comparator chosen by the sort value: date differences either way, `collate` on the titles either way, and 0 for any other value |
| CardSort.Insert | public/paginas/sistema/artigos.js:61-78 | one insertion step of the stable sort adds exactly one card |
| CardSort.Sort | public/paginas/sistema/artigos.js:61-78 | the sort keeps the number of cards |
| CardSort.InsertPermutes | public/paginas/sistema/artigos.js:61-78 | an insertion step adds the card and loses none |
| CardSort.SortPermutes | public/paginas/sistema/artigos.js:61-80 | whatever the selected value, the cards after sorting are a permutation of the cards before |
| CardSort.UnknownValueKeepsOrder | public/paginas/sistema/artigos.js:75-76 | a value that no case names leaves the order unchanged, because the sort is stable |
| CardSort.CompareIsKeyDifference | public/paginas/sistema/artigos.js:63-66 | the date comparators are differences of a date key |
| CardSort.InsertBelow | public/paginas/sistema/artigos.js:63-66 | insertion keeps every key under a common bound |
| CardSort.InsertKeepsSorted | public/paginas/sistema/artigos.js:63-66 | insertion keeps a date-sorted list sorted |
| CardSort.DateSortSorted | public/paginas/sistema/artigos.js:63-66 | a date sort is ordered by its key |
| CardSort.DateOrders | public/paginas/sistema/artigos.js:63-66 | `date-desc` puts the newest card first; `date-asc` puts the oldest first |

## Left out

- Database, disk and network I/O are not modelled. MongoDB, the upload
  directory and the feeds are values or parameters; asynchrony and
  concurrent requests are left out.
- ObjectId generation is not modelled. `Store.nextId` is a counter that only
  stands for a fresh id.
- JWT signing and verification are parameters, so the secret is not
  modelled. The token is signed without `expiresIn`, so it never expires.
  The first cookie has a three-hour `maxAge`, but the second `res.cookie`
  call sets the cookie again without one. Cookie attributes are not
  modelled.
- The multer file name (timestamp and random suffix) is not modelled; it is
  an input to the model. The creation of the upload directory is left out.
- CORS, static file serving, `GET /`, `/login`, `/api`, `/admin` and
  `GET /noticias`'s JSON wrapping are not modelled.
- Login.HandleLogin: the password length is counted in characters, not
  UTF-16 code units. Non-string body values (objects, numbers, operator
  queries) are not modelled.
- ArticleList.Excerpt: the length and the cut at 100 count characters, not
  UTF-16 code units. So content with characters outside the Basic
  Multilingual Plane, such as emoji, is cut later than in the browser. A cut
  through a surrogate pair cannot be represented at all.
- Articles.ApplyUpdate: body values are strings or absent. A JSON body can
  send `null` or a number for a field, which Mongoose stores as null or casts
  to a string; the model does not cover those.
- ArticleStore.Store.Update: the same limit on body values as
  Articles.ApplyUpdate, since `express.json()` also feeds this route. Its
  unlink of the old PDF fails in the model only for a directory; other
  failures (EACCES, EPERM, EBUSY) would answer 500 in the code and are not
  modelled.
- ArticleStore.Store.UnlinkThrows: only a directory makes the unlink throw.
  Permission errors, a busy file and races with other requests are not
  modelled.
- ArticleStore.Store.RemovePdf: succeeds unless the path is a directory; an
  unlink that fails for any other reason is not modelled.
- ArticleStore.Store.PostArt: body values are strings or absent; a JSON
  number that is truthy passes the checks and is cast by Mongoose, which
  the model does not cover.
- ArticleStore.Store.Delete: `resolve` and the set of directories are
  given. Path normalisation is not modelled, and an unlink that fails for a
  reason other than a directory (permissions, a race with another request)
  is not modelled.
- ArticleStore.Store.List: the order among records with equal dates is not
  stated, because MongoDB leaves it unspecified.
- There is no `GET /artigos/:id` route in the code, so none is modelled.
- JsStrings.LowerChar: lowers ASCII and Latin-1 capitals only. Other
  capitals that `toLowerCase` lowers (such as U+0100, Ā) are left as they
  are, and so are the multi-character lowerings of the Unicode tables.
- JsStrings.ToLower: inherits the limit of JsStrings.LowerChar.
- ArticleList.TitleMatches: inherits the limit of JsStrings.LowerChar. A
  title with a capital outside Latin-1 does not match its lowercase form,
  though it does in the browser.
- ArticleList.ArticlesPage.FilterArticles: inherits the limit of
  ArticleList.TitleMatches, so such a card is hidden where the browser
  shows it.
- CardSort.Sort: title sorting goes through the abstract `collate`, and no
  ordering property is claimed for it.
- CardSort.Sort: dates are integers, so the NaN of an unparseable
  `data-date` is not modelled.
- Date parsing and `toLocaleDateString` are the parameters `parse` and
  `format`.
- `escapeHtml`, the toasts, the card HTML, `carregarArtigos`, the single
  `deleteArticle` request and the removal of its card are not modelled.
- The edit form (`abrirFormularioEdicao` and its submit) is not modelled. It
  pre-fills the content from the 100-character excerpt.
- `public/login.js`, `sistema.js` and `auth-middleware.js` are not part of
  this model.
- Console logging is not modelled.
