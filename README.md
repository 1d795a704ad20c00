# Imgur gallery scraper — a Dafny model of its naming and planning logic

The scraper takes a search phrase and a gallery count. It searches Imgur,
collects the gallery ids from the result links, and opens each gallery in
a browser. A gallery whose page shows a "load all images" control is read
in grid view (`https://imgur.com/a/<id>?grid`); any other gallery is read
in its normal view. Every media item is then downloaded into
`<phrase words joined by _>_pics/galleryNNN/imageNNN.<ext>`, and only the
extensions jpg, png, jpeg, gif and mp4 are written.

This project models the deterministic part of that pipeline. The network,
the browser, the HTML parser and the file system are left out. What they
would supply becomes an input: the result hrefs, the count of "load all"
controls, the grid items' `data-href` values, and each normal-view
element's optional `src` and `content`. What they would do becomes a
value: the names, the URLs and the planned downloads. Each gallery id comes
with a `GalleryPage`: its count of "load all" controls, the `data-href`
values of its grid view, and the elements of its normal view.

- `wrappers.dfy` — `Option` and `Result`.
- `py_strings.dfy` (module `PyStrings`) — the Python string built-ins the
  script is written in: `str.split()`, `str.split(sep)`, `sep.join`,
  `str.strip(ch)`, `str(n)` and `str.zfill`. They are modelled with the
  lemmas that characterise them: the split/join round trips, whitespace
  runs acting as separators, strip undoing slash padding, and a
  zero-filled number keeping its value.
- `imgur_names.dfy` (module `ImgurNames`) — every name and URL the script
  builds: the output directory, the search URL, gallery ids, gallery and
  grid URLs, zero-padded folder and item numbers, extension inference
  with the allow-list, grid-item URL cleaning, and the normal-view
  `src`/`content` priority.
- `imgur_scraper.dfy` (module `ImgurScraper`) — the loops as methods with
  invariants: id collection, the gallery loop, the whole run up to the
  galleries, the grid-view and normal-view item loops, and the gallery
  dispatch between the two views.

The code names the top directory `<words>_pics`. It accepts any integer
count, and a count of zero or less visits no gallery. It does not skip a normal-view element that
has neither `src` nor `content` (see Findings): the gallery dispatch and
the whole run use the normal-view loop as written
(`NormalDownloadsAsWritten`), so a gallery whose first element has no
link ends the run at that gallery, and a later link-less element writes
the previous item's media again. The intended loop, which skips such an
element, is modelled beside it (`NormalItem`, `NormalPlanAt`,
`NormalDownloads`) and is not used by the run.

## Model

| member | source | states |
|---|---|---|
| `PyStrings.Tokens` | imgur_web_scraper.py:24 | `str.split()` with no argument; its contract is carried by `TokensAreWords`, `TokensSplitAt`, `TokensSkipSpace` and `TokensOfWord` below |
| `PyStrings.TokensAreWords` | imgur_web_scraper.py:24 | `str.split()`: every token is non-empty and free of whitespace |
| `PyStrings.TokensSplitAt` | imgur_web_scraper.py:24 | any non-empty whitespace run between two strings separates their tokens: `Tokens(a+sep+b) == Tokens(a)+Tokens(b)` |
| `PyStrings.TokensSkipSpace` | imgur_web_scraper.py:24 | leading whitespace yields no token |
| `PyStrings.TokensOfWord` | imgur_web_scraper.py:24 | a non-empty whitespace-free word is its own only token |
| `PyStrings.JoinWith` | imgur_web_scraper.py:18-25 | `sep.join(parts)`; characterised by `JoinSplit` and `SplitJoin` (join and split undo each other) and by `JoinWithNoSpace` |
| `PyStrings.JoinWithNoSpace` | imgur_web_scraper.py:18-25 | joining whitespace-free parts with a non-whitespace separator gives a whitespace-free string |
| `PyStrings.Split` | imgur_web_scraper.py:37 | `str.split(sep)`: at least one part, and no part contains the separator |
| `PyStrings.JoinSplit` | imgur_web_scraper.py:37 | re-joining the parts of `s.split(sep)` with `sep` gives back `s` |
| `PyStrings.SplitJoin` | imgur_web_scraper.py:25 | splitting a join of separator-free parts (at least one) gives back the parts |
| `PyStrings.SplitCount` | imgur_web_scraper.py:37-38 | `s.split(sep)` has one more part than `s` has separators |
| `PyStrings.LastPartIsTail` | imgur_web_scraper.py:109-110 | the last part of `s.split(sep)` is the text after the last separator, or all of `s` |
| `PyStrings.Strip` | imgur_web_scraper.py:100 | `strip(ch)`: the result neither starts nor ends with `ch`; `StripPadded` and `StripDecomposes` pin down which characters are removed |
| `PyStrings.StripPadded` | imgur_web_scraper.py:100 | `strip(ch)` gives back any string that neither starts nor ends with `ch`, however much `ch` surrounds it |
| `PyStrings.StripDecomposes` | imgur_web_scraper.py:100 | every string is its stripped form with runs of `ch` added on both sides |
| `PyStrings.DecimalString` | imgur_web_scraper.py:67 | `str(n)`: non-empty decimal digits without a leading zero |
| `PyStrings.DecimalValue` | imgur_web_scraper.py:67 | `str(n)` denotes `n` |
| `PyStrings.ZerosValue` | imgur_web_scraper.py:67 | leading zeros do not change the value a digit string denotes |
| `PyStrings.ZFill` | imgur_web_scraper.py:67 | `zfill(w)`: the length is `max(len, w)`, so nothing is truncated |
| `PyStrings.ZFillDigits` | imgur_web_scraper.py:67 | zero-filling digits keeps them digits with the same value, ending in the original digits |
| `ImgurNames.DirName` | imgur_web_scraper.py:18 | the directory name ends in `_pics` and contains no whitespace |
| `ImgurNames.SearchUrl` | imgur_web_scraper.py:23-26 | the search URL starts with `https://imgur.com/search/score?q=` and contains no whitespace |
| `ImgurNames.PhraseSpacingIrrelevant` | imgur_web_scraper.py:18-26 | any whitespace run between words gives the same directory and search URL as one space |
| `ImgurNames.PhrasePaddingIrrelevant` | imgur_web_scraper.py:18-26 | leading and trailing whitespace of the phrase changes neither the directory nor the URL |
| `ImgurNames.PhraseOfWords` | imgur_web_scraper.py:18-26 | for space-separated words, the directory is the words joined by `_` plus `_pics`, and the URL is the endpoint plus the words joined by `+` |
| `ImgurNames.TokensOfJoin` | imgur_web_scraper.py:24 | words joined by single spaces split back into those words |
| `ImgurNames.SearchQueryWords` | imgur_web_scraper.py:23-26 | the query splits on `+` back into the phrase's words when there is a word and no word contains `+` |
| `ImgurNames.GalleryId` | imgur_web_scraper.py:37-38 | an id exists exactly when the href has at least two `/`, and the id never contains `/` |
| `ImgurNames.GalleryIdAfterTwoSegments` | imgur_web_scraper.py:37-38 | after two slash-free segments, the id is the first `/`-separated part of the rest |
| `ImgurNames.GalleryIdOfPath` | imgur_web_scraper.py:37-38 | for `a/b/id` with slash-free segments the id is `id`, so `/gallery/abc123` gives `abc123` |
| `ImgurNames.GalleryIdOfLongerPath` | imgur_web_scraper.py:37-38 | for `a/b/id/rest` with slash-free `a`, `b` and `id` the id is still `id`, whatever `rest` is |
| `ImgurNames.GalleryUrl` | imgur_web_scraper.py:49 | the gallery page of an id; characterised by `GalleryUrlOfHref`, `GalleryUrlSegments` and `GalleryUrlsInjective` |
| `ImgurNames.GridUrl` | imgur_web_scraper.py:88 | the grid-view page of an id; characterised by `GridUrlSegments` and `GalleryUrlsInjective` |
| `ImgurNames.GalleryUrlOfHref` | imgur_web_scraper.py:49 | the result href `/gallery/<id>` yields the id, and so does the path of the gallery URL after the site root |
| `ImgurNames.GalleryUrlSegments` | imgur_web_scraper.py:49 | the gallery URL's `/` segments are `https:`, ``, `imgur.com`, `gallery` and the id |
| `ImgurNames.GridUrlSegments` | imgur_web_scraper.py:88 | the grid URL's `/` segments are `https:`, ``, `imgur.com`, `a` and `<id>?grid` |
| `ImgurNames.GalleryUrlsInjective` | imgur_web_scraper.py:49 | distinct ids give distinct gallery URLs and distinct grid URLs (line 88) |
| `ImgurNames.SplitFiveSegments` | imgur_web_scraper.py:49 | five slash-free segments joined by `/` split back into themselves |
| `ImgurNames.Padded3` | imgur_web_scraper.py:67 | `str(n).zfill(3)` is all digits, denotes `n`, is at least 3 long and ends with `str(n)` (never truncated) |
| `ImgurNames.FolderName` | imgur_web_scraper.py:67 | the folder is `gallery` followed by digits that denote `count+1`, so distinct indices give distinct folders (same at line 94) |
| `ImgurNames.ImageNumber` | imgur_web_scraper.py:82 | the item number has at least 3 digits and denotes `num+1` (same at line 103) |
| `ImgurNames.Extension` | imgur_web_scraper.py:109-110 | the extension is a dot-free suffix of the URL that is either the whole URL or preceded by `.`, i.e. the text after the last `.` |
| `ImgurNames.ExtensionAfterDot` | imgur_web_scraper.py:109-110 | the extension of `stem + "." + ext` with a dot-free `ext` is `ext` |
| `ImgurNames.FileNameFor` | imgur_web_scraper.py:107-119 | a file is written exactly when the extension is allowed; its name starts with `image`, and for a dot-free number its own extension is the URL's |
| `ImgurNames.FileNamesDistinct` | imgur_web_scraper.py:111 | two written files with digit numbers share a name only if they share number and extension |
| `ImgurNames.ImageFilesDistinct` | imgur_web_scraper.py:82-83 | items at distinct indices of one gallery never write the same file |
| `ImgurNames.OutputPathsDistinct` | imgur_web_scraper.py:18-111 | the path `dir/galleryNNN/imageNNN.ext`, built from the directory (line 18), the folder (lines 67 and 94) and the file name (line 111), coincides with another only for the same gallery index and item index |
| `ImgurNames.CleanHref` | imgur_web_scraper.py:100 | the cleaned `data-href` neither starts nor ends with `/` |
| `ImgurNames.GridItemUrl` | imgur_web_scraper.py:100-101 | the download URL is `https://` followed by the cleaned `data-href` |
| `ImgurNames.CleanHrefCharacterised` | imgur_web_scraper.py:100 | cleaning removes exactly the surrounding slashes: padding undone, and every href is its cleaned form padded with slashes |
| `ImgurNames.CleanHrefIdempotent` | imgur_web_scraper.py:100 | cleaning a cleaned href changes nothing |
| `ImgurNames.ImageSource` | imgur_web_scraper.py:73-78 | `src` is used whenever present; `content` is used only when `src` is absent; there is no link only when both are absent |
| `ImgurScraper.CollectIds` | imgur_web_scraper.py:34-38 | one id per href, in order, each segment 2 of the href; otherwise the run fails at the first href with fewer than three segments |
| `ImgurScraper.VisitAt` | imgur_web_scraper.py:46-50 | pass `c` of the gallery loop visits id `c`, at `https://imgur.com/gallery/` + that id, in a folder `gallery` + digits denoting `c+1` (line 67) |
| `ImgurScraper.PassFoldersDistinct` | imgur_web_scraper.py:67 | distinct passes of a run write into distinct folders |
| `ImgurScraper.VisitCount` | imgur_web_scraper.py:46 | with no failing gallery, the loop makes no pass for a count of zero or less, `n` passes when there are `n` ids or more, and one pass per id otherwise |
| `ImgurScraper.PlanGalleries` | imgur_web_scraper.py:46-60 | the passes made are the first ones, in order, each of a gallery that succeeded; the loop stops exactly at the first gallery that fails, with its error, ends on the exhausted id list exactly when more galleries are asked for than there are ids and none failed first, and otherwise makes `VisitCount` passes |
| `ImgurScraper.LoopOutcomeUnique` | imgur_web_scraper.py:46-60 | the gallery loop's outcome is determined by its inputs: two outcomes meeting its contract have the same passes and the same stop |
| `ImgurScraper.PlanRun` | imgur_web_scraper.py:16-60 | the directory and search page come from the phrase; a malformed href visits no gallery; otherwise the run is the gallery loop over the hrefs' ids with their pages |
| `ImgurScraper.ChooseView` | imgur_web_scraper.py:51-57 | grid view exactly when at least one "load all" control is present |
| `ImgurScraper.WrittenFile` | imgur_web_scraper.py:108-111 | an item is written exactly when the extension of the URL it is named after is allowed, as `image` + number + `.` + that extension, and the file's own extension is that extension |
| `ImgurScraper.GridItem` | imgur_web_scraper.py:100-104 | a grid item's response URL is `https://` + the URL it is named after, that URL has no surrounding `/`, and its number is digits denoting `num+1` |
| `ImgurScraper.GridPlanAt` | imgur_web_scraper.py:99-104 | grid item `i` is fetched from `https://` + its own cleaned href, named after the cleaned href, and numbered `i+1` |
| `ImgurScraper.GridDownloads` | imgur_web_scraper.py:99-104 | the grid loop plans one download per grid item, in order, exactly the grid plan |
| `ImgurScraper.NormalItem` | imgur_web_scraper.py:73-83 | corrected behaviour, not the code as written: an element plans a download exactly when it has a link; that download is written from and named after the link, numbered `index+1` |
| `ImgurScraper.NormalPlanAt` | imgur_web_scraper.py:72-83 | under the corrected loop, item `i` is planned exactly when element `i` has a link, and is then written from that link and numbered `i+1` |
| `ImgurScraper.NormalDownloads` | imgur_web_scraper.py:72-83 | the corrected normal-view loop plans exactly the normal plan: each element its own item or, if it has no link, nothing |
| `ImgurScraper.NormalItemsOwnFiles` | imgur_web_scraper.py:82-83 | under the corrected loop, two written items of one gallery never share a file |
| `ImgurScraper.LatestSource` | imgur_web_scraper.py:72-81 | the URL held at item `i` is defined once the first element has a link, and is the item's own link whenever it has one |
| `ImgurScraper.AsWrittenPlanAt` | imgur_web_scraper.py:72-83 | in the code as written, item `i` carries the URL held at `i`, the latest link at or before `i`: it is written from that URL's response and named after it, and numbered `i+1` |
| `ImgurScraper.NormalDownloadsAsWritten` | imgur_web_scraper.py:72-83 | the loop as written yields exactly `NormalOutcomeAsWritten`: it fails, at item 0, exactly when the first element has no link; otherwise it writes exactly the as-written plan |
| `ImgurScraper.StaleLinkReused` | imgur_web_scraper.py:79-83 | for a `.jpg` first item and a link-less second item, the code as written writes `image001.jpg` and `image002.jpg` from the same URL |
| `ImgurScraper.StaleLinkRepeatsPrevious` | imgur_web_scraper.py:79-83 | in the code as written, a link-less element after the first gets exactly the previous item's URL |
| `ImgurScraper.SingleDigitNumber` | imgur_web_scraper.py:82 | items 0 to 8 are numbered `001` to `009` |
| `ImgurScraper.JpgFileName` | imgur_web_scraper.py:108-111 | a `.jpg` URL is written as `image<num>.jpg` |
| `ImgurScraper.ProcessGallery` | imgur_web_scraper.py:48-57 | a gallery's folder is `FolderName(count)`; with a "load all" control, the media come from the grid URL and the items are the grid plan; otherwise they come from the gallery URL with the normal-view loop as written, which fails with the unbound response exactly when the first element has no link |

## Left out

- Network and browser: `requests.get`, `raise_for_status`, `webdriver.Firefox`, `implicitly_wait`, `driver.get`, `page_source` and `driver.quit` are foreign calls. Their results are inputs here. An HTTP error status, which ends the run in the code, is not modelled.
- HTML querying: the `.image-list-link` and `.post-grid-image` CSS selections and the XPath lookups are library internals. Each becomes a given sequence of hrefs, `data-href` values, elements, or a count of "load all" controls.
- An anchor or grid item without an `href` / `data-href` attribute (a `KeyError` in the code) is not modelled, because the inputs are the attribute values themselves.
- File system: `os.makedirs`, `os.chdir` and the chunked `open`/`write` are left out. The model gives the intended paths as values. The `chdir` into and out of each gallery folder is reflected only in the path shape `dir/galleryNNN/imageNNN.ext`.
- The "Error creating image" branch (imgur_web_scraper.py:116-117) cannot be reached, because `open` either returns a file or raises.
- The interactive prompts and the top-level `except Exception` handler (imgur_web_scraper.py:123-144) are user interface. The model returns `ScrapeError` values where the code would raise into that handler.
- The diagnostics printed for a skipped extension or a missing link are left out. A skipped extension shows as `WrittenFile` returning `None`; a missing link shows in the as-written plan as the previous item's URL, and as `None` only in the corrected plan.
- `ImgurScraper.NormalItem`: it states the intended skip of a link-less element, not the code as written. The as-written reuse of the previous link is modelled by `AsWrittenPlan`, `AsWrittenPlanAt` and `NormalDownloadsAsWritten`, which the run uses.
- The folder a failing normal-view gallery creates before it fails is not part of the model's outcome, which lists completed passes only.
- The search words are not percent-encoded in the code, and they are not in the model either. `SearchQueryWords` therefore needs words without `+`.
- `PyStrings.ZFill`: the sign handling is modelled but never used, because the code only zero-fills `str(count+1)` and `str(num+1)`, which are positive.

## Findings

| source | as written | input that shows it | evidently intended | confidence | as-written member | corrected member |
|---|---|---|---|---|---|---|
| imgur_web_scraper.py:79-83 | a normal-view element with neither `src` nor `content` prints a message but does not skip. The loop goes on with `image_url` and `image_res` left over from the previous item, so that item's media is written again under the new number. When the element is the first one, `image_res` is unbound and the run ends | elements `[src="<stem>.jpg", no attributes]`: both `image001.jpg` and `image002.jpg` are written from `<stem>.jpg`; elements `[no attributes]`: the run fails | report the element and skip it, leaving the other items and their numbers unchanged | not executed; high | `ImgurScraper.NormalDownloadsAsWritten`, `ImgurScraper.StaleLinkReused` | `ImgurScraper.NormalDownloads`, `ImgurScraper.NormalPlanAt` |
