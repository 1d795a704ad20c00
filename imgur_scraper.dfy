/**
 * The loops of the Imgur gallery scraper, as plans: which gallery ids the
 * search results yield, which galleries the driver visits and under which
 * folder, and which media items each gallery view writes and under which
 * number. The network, the browser and the file system are not modelled:
 * their results are the inputs here, and the effects are the plans.
 */
module ImgurScraper {
  import opened Wrappers
  import opened PyStrings
  import opened ImgurNames

  /** The exceptions that end a run (all reach the top-level handler). */
  datatype ScrapeError =
    | ShortHref(element: nat)       // split('/')[2] on an href with fewer than three segments
    | IdListExhausted(count: nat)   // id_list[count] with count == len(id_list)
    | UnboundResponse(item: nat)    // normal view: image_res read before any assignment

  function Min(a: int, b: int): int {
    if a <= b then a else b
  }

  // ---------------------------------------------------------------------
  // Search results -> gallery ids
  // ---------------------------------------------------------------------

  /** The id of every search result anchor, one per anchor, in document
      order; the first href with fewer than three '/'-separated segments
      ends the run. */
  method CollectIds(hrefs: seq<string>) returns (r: Result<seq<string>, ScrapeError>)
    ensures r.Success? <==> forall i :: 0 <= i < |hrefs| ==> GalleryId(hrefs[i]).Some?
    ensures r.Success? ==> |r.value| == |hrefs|
    ensures r.Success? ==> forall i :: 0 <= i < |hrefs| ==> GalleryId(hrefs[i]) == Some(r.value[i])
    ensures r.Failure? ==> r.error.ShortHref? && r.error.element < |hrefs|
    ensures r.Failure? ==> GalleryId(hrefs[r.error.element]).None?
    ensures r.Failure? ==> forall i :: 0 <= i < r.error.element ==> GalleryId(hrefs[i]).Some?
  {
    var ids: seq<string> := [];
    var i := 0;
    while i < |hrefs|
      invariant 0 <= i <= |hrefs| && |ids| == i
      invariant forall k :: 0 <= k < i ==> GalleryId(hrefs[k]) == Some(ids[k])
    {
      var parts := Split(hrefs[i], '/');
      if |parts| < 3 {
        return Failure(ShortHref(i));
      }
      ids := ids + [parts[2]];
      i := i + 1;
    }
    return Success(ids);
  }

  // ---------------------------------------------------------------------
  // One gallery: grid view or normal view
  // ---------------------------------------------------------------------

  /** The two ways a gallery page is read; grid view exactly when the
      rendered page shows a "load all images" control. */
  datatype View = GridView | NormalView

  function ChooseView(loadAllButtons: nat): (v: View)
    ensures v == GridView <==> loadAllButtons > 0
  {
    if loadAllButtons > 0 then GridView else NormalView
  }

  /** One media item: the URL whose response is written to the file, the
      URL whose extension names the file, and the zero-padded item
      number. */
  datatype Download = Download(responseUrl: string, nameUrl: string, number: string)

  /** The file an item is written to, or None when its extension is not
      allowed: a written file is "image" + number + "." + the extension of
      the URL the item is named after. */
  function WrittenFile(d: Download): (f: Option<string>)
    ensures f.Some? <==> Extension(d.nameUrl) in AllowedExtensions
    ensures f.Some? ==> f.value == "image" + d.number + "." + Extension(d.nameUrl)
    ensures f.Some? && '.' !in d.number ==> Extension(f.value) == Extension(d.nameUrl)
  {
    FileNameFor(d.nameUrl, d.number)
  }

  /** Grid view: the item at index num is fetched from "https://" + its
      cleaned data-href and named after the cleaned data-href. */
  function GridItem(num: nat, dataHref: string): (d: Download)
    ensures |d.responseUrl| >= 8 && d.responseUrl[..8] == "https://" && d.responseUrl[8..] == d.nameUrl
    ensures d.nameUrl == [] || (d.nameUrl[0] != '/' && d.nameUrl[|d.nameUrl| - 1] != '/')
    ensures IsDigits(d.number) && DigitsValue(d.number) == num + 1
  {
    Download(GridItemUrl(dataHref), CleanHref(dataHref), ImageNumber(num))
  }

  /** The items of the first n grid elements, in order. */
  function GridPlan(dataHrefs: seq<string>, n: nat): (ds: seq<Download>)
    requires n <= |dataHrefs|
    ensures |ds| == n
  {
    if n == 0 then [] else GridPlan(dataHrefs, n - 1) + [GridItem(n - 1, dataHrefs[n - 1])]
  }

  /** Grid item i is fetched from https:// + its own cleaned data-href,
      named after it, and numbered i+1. */
  lemma {:induction false} GridPlanAt(dataHrefs: seq<string>, n: nat, i: nat)
    requires i < n <= |dataHrefs|
    ensures GridPlan(dataHrefs, n)[i] == GridItem(i, dataHrefs[i])
    ensures GridPlan(dataHrefs, n)[i].responseUrl == GridItemUrl(dataHrefs[i])
    ensures GridPlan(dataHrefs, n)[i].nameUrl == CleanHref(dataHrefs[i])
    ensures DigitsValue(GridPlan(dataHrefs, n)[i].number) == i + 1
  {
    var before := GridPlan(dataHrefs, n - 1);
    assert GridPlan(dataHrefs, n) == before + [GridItem(n - 1, dataHrefs[n - 1])];
    if i < n - 1 {
      GridPlanAt(dataHrefs, n - 1, i);
      assert GridPlan(dataHrefs, n)[i] == before[i];
    }
  }

  /** Grid view: one item per grid element, in order. */
  method GridDownloads(dataHrefs: seq<string>) returns (ds: seq<Download>)
    ensures ds == GridPlan(dataHrefs, |dataHrefs|)
  {
    ds := [];
    var num := 0;
    while num < |dataHrefs|
      invariant 0 <= num <= |dataHrefs|
      invariant ds == GridPlan(dataHrefs, num)
    {
      var cleanUrl := CleanHref(dataHrefs[num]);
      var imageUrl := "https://" + cleanUrl;
      assert imageUrl == GridItemUrl(dataHrefs[num]);
      ds := ds + [Download(imageUrl, cleanUrl, ImageNumber(num))];
      num := num + 1;
    }
  }

  /** The item planned for an element at index num in normal view, as
      intended: its own link (src first), or nothing when it has none. The
      code as written differs for a link-less element; see
      NormalDownloadsAsWritten. */
  function NormalItem(num: nat, e: Element): (item: Option<Download>)
    ensures item.Some? <==> ImageSource(e).Some?
    ensures item.Some? ==> item.value.responseUrl == item.value.nameUrl == ImageSource(e).value
    ensures item.Some? ==> item.value.number == ImageNumber(num)
  {
    match ImageSource(e)
    case None => None
    case Some(u) => Some(Download(u, u, ImageNumber(num)))
  }

  /** The items of the first n normal-view elements, in order. */
  function NormalPlan(elements: seq<Element>, n: nat): (items: seq<Option<Download>>)
    requires n <= |elements|
    ensures |items| == n
  {
    if n == 0 then [] else NormalPlan(elements, n - 1) + [NormalItem(n - 1, elements[n - 1])]
  }

  /** Normal-view item i is planned exactly when element i has a link, and
      then from that link (src first), numbered i+1. */
  lemma {:induction false} NormalPlanAt(elements: seq<Element>, n: nat, i: nat)
    requires i < n <= |elements|
    ensures NormalPlan(elements, n)[i] == NormalItem(i, elements[i])
    ensures NormalPlan(elements, n)[i].Some? <==> ImageSource(elements[i]).Some?
    ensures NormalPlan(elements, n)[i].Some? ==>
      && NormalPlan(elements, n)[i].value.responseUrl == ImageSource(elements[i]).value
      && DigitsValue(NormalPlan(elements, n)[i].value.number) == i + 1
  {
    var before := NormalPlan(elements, n - 1);
    assert NormalPlan(elements, n) == before + [NormalItem(n - 1, elements[n - 1])];
    if i < n - 1 {
      NormalPlanAt(elements, n - 1, i);
      assert NormalPlan(elements, n)[i] == before[i];
    }
  }

  /** Normal view, as intended: an element with src or content is written
      from that URL (src first) under its own number; an element with
      neither is reported and skipped (None), and the others keep their
      numbers. */
  method NormalDownloads(elements: seq<Element>) returns (items: seq<Option<Download>>)
    ensures items == NormalPlan(elements, |elements|)
  {
    items := [];
    var num := 0;
    while num < |elements|
      invariant 0 <= num <= |elements|
      invariant items == NormalPlan(elements, num)
    {
      var image := elements[num];
      var item: Option<Download>;
      if image.src.Some? {
        item := Some(Download(image.src.value, image.src.value, ImageNumber(num)));
      } else if image.content.Some? {
        item := Some(Download(image.content.value, image.content.value, ImageNumber(num)));
      } else {
        item := None;
      }
      items := items + [item];
      num := num + 1;
    }
  }

  /** Under the intended behaviour no two written items of a gallery share
      a file. */
  lemma NormalItemsOwnFiles(elements: seq<Element>, i: nat, j: nat)
    requires i < j < |elements|
    requires NormalPlan(elements, |elements|)[i].Some? && NormalPlan(elements, |elements|)[j].Some?
    requires WrittenFile(NormalPlan(elements, |elements|)[i].value).Some?
    requires WrittenFile(NormalPlan(elements, |elements|)[j].value).Some?
    ensures WrittenFile(NormalPlan(elements, |elements|)[i].value) != WrittenFile(NormalPlan(elements, |elements|)[j].value)
  {
    var plan := NormalPlan(elements, |elements|);
    NormalPlanAt(elements, |elements|, i);
    NormalPlanAt(elements, |elements|, j);
    ImageFilesDistinct(plan[i].value.nameUrl, i, plan[j].value.nameUrl, j);
  }

  /** The URL the as-written normal-view loop holds when it reaches item i:
      the item's own link, or else the one left over from the latest
      earlier item that had one. */
  function LatestSource(elements: seq<Element>, i: nat): (url: Option<string>)
    requires i < |elements|
    ensures ImageSource(elements[0]).Some? ==> url.Some?
    ensures ImageSource(elements[i]).Some? ==> url == ImageSource(elements[i])
  {
    if ImageSource(elements[i]).Some? then ImageSource(elements[i])
    else if i == 0 then None
    else LatestSource(elements, i - 1)
  }

  /** The URL the as-written loop holds on entering item n. */
  function LatestBefore(elements: seq<Element>, n: nat): Option<string>
    requires n <= |elements|
  {
    if n == 0 then None else LatestSource(elements, n - 1)
  }

  /** The items the as-written loop plans for the first n elements, when
      the first element has a link. */
  function AsWrittenPlan(elements: seq<Element>, n: nat): (ds: seq<Download>)
    requires n <= |elements|
    requires n > 0 ==> ImageSource(elements[0]).Some?
    ensures |ds| == n
  {
    if n == 0 then []
    else
      var u := LatestSource(elements, n - 1).value;
      AsWrittenPlan(elements, n - 1) + [Download(u, u, ImageNumber(n - 1))]
  }

  /** As written, item i carries the URL held at i: the latest link at or
      before i, whose response is written again when i has no link. */
  lemma {:induction false} AsWrittenPlanAt(elements: seq<Element>, n: nat, i: nat)
    requires i < n <= |elements| && ImageSource(elements[0]).Some?
    ensures AsWrittenPlan(elements, n)[i] ==
      Download(LatestSource(elements, i).value, LatestSource(elements, i).value, ImageNumber(i))
  {
    var before := AsWrittenPlan(elements, n - 1);
    var u := LatestSource(elements, n - 1).value;
    assert AsWrittenPlan(elements, n) == before + [Download(u, u, ImageNumber(n - 1))];
    if i == n - 1 {
      assert AsWrittenPlan(elements, n)[i] == Download(u, u, ImageNumber(i));
    } else {
      AsWrittenPlanAt(elements, n - 1, i);
      assert AsWrittenPlan(elements, n)[i] == before[i];
    }
  }

  /** What the as-written normal-view loop yields for a gallery: the
      unbound response at item 0 when the first element has no link, and
      otherwise the as-written plan of every element. */
  function NormalOutcomeAsWritten(elements: seq<Element>): Result<seq<Download>, ScrapeError> {
    if |elements| > 0 && ImageSource(elements[0]).None? then Failure(UnboundResponse(0))
    else Success(AsWrittenPlan(elements, |elements|))
  }

  /** Normal view, as written: an element with neither src nor content
      prints a message and then goes on with the previous item's URL and
      response, so it is stored again under the new number; when that
      element is the first one there is no previous response and the run
      ends. */
  method NormalDownloadsAsWritten(elements: seq<Element>) returns (r: Result<seq<Download>, ScrapeError>)
    ensures r == NormalOutcomeAsWritten(elements)
    ensures r.Failure? <==> |elements| > 0 && ImageSource(elements[0]).None?
    ensures r.Failure? ==> r.error == UnboundResponse(0)
  {
    var ds: seq<Download> := [];
    var imageUrl: Option<string> := None;
    var num := 0;
    while num < |elements|
      invariant 0 <= num <= |elements|
      invariant num > 0 ==> ImageSource(elements[0]).Some?
      invariant imageUrl == LatestBefore(elements, num)
      invariant ds == AsWrittenPlan(elements, num)
    {
      var image := elements[num];
      if image.src.Some? {
        imageUrl := image.src;
      } else if image.content.Some? {
        imageUrl := image.content;
      }
      if imageUrl.None? {
        return Failure(UnboundResponse(num));
      }
      assert imageUrl == LatestSource(elements, num);
      ds := ds + [Download(imageUrl.value, imageUrl.value, ImageNumber(num))];
      num := num + 1;
    }
    return Success(ds);
  }

  /** The as-written loop stores a link-less element as a copy of the item
      before it: for a first element linking to any "<stem>.jpg" and a
      second with no link, both image001.jpg and image002.jpg are written
      from that one URL. */
  lemma StaleLinkReused(stem: string)
    ensures var es := [Element(Some(stem + ".jpg"), None), Element(None, None)];
      && ImageSource(es[1]).None?
      && AsWrittenPlan(es, 2)[0].responseUrl == AsWrittenPlan(es, 2)[1].responseUrl == stem + ".jpg"
      && ImageNumber(0) == "001" && ImageNumber(1) == "002"
      && FileNameFor(stem + ".jpg", ImageNumber(0)) == Some("image" + ImageNumber(0) + ".jpg")
      && FileNameFor(stem + ".jpg", ImageNumber(1)) == Some("image" + ImageNumber(1) + ".jpg")
  {
    var es := [Element(Some(stem + ".jpg"), None), Element(None, None)];
    AsWrittenPlanAt(es, 2, 0);
    AsWrittenPlanAt(es, 2, 1);
    SingleDigitNumber(0);
    SingleDigitNumber(1);
    JpgFileName(stem, ImageNumber(0));
    JpgFileName(stem, ImageNumber(1));
  }

  /** Items 0 to 8 are numbered "001" to "009". */
  lemma SingleDigitNumber(num: nat)
    requires num < 9
    ensures ImageNumber(num) == "00" + [DigitChar(num + 1)]
  {
    assert DecimalString(num + 1) == [DigitChar(num + 1)];
    assert Repeat('0', 2) == "00";
  }

  /** A ".jpg" URL is written as "image" + num + ".jpg". */
  lemma JpgFileName(stem: string, num: string)
    ensures FileNameFor(stem + ".jpg", num) == Some("image" + num + ".jpg")
  {
    assert Extension(stem + ".jpg") == "jpg" by {
      ExtensionAfterDot(stem, "jpg");
      assert stem + ".jpg" == stem + "." + "jpg";
    }
    assert "jpg" in AllowedExtensions;
    assert "image" + num + "." + "jpg" == "image" + num + ".jpg";
  }

  /** In general, as written: a link-less element after the first is
      planned with exactly the URL of the item before it. */
  lemma StaleLinkRepeatsPrevious(elements: seq<Element>, i: nat)
    requires 0 < i < |elements|
    requires ImageSource(elements[0]).Some? && ImageSource(elements[i]).None?
    ensures AsWrittenPlan(elements, |elements|)[i].responseUrl == AsWrittenPlan(elements, |elements|)[i - 1].responseUrl
  {
    AsWrittenPlanAt(elements, |elements|, i);
    AsWrittenPlanAt(elements, |elements|, i - 1);
  }

  // ---------------------------------------------------------------------
  // One pass of the gallery loop
  // ---------------------------------------------------------------------

  /** What the browser shows for one gallery: how many "load all images"
      controls its page has, the data-href of every grid item of its grid
      view, and the media elements of its normal view. */
  datatype GalleryPage = GalleryPage(loadAllButtons: nat, gridHrefs: seq<string>, elements: seq<Element>)

  /** The page a gallery's media list is read from. */
  function MediaPage(id: string, loadAllButtons: nat): string {
    if ChooseView(loadAllButtons) == GridView then GridUrl(id) else GalleryUrl(id)
  }

  /** The items one gallery writes, as the code is written: the grid plan in
      grid view; in normal view the as-written plan, or the unbound
      response when the first element has no link. */
  function GalleryItems(page: GalleryPage): Result<seq<Download>, ScrapeError> {
    if ChooseView(page.loadAllButtons) == GridView then
      Success(GridPlan(page.gridHrefs, |page.gridHrefs|))
    else NormalOutcomeAsWritten(page.elements)
  }

  /** One pass of the gallery loop body: the folder, the page the media
      list is read from, and the items written, or the error that ends the
      run. Grid view always succeeds; normal view behaves as the code is
      written. */
  method ProcessGallery(count: nat, id: string, page: GalleryPage)
    returns (folder: string, mediaPage: string, items: Result<seq<Download>, ScrapeError>)
    ensures folder == FolderName(count) && mediaPage == MediaPage(id, page.loadAllButtons)
    ensures items == GalleryItems(page)
    ensures ChooseView(page.loadAllButtons) == GridView ==>
      mediaPage == GridUrl(id) && items == Success(GridPlan(page.gridHrefs, |page.gridHrefs|))
    ensures ChooseView(page.loadAllButtons) == NormalView ==>
      && mediaPage == GalleryUrl(id)
      && (items.Failure? <==> |page.elements| > 0 && ImageSource(page.elements[0]).None?)
      && (items.Failure? ==> items.error == UnboundResponse(0))
  {
    folder := FolderName(count);
    if page.loadAllButtons != 0 {
      mediaPage := GridUrl(id);
      var ds := GridDownloads(page.gridHrefs);
      items := Success(ds);
    } else {
      mediaPage := GalleryUrl(id);
      items := NormalDownloadsAsWritten(page.elements);
    }
  }

  // ---------------------------------------------------------------------
  // The gallery loop and the whole run
  // ---------------------------------------------------------------------

  /** The part of a pass fixed by its index: the index, the id, the folder
      the gallery's files go to, and the page the browser opens first. */
  datatype Visit = Visit(count: nat, id: string, folder: string, galleryUrl: string)

  /** The visit of the pass at index count. */
  function VisitAt(ids: seq<string>, count: nat): (v: Visit)
    requires count < |ids|
    ensures v.count == count && v.id == ids[count]
    ensures |v.folder| >= 10 && v.folder[..7] == "gallery"
    ensures IsDigits(v.folder[7..]) && DigitsValue(v.folder[7..]) == count + 1
    ensures v.galleryUrl == GalleryPrefix + ids[count]
  {
    Visit(count, ids[count], FolderName(count), GalleryUrl(ids[count]))
  }

  /** A completed pass: its visit, the page its media came from, and the
      items it wrote. */
  datatype Pass = Pass(visit: Visit, mediaPage: string, items: seq<Download>)

  /** Every gallery before index k writes its items without error. */
  predicate PassesSucceed(pages: seq<GalleryPage>, k: nat)
    requires k <= |pages|
  {
    forall c :: 0 <= c < k ==> GalleryItems(pages[c]).Success?
  }

  /** The pass at index c, when its gallery succeeds. */
  function PassAt(ids: seq<string>, pages: seq<GalleryPage>, c: nat): Pass
    requires c < |ids| == |pages| && GalleryItems(pages[c]).Success?
  {
    Pass(VisitAt(ids, c), MediaPage(ids[c], pages[c].loadAllButtons), GalleryItems(pages[c]).value)
  }

  /** How many passes a request for numGalleries makes when none fails:
      none for a count of zero or less, never more than there are ids. */
  function VisitCount(numIds: nat, numGalleries: int): (n: nat)
    ensures n <= numIds
    ensures numGalleries <= 0 ==> n == 0
    ensures 0 < numGalleries <= numIds ==> n == numGalleries
    ensures numGalleries > numIds ==> n == numIds
  {
    if numGalleries <= 0 then 0 else Min(numGalleries, numIds)
  }

  /** passes are the first |passes| passes, in order, each of a gallery
      that succeeded. */
  predicate MadePasses(ids: seq<string>, pages: seq<GalleryPage>, passes: seq<Pass>)
    requires |pages| == |ids|
  {
    && |passes| <= |ids|
    && PassesSucceed(pages, |passes|)
    && (forall c :: 0 <= c < |passes| ==> passes[c] == PassAt(ids, pages, c))
  }

  /** The outcome of the gallery loop: the passes completed are the first
      ones, in order, each of a gallery that succeeded; the loop stops
      early exactly at the first gallery that fails, with that gallery's
      error, and otherwise ends normally, or on id_list[len(id_list)] when
      more galleries are asked for than there are ids. */
  predicate LoopOutcome(ids: seq<string>, numGalleries: int, pages: seq<GalleryPage>, passes: seq<Pass>, stop: Option<ScrapeError>)
    requires |pages| == |ids|
  {
    var k, total := |passes|, VisitCount(|ids|, numGalleries);
    && k <= total
    && MadePasses(ids, pages, passes)
    && (stop.None? <==> k == total && numGalleries <= |ids|)
    && (stop.Some? && k < total ==> GalleryItems(pages[k]).Failure? && stop.value == GalleryItems(pages[k]).error)
    && (stop.Some? && k == total ==> numGalleries > |ids| && stop.value == IdListExhausted(|ids|))
  }

  /** Distinct passes of a run write into distinct folders. */
  lemma PassFoldersDistinct(ids: seq<string>, numGalleries: int, pages: seq<GalleryPage>,
                            passes: seq<Pass>, stop: Option<ScrapeError>, c1: nat, c2: nat)
    requires |pages| == |ids| && LoopOutcome(ids, numGalleries, pages, passes, stop)
    requires c1 < |passes| && c2 < |passes| && c1 != c2
    ensures passes[c1].visit.folder != passes[c2].visit.folder
  {
    assert passes[c1].visit == VisitAt(ids, c1);
    assert passes[c2].visit == VisitAt(ids, c2);
  }

  /** The outcome is determined by the inputs: the loop's contract leaves
      no freedom in which passes are made or how the loop ends. */
  lemma LoopOutcomeUnique(ids: seq<string>, numGalleries: int, pages: seq<GalleryPage>,
                          passes1: seq<Pass>, stop1: Option<ScrapeError>, passes2: seq<Pass>, stop2: Option<ScrapeError>)
    requires |pages| == |ids|
    requires LoopOutcome(ids, numGalleries, pages, passes1, stop1)
    requires LoopOutcome(ids, numGalleries, pages, passes2, stop2)
    ensures passes1 == passes2 && stop1 == stop2
  {
    FirstFailureUnique(ids, numGalleries, pages, passes1, stop1, passes2, stop2);
    FirstFailureUnique(ids, numGalleries, pages, passes2, stop2, passes1, stop1);
    assert |passes1| == |passes2|;
    forall c | 0 <= c < |passes1|
      ensures passes1[c] == passes2[c]
    {
    }
  }

  /** One half of LoopOutcomeUnique: the outcome with fewer passes cannot
      stop before the other's passes end. */
  lemma FirstFailureUnique(ids: seq<string>, numGalleries: int, pages: seq<GalleryPage>,
                           passes1: seq<Pass>, stop1: Option<ScrapeError>, passes2: seq<Pass>, stop2: Option<ScrapeError>)
    requires |pages| == |ids|
    requires LoopOutcome(ids, numGalleries, pages, passes1, stop1)
    requires LoopOutcome(ids, numGalleries, pages, passes2, stop2)
    ensures |passes1| >= |passes2|
  {
  }

  /** The gallery loop: pass after pass, each opening its gallery and
      writing its items, until numGalleries passes are made, a gallery
      fails, or the id list runs out. */
  method PlanGalleries(ids: seq<string>, numGalleries: int, pages: seq<GalleryPage>)
    returns (passes: seq<Pass>, stop: Option<ScrapeError>)
    requires |pages| == |ids|
    ensures LoopOutcome(ids, numGalleries, pages, passes, stop)
  {
    passes, stop := [], None;
    var count := 0;
    while count < numGalleries
      invariant 0 <= count <= |ids| && |passes| == count
      invariant count == 0 || count <= numGalleries
      invariant MadePasses(ids, pages, passes)
      decreases numGalleries - count
    {
      if count >= |ids| {
        stop := Some(IdListExhausted(count));
        ExhaustedOutcome(ids, numGalleries, pages, passes);
        return;
      }
      var galleryLink := GalleryUrl(ids[count]);
      var folder, mediaPage, items := ProcessGallery(count, ids[count], pages[count]);
      if items.Failure? {
        stop := Some(items.error);
        FailedOutcome(ids, numGalleries, pages, passes);
        return;
      }
      var pass := Pass(Visit(count, ids[count], folder, galleryLink), mediaPage, items.value);
      assert pass == PassAt(ids, pages, count);
      MadePassesStep(ids, pages, passes);
      passes := passes + [pass];
      count := count + 1;
    }
    CompletedOutcome(ids, numGalleries, pages, passes);
  }

  /** A further pass of a gallery that succeeds extends the passes made. */
  lemma MadePassesStep(ids: seq<string>, pages: seq<GalleryPage>, passes: seq<Pass>)
    requires |pages| == |ids| && MadePasses(ids, pages, passes) && |passes| < |ids|
    requires GalleryItems(pages[|passes|]).Success?
    ensures MadePasses(ids, pages, passes + [PassAt(ids, pages, |passes|)])
  {
    var k := |passes|;
    var next := passes + [PassAt(ids, pages, k)];
    forall c | 0 <= c < k + 1
      ensures GalleryItems(pages[c]).Success?
    {
      if c < k {
        assert PassesSucceed(pages, k);
      }
    }
    forall c | 0 <= c < |next|
      ensures next[c] == PassAt(ids, pages, c)
    {
      if c < k {
        assert next[c] == passes[c];
      }
    }
  }

  /** The loop ends on id_list[len(id_list)] when every id has had a pass
      and more are asked for. */
  lemma ExhaustedOutcome(ids: seq<string>, numGalleries: int, pages: seq<GalleryPage>, passes: seq<Pass>)
    requires |pages| == |ids| && MadePasses(ids, pages, passes)
    requires |passes| == |ids| < numGalleries
    ensures LoopOutcome(ids, numGalleries, pages, passes, Some(IdListExhausted(|ids|)))
  {
  }

  /** The loop stops at the first gallery that fails, with its error. */
  lemma FailedOutcome(ids: seq<string>, numGalleries: int, pages: seq<GalleryPage>, passes: seq<Pass>)
    requires |pages| == |ids| && MadePasses(ids, pages, passes)
    requires |passes| < |ids| && |passes| < numGalleries
    requires GalleryItems(pages[|passes|]).Failure?
    ensures LoopOutcome(ids, numGalleries, pages, passes, Some(GalleryItems(pages[|passes|]).error))
  {
  }

  /** The loop ends normally once numGalleries passes are made. */
  lemma CompletedOutcome(ids: seq<string>, numGalleries: int, pages: seq<GalleryPage>, passes: seq<Pass>)
    requires |pages| == |ids| && MadePasses(ids, pages, passes)
    requires |passes| >= numGalleries && (|passes| == 0 || |passes| <= numGalleries)
    ensures LoopOutcome(ids, numGalleries, pages, passes, None)
  {
  }

  /** The ids of hrefs that all have one. */
  function IdsOf(hrefs: seq<string>): (ids: seq<string>)
    requires forall i :: 0 <= i < |hrefs| ==> GalleryId(hrefs[i]).Some?
    ensures |ids| == |hrefs|
  {
    seq(|hrefs|, i requires 0 <= i < |hrefs| => GalleryId(hrefs[i]).value)
  }

  /** A whole run: the output directory and the search page come from the
      phrase alone; the search results give the ids, and the ids, with the
      page the browser shows for each, give the passes. A malformed href
      ends the run before any gallery is visited. */
  method PlanRun(phrase: string, hrefs: seq<string>, numGalleries: int, pages: seq<GalleryPage>)
    returns (dir: string, searchPage: string, passes: seq<Pass>, stop: Option<ScrapeError>)
    requires |pages| == |hrefs|
    ensures dir == DirName(phrase) && searchPage == SearchUrl(phrase)
    ensures (exists i :: 0 <= i < |hrefs| && GalleryId(hrefs[i]).None?) ==>
      passes == [] && stop.Some? && stop.value.ShortHref?
    ensures (forall i :: 0 <= i < |hrefs| ==> GalleryId(hrefs[i]).Some?) ==>
      LoopOutcome(IdsOf(hrefs), numGalleries, pages, passes, stop)
  {
    dir := DirName(phrase);
    searchPage := SearchUrl(phrase);
    var ids := CollectIds(hrefs);
    if ids.Failure? {
      passes, stop := [], Some(ids.error);
      return;
    }
    assert ids.value == IdsOf(hrefs);
    passes, stop := PlanGalleries(ids.value, numGalleries, pages);
  }
}
