/**
 * The deterministic string logic of the Imgur gallery scraper: every
 * directory name, URL and file name the scraper produces, and the
 * extension allow-list that decides whether a media item is written.
 * The page contents these are computed from (search-result hrefs, grid
 * items' data-href, the src/content attributes of normal-view elements)
 * are inputs here; the browser, the HTTP client and the HTML parser that
 * supply them are not modelled.
 */
module ImgurNames {
  import opened Wrappers
  import opened PyStrings

  // ---------------------------------------------------------------------
  // The search phrase: output directory and search URL
  // ---------------------------------------------------------------------

  const SearchEndpoint: string := "https://imgur.com/search/score?q="

  /** The output directory: the phrase's words joined by '_', then "_pics". */
  function DirName(phrase: string): (name: string)
    ensures |name| >= 5 && name[|name| - 5..] == "_pics"
    ensures NoSpace(name)
  {
    var words := JoinWith(Tokens(phrase), '_');
    TokensAreWords(phrase);
    JoinWithNoSpace(Tokens(phrase), '_');
    words + "_pics"
  }

  /** The search page: the fixed endpoint followed by the phrase's words
      joined by '+'. */
  function SearchUrl(phrase: string): (url: string)
    ensures |url| >= |SearchEndpoint| && url[..|SearchEndpoint|] == SearchEndpoint
    ensures NoSpace(url)
  {
    TokensAreWords(phrase);
    JoinWithNoSpace(Tokens(phrase), '+');
    SearchEndpoint + JoinWith(Tokens(phrase), '+')
  }

  /** How the phrase's words are separated does not matter: any non-empty
      run of whitespace between two parts gives the same directory and the
      same search URL as a single space. */
  lemma PhraseSpacingIrrelevant(a: string, sep: string, b: string)
    requires sep != [] && AllSpace(sep)
    ensures DirName(a + sep + b) == DirName(a + " " + b)
    ensures SearchUrl(a + sep + b) == SearchUrl(a + " " + b)
  {
    TokensSplitAt(a, sep, b);
    TokensSplitAt(a, " ", b);
  }

  /** Leading and trailing whitespace of the phrase does not matter either. */
  lemma PhrasePaddingIrrelevant(pre: string, phrase: string, post: string)
    requires AllSpace(pre) && AllSpace(post)
    ensures DirName(pre + phrase + post) == DirName(phrase)
    ensures SearchUrl(pre + phrase + post) == SearchUrl(phrase)
  {
    TokensSkipSpace(pre, phrase + post);
    assert pre + phrase + post == pre + (phrase + post);
    if post != [] {
      TokensSplitAt(phrase, post, []);
      assert phrase + post + [] == phrase + post;
      assert Tokens([]) == [];
      assert Tokens(phrase) + [] == Tokens(phrase);
    } else {
      assert phrase + post == phrase;
    }
  }

  /** For words written with single spaces, the directory and the search
      query are those words joined by '_' and by '+'. */
  lemma PhraseOfWords(words: seq<string>)
    requires forall i :: 0 <= i < |words| ==> words[i] != [] && NoSpace(words[i])
    ensures DirName(JoinWith(words, ' ')) == JoinWith(words, '_') + "_pics"
    ensures SearchUrl(JoinWith(words, ' ')) == SearchEndpoint + JoinWith(words, '+')
  {
    TokensOfJoin(words);
  }

  lemma {:induction false} TokensOfJoin(words: seq<string>)
    requires forall i :: 0 <= i < |words| ==> words[i] != [] && NoSpace(words[i])
    ensures Tokens(JoinWith(words, ' ')) == words
  {
    if |words| == 1 {
      TokensOfWord(words[0]);
    } else if |words| > 1 {
      TokensOfJoin(words[1..]);
      TokensOfWord(words[0]);
      TokensSplitAt(words[0], " ", JoinWith(words[1..], ' '));
      assert words == [words[0]] + words[1..];
    }
  }

  /** The query part of the search URL splits on '+' back into the phrase's
      words, as long as there is at least one word and no word holds '+'
      (the words are not percent-encoded). */
  lemma SearchQueryWords(phrase: string)
    requires Tokens(phrase) != []
    requires forall i :: 0 <= i < |Tokens(phrase)| ==> '+' !in Tokens(phrase)[i]
    ensures Split(SearchUrl(phrase)[|SearchEndpoint|..], '+') == Tokens(phrase)
  {
    var url := SearchUrl(phrase);
    assert url[|SearchEndpoint|..] == JoinWith(Tokens(phrase), '+');
    SplitJoin(Tokens(phrase), '+');
  }

  // ---------------------------------------------------------------------
  // Gallery identifiers and the two gallery URLs
  // ---------------------------------------------------------------------

  /** Segment 2 of a search result's href split on '/', or None when the
      href has fewer than three segments (an IndexError in the scraper). */
  function GalleryId(href: string): (id: Option<string>)
    ensures id.Some? <==> multiset(href)['/'] >= 2
    ensures id.Some? ==> '/' !in id.value
  {
    SplitCount(href, '/');
    var parts := Split(href, '/');
    if |parts| > 2 then Some(parts[2]) else None
  }

  /** Two slash-free segments and then anything: the id is the first
      '/'-separated part of what follows them. */
  lemma GalleryIdAfterTwoSegments(a: string, b: string, t: string)
    requires '/' !in a && '/' !in b
    ensures GalleryId(a + ['/'] + (b + ['/'] + t)) == Some(Split(t, '/')[0])
  {
    var bt := b + ['/'] + t;
    SplitCons(b, '/', t);
    SplitCons(a, '/', bt);
  }

  /** A path "a/b/id" with slash-free a, b and id yields id; a result href
      "/gallery/abc123" yields "abc123". */
  lemma GalleryIdOfPath(a: string, b: string, id: string)
    requires '/' !in a && '/' !in b && '/' !in id
    ensures GalleryId(a + "/" + b + "/" + id) == Some(id)
  {
    SplitNoSep(id, '/');
    GalleryIdAfterTwoSegments(a, b, id);
    assert a + "/" + b + "/" + id == a + ['/'] + (b + ['/'] + id);
  }

  /** Whatever follows the id after a further '/' does not change it. */
  lemma GalleryIdOfLongerPath(a: string, b: string, id: string, rest: string)
    requires '/' !in a && '/' !in b && '/' !in id
    ensures GalleryId(a + "/" + b + "/" + id + "/" + rest) == Some(id)
  {
    var t := id + ['/'] + rest;
    SplitCons(id, '/', rest);
    GalleryIdAfterTwoSegments(a, b, t);
    SlashPathNested(a, b, id, rest);
  }

  /** "a/b/id/rest" regrouped from the right, as Split reads it. */
  lemma SlashPathNested(a: string, b: string, id: string, rest: string)
    ensures a + "/" + b + "/" + id + "/" + rest == a + ['/'] + (b + ['/'] + (id + ['/'] + rest))
  {
    var head := a + "/" + b + "/";
    assert head == a + ['/'] + (b + ['/']);
    assert a + "/" + b + "/" + id + "/" + rest == head + (id + ['/'] + rest);
  }

  const GalleryPrefix: string := "https://imgur.com/gallery/"
  const GridPrefix: string := "https://imgur.com/a/"
  const GridSuffix: string := "?grid"

  function GalleryUrl(id: string): string {
    GalleryPrefix + id
  }

  function GridUrl(id: string): string {
    GridPrefix + id + GridSuffix
  }

  /** Five slash-free segments joined by '/' split back into themselves. */
  lemma SplitFiveSegments(p0: string, p1: string, p2: string, p3: string, p4: string)
    requires '/' !in p0 && '/' !in p1 && '/' !in p2 && '/' !in p3 && '/' !in p4
    ensures Split(p0 + ['/'] + (p1 + ['/'] + (p2 + ['/'] + (p3 + ['/'] + p4))), '/') == [p0, p1, p2, p3, p4]
  {
    SplitNoSep(p4, '/');
    var t3 := p3 + ['/'] + p4;
    SplitCons(p3, '/', p4);
    var t2 := p2 + ['/'] + t3;
    SplitCons(p2, '/', t3);
    var t1 := p1 + ['/'] + t2;
    SplitCons(p1, '/', t2);
    SplitCons(p0, '/', t1);
  }

  /** A result href "/gallery/<id>" gives back its id, and so does the
      path of the gallery URL built from that id: the URL is the site
      root followed by the href. */
  lemma GalleryUrlOfHref(id: string)
    requires '/' !in id
    ensures GalleryId("/gallery/" + id) == Some(id)
    ensures GalleryId(GalleryUrl(id)[|"https://imgur.com"|..]) == Some(id)
  {
    assert GalleryUrl(id)[|"https://imgur.com"|..] == "/gallery/" + id;
    assert "" + "/" + "gallery" + "/" + id == "/gallery/" + id;
    GalleryIdOfPath("", "gallery", id);
  }

  /** The gallery URL's path segments are "gallery" and the id. */
  lemma GalleryUrlSegments(id: string)
    requires '/' !in id
    ensures Split(GalleryUrl(id), '/') == ["https:", "", "imgur.com", "gallery", id]
  {
    assert GalleryUrl(id) == "https:" + ['/'] + ("" + ['/'] + ("imgur.com" + ['/'] + ("gallery" + ['/'] + id)));
    assert '/' !in "https:" && '/' !in "" && '/' !in "imgur.com" && '/' !in "gallery";
    SplitFiveSegments("https:", "", "imgur.com", "gallery", id);
  }

  /** The grid URL's path segments are "a" and the id with "?grid" attached. */
  lemma GridUrlSegments(id: string)
    requires '/' !in id
    ensures Split(GridUrl(id), '/') == ["https:", "", "imgur.com", "a", id + "?grid"]
  {
    var last := id + GridSuffix;
    assert '/' !in last by {
      assert '/' !in GridSuffix;
    }
    assert GridUrl(id) == "https:" + ['/'] + ("" + ['/'] + ("imgur.com" + ['/'] + ("a" + ['/'] + last)));
    assert '/' !in "https:" && '/' !in "" && '/' !in "imgur.com" && '/' !in "a";
    SplitFiveSegments("https:", "", "imgur.com", "a", last);
  }

  /** Distinct ids give distinct gallery URLs and distinct grid URLs. */
  lemma GalleryUrlsInjective(id1: string, id2: string)
    requires id1 != id2
    ensures GalleryUrl(id1) != GalleryUrl(id2)
    ensures GridUrl(id1) != GridUrl(id2)
  {
    assert GalleryUrl(id1)[|GalleryPrefix|..] == id1;
    assert GalleryUrl(id2)[|GalleryPrefix|..] == id2;
    var g1, g2 := GridUrl(id1), GridUrl(id2);
    assert g1[|GridPrefix|..|g1| - |GridSuffix|] == id1;
    assert g2[|GridPrefix|..|g2| - |GridSuffix|] == id2;
  }

  // ---------------------------------------------------------------------
  // Zero-padded numbering of folders and files
  // ---------------------------------------------------------------------

  /** str(n).zfill(3): n in decimal, left-padded with '0' to three digits
      and never truncated. */
  function Padded3(n: nat): (s: string)
    ensures IsDigits(s) && DigitsValue(s) == n
    ensures |s| == if |DecimalString(n)| >= 3 then |DecimalString(n)| else 3
    ensures s[|s| - |DecimalString(n)|..] == DecimalString(n)
  {
    DecimalValue(n);
    ZFillDigits(DecimalString(n), 3);
    ZFill(DecimalString(n), 3)
  }

  /** The folder of the gallery at zero-based index count. */
  function FolderName(count: nat): (name: string)
    ensures |name| >= 10 && name[..7] == "gallery"
    ensures IsDigits(name[7..]) && DigitsValue(name[7..]) == count + 1
  {
    var name := "gallery" + Padded3(count + 1);
    assert name[7..] == Padded3(count + 1);
    name
  }

  /** The number in the file name of the item at zero-based index num. */
  function ImageNumber(num: nat): (s: string)
    ensures |s| >= 3 && IsDigits(s) && DigitsValue(s) == num + 1
  {
    Padded3(num + 1)
  }

  // ---------------------------------------------------------------------
  // Extension inference and the file written for a media URL
  // ---------------------------------------------------------------------

  const AllowedExtensions: seq<string> := ["jpg", "png", "jpeg", "gif", "mp4"]

  /** The last segment of the URL split on '.': the text after the last
      '.', or the whole URL when it has none. */
  function Extension(url: string): (ext: string)
    ensures '.' !in ext
    ensures |ext| <= |url| && ext == url[|url| - |ext|..]
    ensures |ext| == |url| || url[|url| - |ext| - 1] == '.'
  {
    LastPartIsTail(url, '.');
    var parts := Split(url, '.');
    parts[|parts| - 1]
  }

  /** A dot-free tail after a '.' is the extension. */
  lemma ExtensionAfterDot(stem: string, ext: string)
    requires '.' !in ext
    ensures Extension(stem + "." + ext) == ext
  {
    var u := stem + "." + ext;
    assert u[|u| - |ext| - 1] == '.';
    assert u[|u| - |ext|..] == ext;
  }

  /** The name CreateFile writes the response under: "image" + num + "." +
      the URL's extension when that extension is allowed; None when it is
      not, in which case the item is reported and nothing is written. */
  function FileNameFor(url: string, num: string): (name: Option<string>)
    ensures name.Some? <==> Extension(url) in AllowedExtensions
    ensures name.Some? ==> |name.value| > 6 && name.value[..5] == "image"
    ensures name.Some? && '.' !in num ==> Extension(name.value) == Extension(url)
  {
    var ext := Extension(url);
    if ext in AllowedExtensions then
      ExtensionAfterDot("image" + num, ext);
      Some("image" + num + "." + ext)
    else
      None
  }

  /** Two written files with digit-only numbers have the same name only if
      they have the same number and the same extension. */
  lemma FileNamesDistinct(url1: string, num1: string, url2: string, num2: string)
    requires IsDigits(num1) && IsDigits(num2)
    requires FileNameFor(url1, num1).Some? && FileNameFor(url2, num2).Some?
    requires FileNameFor(url1, num1) == FileNameFor(url2, num2)
    ensures num1 == num2 && Extension(url1) == Extension(url2)
  {
    var e := Extension(url1);
    assert Extension(url2) == e;
    FileNameParts(url1, num1);
    FileNameParts(url2, num2);
    CancelSuffix("image" + num1, "image" + num2, "." + e);
    CancelPrefix("image", num1, num2);
  }

  /** A written name splits into "image" + num and "." + the extension. */
  lemma FileNameParts(url: string, num: string)
    requires FileNameFor(url, num).Some?
    ensures FileNameFor(url, num).value == ("image" + num) + ("." + Extension(url))
  {
    assert "image" + num + "." + Extension(url) == ("image" + num) + ("." + Extension(url));
  }

  /** Equal strings with the same tail have the same head. */
  lemma CancelSuffix(p1: string, p2: string, t: string)
    requires p1 + t == p2 + t
    ensures p1 == p2
  {
    assert |p1| == |p2|;
    assert p1 == (p1 + t)[..|p1|];
  }

  /** Equal strings with the same head have the same tail. */
  lemma CancelPrefix(h: string, a: string, b: string)
    requires h + a == h + b
    ensures a == b
  {
    assert a == (h + a)[|h|..];
  }

  /** Within a gallery, items at distinct indices never share a file. */
  lemma ImageFilesDistinct(url1: string, num1: nat, url2: string, num2: nat)
    requires num1 != num2
    requires FileNameFor(url1, ImageNumber(num1)).Some? && FileNameFor(url2, ImageNumber(num2)).Some?
    ensures FileNameFor(url1, ImageNumber(num1)) != FileNameFor(url2, ImageNumber(num2))
  {
    if FileNameFor(url1, ImageNumber(num1)) == FileNameFor(url2, ImageNumber(num2)) {
      FileNamesDistinct(url1, ImageNumber(num1), url2, ImageNumber(num2));
      assert false;
    }
  }

  /** The output of one run is DirName/galleryNNN/imageNNN.ext: two items
      land on the same path only if they are the same item of the same
      gallery. */
  lemma OutputPathsDistinct(phrase: string, c1: nat, n1: nat, url1: string, c2: nat, n2: nat, url2: string)
    requires FileNameFor(url1, ImageNumber(n1)).Some? && FileNameFor(url2, ImageNumber(n2)).Some?
    requires [DirName(phrase), FolderName(c1), FileNameFor(url1, ImageNumber(n1)).value]
          == [DirName(phrase), FolderName(c2), FileNameFor(url2, ImageNumber(n2)).value]
    ensures c1 == c2 && n1 == n2
  {
    var p1 := [DirName(phrase), FolderName(c1), FileNameFor(url1, ImageNumber(n1)).value];
    var p2 := [DirName(phrase), FolderName(c2), FileNameFor(url2, ImageNumber(n2)).value];
    assert p1[1] == p2[1] && p1[2] == p2[2];
    assert FolderName(c1)[7..] == FolderName(c2)[7..];
    if n1 != n2 {
      ImageFilesDistinct(url1, n1, url2, n2);
    }
  }

  // ---------------------------------------------------------------------
  // Where each view finds an item's URL
  // ---------------------------------------------------------------------

  /** Grid view: the item's data-href with every leading and trailing '/'
      removed; the download URL is that prefixed with "https://". */
  function CleanHref(dataHref: string): (clean: string)
    ensures clean == [] || (clean[0] != '/' && clean[|clean| - 1] != '/')
  {
    Strip(dataHref, '/')
  }

  function GridItemUrl(dataHref: string): (url: string)
    ensures |url| >= 8 && url[..8] == "https://" && url[8..] == CleanHref(dataHref)
  {
    "https://" + CleanHref(dataHref)
  }

  /** The cleaned href is the data-href up to surrounding slashes: any
      href is the cleaned one padded with slashes, and padding a cleaned
      href with slashes cleans back to it. */
  lemma CleanHrefCharacterised(dataHref: string, i: nat, core: string, j: nat)
    requires core == [] || (core[0] != '/' && core[|core| - 1] != '/')
    ensures CleanHref(Repeat('/', i) + core + Repeat('/', j)) == core
    ensures exists k: nat, m: nat :: dataHref == Repeat('/', k) + (CleanHref(dataHref) + Repeat('/', m))
  {
    StripPadded(i, core, j, '/');
    StripDecomposes(dataHref, '/');
  }

  /** Cleaning is idempotent. */
  lemma CleanHrefIdempotent(dataHref: string)
    ensures CleanHref(CleanHref(dataHref)) == CleanHref(dataHref)
  {
    var c := CleanHref(dataHref);
    StripPadded(0, c, 0, '/');
    assert Repeat('/', 0) + c + Repeat('/', 0) == c;
  }

  /** A normal-view element: its src and content attributes, each of which
      the browser may report as absent. */
  datatype Element = Element(src: Option<string>, content: Option<string>)

  /** Normal view: src when present, otherwise content, otherwise nothing. */
  function ImageSource(e: Element): (url: Option<string>)
    ensures url.Some? <==> e.src.Some? || e.content.Some?
    ensures e.src.Some? ==> url == e.src
    ensures url != e.src ==> e.src.None? && url == e.content
  {
    if e.src.Some? then e.src else e.content
  }
}
