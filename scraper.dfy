/**
 * The decisions the article scraper makes on a parsed page: whether the
 * page carries the site's verification code, which thumbnail it offers,
 * which element holds the article, and how the extracted text is cleaned
 * line by line. The parsed HTML tree is abstract: a page is given by what
 * each lookup the scraper performs would find.
 */
module Scraper {
  import opened Wrappers
  import opened Text

  /** A tag found by a lookup, with the one attribute the scraper reads (None when absent). */
  datatype Tag = Tag(attribute: Option<string>)

  /** The text of an element, as `get_text()` gives it after the block tags got their newlines. */
  datatype Element = Element(text: string)

  /** The first match of each lookup the scraper performs on a page. */
  datatype Page = Page(
    verificationMeta: Option<Tag>,  // meta name="credx-verification", its content
    ogImage: Option<Tag>,           // meta property="og:image", its content
    twitterImage: Option<Tag>,      // meta name="twitter:image", its content
    imageSrcLink: Option<Tag>,      // link rel="image_src", its href
    article: Option<Element>,
    main: Option<Element>,
    body: Option<Element>,
    firstBodyImage: Option<Tag>)    // the first img with a src inside body, its src

  /** Python truthiness of an optional attribute: present and non-empty. */
  predicate Filled(t: Option<Tag>) {
    t.Some? && t.value.attribute.Some? && t.value.attribute.value != ""
  }

  /** `has_credx_verification`: one verification meta is looked at, the first. */
  function HasVerification(page: Option<Page>, code: string): (verified: bool)
    ensures verified <==> page.Some? && page.value.verificationMeta.Some?
                          && page.value.verificationMeta.value.attribute == Some(code)
  {
    match page
    case None => false
    case Some(p) =>
      match p.verificationMeta
      case None => false
      case Some(meta) => meta.attribute == Some(code)
  }

  /** The thumbnail candidates in priority order; the body image only when there is a body. */
  function ImageCandidates(p: Page): seq<Option<Tag>> {
    [p.ogImage, p.twitterImage, p.imageSrcLink, if p.body.Some? then p.firstBodyImage else None]
  }

  /** The attribute of the first filled candidate, or `''` when there is none. */
  function FirstImage(p: Page): string {
    if Filled(p.ogImage) then p.ogImage.value.attribute.value
    else if Filled(p.twitterImage) then p.twitterImage.value.attribute.value
    else if Filled(p.imageSrcLink) then p.imageSrcLink.value.attribute.value
    else if p.body.Some? && Filled(p.firstBodyImage) then p.firstBodyImage.value.attribute.value
    else ""
  }

  /** `get_title_image`: each branch returns its candidate stripped, and the fallback `''` is its own strip. */
  function TitleImage(page: Option<Page>): (url: string)
    ensures page.None? ==> url == ""
    ensures url == "" || (url[0] !in Whitespace && url[|url| - 1] !in Whitespace)
  {
    match page
    case None => ""
    case Some(p) => Strip(FirstImage(p))
  }

  /**
   * The first filled candidate wins, and its value is returned stripped;
   * earlier empty or missing candidates are skipped; no filled candidate
   * gives the empty string.
   */
  lemma TitleImagePriority(p: Page, k: int)
    requires 0 <= k < 4 && Filled(ImageCandidates(p)[k])
    requires forall j :: 0 <= j < k ==> !Filled(ImageCandidates(p)[j])
    ensures TitleImage(Some(p)) == Strip(ImageCandidates(p)[k].value.attribute.value)
  {
    FirstImagePriority(p, k);
  }

  /** The raw value picked before stripping is the first filled candidate's. */
  lemma FirstImagePriority(p: Page, k: int)
    requires 0 <= k < 4 && Filled(ImageCandidates(p)[k])
    requires forall j :: 0 <= j < k ==> !Filled(ImageCandidates(p)[j])
    ensures FirstImage(p) == ImageCandidates(p)[k].value.attribute.value
  {
    var cs := ImageCandidates(p);
    if k > 0 { assert !Filled(cs[0]); }
    if k > 1 { assert !Filled(cs[1]); }
    if k > 2 { assert !Filled(cs[2]); }
  }

  lemma NoImageCandidate(p: Page)
    requires forall j :: 0 <= j < 4 ==> !Filled(ImageCandidates(p)[j])
    ensures TitleImage(Some(p)) == ""
  {
    var cs := ImageCandidates(p);
    assert !Filled(cs[0]) && !Filled(cs[1]) && !Filled(cs[2]) && !Filled(cs[3]);
    StripStripped("");
  }

  /** `soup.find('article') or soup.find('main') or soup.body`. */
  function MainContent(p: Page): (e: Option<Element>)
    ensures e.Some? <==> p.article.Some? || p.main.Some? || p.body.Some?
    ensures p.article.Some? ==> e == p.article
    ensures p.article.None? && p.main.Some? ==> e == p.main
    ensures p.article.None? && p.main.None? ==> e == p.body
  {
    if p.article.Some? then p.article else if p.main.Some? then p.main else p.body
  }

  // ---------------------------------------------------------------------------
  // Line normalisation

  function StripAll(lines: seq<string>): (r: seq<string>)
    ensures |r| == |lines| && forall i :: 0 <= i < |lines| ==> r[i] == Strip(lines[i])
  {
    seq(|lines|, i requires 0 <= i < |lines| => Strip(lines[i]))
  }

  /** A line as the cleaned text holds it: non-empty, stripped, no line break inside. */
  predicate CleanLine(l: string) {
    l != "" && l[0] !in Whitespace && l[|l| - 1] !in Whitespace && NoneIn(l, LineBreaks)
  }

  /**
   * `'\n'.join(line for line in (l.strip() for l in text.splitlines()) if line)`.
   * Splitting at every line-break character differs from `splitlines` only
   * in empty pieces (a `\r\n` pair, a trailing break), which the filter drops.
   */
  function CleanLines(text: string): (lines: seq<string>)
    ensures forall i :: 0 <= i < |lines| ==> CleanLine(lines[i])
  {
    var parts := SplitBy(text, LineBreaks);
    var stripped := StripAll(parts);
    var lines := NonEmpty(stripped);
    assert forall j :: 0 <= j < |lines| ==> CleanLine(lines[j]) by {
      forall j | 0 <= j < |lines| ensures CleanLine(lines[j]) {
        var l := lines[j];
        assert l in lines;
        var i :| 0 <= i < |stripped| && stripped[i] == l;
        assert parts[i] in parts;
        StripClean(parts[i]);
      }
    }
    lines
  }

  lemma StripClean(p: string)
    requires NoneIn(p, LineBreaks)
    ensures Strip(p) == "" || CleanLine(Strip(p))
  {
    StripNoneIn(p, LineBreaks);
  }

  function NormalizeLines(text: string): (cleaned: string) {
    JoinWith(CleanLines(text), "\n")
  }

  /** `scrape_and_clean_article` after tag removal: the normalised text of the main element. */
  function ScrapeText(page: Option<Page>): (text: string)
    ensures page.None? || MainContent(page.value).None? ==> text == ""
  {
    match page
    case None => ""
    case Some(p) =>
      match MainContent(p)
      case None => ""
      case Some(e) => NormalizeLines(e.text)
  }

  /**
   * The lines of two texts joined by any line break are the lines of the first
   * followed by those of the second; with `CleanLinesSingle` this fixes the
   * result for every text.
   */
  lemma CleanLinesAtBreak(a: string, c: char, b: string)
    requires c in LineBreaks
    ensures CleanLines(a + [c] + b) == CleanLines(a) + CleanLines(b)
  {
    var pa, pb := SplitBy(a, LineBreaks), SplitBy(b, LineBreaks);
    calc {
      CleanLines(a + [c] + b);
      NonEmpty(StripAll(SplitBy(a + [c] + b, LineBreaks)));
      { SplitAtSeparator(a, c, b, LineBreaks); }
      NonEmpty(StripAll(pa + pb));
      { StripAllAppend(pa, pb); }
      NonEmpty(StripAll(pa) + StripAll(pb));
      { NonEmptyAppend(StripAll(pa), StripAll(pb)); }
      NonEmpty(StripAll(pa)) + NonEmpty(StripAll(pb));
    }
  }

  lemma StripAllAppend(x: seq<string>, y: seq<string>)
    ensures StripAll(x + y) == StripAll(x) + StripAll(y)
  {
    var l, r := StripAll(x + y), StripAll(x) + StripAll(y);
    assert |l| == |r|;
    forall i | 0 <= i < |l| ensures l[i] == r[i] {
      if i < |x| {
        assert (x + y)[i] == x[i];
      } else {
        assert (x + y)[i] == y[i - |x|];
      }
    }
  }

  /** A text without line breaks gives its stripped self, or nothing when that is empty. */
  lemma CleanLinesSingle(l: string)
    requires NoneIn(l, LineBreaks)
    ensures CleanLines(l) == if Strip(l) == "" then [] else [Strip(l)]
  {
    SplitPrefix(l, "", LineBreaks);
    assert l + "" == l;
    var parts := SplitBy(l, LineBreaks);
    assert parts == [l];
    assert StripAll(parts) == [Strip(l)];
    NonEmptySingleton(Strip(l));
  }

  /** Already clean lines are kept as they are, in order. */
  lemma {:induction false} CleanLinesFixed(ls: seq<string>)
    requires forall i :: 0 <= i < |ls| ==> CleanLine(ls[i])
    ensures NonEmpty(StripAll(ls)) == ls
    decreases |ls|
  {
    if ls != [] {
      var tail := ls[1..];
      forall i | 0 <= i < |tail| ensures CleanLine(tail[i]) {
        assert tail[i] == ls[i + 1];
      }
      CleanLinesFixed(tail);
      StripAllCons(ls);
      assert ls == [ls[0]] + tail;
    }
  }

  lemma StripAllCons(ls: seq<string>)
    requires ls != [] && CleanLine(ls[0])
    ensures NonEmpty(StripAll(ls)) == [ls[0]] + NonEmpty(StripAll(ls[1..]))
  {
    StripStripped(ls[0]);
    var stripped := StripAll(ls);
    assert stripped[1..] == StripAll(ls[1..]);
  }

  /** The cleaned text's lines are exactly the clean lines, in order. */
  lemma OutputLines(text: string)
    requires CleanLines(text) != []
    ensures SplitBy(NormalizeLines(text), LineBreaks) == CleanLines(text)
  {
    JoinedLines(CleanLines(text));
  }

  lemma JoinedLines(ls: seq<string>)
    requires ls != [] && forall i :: 0 <= i < |ls| ==> CleanLine(ls[i])
    ensures SplitBy(JoinWith(ls, "\n"), LineBreaks) == ls
  {
    forall p | p in ls ensures NoneIn(p, LineBreaks) {
      var i :| 0 <= i < |ls| && ls[i] == p;
      assert CleanLine(ls[i]);
    }
    assert '\n' in LineBreaks;
    SplitJoin(ls, '\n', LineBreaks);
  }

  /** Normalising the cleaned text again changes nothing. */
  lemma NormalizeIdempotent(text: string)
    ensures NormalizeLines(NormalizeLines(text)) == NormalizeLines(text)
  {
    var ls := CleanLines(text);
    if ls == [] {
      assert NormalizeLines(text) == "";
      assert SplitBy("", LineBreaks) == [""];
      assert StripAll([""]) == [Strip("")];
      assert NonEmpty([""]) == [];
    } else {
      OutputLines(text);
      var t := NormalizeLines(text);
      assert CleanLines(t) == NonEmpty(StripAll(ls));
      CleanLinesFixed(ls);
    }
  }
}
