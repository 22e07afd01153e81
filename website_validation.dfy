/**
 * The website form validators: the `https://label(.label)+` domain grammar,
 * the RSS URL hostname rule with URL parsing kept abstract, and the test
 * applied to a fetched RSS response.
 */
module WebsiteValidation {
  import opened Wrappers
  import opened Text

  const HTTPS := "https://"

  /** The character class `[a-zA-Z0-9-]`. */
  predicate LabelChar(c: char) {
    'a' <= c <= 'z' || 'A' <= c <= 'Z' || '0' <= c <= '9' || c == '-'
  }

  /** One or more label characters. */
  predicate IsLabel(l: string) {
    l != [] && forall k :: 0 <= k < |l| ==> LabelChar(l[k])
  }

  predicate AllLabels(ls: seq<string>) {
    forall i :: 0 <= i < |ls| ==> IsLabel(ls[i])
  }

  /**
   * `validateDomain`: the anchored regex `^https://[a-zA-Z0-9-]+(\.[a-zA-Z0-9-]+)+$`,
   * read as "the scheme, then the text after it split at dots into at
   * least two labels".
   */
  function ValidateDomain(domain: string): (ok: bool)
    ensures ok ==> StartsWith(domain, HTTPS) && |domain| >= |HTTPS| + 3
  {
    if !StartsWith(domain, HTTPS) then false
    else
      var labels := SplitBy(domain[|HTTPS|..], {'.'});
      if |labels| >= 2 && AllLabels(labels) then
        JoinSplit(domain[|HTTPS|..], '.');
        JoinLength(labels);
        true
      else false
  }

  lemma {:induction false} JoinLength(ls: seq<string>)
    requires |ls| >= 2 && AllLabels(ls)
    ensures |JoinWith(ls, ".")| >= 3
  {
    assert JoinWith(ls, ".") == ls[0] + "." + JoinWith(ls[1..], ".");
    assert IsLabel(ls[1]);
    if |ls| == 2 {
      assert JoinWith(ls[1..], ".") == ls[1];
    } else {
      JoinLength(ls[1..]);
    }
  }

  /** The grammar: `https://` followed by two or more labels joined by dots, and nothing else. */
  lemma DomainGrammar(domain: string)
    ensures ValidateDomain(domain) <==>
      exists ls :: |ls| >= 2 && AllLabels(ls) && domain == HTTPS + JoinWith(ls, ".")
  {
    if ValidateDomain(domain) {
      var ls := SplitBy(domain[|HTTPS|..], {'.'});
      JoinSplit(domain[|HTTPS|..], '.');
      assert domain == HTTPS + domain[|HTTPS|..];
      assert domain == HTTPS + JoinWith(ls, ".");
    }
    if exists ls :: |ls| >= 2 && AllLabels(ls) && domain == HTTPS + JoinWith(ls, ".") {
      var ls :| |ls| >= 2 && AllLabels(ls) && domain == HTTPS + JoinWith(ls, ".");
      assert domain[|HTTPS|..] == JoinWith(ls, ".");
      forall p | p in ls ensures NoneIn(p, {'.'}) {
        var i :| 0 <= i < |ls| && ls[i] == p;
        assert IsLabel(ls[i]);
      }
      SplitJoin(ls, '.', {'.'});
    }
  }

  /** Every character of dot-joined labels is a label character or a dot. */
  lemma {:induction false} JoinedChars(ls: seq<string>, k: int)
    requires |ls| >= 1 && AllLabels(ls) && 0 <= k < |JoinWith(ls, ".")|
    ensures LabelChar(JoinWith(ls, ".")[k]) || JoinWith(ls, ".")[k] == '.'
    decreases |ls|
  {
    assert IsLabel(ls[0]);
    if |ls| > 1 {
      var rest := JoinWith(ls[1..], ".");
      assert JoinWith(ls, ".") == ls[0] + "." + rest;
      if k > |ls[0]| {
        JoinedChars(ls[1..], k - |ls[0]| - 1);
        assert JoinWith(ls, ".")[k] == rest[k - |ls[0]| - 1];
      }
    }
  }

  /**
   * Anything after the scheme other than label characters and dots (a
   * port's ':', a path or trailing '/', a '?') is rejected.
   */
  lemma RejectsForeignCharacter(domain: string, k: int)
    requires |HTTPS| <= k < |domain| && !LabelChar(domain[k]) && domain[k] != '.'
    ensures !ValidateDomain(domain)
  {
    if ValidateDomain(domain) {
      var hostPart := domain[|HTTPS|..];
      var ls := SplitBy(hostPart, {'.'});
      JoinSplit(hostPart, '.');
      assert domain[k] == hostPart[k - |HTTPS|];
      JoinedChars(ls, k - |HTTPS|);
    }
  }

  /** A single label with no dot (`https://localhost`) is rejected. */
  lemma RejectsSingleLabel(host: string)
    requires NoneIn(host, {'.'})
    ensures !ValidateDomain(HTTPS + host)
  {
    assert (HTTPS + host)[|HTTPS|..] == host;
    SplitJoin([host], '.', {'.'});
  }

  /** Any other scheme, `http://` included, is rejected. */
  lemma RejectsOtherScheme(domain: string)
    requires !StartsWith(domain, HTTPS)
    ensures !ValidateDomain(domain)
  {
  }

  // ---------------------------------------------------------------------------
  // validateRssUrl and isValidRssFeed

  /** The two parts of a WHATWG `URL` object the rule reads. */
  datatype Url = Url(protocol: string, hostname: string)

  /**
   * `validateRssUrl(domain, rssUrl)`, with `parse` standing for `new URL`
   * (None where the constructor throws).
   */
  function ValidateRssUrl(domain: string, rssUrl: string, parse: string -> Option<Url>): (ok: bool)
    ensures parse(domain).None? || parse(rssUrl).None? ==> !ok
    ensures ok ==> parse(rssUrl).value.protocol == "https:"
    ensures ok ==> parse(rssUrl).value.hostname == parse(domain).value.hostname
  {
    match (parse(domain), parse(rssUrl))
    case (Some(d), Some(r)) => r.hostname == d.hostname && r.protocol == "https:"
    case _ => false
  }

  /**
   * Conversely, an `https:` feed on the site's host is accepted whatever the
   * site's own protocol (`http:` included), and whatever the feed's path.
   */
  lemma SiteProtocolIgnored(domain: string, rssUrl: string, parse: string -> Option<Url>, protocol: string, host: string)
    requires parse(domain) == Some(Url(protocol, host)) && parse(rssUrl) == Some(Url("https:", host))
    ensures ValidateRssUrl(domain, rssUrl, parse)
  {
  }

  /** What `fetch(url)` gave: a thrown error, or a response with its `ok` flag and body text. */
  datatype Fetched = FetchThrew | Response(ok: bool, body: string)

  /** `isValidRssFeed` after the fetch. */
  function IsValidRssFeed(res: Fetched): (valid: bool)
    ensures valid ==> res.Response? && res.ok
    ensures res.Response? && res.ok ==> (valid <==> Contains(res.body, "<rss") || Contains(res.body, "<feed"))
  {
    match res
    case FetchThrew => false
    case Response(ok, body) => ok && (IndexOf(body, "<rss").Some? || IndexOf(body, "<feed").Some?)
  }
}
