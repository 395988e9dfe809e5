/**
 * The CMHC landing-page resolver. The page is fetched with `retry_request`
 * (three attempts, one-unit delay); a failed fetch raises its error. The
 * fetched body's decoding and the regular-expression scans are taken as an
 * input function from the body to the matches, in match order: the
 * `<a href=...>text</a>` matches as (href, inner HTML) pairs and the
 * `data-url` / `data-href` / `data-download` matches as hrefs. What is
 * modelled is what the resolver does with them: extension detection, tag
 * stripping, URL absolutisation, the title fallback and the de-duplicating
 * list building.
 */
module CmhcLanding {
  import opened Wrappers
  import opened Strings
  import Common
  import Http

  /** The data-file extensions the resolver looks for. */
  const DataExtensions: seq<string> := ["csv", "xlsx", "xls", "zip", "json", "xml", "dat", "txt"]

  /** A resolved asset: the `{url, title, format}` dictionary. */
  datatype Link = Link(url: string, title: string, format: string)

  /** One match of the anchor pattern: group 1 (the href) and group 2 (the link's inner HTML). */
  datatype Anchor = Anchor(href: string, text: string)

  /**
   * The parts of the landing URL the resolver uses: its scheme and network
   * location from `urlparse`, and `urljoin(landing_url, href)`, which is
   * left abstract.
   */
  datatype Page = Page(landingUrl: string, scheme: string, netloc: string, urljoin: (string, string) -> string)

  /** What the two link patterns match in the decoded page, in match order. */
  datatype LinkMatches = LinkMatches(anchors: seq<Anchor>, hrefs: seq<string>)

  /** `retry_request`'s defaults, which both page readers use. */
  const PageRetries: int := 3
  const PageRetryDelay: nat := 1

  // ---------------------------------------------------------------------------
  // Extension detection

  /** `href.lower().endswith('.' + ext)`. */
  predicate HasExtension(href: string, ext: string) { EndsWith(Lower(href), "." + ext) }

  /** The first extension of `exts` that `href` ends with. */
  function FirstExtension(href: string, exts: seq<string>): (r: Option<string>)
    ensures r.Some? ==> r.value in exts && HasExtension(href, r.value)
    ensures r.None? <==> forall i :: 0 <= i < |exts| ==> !HasExtension(href, exts[i])
  {
    if exts == [] then None
    else if HasExtension(href, exts[0]) then Some(exts[0])
    else FirstExtension(href, exts[1..])
  }

  /** The characters of a suffix are those at the end of the string. */
  lemma SuffixChar(s: string, t: string, k: int)
    ensures EndsWith(s, t) && 0 <= k < |t| ==> t[k] == s[|s| - |t| + k]
  {
    if EndsWith(s, t) && 0 <= k < |t| {
      assert s[|s| - |t|..][k] == s[|s| - |t| + k];
    }
  }

  /** Two dot-free extensions that both end the same string are the same extension. */
  lemma SuffixesUnique(s: string, a: string, b: string)
    requires '.' !in a && '.' !in b
    requires EndsWith(s, "." + a) && EndsWith(s, "." + b)
    ensures a == b
  {
    var x, y := "." + a, "." + b;
    SuffixChar(s, x, 0);
    SuffixChar(s, y, 0);
    SuffixChar(s, x, |x| - |y|);
    SuffixChar(s, y, |y| - |x|);
    if |a| != |b| {
      assert false;
    }
    assert a == ("." + a)[1..];
  }

  /** No allowed extension contains a dot. */
  lemma ExtensionsDotFree()
    ensures forall e :: e in DataExtensions ==> '.' !in e
  {
  }

  /**
   * At most one allowed extension ends any href, so the extension found does
   * not depend on the order in which the (unordered) set is walked.
   */
  lemma ExtensionUnique(href: string, e: string)
    requires e in DataExtensions && HasExtension(href, e)
    ensures FirstExtension(href, DataExtensions) == Some(e)
  {
    ExtensionsDotFree();
    var f := FirstExtension(href, DataExtensions).value;
    SuffixesUnique(Lower(href), e, f);
  }

  /** The `for ext in data_extensions` loop, which stops at the first extension the href ends with. */
  method DetectExtension(href: string) returns (fileExt: Option<string>)
    ensures fileExt == FirstExtension(href, DataExtensions)
  {
    fileExt := None;
    for i := 0 to |DataExtensions|
      invariant fileExt.None?
      invariant forall k :: 0 <= k < i ==> !HasExtension(href, DataExtensions[k])
    {
      if EndsWith(Lower(href), "." + DataExtensions[i]) {
        fileExt := Some(DataExtensions[i]);
        ExtensionUnique(href, DataExtensions[i]);
        return;
      }
    }
  }

  // ---------------------------------------------------------------------------
  // Tag stripping

  /** A match of `<[^>]+>` starts at `i`: a `<`, at least one character other than `>`, then a `>`. */
  predicate TagAt(s: string, i: int) {
    0 <= i && i + 1 < |s| && s[i] == '<' && s[i + 1] != '>' && '>' in s[i + 1..]
  }

  /** No match of `<[^>]+>` anywhere. */
  predicate NoTag(s: string) { forall i :: 0 <= i < |s| ==> !TagAt(s, i) }

  /**
   * `re.sub(r'<[^>]+>', '', s)`: scanning left to right, every match is
   * removed; a match runs from a `<` to the first `>` after the character
   * that follows it.
   */
  function StripTags(s: string): (r: string)
    ensures |r| <= |s|
    ensures forall c :: c in r ==> c in s
    decreases |s|
  {
    if s == [] then []
    else if TagAt(s, 0) then
      var k := IndexOf(s[1..], '>');
      var r := StripTags(s[k + 2..]);
      assert forall c :: c in s[k + 2..] ==> c in s by {
        forall c | c in s[k + 2..] ensures c in s {
          var j :| 0 <= j < |s[k + 2..]| && s[k + 2..][j] == c;
          assert s[k + 2 + j] == c;
        }
      }
      r
    else
      var r := StripTags(s[1..]);
      assert forall c :: c in s[1..] ==> c in s by {
        forall c | c in s[1..] ensures c in s {
          var j :| 0 <= j < |s[1..]| && s[1..][j] == c;
          assert s[1 + j] == c;
        }
      }
      [s[0]] + r
  }

  /** A character that cannot start a match is kept in front. */
  lemma StripTagsKeepsHead(c: char, t: string)
    requires !TagAt([c] + t, 0)
    ensures StripTags([c] + t) == [c] + StripTags(t)
  {
    assert ([c] + t)[1..] == t;
  }

  /** Putting a character that starts no match in front of a tag-free string keeps it tag-free. */
  lemma NoTagCons(c: char, t: string)
    requires NoTag(t) && !TagAt([c] + t, 0)
    ensures NoTag([c] + t)
  {
    var s := [c] + t;
    forall i | 1 <= i < |s| ensures !TagAt(s, i) {
      assert s[i + 1..] == t[i..];
      assert !TagAt(t, i - 1);
    }
  }

  /** A first character that starts no match still starts none once the rest is stripped. */
  lemma StripTagsHead(s: string)
    requires s != [] && !TagAt(s, 0)
    ensures !TagAt([s[0]] + StripTags(s[1..]), 0)
  {
    var t := s[1..];
    var r := StripTags(t);
    if s[0] == '<' && |s| > 1 {
      if s[1] == '>' {
        assert t == [s[1]] + t[1..];
        StripTagsKeepsHead(s[1], t[1..]);
        assert r[0] == '>';
      } else {
        assert '>' !in t;
        assert '>' !in r;
        assert ([s[0]] + r)[1..] == r;
      }
    }
  }

  /** Nothing the substitution leaves behind is a tag. */
  lemma {:induction false} StripTagsNoTag(s: string)
    ensures NoTag(StripTags(s))
    decreases |s|
  {
    if s != [] {
      if TagAt(s, 0) {
        var k := IndexOf(s[1..], '>');
        StripTagsNoTag(s[k + 2..]);
      } else {
        StripTagsNoTag(s[1..]);
        StripTagsHead(s);
        NoTagCons(s[0], StripTags(s[1..]));
      }
    }
  }

  /** A tag-free string is left as it is. */
  lemma {:induction false} StripTagsFixpoint(s: string)
    requires NoTag(s)
    ensures StripTags(s) == s
    decreases |s|
  {
    if s != [] {
      var t := s[1..];
      assert s == [s[0]] + t;
      assert NoTag(t) by {
        forall i | 0 <= i < |t| ensures !TagAt(t, i) {
          assert s[i + 2..] == t[i + 1..];
          assert !TagAt(s, i + 1);
        }
      }
      assert !TagAt(s, 0);
      StripTagsFixpoint(t);
    }
  }

  /** Stripping tags twice strips nothing more than stripping once. */
  lemma StripTagsIdempotent(s: string)
    ensures StripTags(StripTags(s)) == StripTags(s)
  {
    StripTagsNoTag(s);
    StripTagsFixpoint(StripTags(s));
  }

  // ---------------------------------------------------------------------------
  // Absolutisation and titles

  /** The prefix of a protocol-relative reference (two slashes). */
  const NetworkPathPrefix: string := ['/', '/']

  /** What separates a scheme from the network location (colon and two slashes). */
  const SchemeSeparator: string := [':', '/', '/']

  predicate IsHttpUrl(u: string) { StartsWith(u, "http://") || StartsWith(u, "https://") }

  /**
   * The absolute URL of a link: `http(s)://` links as they are,
   * protocol-relative `//x` under the page's scheme, root-relative `/x`
   * under the page's scheme and host, anything else joined to the page URL.
   */
  function Absolutize(page: Page, href: string): (u: string)
    ensures IsHttpUrl(href) ==> u == href
    ensures !IsHttpUrl(href) && StartsWith(href, NetworkPathPrefix) ==> u == page.scheme + ":" + href
    ensures !IsHttpUrl(href) && !StartsWith(href, NetworkPathPrefix) && StartsWith(href, "/") ==> u == page.scheme + SchemeSeparator + page.netloc + href
    ensures !StartsWith(href, "/") && !IsHttpUrl(href) ==> u == page.urljoin(page.landingUrl, href)
  {
    if IsHttpUrl(href) then href
    else if StartsWith(href, NetworkPathPrefix) then page.scheme + ":" + href
    else if StartsWith(href, "/") then page.scheme + SchemeSeparator + page.netloc + href
    else page.urljoin(page.landingUrl, href)
  }

  /**
   * On an `http`/`https` page whose `urljoin` yields `http(s)` URLs, every
   * absolutised link is an `http(s)` URL, and absolutising it again changes
   * nothing.
   */
  lemma AbsolutizeIdempotent(page: Page, href: string)
    requires page.scheme == "http" || page.scheme == "https"
    requires IsHttpUrl(page.urljoin(page.landingUrl, href))
    ensures IsHttpUrl(Absolutize(page, href))
    ensures Absolutize(page, Absolutize(page, href)) == Absolutize(page, href)
  {
    var u := Absolutize(page, href);
    if !IsHttpUrl(href) && StartsWith(href, NetworkPathPrefix) {
      assert u == page.scheme + "://" + href[2..] by { assert href == "//" + href[2..]; }
      assert u[..|page.scheme| + 3] == page.scheme + "://";
    } else if !IsHttpUrl(href) && StartsWith(href, "/") {
      assert u[..|page.scheme| + 3] == page.scheme + "://";
    }
  }

  /** `href.split('/')[-1].split('?')[0]`: the last path segment without its query. */
  function FileName(href: string): (r: string)
    ensures '/' !in r && '?' !in r
  {
    var last := LastSegment(href, '/');
    FirstSegment(last, '?')
  }

  /** A contiguous part of a tag-free string that keeps its end is tag-free when it is a slice. */
  lemma NoTagSlice(s: string, r: string)
    requires NoTag(s) && exists i :: TrimmedAt(s, r, i)
    ensures NoTag(r)
  {
    var i :| TrimmedAt(s, r, i);
    forall k | 0 <= k < |r| ensures !TagAt(r, k) {
      assert r[k] == s[i + k];
      if TagAt(r, k) {
        assert r[k + 1] == s[i + k + 1];
        var j :| 0 <= j < |r[k + 1..]| && r[k + 1..][j] == '>';
        assert s[i + k + 1..][j] == '>';
        assert TagAt(s, i + k);
      }
    }
  }

  /** What `strip()` keeps are characters of the original. */
  lemma TrimmedChars(s: string, r: string)
    requires exists i :: TrimmedAt(s, r, i)
    ensures forall c :: c in r ==> c in s
  {
    var i :| TrimmedAt(s, r, i);
    forall c | c in r ensures c in s {
      var j :| 0 <= j < |r| && r[j] == c;
      assert s[i + j] == c;
    }
  }

  /** Markup text as a title is taken from it: tags removed, surrounding whitespace stripped. */
  function CleanText(html: string): (t: string)
    ensures NoTag(t)
    ensures t == [] || (!IsSpace(t[0]) && !IsSpace(t[|t| - 1]))
    ensures forall c :: c in t ==> c in html
  {
    var stripped := StripTags(html);
    var t := Strip(stripped);
    StripTagsNoTag(html);
    NoTagSlice(stripped, t);
    TrimmedChars(stripped, t);
    t
  }

  /** Cleaning clean text leaves it as it is. */
  lemma CleanTextIdempotent(html: string)
    ensures CleanText(CleanText(html)) == CleanText(html)
  {
    var t := CleanText(html);
    StripTagsFixpoint(t);
    StripNoSpace(t);
  }

  /** The title of an anchor asset: the cleaned link text, or the file name when that is empty. */
  function AnchorTitle(a: Anchor): (t: string)
    ensures CleanText(a.text) != "" ==> t == CleanText(a.text)
    ensures CleanText(a.text) == "" ==> t == FileName(a.href)
  {
    var text := CleanText(a.text);
    if text != "" then text else FileName(a.href)
  }

  // ---------------------------------------------------------------------------
  // Candidates and the list building

  /** What one anchor match contributes before de-duplication: an asset when its href has a data extension. */
  function AnchorCandidate(page: Page, a: Anchor): (c: Option<Link>)
    ensures c.Some? ==> c.value.format in DataExtensions
  {
    match FirstExtension(a.href, DataExtensions)
    case None => None
    case Some(ext) => Some(Link(Absolutize(page, a.href), AnchorTitle(a), ext))
  }

  /** `href.split('.')[-1].lower()`. */
  function DataFormat(href: string): string { Lower(LastSegment(href, '.')) }

  /** What one data-attribute match contributes: an asset titled by its file name when its last `.` segment is a data extension. */
  function DataCandidate(page: Page, href: string): (c: Option<Link>)
    ensures c.Some? ==> c.value.format in DataExtensions
  {
    var ext := DataFormat(href);
    if ext in DataExtensions then Some(Link(Absolutize(page, href), FileName(href), ext)) else None
  }

  /** Some asset already has this URL. */
  predicate HasUrl(assets: seq<Link>, url: string) { exists i | 0 <= i < |assets| :: assets[i].url == url }

  /** `if not any(a['url'] == url for a in assets): assets.append(...)`. */
  function AddNew(assets: seq<Link>, c: Option<Link>): seq<Link> {
    if c.Some? && !HasUrl(assets, c.value.url) then assets + [c.value] else assets
  }

  /** The asset list after offering every candidate of `cs`, in order, to `acc`. */
  function Collect(acc: seq<Link>, cs: seq<Option<Link>>): seq<Link> {
    if cs == [] then acc else AddNew(Collect(acc, cs[..|cs| - 1]), cs[|cs| - 1])
  }

  function AnchorCandidates(page: Page, anchors: seq<Anchor>): (cs: seq<Option<Link>>)
    ensures |cs| == |anchors|
  {
    seq(|anchors|, i requires 0 <= i < |anchors| => AnchorCandidate(page, anchors[i]))
  }

  function DataCandidates(page: Page, hrefs: seq<string>): (cs: seq<Option<Link>>)
    ensures |cs| == |hrefs|
  {
    seq(|hrefs|, i requires 0 <= i < |hrefs| => DataCandidate(page, hrefs[i]))
  }

  /** The assets `resolve_cmhc_landing_page` returns: anchor candidates first, then data-attribute candidates, each URL once. */
  function ResolvedAssets(page: Page, anchors: seq<Anchor>, hrefs: seq<string>): seq<Link> {
    Collect(Collect([], AnchorCandidates(page, anchors)), DataCandidates(page, hrefs))
  }

  /** The first loop's body: an anchor whose href has a data extension adds its asset unless the URL is already listed. */
  method AddAnchorAsset(page: Page, assets: seq<Link>, a: Anchor) returns (r: seq<Link>)
    ensures r == AddNew(assets, AnchorCandidate(page, a))
  {
    r := assets;
    var fileExt := DetectExtension(a.href);
    if fileExt.Some? {
      var absoluteUrl := Absolutize(page, a.href);
      var title := AnchorTitle(a);
      if !HasUrl(assets, absoluteUrl) {
        r := assets + [Link(absoluteUrl, title, fileExt.value)];
      }
    }
  }

  /** The second loop's body: a data-attribute href whose last `.` segment is a data extension adds its asset unless the URL is already listed. */
  method AddDataAsset(page: Page, assets: seq<Link>, href: string) returns (r: seq<Link>)
    ensures r == AddNew(assets, DataCandidate(page, href))
  {
    r := assets;
    var fileExt := Lower(LastSegment(href, '.'));
    if fileExt in DataExtensions {
      var absoluteUrl := Absolutize(page, href);
      if !HasUrl(assets, absoluteUrl) {
        r := assets + [Link(absoluteUrl, FileName(href), fileExt)];
      }
    }
  }

  /** Offering one more candidate of `cs` is one more `AddNew`. */
  lemma CollectNext(acc: seq<Link>, cs: seq<Option<Link>>, i: nat)
    requires i < |cs|
    ensures Collect(acc, cs[..i + 1]) == AddNew(Collect(acc, cs[..i]), cs[i])
  {
    assert cs[..i + 1][..i] == cs[..i];
  }

  /** The two loops of `resolve_cmhc_landing_page`, over the matches of its two patterns. */
  method CollectAssets(page: Page, anchors: seq<Anchor>, hrefs: seq<string>) returns (assets: seq<Link>)
    ensures assets == ResolvedAssets(page, anchors, hrefs)
  {
    assets := [];
    ghost var cs := AnchorCandidates(page, anchors);
    for i := 0 to |anchors|
      invariant assets == Collect([], cs[..i])
    {
      CollectNext([], cs, i);
      assets := AddAnchorAsset(page, assets, anchors[i]);
    }
    assert cs[..|anchors|] == cs;
    ghost var ds := DataCandidates(page, hrefs);
    ghost var base := assets;
    for i := 0 to |hrefs|
      invariant assets == Collect(base, ds[..i])
    {
      CollectNext(base, ds, i);
      assets := AddDataAsset(page, assets, hrefs[i]);
    }
    assert ds[..|hrefs|] == ds;
  }

  /**
   * `resolve_cmhc_landing_page(landing_url)`: fetch the page, raising the
   * fetch's error when it fails, and otherwise collect the assets from the
   * matches found in the body.
   */
  method ResolveLandingPage(net: nat -> Http.Outcome, page: Page, scan: Common.Bytes -> LinkMatches)
    returns (r: Common.Result<seq<Link>>)
    ensures var fetched := Http.Retry(net, page.landingUrl, PageRetries, PageRetryDelay).result;
      && (fetched.Err? ==> r == Common.Err(fetched.error))
      && (fetched.Ok? ==> r == Common.Ok(ResolvedAssets(page, scan(fetched.value).anchors, scan(fetched.value).hrefs)))
  {
    var response, _, _ := Http.RetryRequest(net, page.landingUrl, PageRetries, PageRetryDelay);
    if response.Err? {
      return Common.Err(response.error);
    }
    var matches := scan(response.value);
    var assets := CollectAssets(page, matches.anchors, matches.hrefs);
    r := Common.Ok(assets);
  }

  // ---------------------------------------------------------------------------
  // Properties of the list building

  /** A list without repeated URLs. */
  predicate DistinctUrls(assets: seq<Link>) {
    forall i, j :: 0 <= i < j < |assets| ==> assets[i].url != assets[j].url
  }

  /** Collecting extends the list it starts from, keeps URLs distinct, and every added asset is one of the candidates. */
  lemma {:induction false} CollectShape(acc: seq<Link>, cs: seq<Option<Link>>)
    requires DistinctUrls(acc)
    ensures var r := Collect(acc, cs);
      && |acc| <= |r| && r[..|acc|] == acc
      && DistinctUrls(r)
      && forall i :: |acc| <= i < |r| ==> Some(r[i]) in cs
  {
    if cs != [] {
      var n := |cs| - 1;
      CollectShape(acc, cs[..n]);
      var prev := Collect(acc, cs[..n]);
      var r := Collect(acc, cs);
      assert forall i :: |acc| <= i < |prev| ==> Some(prev[i]) in cs by {
        forall i | |acc| <= i < |prev| ensures Some(prev[i]) in cs {
          var k :| 0 <= k < n && cs[..n][k] == Some(prev[i]);
          assert cs[k] == Some(prev[i]);
        }
      }
      if r != prev {
        assert r == prev + [cs[n].value];
        assert r[..|prev|] == prev;
        forall i | 0 <= i < |prev| ensures r[i].url != cs[n].value.url {
          assert prev[i].url != cs[n].value.url;
        }
      }
    }
  }

  /** Every offered candidate's URL ends up in the list. */
  lemma {:induction false} CollectCovers(acc: seq<Link>, cs: seq<Option<Link>>, k: nat)
    requires k < |cs| && cs[k].Some?
    ensures HasUrl(Collect(acc, cs), cs[k].value.url)
  {
    var n := |cs| - 1;
    var prev := Collect(acc, cs[..n]);
    CollectGrows(acc, cs[..n], cs[n]);
    if k < n {
      assert cs[..n][k] == cs[k];
      CollectCovers(acc, cs[..n], k);
      var i :| 0 <= i < |prev| && prev[i].url == cs[k].value.url;
      assert Collect(acc, cs)[i] == prev[i];
    } else if !HasUrl(prev, cs[n].value.url) {
      assert Collect(acc, cs)[|prev|] == cs[n].value;
    }
  }

  /** One more candidate keeps what was collected so far in front. */
  lemma CollectGrows(acc: seq<Link>, cs: seq<Option<Link>>, c: Option<Link>)
    ensures var prev := Collect(acc, cs);
      var r := AddNew(prev, c);
      |prev| <= |r| && r[..|prev|] == prev
  {
  }

  /** The asset kept for a URL is the first candidate offered with that URL (when the list started without it). */
  lemma {:induction false} FirstOccurrenceWins(acc: seq<Link>, cs: seq<Option<Link>>, k: nat)
    requires k < |cs| && cs[k].Some? && !HasUrl(acc, cs[k].value.url)
    requires forall j :: 0 <= j < k && cs[j].Some? ==> cs[j].value.url != cs[k].value.url
    ensures cs[k].value in Collect(acc, cs)
  {
    var n := |cs| - 1;
    var prev := Collect(acc, cs[..n]);
    CollectGrows(acc, cs[..n], cs[n]);
    if k < n {
      assert cs[..n][k] == cs[k];
      assert forall j :: 0 <= j < k ==> cs[..n][j] == cs[j];
      FirstOccurrenceWins(acc, cs[..n], k);
      var i :| 0 <= i < |prev| && prev[i] == cs[k].value;
      assert Collect(acc, cs)[i] == prev[i];
    } else {
      assert !HasUrl(prev, cs[k].value.url) by {
        if HasUrl(prev, cs[k].value.url) {
          var i :| 0 <= i < |prev| && prev[i].url == cs[k].value.url;
          CollectOrigin(acc, cs[..n], i);
        }
      }
      assert Collect(acc, cs)[|prev|] == cs[n].value;
    }
  }

  /** An element of the collected list comes from the starting list or from an offered candidate. */
  lemma {:induction false} CollectOrigin(acc: seq<Link>, cs: seq<Option<Link>>, i: nat)
    requires i < |Collect(acc, cs)|
    ensures var r := Collect(acc, cs);
      (i < |acc| && r[i] == acc[i]) || (exists j :: 0 <= j < |cs| && cs[j] == Some(r[i]))
  {
    if cs != [] {
      var n := |cs| - 1;
      var prev := Collect(acc, cs[..n]);
      CollectGrows(acc, cs[..n], cs[n]);
      if i < |prev| {
        CollectOrigin(acc, cs[..n], i);
        if !(i < |acc| && prev[i] == acc[i]) {
          var j :| 0 <= j < n && cs[..n][j] == Some(prev[i]);
          assert cs[j] == Some(prev[i]);
        }
      } else {
        assert cs[n] == Some(Collect(acc, cs)[i]);
      }
    }
  }

  /**
   * Collecting two candidate lists one after the other: no URL twice; the
   * first list's assets, in order, before any of the second's; every
   * candidate represented by its URL; every asset taken from a candidate.
   */
  lemma CollectedShape(acs: seq<Option<Link>>, dcs: seq<Option<Link>>)
    ensures var fromFirst := Collect([], acs);
      var r := Collect(fromFirst, dcs);
      && DistinctUrls(r)
      && |fromFirst| <= |r| && r[..|fromFirst|] == fromFirst
      && (forall i :: 0 <= i < |fromFirst| ==> Some(r[i]) in acs)
      && (forall i :: |fromFirst| <= i < |r| ==> Some(r[i]) in dcs)
      && (forall k :: 0 <= k < |acs| && acs[k].Some? ==> HasUrl(r, acs[k].value.url))
      && (forall k :: 0 <= k < |dcs| && dcs[k].Some? ==> HasUrl(r, dcs[k].value.url))
  {
    var fromFirst := Collect([], acs);
    CollectShape([], acs);
    CollectShape(fromFirst, dcs);
    var r := Collect(fromFirst, dcs);
    forall i | 0 <= i < |fromFirst| ensures Some(r[i]) in acs {
      assert r[i] == fromFirst[i];
    }
    forall k | 0 <= k < |acs| && acs[k].Some? ensures HasUrl(r, acs[k].value.url) {
      CollectCovers([], acs, k);
      var i :| 0 <= i < |fromFirst| && fromFirst[i].url == acs[k].value.url;
      assert r[i] == fromFirst[i];
    }
    forall k | 0 <= k < |dcs| && dcs[k].Some? ensures HasUrl(r, dcs[k].value.url) {
      CollectCovers(fromFirst, dcs, k);
    }
  }

  /**
   * The resolver's list: no URL twice; all anchor assets, in match order,
   * before any data-attribute asset; each anchor or data match with a data
   * extension is represented by its URL; every asset comes from a match.
   */
  lemma ResolvedAssetsShape(page: Page, anchors: seq<Anchor>, hrefs: seq<string>)
    ensures var r := ResolvedAssets(page, anchors, hrefs);
      var fromAnchors := Collect([], AnchorCandidates(page, anchors));
      && DistinctUrls(r)
      && |fromAnchors| <= |r| && r[..|fromAnchors|] == fromAnchors
      && (forall i :: 0 <= i < |fromAnchors| ==> Some(r[i]) in AnchorCandidates(page, anchors))
      && (forall i :: |fromAnchors| <= i < |r| ==> Some(r[i]) in DataCandidates(page, hrefs))
      && (forall k :: 0 <= k < |anchors| && AnchorCandidate(page, anchors[k]).Some? ==> HasUrl(r, AnchorCandidate(page, anchors[k]).value.url))
      && (forall k :: 0 <= k < |hrefs| && DataCandidate(page, hrefs[k]).Some? ==> HasUrl(r, DataCandidate(page, hrefs[k]).value.url))
  {
    var acs := AnchorCandidates(page, anchors);
    var dcs := DataCandidates(page, hrefs);
    CollectedShape(acs, dcs);
    assert forall k :: 0 <= k < |anchors| ==> acs[k] == AnchorCandidate(page, anchors[k]);
    assert forall k :: 0 <= k < |hrefs| ==> dcs[k] == DataCandidate(page, hrefs[k]);
  }

  /** Collecting candidates whose formats are all allowed onto a list whose formats are allowed keeps every format allowed. */
  lemma {:induction false} CollectFormats(acc: seq<Link>, cs: seq<Option<Link>>, allowed: seq<string>)
    requires forall i :: 0 <= i < |acc| ==> acc[i].format in allowed
    requires forall k :: 0 <= k < |cs| && cs[k].Some? ==> cs[k].value.format in allowed
    ensures forall i :: 0 <= i < |Collect(acc, cs)| ==> Collect(acc, cs)[i].format in allowed
  {
    if cs != [] {
      var n := |cs| - 1;
      assert forall k :: 0 <= k < n ==> cs[..n][k] == cs[k];
      CollectFormats(acc, cs[..n], allowed);
    }
  }

  /** Every resolved asset's format is one of the data extensions. */
  lemma FormatsAllowed(page: Page, anchors: seq<Anchor>, hrefs: seq<string>)
    ensures var r := ResolvedAssets(page, anchors, hrefs);
      forall i :: 0 <= i < |r| ==> r[i].format in DataExtensions
  {
    var acs := AnchorCandidates(page, anchors);
    var dcs := DataCandidates(page, hrefs);
    assert forall k :: 0 <= k < |acs| ==> acs[k] == AnchorCandidate(page, anchors[k]);
    assert forall k :: 0 <= k < |dcs| ==> dcs[k] == DataCandidate(page, hrefs[k]);
    CollectFormats([], acs, DataExtensions);
    CollectFormats(Collect([], acs), dcs, DataExtensions);
  }

  /** An anchor yields a candidate exactly when its href has a data extension; the asset's format is that extension. */
  lemma AnchorCandidateIff(page: Page, a: Anchor)
    ensures AnchorCandidate(page, a).Some? <==> exists e :: e in DataExtensions && HasExtension(a.href, e)
    ensures forall e :: e in DataExtensions && HasExtension(a.href, e) ==> AnchorCandidate(page, a).value.format == e
    ensures AnchorCandidate(page, a).Some? ==> AnchorCandidate(page, a).value.url == Absolutize(page, a.href)
  {
    forall e | e in DataExtensions && HasExtension(a.href, e) ensures AnchorCandidate(page, a).value.format == e {
      ExtensionUnique(a.href, e);
    }
  }

  /** Lower-casing commutes with taking the last `.` segment. */
  lemma {:induction false} LowerLastSegment(s: string)
    ensures Lower(LastSegment(s, '.')) == LastSegment(Lower(s), '.')
    decreases |s|
  {
    if s != [] {
      var n := |s| - 1;
      var t := s[..n];
      LowerLast(s);
      LowerLastSegment(t);
      if s[n] != '.' {
        var r := LastSegment(t, '.');
        assert LastSegment(s, '.') == r + [s[n]];
        LowerLast(r + [s[n]]);
        assert (r + [s[n]])[..|r|] == r;
      }
    }
  }

  /** Lower-casing a non-empty string lower-cases its front and its last character; a `.` stays one and nothing else becomes one. */
  lemma LowerLast(s: string)
    requires s != []
    ensures Lower(s) == Lower(s[..|s| - 1]) + [LowerChar(s[|s| - 1])]
    ensures (LowerChar(s[|s| - 1]) == '.') == (s[|s| - 1] == '.')
  {
    assert Lower(s)[..|s| - 1] == Lower(s[..|s| - 1]);
  }

  /** A string ending in `.` and a dot-free `e` has `e` as its last `.` segment. */
  lemma LastSegmentOfSuffix(s: string, e: string)
    requires '.' !in e && EndsWith(s, "." + e)
    ensures LastSegment(s, '.') == e
  {
    var r := LastSegment(s, '.');
    var x := "." + e;
    SuffixChar(s, x, 0);
    SuffixChar(s, x, |x| - |r| - 1);
    SuffixChar(s, r, |r| - |x|);
    if |r| != |e| {
      assert false;
    }
    assert e == x[1..];
  }

  /**
   * A data-attribute href the pattern can match (its lower-case form ends in
   * `.` and a data extension) is always accepted, with that extension as
   * its format and its file name as its title.
   */
  lemma DataMatchAccepted(page: Page, href: string, e: string)
    requires e in DataExtensions && HasExtension(href, e)
    ensures DataCandidate(page, href) == Some(Link(Absolutize(page, href), FileName(href), e))
  {
    ExtensionsDotFree();
    LowerLastSegment(href);
    LastSegmentOfSuffix(Lower(href), e);
  }

  // ---------------------------------------------------------------------------
  // extract_metadata_from_page

  /**
   * `extract_metadata_from_page(landing_url)` on the first matches of its
   * `<title>`, `<h1>` and description-meta patterns (group 1 of each, None
   * when there is no match).
   */
  function PageMetadata(titleMatch: Option<string>, h1Match: Option<string>, descMatch: Option<string>): (m: map<string, string>)
    ensures "title" in m <==> titleMatch.Some? || h1Match.Some?
    ensures "description" in m <==> descMatch.Some?
    ensures m.Keys <= {"title", "description"}
  {
    var title := if titleMatch.Some? then titleMatch else h1Match;
    var withTitle: map<string, string> := if title.Some? then map["title" := CleanText(title.value)] else map[];
    if descMatch.Some? then withTitle["description" := Strip(descMatch.value)] else withTitle
  }

  /** The `<title>` wins over the `<h1>`; either way the title is tag-free and trimmed. */
  lemma PageTitleSource(titleMatch: Option<string>, h1Match: Option<string>, descMatch: Option<string>)
    ensures var m := PageMetadata(titleMatch, h1Match, descMatch);
      && (titleMatch.Some? ==> m["title"] == CleanText(titleMatch.value))
      && (titleMatch.None? && h1Match.Some? ==> m["title"] == CleanText(h1Match.value))
      && ("title" in m ==> NoTag(m["title"]))
      && ("description" in m ==> m["description"] == Strip(descMatch.value))
  {
  }

  /** The first matches of the `<title>`, `<h1>` and description-meta patterns in the decoded page. */
  datatype MetaMatches = MetaMatches(title: Option<string>, h1: Option<string>, description: Option<string>)

  /**
   * `extract_metadata_from_page(landing_url)`: fetch the page, raising the
   * fetch's error when it fails, and otherwise build the metadata from the
   * matches found in the body.
   */
  method ExtractMetadataFromPage(net: nat -> Http.Outcome, landingUrl: string, scan: Common.Bytes -> MetaMatches)
    returns (r: Common.Result<map<string, string>>)
    ensures var fetched := Http.Retry(net, landingUrl, PageRetries, PageRetryDelay).result;
      && (fetched.Err? ==> r == Common.Err(fetched.error))
      && (fetched.Ok? ==> var m := scan(fetched.value); r == Common.Ok(PageMetadata(m.title, m.h1, m.description)))
  {
    var response, _, _ := Http.RetryRequest(net, landingUrl, PageRetries, PageRetryDelay);
    if response.Err? {
      return Common.Err(response.error);
    }
    var m := scan(response.value);
    r := Common.Ok(PageMetadata(m.title, m.h1, m.description));
  }
}
