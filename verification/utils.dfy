/** Text, URL and HTML helpers of `src/utils.py`: title cleaning, whitespace
    normalisation, URL normalisation against the site's base URL, and the two
    HTML pickers (Open Graph / first image, first matching post-type selector). */
module Utils {
  import opened Basics
  import opened Text
  import opened Dom

  // ---------------------------------------------------------------------------
  // TextCleaner.clean_title
  // ---------------------------------------------------------------------------

  predicate IsAsciiUpper(c: char) { 'A' <= c <= 'Z' }

  predicate IsAsciiLower(c: char) { 'a' <= c <= 'z' }

  /** The regular expression `[A-Z][a-z]+` can begin at index `i` of `t`. */
  predicate TitleStartsAt(t: string, i: int) {
    0 <= i < |t| - 1 && IsAsciiUpper(t[i]) && IsAsciiLower(t[i + 1])
  }

  /** `t` holds no capitalised word at all. */
  predicate NoTitleStart(t: string) {
    forall i :: 0 <= i < |t| ==> !TitleStartsAt(t, i)
  }

  /** The leftmost index at or after `i` where a capitalised word begins. */
  function TitleStartFrom(t: string, i: nat): (r: Option<nat>)
    requires i <= |t|
    ensures r.Some? ==> i <= r.value && TitleStartsAt(t, r.value) &&
                        forall j :: i <= j < r.value ==> !TitleStartsAt(t, j)
    ensures r.None? ==> forall j :: i <= j < |t| ==> !TitleStartsAt(t, j)
    decreases |t| - i
  {
    if i == |t| then None
    else if TitleStartsAt(t, i) then Some(i)
    else TitleStartFrom(t, i + 1)
  }

  /** The path segment a title is cleaned from: the text after the last `/`,
      stripped, or the whole title when it has no `/`. */
  function LastSegment(title: string): (seg: string)
    ensures '/' !in seg
    ensures '/' !in title ==> seg == title
  {
    if '/' in title then
      var last := Last(SplitOn(title, '/'));
      StripWithin(last);
      Strip(last)
    else title
  }

  /** The text `re.search(r"[A-Z][a-z]+.*", seg)` matches, before stripping:
      from the leftmost capitalised word up to the end of its line. */
  function TitleMatch(seg: string): (m: Option<string>)
    ensures m.None? <==> NoTitleStart(seg)
    ensures m.Some? ==> TitleStartsAt(m.value, 0) && '\n' !in m.value
    ensures m.Some? ==> forall c :: c in m.value ==> c in seg
    ensures m.Some? ==> (TitleStartFrom(seg, 0).Some? &&
              var i := TitleStartFrom(seg, 0).value;
              i + |m.value| <= |seg| && m.value == seg[i..i + |m.value|] &&
              (i + |m.value| == |seg| || seg[i + |m.value|] == '\n'))
  {
    match TitleStartFrom(seg, 0)
    case None => None
    case Some(i) =>
      var line := LineFrom(seg, i);
      assert line[0] == seg[i] && line[1] == seg[i + 1];
      SliceWithin(seg, i, i + |line|);
      Some(line)
  }

  /** The rest of the line of `t` from index `i`: up to, and not including,
      the next line break, or to the end. */
  function LineFrom(t: string, i: nat): (r: string)
    requires i <= |t|
    ensures i + |r| <= |t| && r == t[i..i + |r|]
    ensures '\n' !in r
    ensures i + |r| == |t| || t[i + |r|] == '\n'
  {
    var k := FindChar(t[i..], '\n');
    assert t[i..][..k] == t[i..i + k];
    t[i..i + k]
  }

  /** The match runs from the leftmost capitalised word to the first line
      break after it. */
  lemma TitleMatchLine(seg: string)
    requires TitleStartFrom(seg, 0).Some?
    ensures TitleMatch(seg) == Some(LineFrom(seg, TitleStartFrom(seg, 0).value))
  {
  }

  /** Stripping a string that starts with a capitalised word keeps its first
      two characters. */
  lemma StripKeepsTitleStart(m: string)
    requires TitleStartsAt(m, 0)
    ensures TitleStartsAt(Strip(m), 0)
  {
    StripOfNonSpaceStart(m);
    TrimRightKeeps(m, 1);
    var r := TrimRight(m);
    assert r[0] == m[0] && r[1] == m[1];
  }

  /** Stripping cannot create a capitalised word. */
  lemma StripKeepsNoTitleStart(t: string)
    requires NoTitleStart(t)
    ensures NoTitleStart(Strip(t))
  {
    var r := Strip(t);
    var p := StripStart(t);
    forall i | 0 <= i < |r| ensures !TitleStartsAt(r, i) {
      if TitleStartsAt(r, i) {
        assert r[i] == t[p + i] && r[i + 1] == t[p + i + 1];
        assert TitleStartsAt(t, p + i);
      }
    }
  }

  /** `TextCleaner.clean_title`: drops any path prefix and starts the title at
      its first capitalised word. The result holds no `/`, is already stripped,
      and either starts with a capitalised word and stays on one line, or
      holds no capitalised word at all. */
  function CleanTitle(title: string): (r: string)
    ensures '/' !in r
    ensures Strip(r) == r
    ensures r == [] || (TitleStartsAt(r, 0) && '\n' !in r) || NoTitleStart(r)
    ensures NoTitleStart(LastSegment(title)) ==> r == Strip(LastSegment(title))
  {
    if title == [] then []
    else
      var seg := LastSegment(title);
      match TitleMatch(seg)
      case Some(m) =>
        StripKeepsTitleStart(m);
        StripIdempotent(m);
        StripWithin(m);
        Strip(m)
      case None =>
        StripKeepsNoTitleStart(seg);
        StripIdempotent(seg);
        StripWithin(seg);
        Strip(seg)
  }

  /** When the last segment holds a capitalised word, the title is the
      text from the leftmost one to the end of its line, stripped. */
  lemma CleanTitleHeadline(title: string, i: nat)
    requires TitleStartFrom(LastSegment(title), 0) == Some(i)
    ensures CleanTitle(title) == Strip(LineFrom(LastSegment(title), i))
  {
    var seg := LastSegment(title);
    TitleMatchLine(seg);
    CleanTitleOfMatch(title, TitleMatch(seg).value);
  }

  /** With a match in the last segment, the title is the match, stripped. */
  lemma CleanTitleOfMatch(title: string, m: string)
    requires TitleMatch(LastSegment(title)) == Some(m)
    ensures CleanTitle(title) == Strip(m)
  {
    assert title != [];
  }

  /** Cleaning a cleaned title changes nothing. */
  lemma CleanTitleIdempotent(title: string)
    ensures CleanTitle(CleanTitle(title)) == CleanTitle(title)
  {
    var r := CleanTitle(title);
    if r != [] {
      assert LastSegment(r) == r;
      if TitleStartsAt(r, 0) && '\n' !in r {
        TitleMatchWhole(r);
      }
    }
  }

  /** The last piece of `s.split("/")` is the text after the last `/`. */
  lemma LastPieceAfterSlash(prefix: string, seg: string)
    requires '/' !in seg
    ensures Last(SplitOn(prefix + "/" + seg, '/')) == seg
  {
    SplitOnLastPiece(prefix, seg, '/');
  }

  /** A single line that starts with a capitalised word is matched whole. */
  lemma TitleMatchWhole(seg: string)
    requires '\n' !in seg && TitleStartsAt(seg, 0)
    ensures TitleMatch(seg) == Some(seg)
  {
    assert TitleStartFrom(seg, 0) == Some(0);
    assert seg[0..] == seg;
    FindCharAbsent(seg, '\n');
    assert seg[0..0 + |seg|] == seg;
  }

  /** A title written as a path whose last segment is a clean title, one
      line starting with a capitalised word, cleans to that segment. */
  lemma CleanTitleOfPath(prefix: string, seg: string)
    requires '/' !in seg && '\n' !in seg && TitleStartsAt(seg, 0)
    requires !IsSpace(seg[|seg| - 1])
    ensures CleanTitle(prefix + "/" + seg) == seg
  {
    var t := prefix + "/" + seg;
    assert t[|prefix|] == '/';
    LastPieceAfterSlash(prefix, seg);
    StripOfStripped(seg);
    assert LastSegment(t) == seg;
    TitleMatchWhole(seg);
  }

  /** The example the application's self-test uses: a title given as a path
      keeps only its last segment. */
  lemma CleanTitlePathExample(title: string, seg: string)
    requires title == "Product/2025/12/New Feature Release"
    requires seg == "New Feature Release"
    ensures CleanTitle(title) == seg
  {
    var prefix := "Product/2025/12";
    assert title == prefix + "/" + seg;
    assert TitleStartsAt(seg, 0) && !IsSpace(seg[|seg| - 1]);
    assert '/' !in seg && '\n' !in seg;
    CleanTitleOfPath(prefix, seg);
  }

  // ---------------------------------------------------------------------------
  // TextCleaner.normalize_whitespace
  // ---------------------------------------------------------------------------

  /** `TextCleaner.normalize_whitespace`: the words of `text`, in order, joined
      by single spaces. The result has the same words, no whitespace at either
      end, and every whitespace character in it is one `' '` between two words. */
  function NormalizeWhitespace(text: string): (r: string)
    ensures Words(r) == Words(text)
    ensures r != [] ==> !IsSpace(r[0]) && !IsSpace(r[|r| - 1])
    ensures forall i :: 0 <= i < |r| && IsSpace(r[i]) ==>
              r[i] == ' ' && 0 < i < |r| - 1 && !IsSpace(r[i - 1]) && !IsSpace(r[i + 1])
  {
    // the source's early return for empty text gives the same result
    var ws := Words(text);
    var r := Join(ws, " ");
    assert Words(r) == ws by { WordsOfJoin(ws); }
    JoinedWordsShape(ws);
    r
  }

  /** The result is empty exactly when the text has no words. */
  lemma NormalizeWhitespaceEmpty(text: string)
    ensures NormalizeWhitespace(text) == [] <==> Words(text) == []
  {
    JoinedWordsShape(Words(text));
  }

  /** Normalising twice is normalising once. */
  lemma NormalizeWhitespaceIdempotent(text: string)
    ensures NormalizeWhitespace(NormalizeWhitespace(text)) == NormalizeWhitespace(text)
  {
  }

  // ---------------------------------------------------------------------------
  // URLNormalizer.normalize_url
  // ---------------------------------------------------------------------------

  /** The site URL relative links are resolved against. Resolving a reference
      that is neither absolute nor rooted at `/` (`urljoin` with a
      document-relative path, a query or a fragment) is left to
      `joinRelative`. */
  datatype Base = Base(url: string, joinRelative: string -> string)

  /** Length of the authority part at the start of `s`: up to the first `/`,
      `?` or `#`. */
  function AuthorityEnd(s: string): (k: nat)
    ensures k <= |s| && forall j :: 0 <= j < k ==> s[j] != '/' && s[j] != '?' && s[j] != '#'
    ensures k < |s| ==> s[k] == '/' || s[k] == '?' || s[k] == '#'
  {
    if s == [] || s[0] == '/' || s[0] == '?' || s[0] == '#' then 0
    else 1 + AuthorityEnd(s[1..])
  }

  lemma {:induction false} AuthorityEndWhole(s: string)
    requires forall j :: 0 <= j < |s| ==> s[j] != '/' && s[j] != '?' && s[j] != '#'
    ensures AuthorityEnd(s) == |s|
  {
    if s != [] {
      AuthorityEndWhole(s[1..]);
    }
  }

  /** Scheme and authority of a base URL that starts with `http://` or
      `https://` (`https://host`), which `urljoin` keeps when joining a path
      rooted at `/`. It is empty for any other base; the model then keeps
      the path alone, which is not always what `urljoin` does. */
  function Origin(base: string): (o: string)
    ensures o == [] || StartsWith(o, "http://") || StartsWith(o, "https://")
    ensures StartsWith(base, o)
    ensures o != [] && |o| < |base| ==> base[|o|] == '/' || base[|o|] == '?' || base[|o|] == '#'
  {
    var scheme :=
      if StartsWith(base, "https://") then "https://"
      else if StartsWith(base, "http://") then "http://"
      else "";
    if scheme == [] then []
    else
      var rest := base[|scheme|..];
      var o := scheme + rest[..AuthorityEnd(rest)];
      assert base[..|o|] == o;
      o
  }

  /** A reference `normalize_url` resolves against the document it appears
      in rather than the site root. */
  predicate IsDocumentRelative(url: string) {
    url != [] && !StartsWith(url, "/") && !StartsWith(url, "http")
  }

  /** `URLNormalizer.normalize_url`: empty stays empty, a protocol-relative
      URL gets `https:`, a path rooted at `/` is joined to the base's origin,
      anything starting with `http` is kept, and the rest is resolved by
      `urljoin`. */
  function NormalizeUrl(url: string, base: Base): (r: string)
    ensures url == [] ==> r == []
    ensures StartsWith(url, "//") ==> r == "https:" + url
    ensures StartsWith(url, "/") && !StartsWith(url, "//") ==>
              StartsWith(r, Origin(base.url)) && r[|Origin(base.url)|..] == url
    ensures StartsWith(url, "http") ==> r == url
    ensures IsDocumentRelative(url) ==> r == base.joinRelative(url)
  {
    if url == [] then []
    else if StartsWith(url, "//") then
      PrefixesExclude(url, "//", "http");
      "https:" + url
    else if StartsWith(url, "/") then
      PrefixesExclude(url, "/", "http");
      var o := Origin(base.url);
      assert (o + url)[..|o|] == o;
      o + url
    else if StartsWith(url, "http") then url
    else base.joinRelative(url)
  }

  /** Every result is empty, absolute (`http...`), or — when the base has no
      origin to join with — a path rooted at `/`, unless it came from
      resolving a document-relative reference. */
  lemma NormalizeUrlAbsolute(url: string, base: Base)
    requires !IsDocumentRelative(url)
    ensures var r := NormalizeUrl(url, base);
      r == [] || StartsWith(r, "http") ||
      (Origin(base.url) == [] && StartsWith(r, "/") && !StartsWith(r, "//"))
  {
    var r := NormalizeUrl(url, base);
    var o := Origin(base.url);
    if StartsWith(url, "//") {
      assert r[..4] == "http";
    } else if StartsWith(url, "/") && o != [] {
      assert r[..4] == o[..4];
    }
  }

  /** A URL starting with `http` is a fixed point. */
  lemma NormalizeUrlKeepsAbsolute(url: string, base: Base)
    requires StartsWith(url, "http")
    ensures NormalizeUrl(url, base) == url
  {
    PrefixesExclude(url, "http", "/");
    PrefixesExclude(url, "http", "//");
  }

  /** Normalising a normalised URL changes nothing, provided the resolver
      turns document-relative references into absolute URLs. */
  lemma NormalizeUrlIdempotent(url: string, base: Base)
    requires IsDocumentRelative(url) ==> StartsWith(base.joinRelative(url), "http")
    ensures NormalizeUrl(NormalizeUrl(url, base), base) == NormalizeUrl(url, base)
  {
    var r := NormalizeUrl(url, base);
    var o := Origin(base.url);
    if url == [] {
    } else if StartsWith(url, "//") {
      assert r[..4] == "http";
      NormalizeUrlKeepsAbsolute(r, base);
    } else if StartsWith(url, "/") {
      if o == [] {
        assert r == url;
      } else {
        assert r[..4] == o[..4];
        NormalizeUrlKeepsAbsolute(r, base);
      }
    } else if StartsWith(url, "http") {
      NormalizeUrlKeepsAbsolute(url, base);
    } else {
      NormalizeUrlKeepsAbsolute(r, base);
    }
  }

  /** `Origin` of a base URL that is just `https://` and a host. */
  lemma OriginOfHost(host: string)
    requires forall j :: 0 <= j < |host| ==> host[j] != '/' && host[j] != '?' && host[j] != '#'
    ensures Origin("https://" + host) == "https://" + host
  {
    var b := "https://" + host;
    assert StartsWith(b, "https://");
    assert b[|"https://"|..] == host;
    AuthorityEndWhole(host);
    assert host[..|host|] == host;
  }

  /** A path rooted at `/` joined to an `https` base made of a host alone
      (the application's self-test joins `/blog/test-post` to
      `https://www.databricks.com`). */
  lemma NormalizeUrlRootedOnHost(host: string, path: string, joinRelative: string -> string)
    requires forall j :: 0 <= j < |host| ==> host[j] != '/' && host[j] != '?' && host[j] != '#'
    requires StartsWith(path, "/") && !StartsWith(path, "//")
    ensures NormalizeUrl(path, Base("https://" + host, joinRelative)) == "https://" + host + path
  {
    OriginOfHost(host);
  }

  // ---------------------------------------------------------------------------
  // HTMLParser
  // ---------------------------------------------------------------------------

  /** `root.select_one(selector)`; `matches` decides whether a CSS selector
      matches an element. */
  function SelectOne(root: Node, selector: string, matches: (string, Node) -> bool): Option<Node> {
    Find(root, d => matches(selector, d))
  }

  /** `HTMLParser.extract_post_type`: the stripped text of the first element
      matched by the first selector, in list order, that matches anything. */
  function ExtractPostType(soup: Node, selectors: seq<string>, matches: (string, Node) -> bool): (r: Option<string>)
    ensures r.None? <==> forall i :: 0 <= i < |selectors| ==> SelectOne(soup, selectors[i], matches).None?
    ensures r.Some? ==> exists i :: (0 <= i < |selectors| &&
              (forall j :: 0 <= j < i ==> SelectOne(soup, selectors[j], matches).None?) &&
              SelectOne(soup, selectors[i], matches).Some? &&
              r.value == GetText(SelectOne(soup, selectors[i], matches).value, ""))
    decreases |selectors|
  {
    if selectors == [] then None
    else
      match SelectOne(soup, selectors[0], matches)
      case Some(e) => Some(GetText(e, ""))
      case None =>
        var rest := selectors[1..];
        var r := ExtractPostType(soup, rest, matches);
        assert forall i :: 0 <= i < |rest| ==> rest[i] == selectors[i + 1];
        r
  }

  predicate IsOgImageMeta(n: Node) {
    n.Element? && n.tag == "meta" && Attr(n, "property") == Some("og:image")
  }

  predicate IsImg(n: Node) {
    n.Element? && n.tag == "img"
  }

  /** `HTMLParser.extract_meta_image`: the non-empty `content` of the first
      Open Graph image tag, else the non-empty `src` of the first image,
      else nothing. */
  function ExtractMetaImage(page: Node): (r: Option<string>)
    ensures r.Some? ==> r.value != []
    ensures var m := Find(page, IsOgImageMeta);
      m.Some? && AttrOrEmpty(m.value, "content") != [] ==> r == Some(AttrOrEmpty(m.value, "content"))
    ensures r.Some? ==> (exists d :: d in Descendants(page) && IsOgImageMeta(d) && Attr(d, "content") == r) ||
                        (exists d :: d in Descendants(page) && IsImg(d) && Attr(d, "src") == r)
    ensures r.None? ==> forall d :: d in Descendants(page) && IsImg(d) ==>
                          Find(page, IsImg) == Some(d) ==> AttrOrEmpty(d, "src") == []
    ensures var m := Find(page, IsOgImageMeta);
            var img := Find(page, IsImg);
      !(m.Some? && AttrOrEmpty(m.value, "content") != []) ==>
        (r.Some? <==> img.Some? && AttrOrEmpty(img.value, "src") != []) &&
        (r.Some? ==> r == Attr(img.value, "src"))
  {
    var m := Find(page, IsOgImageMeta);
    if m.Some? && AttrOrEmpty(m.value, "content") != [] then Attr(m.value, "content")
    else
      var img := Find(page, IsImg);
      if img.Some? && AttrOrEmpty(img.value, "src") != [] then Attr(img.value, "src")
      else None
  }
}
