/** Post extraction from a blog category page (`src/scraper.py`): locating the
    card around each blog link, resolving a post's type and cover image from
    the card, falling back to the post's own page for missing fields, the
    first-wins link de-duplication, the case-insensitive type filter and the
    final de-duplication of `scrape_posts`.

    The browser is not modelled: the rendered category page is a `Node`, and
    opening a post in a new tab is the oracle `Env.openPage`. */
module Scraper {
  import opened Basics
  import opened Text
  import opened Dom
  import opened Utils

  const PostTypeSelectors: seq<string> :=
    [".tag", ".post-type", ".kicker", ".eyebrow", ".meta .type", ".post-kicker"]

  const CardClasses: seq<string> :=
    ["category-results-wrapper", "blog-grid-card", "post-card", "card", "article", "card__content"]

  const PostTypeKeywords: seq<string> :=
    ["Product", "Engineering", "Article", "Announcement", "Solutions",
     "Customer", "Research", "Data", "Security", "Announcements"]

  /** How many ancestors of a link are searched for its card. */
  const CardSearchDepth: nat := 4

  const BlogMarker: string := "/blog/"

  const UnknownType: string := "Unknown"

  /** A scraped post, the dictionary with keys `post_type`, `title`,
      `cover_image` and `link`. */
  datatype Post = Post(postType: string, title: string, coverImage: string, link: string)

  /** What a post's own page yields (`_extract_from_individual_page`). */
  datatype PageData = PageData(postType: string, coverImage: string, title: string)

  /** What extraction depends on besides the page: the site's base URL, CSS
      selector matching, and the post page opened in a new tab (`None` when
      the tab cannot be opened or reading it fails). */
  datatype Env = Env(base: Base, matches: (string, Node) -> bool, openPage: string -> Option<Node>)

  // ---------------------------------------------------------------------------
  // _find_parent_card
  // ---------------------------------------------------------------------------

  /** An element whose class list names one of `CardClasses`. */
  predicate IsCard(n: Node) {
    n.Element? && exists c :: c in n.classes && c in CardClasses
  }

  /** The nearest of the first `steps` ancestors that is a card. */
  function FindCardWithin(ancestors: seq<Node>, steps: nat): (r: Option<Node>)
    ensures r.Some? ==> exists i :: (0 <= i < steps && i < |ancestors| &&
              ancestors[i] == r.value && IsCard(r.value) &&
              forall j :: 0 <= j < i ==> !IsCard(ancestors[j]))
    ensures r.None? ==> forall i :: 0 <= i < steps && i < |ancestors| ==> !IsCard(ancestors[i])
    decreases steps
  {
    if steps == 0 || ancestors == [] then None
    else if IsCard(ancestors[0]) then Some(ancestors[0])
    else
      var rest := ancestors[1..];
      var r := FindCardWithin(rest, steps - 1);
      assert forall i :: 1 <= i < |ancestors| ==> ancestors[i] == rest[i - 1];
      r
  }

  /** `PostExtractor._find_parent_card`: walks up from a link, never
      examining the link itself, through at most `CardSearchDepth` ancestors
      (fewer when the document root comes first), and returns the nearest one
      that is a card. */
  function FindParentCard(link: Located): (r: Option<Node>)
    ensures r.Some? ==> exists i :: (0 <= i < CardSearchDepth && i < |link.ancestors| &&
              link.ancestors[i] == r.value && IsCard(r.value) &&
              forall j :: 0 <= j < i ==> !IsCard(link.ancestors[j]))
    ensures r.None? ==> forall i :: 0 <= i < CardSearchDepth && i < |link.ancestors| ==>
              !IsCard(link.ancestors[i])
  {
    FindCardWithin(link.ancestors, CardSearchDepth)
  }

  // ---------------------------------------------------------------------------
  // _extract_post_type_from_card
  // ---------------------------------------------------------------------------

  /** The first of `PostTypeKeywords`, in list order, that is one of `tokens`. */
  function FirstKeyword(tokens: seq<string>): (r: Option<string>)
    ensures r.None? <==> forall i :: 0 <= i < |PostTypeKeywords| ==> PostTypeKeywords[i] !in tokens
    ensures r.Some? ==> r.value in tokens && exists i :: (0 <= i < |PostTypeKeywords| &&
              PostTypeKeywords[i] == r.value &&
              forall j :: 0 <= j < i ==> PostTypeKeywords[j] !in tokens)
  {
    match FirstIndex(PostTypeKeywords, (k: string) => k in tokens)
    case None => None
    case Some(i) => Some(PostTypeKeywords[i])
  }

  /** `PostExtractor._extract_post_type_from_card`: the stripped text of the
      first post-type selector that matches inside the card — even when that
      text is empty — else the first keyword that is a whole word of the
      card's text, else the empty string. */
  function ExtractPostTypeFromCard(card: Node, matches: (string, Node) -> bool): (r: string)
    ensures var bySelector := ExtractPostType(card, PostTypeSelectors, matches);
      bySelector.Some? ==> r == bySelector.value
    ensures var tokens := Words(GetText(card, " "));
      ExtractPostType(card, PostTypeSelectors, matches).None? ==>
        (r == [] <==> forall i :: 0 <= i < |PostTypeKeywords| ==> PostTypeKeywords[i] !in tokens) &&
        (r != [] ==> r in tokens && exists i :: (0 <= i < |PostTypeKeywords| &&
           PostTypeKeywords[i] == r && forall j :: 0 <= j < i ==> PostTypeKeywords[j] !in tokens))
  {
    match ExtractPostType(card, PostTypeSelectors, matches)
    case Some(text) => text
    case None =>
      var tokens := Words(GetText(card, " "));
      match FirstKeyword(tokens)
      case Some(k) =>
        assert k in PostTypeKeywords;
        k
      case None => []
  }

  /** Only a selector match that no selector before it had can make the
      card's type come from its text rather than from a keyword. */
  lemma CardTypeFromFirstSelector(card: Node, matches: (string, Node) -> bool, i: nat)
    requires i < |PostTypeSelectors|
    requires SelectOne(card, PostTypeSelectors[i], matches).Some?
    requires forall j :: 0 <= j < i ==> SelectOne(card, PostTypeSelectors[j], matches).None?
    ensures ExtractPostTypeFromCard(card, matches) ==
            GetText(SelectOne(card, PostTypeSelectors[i], matches).value, "")
  {
    var r := ExtractPostType(card, PostTypeSelectors, matches);
    assert r.Some?;
    var k :| 0 <= k < |PostTypeSelectors| &&
      (forall j :: 0 <= j < k ==> SelectOne(card, PostTypeSelectors[j], matches).None?) &&
      SelectOne(card, PostTypeSelectors[k], matches).Some? &&
      r.value == GetText(SelectOne(card, PostTypeSelectors[k], matches).value, "");
    assert k == i;
  }

  // ---------------------------------------------------------------------------
  // _extract_cover_image_from_card
  // ---------------------------------------------------------------------------

  /** The image attributes consulted, in priority order. */
  function ImageSources(img: Node): seq<string> {
    [AttrOrEmpty(img, "src"), AttrOrEmpty(img, "data-src"), AttrOrEmpty(img, "data-main-image")]
  }

  /** `PostExtractor._extract_cover_image_from_card`: the first image in the
      card (`img[data-main-image], img` selects every image, so the first in
      document order), its `src`, else `data-src`, else `data-main-image`,
      normalised against the base URL; empty when the card has no image or
      the image has none of the three. */
  function ExtractCoverImageFromCard(card: Node, base: Base): (r: string)
    ensures Find(card, IsImg).None? ==> r == []
    ensures Find(card, IsImg).Some? ==>
      var img := Find(card, IsImg).value;
      (AttrOrEmpty(img, "src") != [] ==> r == NormalizeUrl(AttrOrEmpty(img, "src"), base)) &&
      (AttrOrEmpty(img, "src") == [] && AttrOrEmpty(img, "data-src") != [] ==>
         r == NormalizeUrl(AttrOrEmpty(img, "data-src"), base)) &&
      (AttrOrEmpty(img, "src") == [] && AttrOrEmpty(img, "data-src") == [] ==>
         r == NormalizeUrl(AttrOrEmpty(img, "data-main-image"), base))
  {
    match Find(card, IsImg)
    case None => []
    case Some(img) =>
      var url := FirstNonEmpty(ImageSources(img));
      assert ImageSources(img)[0] == AttrOrEmpty(img, "src");
      assert ImageSources(img)[1] == AttrOrEmpty(img, "data-src");
      assert ImageSources(img)[2] == AttrOrEmpty(img, "data-main-image");
      NormalizeUrl(url, base)
  }

  // ---------------------------------------------------------------------------
  // _extract_from_individual_page
  // ---------------------------------------------------------------------------

  predicate IsH1(n: Node) {
    n.Element? && n.tag == "h1"
  }

  /** `PostExtractor._extract_from_individual_page`: nothing when the post's
      page cannot be opened; otherwise its type by the post-type selectors,
      its Open Graph or first image, and the text of its first `h1`, each
      empty when the page does not have it. */
  function ExtractFromIndividualPage(link: string, env: Env): (r: Option<PageData>)
    ensures r.None? <==> env.openPage(link).None?
    ensures r.Some? ==> var page := env.openPage(link).value;
      (r.value.postType == [] <==>
         ExtractPostType(page, PostTypeSelectors, env.matches) in {None, Some([])}) &&
      (r.value.coverImage == [] <==> ExtractMetaImage(page).None?) &&
      (Find(page, IsH1).None? ==> r.value.title == [])
    ensures r.Some? ==> var page := env.openPage(link).value;
      r.value.postType == ExtractPostType(page, PostTypeSelectors, env.matches).GetOr([]) &&
      r.value.coverImage == ExtractMetaImage(page).GetOr([]) &&
      (Find(page, IsH1).Some? ==> r.value.title == GetText(Find(page, IsH1).value, ""))
  {
    match env.openPage(link)
    case None => None
    case Some(page) =>
      var title := match Find(page, IsH1)
        case Some(h1) => GetText(h1, "")
        case None => [];
      Some(PageData(ExtractPostType(page, PostTypeSelectors, env.matches).GetOr([]),
                    ExtractMetaImage(page).GetOr([]),
                    title))
  }

  // ---------------------------------------------------------------------------
  // _extract_post_data
  // ---------------------------------------------------------------------------

  /** The link an anchor leads to, normalised; empty when it has no `href`. */
  function AnchorLink(anchor: Located, base: Base): string {
    var href := AttrOrEmpty(anchor.node, "href");
    if href == [] then [] else NormalizeUrl(href, base)
  }

  /** An anchor that yields a post when its link has not been seen: it has an
      `href` and its normalised link still contains `/blog/`. */
  predicate IsPostAnchor(anchor: Located, base: Base) {
    AttrOrEmpty(anchor.node, "href") != [] && Contains(AnchorLink(anchor, base), BlogMarker)
  }

  /** The type and cover image read from the anchor's card, both empty when
      it has none. */
  function CardFields(anchor: Located, env: Env): (string, string) {
    match FindParentCard(anchor)
    case Some(card) => (ExtractPostTypeFromCard(card, env.matches), ExtractCoverImageFromCard(card, env.base))
    case None => ([], [])
  }

  /** Fills the fields the card left empty from the post's own page, when it
      could be opened; a field already filled is never replaced. */
  function WithFallback(postType: string, cover: string, title: string, extra: Option<PageData>): (r: (string, string, string))
    ensures postType != [] ==> r.0 == postType
    ensures cover != [] ==> r.1 == cover
    ensures title != [] ==> r.2 == title
    ensures extra.None? ==> r == (postType, cover, title)
    ensures extra.Some? ==> (postType == [] ==> r.0 == extra.value.postType) &&
                            (cover == [] ==> r.1 == extra.value.coverImage) &&
                            (title == [] ==> r.2 == extra.value.title)
  {
    match extra
    case None => (postType, cover, title)
    case Some(d) => (Or(postType, d.postType), Or(cover, d.coverImage), Or(title, d.title))
  }

  /** The outcome of one `_extract_post_data` call: the post, if any, and the
      updated set of links seen so far. */
  datatype Extracted = Extracted(post: Option<Post>, seen: set<string>)

  /** `PostExtractor._extract_post_data`. */
  function ExtractPostData(anchor: Located, seen: set<string>, env: Env): (r: Extracted)
    ensures r.post.None? <==> !IsPostAnchor(anchor, env.base) || AnchorLink(anchor, env.base) in seen
    ensures r.post.None? ==> r.seen == seen
    ensures r.post.Some? ==> r.post.value.link == AnchorLink(anchor, env.base) &&
                             r.seen == seen + {r.post.value.link}
    ensures r.post.Some? ==> r.post.value.postType != []
  {
    var href := AttrOrEmpty(anchor.node, "href");
    if href == [] then Extracted(None, seen)
    else
      var link := NormalizeUrl(href, env.base);
      if !Contains(link, BlogMarker) || link in seen then Extracted(None, seen)
      else
        var anchorTitle := GetText(anchor.node, "");
        var (cardType, cardCover) := CardFields(anchor, env);
        var extra := if cardType == [] || cardCover == [] then ExtractFromIndividualPage(link, env) else None;
        var (postType, cover, title) := WithFallback(cardType, cardCover, anchorTitle, extra);
        Extracted(Some(Post(Or(postType, UnknownType), CleanTitle(title), cover, link)), seen + {link})
  }

  /** The fallback rules of `_extract_post_data`: a field the card filled is
      kept, a missing type becomes `Unknown`, the title is the cleaned anchor
      text when the anchor has text, and when the page cannot be opened the
      card's fields stand. */
  lemma ExtractPostDataFields(anchor: Located, seen: set<string>, env: Env)
    requires IsPostAnchor(anchor, env.base) && AnchorLink(anchor, env.base) !in seen
    ensures var p := ExtractPostData(anchor, seen, env).post.value;
      var (cardType, cardCover) := CardFields(anchor, env);
      var anchorTitle := GetText(anchor.node, "");
      (cardType != [] ==> p.postType == cardType) &&
      (cardCover != [] ==> p.coverImage == cardCover) &&
      (anchorTitle != [] ==> p.title == CleanTitle(anchorTitle)) &&
      (env.openPage(AnchorLink(anchor, env.base)).None? ==>
         p.postType == Or(cardType, UnknownType) && p.coverImage == cardCover &&
         p.title == CleanTitle(anchorTitle)) &&
      (cardType != [] && cardCover != [] ==>
         p.postType == cardType && p.coverImage == cardCover && p.title == CleanTitle(anchorTitle))
  {
  }

  /** When the card left the type or the cover image empty and the post's
      page opens, every field the card or the anchor left empty comes from
      the page, and a type still empty after that becomes `Unknown`. */
  lemma ExtractPostDataFromPage(anchor: Located, seen: set<string>, env: Env)
    requires IsPostAnchor(anchor, env.base) && AnchorLink(anchor, env.base) !in seen
    requires CardFields(anchor, env).0 == [] || CardFields(anchor, env).1 == []
    requires env.openPage(AnchorLink(anchor, env.base)).Some?
    ensures ExtractFromIndividualPage(AnchorLink(anchor, env.base), env).Some?
    ensures var p := ExtractPostData(anchor, seen, env).post.value;
      var (cardType, cardCover) := CardFields(anchor, env);
      var anchorTitle := GetText(anchor.node, "");
      var page := ExtractFromIndividualPage(AnchorLink(anchor, env.base), env).value;
      p.postType == Or(Or(cardType, page.postType), UnknownType) &&
      p.coverImage == Or(cardCover, page.coverImage) &&
      p.title == CleanTitle(Or(anchorTitle, page.title))
  {
  }

  /** The post's own page is consulted only when the card left the type or
      the cover image empty: with both filled, the result does not depend on
      what opening the page would give. */
  lemma ExtractPostDataSkipsPageWhenComplete(anchor: Located, seen: set<string>, env: Env, other: string -> Option<Node>)
    requires CardFields(anchor, env).0 != [] && CardFields(anchor, env).1 != []
    ensures ExtractPostData(anchor, seen, env) == ExtractPostData(anchor, seen, env.(openPage := other))
  {
    var env' := env.(openPage := other);
    assert CardFields(anchor, env') == CardFields(anchor, env);
  }

  // ---------------------------------------------------------------------------
  // extract_posts_from_page
  // ---------------------------------------------------------------------------

  /** The elements `soup.select("a[href*='/blog/']")` returns. */
  predicate IsBlogAnchor(n: Node) {
    n.Element? && n.tag == "a" && "href" in n.attrs && Contains(n.attrs["href"], BlogMarker)
  }

  /** The blog anchors of a page, in document order, each with its ancestors. */
  function BlogAnchors(page: Node): (r: seq<Located>)
    ensures forall a :: a in r ==> IsBlogAnchor(a.node)
  {
    Filter(Walk(page, []), (l: Located) => IsBlogAnchor(l.node))
  }

  function Links(posts: seq<Post>): (ls: seq<string>)
    ensures |ls| == |posts| && forall i :: 0 <= i < |posts| ==> ls[i] == posts[i].link
  {
    if posts == [] then [] else [posts[0].link] + Links(posts[1..])
  }

  /** The links the anchors would yield, in order, before de-duplication. */
  function CandidateLinks(anchors: seq<Located>, base: Base): (ls: seq<string>)
    ensures forall l :: l in ls ==> Contains(l, BlogMarker)
  {
    if anchors == [] then []
    else
      var rest := CandidateLinks(anchors[1..], base);
      if IsPostAnchor(anchors[0], base) then [AnchorLink(anchors[0], base)] + rest else rest
  }

  /** The loop of `extract_posts_from_page`: each anchor in turn, threading
      the set of links seen. */
  function ExtractAll(anchors: seq<Located>, seen: set<string>, env: Env): (posts: seq<Post>)
    ensures forall p :: p in posts ==> p.postType != []
    decreases |anchors|
  {
    if anchors == [] then []
    else
      var step := ExtractPostData(anchors[0], seen, env);
      var rest := ExtractAll(anchors[1..], step.seen, env);
      match step.post
      case Some(p) => [p] + rest
      case None => rest
  }

  /** The loop emits, in anchor order, the first occurrence of each candidate
      link not seen before: exactly first-wins de-duplication of the
      candidate links. */
  lemma {:induction false} ExtractAllLinks(anchors: seq<Located>, seen: set<string>, env: Env)
    ensures Links(ExtractAll(anchors, seen, env)) ==
            DedupFirst(CandidateLinks(anchors, env.base), (l: string) => l, seen)
    decreases |anchors|
  {
    if anchors != [] {
      var step := ExtractPostData(anchors[0], seen, env);
      ExtractAllLinks(anchors[1..], step.seen, env);
      var cands := CandidateLinks(anchors, env.base);
      var rest := ExtractAll(anchors[1..], step.seen, env);
      if IsPostAnchor(anchors[0], env.base) {
        assert cands[1..] == CandidateLinks(anchors[1..], env.base);
        if step.post.Some? {
          assert Links([step.post.value] + rest) == [step.post.value.link] + Links(rest);
        }
      }
    }
  }

  /** `PostExtractor.extract_posts_from_page`. */
  function ExtractPostsFromPage(page: Node, env: Env): (posts: seq<Post>)
    ensures forall p :: p in posts ==> p.postType != []
  {
    ExtractAll(BlogAnchors(page), {}, env)
  }

  /** The page's posts follow anchor order, carry pairwise distinct links and
      every link contains `/blog/`. */
  lemma ExtractPostsFromPageLinks(page: Node, env: Env)
    ensures var ls := Links(ExtractPostsFromPage(page, env));
      ls == DedupFirst(CandidateLinks(BlogAnchors(page), env.base), (l: string) => l, {}) &&
      (forall i, j :: 0 <= i < j < |ls| ==> ls[i] != ls[j]) &&
      (forall i :: 0 <= i < |ls| ==> Contains(ls[i], BlogMarker))
  {
    var cands := CandidateLinks(BlogAnchors(page), env.base);
    ExtractAllLinks(BlogAnchors(page), {}, env);
    var ls := Links(ExtractPostsFromPage(page, env));
    assert IsSubsequence(ls, cands);
    SubsequenceWithin(ls, cands);
  }

  // ---------------------------------------------------------------------------
  // scrape_posts: type filter and _remove_duplicates
  // ---------------------------------------------------------------------------

  /** A post of the wanted type: equal ignoring case. */
  predicate HasType(p: Post, wanted: string) {
    Lower(p.postType) == Lower(wanted)
  }

  /** The type filter of `scrape_posts`: with an empty filter nothing is
      dropped; otherwise exactly the posts of the wanted type are kept, in
      order. */
  function FilterByType(posts: seq<Post>, wanted: string): (r: seq<Post>)
    ensures wanted == [] ==> r == posts
    ensures wanted != [] ==> forall p :: p in r <==> p in posts && HasType(p, wanted)
    ensures wanted != [] ==> forall p :: multiset(r)[p] == if HasType(p, wanted) then multiset(posts)[p] else 0
    ensures IsSubsequence(r, posts)
  {
    if wanted == [] then
      SubsequenceRefl(posts);
      posts
    else Filter(posts, (p: Post) => HasType(p, wanted))
  }

  /** `DatabricksScraper._remove_duplicates`: the first post of each link, in
      order. */
  function RemoveDuplicates(posts: seq<Post>): (r: seq<Post>)
    ensures IsSubsequence(r, posts)
    ensures forall i, j :: 0 <= i < j < |r| ==> r[i].link != r[j].link
  {
    DedupFirst(posts, (p: Post) => p.link, {})
  }

  /** Each surviving post is the first post of its link. */
  lemma RemoveDuplicatesKeepsFirst(posts: seq<Post>, n: nat)
    requires n < |RemoveDuplicates(posts)|
    ensures exists i :: (0 <= i < |posts| && posts[i] == RemoveDuplicates(posts)[n] &&
              forall j :: 0 <= j < i ==> posts[j].link != posts[i].link)
  {
    DedupFirstKeepsFirst(posts, (p: Post) => p.link, {}, n);
  }

  /** Every link of the input survives de-duplication. */
  lemma RemoveDuplicatesCovers(posts: seq<Post>, link: string)
    requires exists i :: 0 <= i < |posts| && posts[i].link == link
    ensures exists i :: 0 <= i < |RemoveDuplicates(posts)| && RemoveDuplicates(posts)[i].link == link
  {
    var i :| 0 <= i < |posts| && posts[i].link == link;
    assert HasKey(posts, (p: Post) => p.link, link) by {
      assert ((p: Post) => p.link)(posts[i]) == link;
    }
    DedupFirstCovers(posts, (p: Post) => p.link, {}, link);
    var r := RemoveDuplicates(posts);
    var j :| 0 <= j < |r| && ((p: Post) => p.link)(r[j]) == link;
    assert r[j].link == link;
  }

  /** `DatabricksScraper.scrape_posts` after the page has been rendered:
      the filter is the argument or else the configured type. */
  function ScrapePosts(page: Node, filterType: string, configuredType: string, env: Env): (r: seq<Post>)
    ensures forall i, j :: 0 <= i < j < |r| ==> r[i].link != r[j].link
    ensures var wanted := Or(filterType, configuredType);
      forall p :: p in r ==> p.postType != [] && (wanted != [] ==> HasType(p, wanted))
  {
    var wanted := Or(filterType, configuredType);
    var posts := ExtractPostsFromPage(page, env);
    var filtered := FilterByType(posts, wanted);
    SubsequenceWithin(filtered, posts);
    var r := RemoveDuplicates(filtered);
    SubsequenceWithin(r, filtered);
    assert forall p :: p in r ==> p in posts && (wanted != [] ==> HasType(p, wanted));
    r
  }

  /** The final de-duplication never drops anything: page extraction has
      already kept one post per link, so scraping returns every extracted
      post of the wanted type, in page order. */
  lemma ScrapePostsKeepsAll(page: Node, filterType: string, configuredType: string, env: Env)
    ensures ScrapePosts(page, filterType, configuredType, env) ==
            FilterByType(ExtractPostsFromPage(page, env), Or(filterType, configuredType))
  {
    var wanted := Or(filterType, configuredType);
    var posts := ExtractPostsFromPage(page, env);
    var filtered := FilterByType(posts, wanted);
    ExtractPostsFromPageLinks(page, env);
    var ls := Links(posts);
    assert forall i, j :: 0 <= i < j < |posts| ==> posts[i].link != posts[j].link by {
      assert forall i :: 0 <= i < |posts| ==> ls[i] == posts[i].link;
    }
    SubsequenceDistinct(filtered, posts, (p: Post) => p.link);
    DedupFirstOfDistinct(filtered, (p: Post) => p.link, {});
  }
}
