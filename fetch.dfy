/**
 * The scraper pipeline of parser/fetch.py.
 *
 * The browser is replaced by what it shows: the page height measured before
 * the first scroll, then, per scroll, a snapshot of the new height and the
 * summary cards rendered at that moment. The HTML library is replaced by
 * what it selects: a card's title element and link anchor, an article's title
 * element and its paragraphs, each element given by its descendant text
 * strings. The network is replaced by the outcome of each request.
 */
module Fetch {
  import opened Wrappers
  import PyStr

  /** The origin prefixed to every card's relative `href`. */
  const BaseUrl := "https://vc.ru"
  const ParagraphSeparator := "\n\n"
  const RequestFailedPrefix := "Request failed: "

  /** A selected HTML element, as the text strings of its descendants. */
  datatype Element = Element(strings: seq<string>)
  /** An `a.content__link` anchor; `href` is absent when the tag has no such attribute. */
  datatype Anchor = Anchor(href: Option<string>)
  /** A `div.content--short` card: its title element and link anchor, if found. */
  datatype Card = Card(titleTag: Option<Element>, linkTag: Option<Anchor>)
  /** `document.body.scrollHeight` after a scroll, and the cards then on the page. */
  datatype Snapshot = Snapshot(height: int, cards: seq<Card>)
  /** `Post(title, link)`. */
  datatype Post = Post(title: string, link: string)
  /** `link_tag["href"]` on an anchor without `href` raises `KeyError`. */
  datatype CollectError = MissingHref

  // ---- text extraction ----

  /** `tag.get_text(strip=True)`: the element's strings, each stripped, the
      empty ones dropped, joined with the empty separator. */
  function GetText(e: Element): (r: string)
    ensures PyStr.Trimmed(r)
  {
    var ps := StrippedStrings(e.strings);
    assert ps != [] ==> ps[0] != [] && ps[|ps| - 1] != [];
    PyStr.Join("", ps)
  }

  /** `_all_strings(strip=True)`: each string stripped, skipped when that
      leaves it empty. */
  function StrippedStrings(ss: seq<string>): (r: seq<string>)
    ensures |r| <= |ss|
    ensures forall k :: 0 <= k < |r| ==> r[k] != "" && PyStr.Trimmed(r[k])
  {
    if ss == [] then []
    else
      var init := StrippedStrings(ss[..|ss| - 1]);
      var t := PyStr.Strip(ss[|ss| - 1]);
      if t == "" then init else init + [t]
  }

  /** The pieces are exactly the non-empty stripped strings. */
  lemma {:induction false} StrippedStringsMembers(ss: seq<string>)
    ensures forall i :: 0 <= i < |ss| && PyStr.Strip(ss[i]) != "" ==> PyStr.Strip(ss[i]) in StrippedStrings(ss)
    ensures forall t :: t in StrippedStrings(ss) ==> exists i :: 0 <= i < |ss| && t == PyStr.Strip(ss[i])
  {
    if ss != [] {
      var init := ss[..|ss| - 1];
      StrippedStringsMembers(init);
      assert forall i :: 0 <= i < |init| ==> init[i] == ss[i];
    }
  }

  lemma {:induction false} StrippedStringsConcat(a: seq<string>, b: seq<string>)
    ensures StrippedStrings(a + b) == StrippedStrings(a) + StrippedStrings(b)
  {
    if b == [] {
      assert a + b == a;
    } else {
      assert (a + b)[..|a + b| - 1] == a + b[..|b| - 1];
      assert (a + b)[|a + b| - 1] == b[|b| - 1];
      StrippedStringsConcat(a, b[..|b| - 1]);
    }
  }

  /** The text of an element whose strings are `a` then `b` is the text
      of `a` followed by the text of `b`. */
  lemma GetTextConcat(a: seq<string>, b: seq<string>)
    ensures GetText(Element(a + b)) == GetText(Element(a)) + GetText(Element(b))
  {
    var pa, pb := StrippedStrings(a), StrippedStrings(b);
    StrippedStringsConcat(a, b);
    if pa == [] {
      assert pa + pb == pb;
    } else if pb == [] {
      assert pa + pb == pa;
    } else {
      PyStr.JoinConcat("", pa, pb);
    }
  }

  /** `get_text` cuts only whitespace: every other character of the
      element's strings is kept. */
  lemma GetTextKeepsContent(ss: seq<string>)
    ensures forall i, c :: 0 <= i < |ss| && c in ss[i] && !PyStr.IsSpace(c) ==> c in GetText(Element(ss))
  {
    StrippedStringsMembers(ss);
    PyStr.JoinMembers(StrippedStrings(ss));
    forall i, c | 0 <= i < |ss| && c in ss[i] && !PyStr.IsSpace(c) ensures c in GetText(Element(ss)) {
      PyStr.StripKeepsContent(ss[i]);
    }
  }

  /** ... and adds none: every character of the text comes from one of the
      element's strings. */
  lemma GetTextFromStrings(ss: seq<string>)
    ensures forall c :: c in GetText(Element(ss)) ==> exists i :: 0 <= i < |ss| && c in ss[i]
  {
    var ps := StrippedStrings(ss);
    StrippedStringsMembers(ss);
    PyStr.JoinMembers(ps);
    forall c | c in GetText(Element(ss)) ensures exists i :: 0 <= i < |ss| && c in ss[i] {
      var k :| 0 <= k < |ps| && c in ps[k];
      assert ps[k] in ps;
      var i :| 0 <= i < |ss| && ps[k] == PyStr.Strip(ss[i]);
      PyStr.StripKeepsContent(ss[i]);
    }
  }

  // ---- the listing collector ----

  /** `if title_tag and link_tag`: the card is looked at at all. */
  predicate Listed(c: Card) { c.titleTag.Some? && c.linkTag.Some? }

  /** A looked-at card whose anchor has no `href`: reading it raises. */
  predicate MissingHrefCard(c: Card) { Listed(c) && c.linkTag.value.href.None? }

  /** A card that yields a post. */
  predicate Scrapable(c: Card) { Listed(c) && c.linkTag.value.href.Some? }

  /** The post a scrapable card yields; its link is the origin followed by
      the card's `href`. */
  function CardPost(c: Card): (p: Post)
    requires Scrapable(c)
    ensures p.title == GetText(c.titleTag.value)
    ensures p.link == BaseUrl + c.linkTag.value.href.value
    ensures |p.link| >= |BaseUrl| && p.link[..|BaseUrl|] == BaseUrl
  {
    Post(GetText(c.titleTag.value), BaseUrl + c.linkTag.value.href.value)
  }

  predicate HasMissingHref(cards: seq<Card>) {
    exists i :: 0 <= i < |cards| && MissingHrefCard(cards[i])
  }

  /** The posts of the scrapable cards of one page, in page order. */
  function Candidates(cards: seq<Card>): (r: seq<Post>)
    ensures |r| <= |cards|
  {
    if cards == [] then []
    else
      var init := Candidates(cards[..|cards| - 1]);
      var c := cards[|cards| - 1];
      if Scrapable(c) then init + [CardPost(c)] else init
  }

  /** Every candidate is the post of a scrapable card of the page. */
  lemma {:induction false} CandidatesFromCards(cards: seq<Card>)
    ensures forall p :: p in Candidates(cards) ==> exists c :: c in cards && Scrapable(c) && p == CardPost(c)
    ensures forall c :: c in cards && Scrapable(c) ==> CardPost(c) in Candidates(cards)
  {
    if cards != [] {
      var init := cards[..|cards| - 1];
      CandidatesFromCards(init);
      assert cards == init + [cards[|cards| - 1]];
      assert forall c' :: c' in init ==> c' in cards;
    }
  }

  /** The posts of the scrapable cards of several pages, page after page. */
  function Flatten(snaps: seq<Snapshot>): seq<Post> {
    if snaps == [] then [] else Candidates(snaps[0].cards) + Flatten(snaps[1..])
  }

  /** Every post of `Flatten(snaps)` is the post of a scrapable card of one
      of the snapshots. */
  lemma {:induction false} FlattenFromCards(snaps: seq<Snapshot>, p: Post)
    requires p in Flatten(snaps)
    ensures exists i, c :: 0 <= i < |snaps| && c in snaps[i].cards && Scrapable(c) && p == CardPost(c)
  {
    if p in Candidates(snaps[0].cards) {
      CandidatesFromCards(snaps[0].cards);
      var c :| c in snaps[0].cards && Scrapable(c) && p == CardPost(c);
      assert 0 < |snaps| && c in snaps[0].cards;
    } else {
      FlattenFromCards(snaps[1..], p);
      var i, c :| 0 <= i < |snaps[1..]| && c in snaps[1..][i].cards && Scrapable(c) && p == CardPost(c);
      assert snaps[1..][i] == snaps[i + 1];
    }
  }

  /** The set of links of `ps` (`posts_seen`). */
  function LinkSet(ps: seq<Post>): set<string> {
    set p | p in ps :: p.link
  }

  /** No two posts share a link. */
  predicate Distinct(ps: seq<Post>) {
    forall i, j :: 0 <= i < j < |ps| ==> ps[i].link != ps[j].link
  }

  /** Appends `p` unless its link has already been seen. */
  function AddPost(ps: seq<Post>, p: Post): seq<Post> {
    if p.link in LinkSet(ps) then ps else ps + [p]
  }

  /** `AddPost` for each post of `s`, in order. */
  function AddPosts(ps: seq<Post>, s: seq<Post>): seq<Post> {
    if s == [] then ps else AddPost(AddPosts(ps, s[..|s| - 1]), s[|s| - 1])
  }

  /** The `while` loop of `fetch_vc_money_posts_selenium`, from the state
      (`last_height`, `posts`) with the snapshots still to come. Running out
      of snapshots means the page no longer grows. */
  function Run(desired: int, lastHeight: int, snaps: seq<Snapshot>, posts: seq<Post>): Result<seq<Post>, CollectError>
    decreases |snaps|
  {
    if |posts| >= desired then Ok(posts)
    else if snaps == [] || snaps[0].height == lastHeight then Ok(posts)
    else if HasMissingHref(snaps[0].cards) then Err(MissingHref)
    else
      var p := AddPosts(posts, Candidates(snaps[0].cards));
      if |p| >= desired then Ok(p) else Run(desired, snaps[0].height, snaps[1..], p)
  }

  /** Python's `s[:n]`. */
  function PyPrefix<T>(s: seq<T>, n: int): (r: seq<T>)
    ensures |r| <= |s| && r == s[..|r|]
    ensures n >= 0 ==> |r| == if n < |s| then n else |s|
    ensures n < 0 ==> |r| == if |s| + n < 0 then 0 else |s| + n
  {
    if n >= 0 then (if n < |s| then s[..n] else s)
    else if |s| + n < 0 then [] else s[..|s| + n]
  }

  /** The whole of `fetch_vc_money_posts_selenium(desired_count)`. */
  function Collect(desired: int, initialHeight: int, snaps: seq<Snapshot>): Result<seq<Post>, CollectError> {
    match Run(desired, initialHeight, snaps, [])
    case Ok(posts) => Ok(PyPrefix(posts, desired))
    case Err(e) => Err(e)
  }

  /** `fetch_vc_money_posts_selenium`, step by step: `posts_seen`, `posts`
      and `last_height` updated as the page is scrolled and re-scraped. */
  method CollectPosts(desired: int, initialHeight: int, snaps: seq<Snapshot>)
    returns (result: Result<seq<Post>, CollectError>)
    ensures result == Collect(desired, initialHeight, snaps)
    ensures result.Ok? ==> Distinct(result.value) && |result.value| <= (if desired < 0 then 0 else desired)
  {
    var postsSeen: set<string> := {};
    var posts: seq<Post> := [];
    var lastHeight := initialHeight;
    var i := 0;
    while |posts| < desired
      invariant 0 <= i <= |snaps|
      invariant postsSeen == LinkSet(posts)
      invariant Run(desired, lastHeight, snaps[i..], posts) == Run(desired, initialHeight, snaps, [])
      decreases |snaps| - i
    {
      if i == |snaps| {
        RunDone(desired, lastHeight, snaps[i..], posts);
        break;
      }
      var newHeight := snaps[i].height;
      if newHeight == lastHeight {
        RunDone(desired, lastHeight, snaps[i..], posts);
        break;
      }
      ghost var rest := snaps[i..];
      ghost var previousHeight := lastHeight;
      assert rest[0] == snaps[i] && rest[1..] == snaps[i + 1..];
      lastHeight := newHeight;

      var scraped := ScrapePage(snaps[i].cards, posts, postsSeen);
      if scraped.Err? {
        RunMissingHref(desired, previousHeight, rest, posts);
        return Err(MissingHref);
      }
      RunRound(desired, previousHeight, rest, posts);
      posts, postsSeen := scraped.value.0, scraped.value.1;
      i := i + 1;
      if |posts| >= desired {
        break;
      }
    }
    result := Ok(PyPrefix(posts, desired));
    CollectBounds(desired, initialHeight, snaps);
    if result.Ok? { CollectFirstSeen(desired, initialHeight, snaps); }
  }

  /** One pass of the `for` loop over the cards of the page: each card with
      a title element and a link anchor yields `"https://vc.ru" + href`,
      appended with its title unless `posts_seen` already holds it. */
  method ScrapePage(cards: seq<Card>, posts0: seq<Post>, postsSeen0: set<string>)
    returns (r: Result<(seq<Post>, set<string>), CollectError>)
    requires postsSeen0 == LinkSet(posts0)
    ensures r.Err? <==> HasMissingHref(cards)
    ensures r.Ok? ==> r.value.0 == AddPosts(posts0, Candidates(cards)) && r.value.1 == LinkSet(r.value.0)
  {
    var posts, postsSeen := posts0, postsSeen0;
    var j := 0;
    while j < |cards|
      invariant 0 <= j <= |cards|
      invariant !HasMissingHref(cards[..j])
      invariant postsSeen == LinkSet(posts)
      invariant posts == AddPosts(posts0, Candidates(cards[..j]))
    {
      var c := cards[j];
      if c.titleTag.Some? && c.linkTag.Some? {
        if c.linkTag.value.href.None? {
          MissingHrefAt(cards, j);
          return Err(MissingHref);
        }
        var post := Post(GetText(c.titleTag.value), BaseUrl + c.linkTag.value.href.value);
        assert post == CardPost(c);
        ScrapeStep(posts0, cards, j);
        if post.link !in postsSeen {
          LinkSetSnoc(posts, post);
          postsSeen := postsSeen + {post.link};
          posts := posts + [post];
        }
      } else {
        SkipStep(posts0, cards, j);
      }
      NoMissingHrefStep(cards, j);
      j := j + 1;
    }
    assert cards[..j] == cards;
    r := Ok((posts, postsSeen));
  }

  lemma ScrapeStep(posts0: seq<Post>, cards: seq<Card>, j: int)
    requires 0 <= j < |cards| && Scrapable(cards[j])
    ensures AddPosts(posts0, Candidates(cards[..j + 1])) ==
      AddPost(AddPosts(posts0, Candidates(cards[..j])), CardPost(cards[j]))
  {
    CandidatesStep(cards, j);
    AddPostsSnoc(posts0, Candidates(cards[..j]), CardPost(cards[j]));
  }

  lemma SkipStep(posts0: seq<Post>, cards: seq<Card>, j: int)
    requires 0 <= j < |cards| && !Scrapable(cards[j])
    ensures AddPosts(posts0, Candidates(cards[..j + 1])) == AddPosts(posts0, Candidates(cards[..j]))
  {
    CandidatesStep(cards, j);
    assert Candidates(cards[..j]) + [] == Candidates(cards[..j]);
  }

  lemma CandidatesStep(cards: seq<Card>, j: int)
    requires 0 <= j < |cards|
    ensures Candidates(cards[..j + 1]) ==
      Candidates(cards[..j]) + (if Scrapable(cards[j]) then [CardPost(cards[j])] else [])
  {
    assert cards[..j + 1][..j] == cards[..j];
  }

  lemma MissingHrefAt(cards: seq<Card>, j: int)
    requires 0 <= j < |cards| && MissingHrefCard(cards[j])
    ensures HasMissingHref(cards)
  {
  }

  lemma NoMissingHrefStep(cards: seq<Card>, j: int)
    requires 0 <= j < |cards|
    requires !HasMissingHref(cards[..j]) && !MissingHrefCard(cards[j])
    ensures !HasMissingHref(cards[..j + 1])
  {
    assert forall i :: 0 <= i < j ==> cards[..j + 1][i] == cards[..j][i];
  }

  lemma LinkSetSnoc(ps: seq<Post>, p: Post)
    ensures LinkSet(ps + [p]) == LinkSet(ps) + {p.link}
  {
    assert forall q :: q in ps + [p] <==> q in ps || q == p;
  }

  lemma AddPostsSnoc(ps: seq<Post>, s: seq<Post>, p: Post)
    ensures AddPosts(ps, s + [p]) == AddPost(AddPosts(ps, s), p)
  {
    assert (s + [p])[..|s|] == s;
  }

  lemma RunDone(desired: int, lastHeight: int, snaps: seq<Snapshot>, posts: seq<Post>)
    requires |posts| >= desired || snaps == [] || snaps[0].height == lastHeight
    ensures Run(desired, lastHeight, snaps, posts) == Ok(posts)
  {
  }

  lemma RunMissingHref(desired: int, lastHeight: int, snaps: seq<Snapshot>, posts: seq<Post>)
    requires |posts| < desired && snaps != [] && snaps[0].height != lastHeight
    requires HasMissingHref(snaps[0].cards)
    ensures Run(desired, lastHeight, snaps, posts) == Err(MissingHref)
  {
  }

  lemma RunRound(desired: int, lastHeight: int, snaps: seq<Snapshot>, posts: seq<Post>)
    requires |posts| < desired && snaps != [] && snaps[0].height != lastHeight
    requires !HasMissingHref(snaps[0].cards)
    ensures var p := AddPosts(posts, Candidates(snaps[0].cards));
      Run(desired, lastHeight, snaps, posts) ==
        if |p| >= desired then Ok(p) else Run(desired, snaps[0].height, snaps[1..], p)
  {
  }

  // ---- properties of the collector ----

  lemma {:induction false} AddPostsConcat(ps: seq<Post>, a: seq<Post>, b: seq<Post>)
    ensures AddPosts(ps, a + b) == AddPosts(AddPosts(ps, a), b)
  {
    if b == [] {
      assert a + b == a;
    } else {
      assert (a + b)[..|a + b| - 1] == a + b[..|b| - 1];
      AddPostsConcat(ps, a, b[..|b| - 1]);
    }
  }

  /** The number of scrolls that grow the page before the first one that
      does not (or before the snapshots run out). */
  function StallIndex(lastHeight: int, snaps: seq<Snapshot>): (n: nat)
    ensures n <= |snaps|
    decreases |snaps|
  {
    if snaps == [] || snaps[0].height == lastHeight then 0
    else 1 + StallIndex(snaps[0].height, snaps[1..])
  }

  /** `k` is the number of scrapes the loop performs, starting from `posts`:
      it scrapes while the page grows and fewer than `desired` posts are
      held, and stops at the first of the two exits. */
  predicate ScrapesTaken(desired: int, lastHeight: int, snaps: seq<Snapshot>, posts: seq<Post>, k: nat)
    requires k <= |snaps|
  {
    && k <= StallIndex(lastHeight, snaps)
    && (forall i :: 0 <= i < k ==> |AddPosts(posts, Flatten(snaps[..i]))| < desired)
    && (k < StallIndex(lastHeight, snaps) ==> |AddPosts(posts, Flatten(snaps[..k]))| >= desired)
  }

  /** A successful session's raw list is the first-seen deduplication of
      the scrapable cards of the first `k` snapshots, where `k` is the
      number of scrapes the stop rule allows. */
  lemma {:induction false} RunIsDedup(desired: int, lastHeight: int, snaps: seq<Snapshot>, posts: seq<Post>)
    requires Run(desired, lastHeight, snaps, posts).Ok?
    ensures exists k :: (0 <= k <= |snaps| && ScrapesTaken(desired, lastHeight, snaps, posts, k) &&
      Run(desired, lastHeight, snaps, posts).value == AddPosts(posts, Flatten(snaps[..k])))
    decreases |snaps|
  {
    if |posts| >= desired || snaps == [] || snaps[0].height == lastHeight {
      assert snaps[..0] == [];
      assert ScrapesTaken(desired, lastHeight, snaps, posts, 0);
    } else {
      var c := Candidates(snaps[0].cards);
      var p := AddPosts(posts, c);
      var rest := snaps[1..];
      var stall := StallIndex(snaps[0].height, rest);
      assert StallIndex(lastHeight, snaps) == 1 + stall;
      assert snaps[..0] == [];
      ScrapesShift(posts, snaps, 1);
      if |p| < desired {
        RunIsDedup(desired, snaps[0].height, rest, p);
        var k :| 0 <= k <= |rest| && ScrapesTaken(desired, snaps[0].height, rest, p, k) &&
          Run(desired, snaps[0].height, rest, p).value == AddPosts(p, Flatten(rest[..k]));
        ScrapesShift(posts, snaps, k + 1);
        forall i | 0 <= i < k + 1 ensures |AddPosts(posts, Flatten(snaps[..i]))| < desired {
          if i > 0 { ScrapesShift(posts, snaps, i); }
        }
        assert ScrapesTaken(desired, lastHeight, snaps, posts, k + 1);
      } else {
        assert ScrapesTaken(desired, lastHeight, snaps, posts, 1);
      }
    }
  }

  /** Scraping the first `i` snapshots is scraping the first one, then the
      next `i - 1`. */
  lemma ScrapesShift(posts: seq<Post>, snaps: seq<Snapshot>, i: nat)
    requires 1 <= i <= |snaps|
    ensures AddPosts(posts, Flatten(snaps[..i])) ==
      AddPosts(AddPosts(posts, Candidates(snaps[0].cards)), Flatten(snaps[1..][..i - 1]))
  {
    assert snaps[..i][1..] == snaps[1..][..i - 1];
    assert Flatten(snaps[..i]) == Candidates(snaps[0].cards) + Flatten(snaps[1..][..i - 1]);
    AddPostsConcat(posts, Candidates(snaps[0].cards), Flatten(snaps[1..][..i - 1]));
  }

  /** The first position of a post with link `l` in `s`, or `|s|`. */
  function FirstIndex(s: seq<Post>, l: string): (k: nat)
    ensures k <= |s|
    ensures k < |s| ==> s[k].link == l
    ensures forall j :: 0 <= j < k ==> s[j].link != l
  {
    if s == [] then 0
    else if s[0].link == l then 0
    else 1 + FirstIndex(s[1..], l)
  }

  lemma FirstIndexUnique(s: seq<Post>, l: string, k: nat)
    requires k <= |s|
    requires k < |s| ==> s[k].link == l
    requires forall j :: 0 <= j < k ==> s[j].link != l
    ensures FirstIndex(s, l) == k
  {
  }

  /** `r` lists links of `s` without repetition, each at the first post of `s`
      that has it, in the order in which `s` first shows them. */
  predicate FirstSeenOrder(r: seq<Post>, s: seq<Post>) {
    && Distinct(r)
    && (forall i :: 0 <= i < |r| ==> FirstIndex(s, r[i].link) < |s| && s[FirstIndex(s, r[i].link)] == r[i])
    && (forall i, j :: 0 <= i < j < |r| ==> FirstIndex(s, r[i].link) < FirstIndex(s, r[j].link))
  }

  /** Deduplicating keeps every link once, at its first sighting, in
      first-seen order. */
  lemma {:induction false} DedupFirstSeen(s: seq<Post>)
    ensures FirstSeenOrder(AddPosts([], s), s)
    ensures LinkSet(AddPosts([], s)) == LinkSet(s)
  {
    if s != [] {
      var s' := s[..|s| - 1];
      var x := s[|s| - 1];
      DedupFirstSeen(s');
      assert s == s' + [x];
      DedupStep(AddPosts([], s'), s', x);
    }
  }

  lemma DedupStep(r: seq<Post>, s: seq<Post>, x: Post)
    requires FirstSeenOrder(r, s) && LinkSet(r) == LinkSet(s)
    ensures FirstSeenOrder(AddPost(r, x), s + [x])
    ensures LinkSet(AddPost(r, x)) == LinkSet(s + [x])
  {
    var t := s + [x];
    assert LinkSet(t) == LinkSet(s) + {x.link};
    forall l | FirstIndex(s, l) < |s| ensures FirstIndex(t, l) == FirstIndex(s, l) {
      FirstIndexPrefix(s, x, l);
    }
    if x.link in LinkSet(r) {
      DedupStepSeen(r, s, x);
    } else {
      assert forall p :: p in s ==> p.link != x.link;
      FirstIndexUnique(t, x.link, |s|);
      DedupStepNew(r, s, x);
      assert LinkSet(r + [x]) == LinkSet(r) + {x.link};
    }
  }

  lemma FirstIndexPrefix(s: seq<Post>, x: Post, l: string)
    requires FirstIndex(s, l) < |s|
    ensures FirstIndex(s + [x], l) == FirstIndex(s, l)
  {
    var k := FirstIndex(s, l);
    var t := s + [x];
    assert t[k] == s[k];
    forall j | 0 <= j < k ensures t[j].link != l { assert t[j] == s[j]; }
    FirstIndexUnique(t, l, k);
  }

  lemma DedupStepSeen(r: seq<Post>, s: seq<Post>, x: Post)
    requires FirstSeenOrder(r, s)
    requires forall l :: FirstIndex(s, l) < |s| ==> FirstIndex(s + [x], l) == FirstIndex(s, l)
    ensures FirstSeenOrder(r, s + [x])
  {
    var t := s + [x];
    forall i | 0 <= i < |r| ensures FirstIndex(t, r[i].link) < |t| && t[FirstIndex(t, r[i].link)] == r[i] {
      assert t[FirstIndex(s, r[i].link)] == s[FirstIndex(s, r[i].link)];
    }
    forall i, j | 0 <= i < j < |r| ensures FirstIndex(t, r[i].link) < FirstIndex(t, r[j].link) {
      assert FirstIndex(s, r[i].link) < FirstIndex(s, r[j].link);
    }
  }

  lemma DedupStepNew(r: seq<Post>, s: seq<Post>, x: Post)
    requires FirstSeenOrder(r, s) && x.link !in LinkSet(r)
    requires forall l :: FirstIndex(s, l) < |s| ==> FirstIndex(s + [x], l) == FirstIndex(s, l)
    requires FirstIndex(s + [x], x.link) == |s|
    ensures FirstSeenOrder(r + [x], s + [x])
  {
    DedupNewAt(r, s, x);
    DedupNewOrdered(r, s, x);
    DedupNewDistinct(r, x);
  }

  lemma DedupNewAt(r: seq<Post>, s: seq<Post>, x: Post)
    requires FirstSeenOrder(r, s)
    requires forall l :: FirstIndex(s, l) < |s| ==> FirstIndex(s + [x], l) == FirstIndex(s, l)
    requires FirstIndex(s + [x], x.link) == |s|
    ensures forall i :: 0 <= i < |r + [x]| ==>
      FirstIndex(s + [x], (r + [x])[i].link) < |s + [x]| && (s + [x])[FirstIndex(s + [x], (r + [x])[i].link)] == (r + [x])[i]
  {
    var t := s + [x];
    var r' := r + [x];
    forall i | 0 <= i < |r'| ensures FirstIndex(t, r'[i].link) < |t| && t[FirstIndex(t, r'[i].link)] == r'[i] {
      if i < |r| {
        assert r'[i] == r[i];
        assert t[FirstIndex(s, r[i].link)] == s[FirstIndex(s, r[i].link)];
      }
    }
  }

  lemma DedupNewOrdered(r: seq<Post>, s: seq<Post>, x: Post)
    requires FirstSeenOrder(r, s)
    requires forall l :: FirstIndex(s, l) < |s| ==> FirstIndex(s + [x], l) == FirstIndex(s, l)
    requires FirstIndex(s + [x], x.link) == |s|
    ensures forall i, j :: 0 <= i < j < |r + [x]| ==>
      FirstIndex(s + [x], (r + [x])[i].link) < FirstIndex(s + [x], (r + [x])[j].link)
  {
    var t := s + [x];
    var r' := r + [x];
    forall i, j | 0 <= i < j < |r'| ensures FirstIndex(t, r'[i].link) < FirstIndex(t, r'[j].link) {
      assert r'[i] == r[i];
      assert FirstIndex(s, r[i].link) < |s|;
      assert FirstIndex(t, r[i].link) == FirstIndex(s, r[i].link);
      if j < |r| {
        assert r'[j] == r[j];
        assert FirstIndex(s, r[j].link) < |s|;
        assert FirstIndex(t, r[j].link) == FirstIndex(s, r[j].link);
      } else {
        assert r'[j] == x;
      }
    }
  }

  lemma DedupNewDistinct(r: seq<Post>, x: Post)
    requires Distinct(r) && x.link !in LinkSet(r)
    ensures Distinct(r + [x])
  {
    var r' := r + [x];
    forall i, j | 0 <= i < j < |r'| ensures r'[i].link != r'[j].link {
      assert r'[i] == r[i];
      if j < |r| { assert r'[j] == r[j]; } else { assert r[i] in r; }
    }
  }

  lemma FirstSeenOrderPrefix(r: seq<Post>, s: seq<Post>, n: nat)
    requires FirstSeenOrder(r, s) && n <= |r|
    ensures FirstSeenOrder(r[..n], s)
  {
  }

  /** Bounds: never more than `desired_count` posts, and none at all, with
      no page looked at, when `desired_count <= 0`. */
  lemma CollectBounds(desired: int, initialHeight: int, snaps: seq<Snapshot>)
    ensures desired <= 0 ==> Collect(desired, initialHeight, snaps) == Ok([])
    ensures Collect(desired, initialHeight, snaps).Ok? ==>
      |Collect(desired, initialHeight, snaps).value| <= (if desired < 0 then 0 else desired)
  {
  }

  /** The collected posts have pairwise distinct links and keep first-seen
      order over every re-scrape of the page; unless the list was cut to
      `desired_count`, every link of a scraped card is among them. */
  lemma CollectFirstSeen(desired: int, initialHeight: int, snaps: seq<Snapshot>)
    requires Collect(desired, initialHeight, snaps).Ok?
    ensures Distinct(Collect(desired, initialHeight, snaps).value)
    ensures exists k :: (0 <= k <= |snaps| && ScrapesTaken(desired, initialHeight, snaps, [], k) &&
      FirstSeenOrder(Collect(desired, initialHeight, snaps).value, Flatten(snaps[..k])) &&
      (|Collect(desired, initialHeight, snaps).value| < desired ==>
        LinkSet(Collect(desired, initialHeight, snaps).value) == LinkSet(Flatten(snaps[..k]))))
  {
    var raw := Run(desired, initialHeight, snaps, []).value;
    RunIsDedup(desired, initialHeight, snaps, []);
    var k :| 0 <= k <= |snaps| && ScrapesTaken(desired, initialHeight, snaps, [], k) &&
      raw == AddPosts([], Flatten(snaps[..k]));
    DedupFirstSeen(Flatten(snaps[..k]));
    var r := PyPrefix(raw, desired);
    FirstSeenOrderPrefix(raw, Flatten(snaps[..k]), |r|);
    assert r == raw[..|r|];
    if |r| < desired { assert r == raw; }
  }

  /** Every collected post comes from a scrapable card of some snapshot, and
      its link is the origin followed by that card's `href`. */
  lemma CollectFromCards(desired: int, initialHeight: int, snaps: seq<Snapshot>)
    requires Collect(desired, initialHeight, snaps).Ok?
    ensures forall p :: p in Collect(desired, initialHeight, snaps).value ==>
      exists i, c :: 0 <= i < |snaps| && c in snaps[i].cards && Scrapable(c) && p == CardPost(c)
  {
    var r := Collect(desired, initialHeight, snaps).value;
    CollectFirstSeen(desired, initialHeight, snaps);
    var k :| 0 <= k <= |snaps| && ScrapesTaken(desired, initialHeight, snaps, [], k) &&
      FirstSeenOrder(r, Flatten(snaps[..k]));
    forall p | p in r
      ensures exists i, c :: 0 <= i < |snaps| && c in snaps[i].cards && Scrapable(c) && p == CardPost(c) {
      var n :| 0 <= n < |r| && r[n] == p;
      PostFromSnapshots(snaps, k, p);
    }
  }

  lemma PostFromSnapshots(snaps: seq<Snapshot>, k: nat, p: Post)
    requires k <= |snaps|
    requires FirstIndex(Flatten(snaps[..k]), p.link) < |Flatten(snaps[..k])|
    requires Flatten(snaps[..k])[FirstIndex(Flatten(snaps[..k]), p.link)] == p
    ensures exists i, c :: 0 <= i < |snaps| && c in snaps[i].cards && Scrapable(c) && p == CardPost(c)
  {
    var s := Flatten(snaps[..k]);
    assert p in s;
    FlattenFromCards(snaps[..k], p);
    var i, c :| 0 <= i < |snaps[..k]| && c in snaps[..k][i].cards && Scrapable(c) && p == CardPost(c);
    assert snaps[..k][i] == snaps[i];
  }

  /** When the loop ends on the count check, exactly `desired_count` posts
      are returned: the first ones of the raw list, even if the last scrape
      overshot. */
  lemma CollectCountExit(desired: int, initialHeight: int, snaps: seq<Snapshot>)
    requires desired >= 0
    requires Run(desired, initialHeight, snaps, []).Ok?
    requires |Run(desired, initialHeight, snaps, []).value| >= desired
    ensures Collect(desired, initialHeight, snaps) == Ok(Run(desired, initialHeight, snaps, []).value[..desired])
    ensures |Collect(desired, initialHeight, snaps).value| == desired
  {
  }

  /** If the first scroll does not change the height (or the page shows no
      further snapshot), nothing is scraped and no post is returned. */
  lemma CollectStalled(desired: int, initialHeight: int, snaps: seq<Snapshot>)
    requires snaps == [] || snaps[0].height == initialHeight
    ensures Collect(desired, initialHeight, snaps) == Ok([])
  {
  }

  /** Three cards with distinct links and a page that stops growing after
      the first scroll: all three posts are returned, fewer than the five
      asked for. */
  lemma CollectThreeOfFive(h0: int, h1: int, a: Card, b: Card, c: Card)
    requires h1 != h0
    requires Scrapable(a) && Scrapable(b) && Scrapable(c)
    requires a.linkTag.value.href != b.linkTag.value.href
    requires a.linkTag.value.href != c.linkTag.value.href
    requires b.linkTag.value.href != c.linkTag.value.href
    ensures Collect(5, h0, [Snapshot(h1, [a, b, c]), Snapshot(h1, [a, b, c])]) ==
      Ok([CardPost(a), CardPost(b), CardPost(c)])
  {
    var cards := [a, b, c];
    var snaps := [Snapshot(h1, cards), Snapshot(h1, cards)];
    ThreeCards(a, b, c);
    PrefixedLinksDiffer(a.linkTag.value.href.value, b.linkTag.value.href.value);
    PrefixedLinksDiffer(a.linkTag.value.href.value, c.linkTag.value.href.value);
    PrefixedLinksDiffer(b.linkTag.value.href.value, c.linkTag.value.href.value);
    ThreeNewPosts(CardPost(a), CardPost(b), CardPost(c));
    assert snaps[1..] == [Snapshot(h1, cards)];
    RunRound(5, h0, snaps, []);
    RunDone(5, h1, snaps[1..], [CardPost(a), CardPost(b), CardPost(c)]);
  }

  lemma ThreeCards(a: Card, b: Card, c: Card)
    requires Scrapable(a) && Scrapable(b) && Scrapable(c)
    ensures !HasMissingHref([a, b, c])
    ensures Candidates([a, b, c]) == [CardPost(a), CardPost(b), CardPost(c)]
  {
    var cards := [a, b, c];
    forall i | 0 <= i < |cards| ensures !MissingHrefCard(cards[i]) {
    }
    assert [a][..0] == [] && [a, b][..1] == [a] && cards[..2] == [a, b];
    assert Candidates([a]) == [CardPost(a)];
    assert Candidates([a, b]) == [CardPost(a), CardPost(b)];
  }

  lemma ThreeNewPosts(pa: Post, pb: Post, pc: Post)
    requires pa.link != pb.link && pa.link != pc.link && pb.link != pc.link
    ensures AddPosts([], [pa, pb, pc]) == [pa, pb, pc]
  {
    assert [pa][..0] == [] && [pa, pb][..1] == [pa] && [pa, pb, pc][..2] == [pa, pb];
    assert AddPosts([], [pa]) == [pa];
    LinkSetSnoc([], pa);
    assert LinkSet([pa]) == {pa.link};
    assert AddPosts([], [pa, pb]) == [pa, pb];
    LinkSetSnoc([pa], pb);
    assert [pa] + [pb] == [pa, pb];
  }

  lemma PrefixedLinksDiffer(x: string, y: string)
    requires x != y
    ensures BaseUrl + x != BaseUrl + y
  {
    assert (BaseUrl + x)[|BaseUrl|..] == x && (BaseUrl + y)[|BaseUrl|..] == y;
  }

  /** The collector fails only on a card whose anchor lacks `href`. */
  lemma {:induction false} RunFailure(desired: int, lastHeight: int, snaps: seq<Snapshot>, posts: seq<Post>)
    requires Run(desired, lastHeight, snaps, posts).Err?
    ensures exists i :: 0 <= i < |snaps| && HasMissingHref(snaps[i].cards)
    decreases |snaps|
  {
    if !HasMissingHref(snaps[0].cards) {
      var p := AddPosts(posts, Candidates(snaps[0].cards));
      RunFailure(desired, snaps[0].height, snaps[1..], p);
      var i :| 0 <= i < |snaps[1..]| && HasMissingHref(snaps[1..][i].cards);
      assert snaps[1..][i] == snaps[i + 1];
    }
  }

  lemma CollectFailure(desired: int, initialHeight: int, snaps: seq<Snapshot>)
    requires Collect(desired, initialHeight, snaps).Err?
    ensures exists i :: 0 <= i < |snaps| && HasMissingHref(snaps[i].cards)
  {
    RunFailure(desired, initialHeight, snaps, []);
  }

  // ---- the detail fetcher ----

  /** What the HTML library selects on an article page: the
      `h1.content-title, div.content-title` element, if any, and the
      `article.content__blocks p` paragraphs in document order. */
  datatype ArticlePage = ArticlePage(titleTag: Option<Element>, paragraphs: seq<Element>)

  /** The outcome of the GET request: an exception (connection error, a
      non-2xx status raised by `raise_for_status`, timeout) given by its
      `str`, or the page of the body received. */
  datatype FetchOutcome = RequestFailed(cause: string) | Received(page: ArticlePage)

  /** `DetailedPost`; the fields left at their `None` default are `None`. */
  datatype DetailedPost = DetailedPost(title: Option<string>, link: string, text: Option<string>, error: Option<string>)

  /** `[p.get_text(strip=True) for p in paragraphs if p.get_text(strip=True)]`. */
  function TextBlocks(ps: seq<Element>): (r: seq<string>)
    ensures |r| <= |ps|
    ensures forall k :: 0 <= k < |r| ==> r[k] != "" && PyStr.Trimmed(r[k])
  {
    if ps == [] then []
    else
      var init := TextBlocks(ps[..|ps| - 1]);
      var t := GetText(ps[|ps| - 1]);
      if t == "" then init else init + [t]
  }

  /** The blocks are exactly the non-empty texts of the paragraphs. */
  lemma {:induction false} TextBlocksMembers(ps: seq<Element>)
    ensures forall p :: p in ps && GetText(p) != "" ==> GetText(p) in TextBlocks(ps)
    ensures forall t :: t in TextBlocks(ps) ==> exists p :: p in ps && GetText(p) == t
  {
    if ps != [] {
      var init := ps[..|ps| - 1];
      var last := ps[|ps| - 1];
      TextBlocksMembers(init);
      assert ps == init + [last];
      forall p | p in ps && GetText(p) != "" ensures GetText(p) in TextBlocks(ps) {
        if p != last {
          assert p in init;
        }
      }
      forall t | t in TextBlocks(ps) ensures exists p :: p in ps && GetText(p) == t {
        if t in TextBlocks(init) {
          var p :| p in init && GetText(p) == t;
          assert p in ps;
        } else {
          assert last in ps;
        }
      }
    }
  }

  /** No block at all exactly when every paragraph reads as empty. */
  lemma {:induction false} TextBlocksEmpty(ps: seq<Element>)
    ensures TextBlocks(ps) == [] <==> forall p :: p in ps ==> GetText(p) == ""
  {
    if ps != [] {
      var init := ps[..|ps| - 1];
      TextBlocksEmpty(init);
      assert ps == init + [ps[|ps| - 1]];
      assert forall p :: p in ps <==> p in init || p == ps[|ps| - 1];
    }
  }

  lemma {:induction false} TextBlocksConcat(a: seq<Element>, b: seq<Element>)
    ensures TextBlocks(a + b) == TextBlocks(a) + TextBlocks(b)
  {
    if b == [] {
      assert a + b == a;
    } else {
      assert (a + b)[..|a + b| - 1] == a + b[..|b| - 1];
      assert (a + b)[|a + b| - 1] == b[|b| - 1];
      TextBlocksConcat(a, b[..|b| - 1]);
    }
  }

  /** `"\n\n".join(text_blocks)`: empty exactly when no paragraph has
      text, and never starting or ending with whitespace. */
  function BodyText(ps: seq<Element>): (r: string)
    ensures r == "" <==> TextBlocks(ps) == []
    ensures PyStr.Trimmed(r)
  {
    PyStr.Join(ParagraphSeparator, TextBlocks(ps))
  }

  /** The text of two runs of paragraphs is the text of each, separated by
      one blank line when both have some. */
  lemma BodyTextConcat(a: seq<Element>, b: seq<Element>)
    ensures BodyText(a + b) ==
      if BodyText(a) == "" then BodyText(b)
      else if BodyText(b) == "" then BodyText(a)
      else BodyText(a) + ParagraphSeparator + BodyText(b)
  {
    TextBlocksConcat(a, b);
    if TextBlocks(a) == [] {
      assert TextBlocks(a + b) == TextBlocks(b);
    } else if TextBlocks(b) == [] {
      assert TextBlocks(a + b) == TextBlocks(a);
    } else {
      PyStr.JoinConcat(ParagraphSeparator, TextBlocks(a), TextBlocks(b));
    }
  }

  /** A page with title `A` and the paragraphs `<p> Hi </p>` and `<p></p>`
      gives the title `"A"` and the text `"Hi"`: the empty paragraph adds no
      separator. */
  lemma ExtractorExample(url: string)
    ensures FetchPostDetails(url, Received(ArticlePage(Some(Element(["A"])), [Element([" Hi "]), Element([])]))) ==
      DetailedPost(Some("A"), url, Some("Hi"), None)
  {
    GetTextSingle("A");
    StripExamples();
    BodyTextExample();
  }

  lemma BodyTextExample()
    ensures BodyText([Element([" Hi "]), Element([])]) == "Hi"
  {
    var hi := Element([" Hi "]);
    var empty := Element([]);
    GetTextSingle(" Hi ");
    StripExamples();
    TextBlocksSingle(hi);
    TextBlocksSingle(empty);
    TextBlocksConcat([hi], [empty]);
    assert [hi] + [empty] == [hi, empty];
    assert PyStr.Join(ParagraphSeparator, ["Hi"]) == "Hi";
  }

  lemma TextBlocksSingle(p: Element)
    ensures TextBlocks([p]) == if GetText(p) == "" then [] else [GetText(p)]
  {
    assert [p][..0] == [];
  }

  /** An element with one text string reads as that string stripped. */
  lemma GetTextSingle(s: string)
    ensures GetText(Element([s])) == PyStr.Strip(s)
  {
    assert [s][..0] == [];
  }

  lemma StripExamples()
    ensures PyStr.Strip(" Hi ") == "Hi"
    ensures PyStr.Strip("A") == "A"
  {
    LStripExample();
    RStripExample();
    PyStr.StripOfTrimmed("A");
  }

  lemma LStripExample()
    ensures PyStr.LStrip(" Hi ") == "Hi "
  {
    assert " Hi "[1..] == "Hi ";
    assert PyStr.LStrip("Hi ") == "Hi ";
  }

  lemma RStripExample()
    ensures PyStr.RStrip("Hi ") == "Hi"
  {
    assert "Hi "[..2] == "Hi";
    assert PyStr.RStrip("Hi") == "Hi";
  }

  /** `fetch_post_details(session, url)` given the outcome of its request. */
  function FetchPostDetails(url: string, outcome: FetchOutcome): (r: DetailedPost)
    ensures r.link == url
    ensures r.text.Some? <==> r.error.None?
    ensures outcome.RequestFailed? ==>
      r.error == Some(RequestFailedPrefix + outcome.cause) && r.title.None? && r.text.None?
    ensures outcome.Received? ==>
      r.error.None? && r.text == Some(BodyText(outcome.page.paragraphs)) &&
      (r.title.Some? <==> outcome.page.titleTag.Some?)
    ensures outcome.Received? && outcome.page.titleTag.Some? ==>
      r.title == Some(GetText(outcome.page.titleTag.value))
  {
    match outcome
    case RequestFailed(cause) =>
      DetailedPost(None, url, None, Some(RequestFailedPrefix + cause))
    case Received(page) =>
      var title := if page.titleTag.Some? then Some(GetText(page.titleTag.value)) else None;
      DetailedPost(title, url, Some(BodyText(page.paragraphs)), None)
  }

  /** A result carries an error exactly when its request failed, and the
      error then names the cause after the fixed prefix. */
  lemma FetchErrorIffFailed(url: string, outcome: FetchOutcome)
    ensures FetchPostDetails(url, outcome).error.Some? <==> outcome.RequestFailed?
    ensures FetchPostDetails(url, outcome).error.Some? ==>
      var e := FetchPostDetails(url, outcome).error.value;
      |e| >= |RequestFailedPrefix| && e[..|RequestFailedPrefix|] == RequestFailedPrefix
  {
  }

  /** A page received without any paragraph text still yields a text, `""`. */
  lemma FetchEmptyPage(url: string, page: ArticlePage)
    requires forall p :: p in page.paragraphs ==> GetText(p) == ""
    ensures FetchPostDetails(url, Received(page)).text == Some("")
  {
    TextBlocksEmpty(page.paragraphs);
  }

  // ---- the gather ----

  /** The shared `output` list `bound_fetch` appends to. */
  class DetailsOutput {
    var items: seq<DetailedPost>

    constructor ()
      ensures items == []
    {
      items := [];
    }
  }

  /** `bound_fetch(..., url, output)`: one result appended, once its request
      is over. */
  method BoundFetch(url: string, outcome: FetchOutcome, output: DetailsOutput)
    modifies output
    ensures output.items == old(output.items) + [FetchPostDetails(url, outcome)]
  {
    var details := FetchPostDetails(url, outcome);
    output.items := output.items + [details];
  }

  /** The results of one fetch per post, post by post. */
  function Gathered(posts: seq<Post>, outcomes: seq<FetchOutcome>): (r: seq<DetailedPost>)
    requires |outcomes| == |posts|
    ensures |r| == |posts|
  {
    seq(|posts|, k requires 0 <= k < |posts| => FetchPostDetails(posts[k].link, outcomes[k]))
  }

  function PostLinks(ps: seq<Post>): (r: seq<string>)
    ensures |r| == |ps|
  {
    seq(|ps|, k requires 0 <= k < |ps| => ps[k].link)
  }

  function DetailLinks(ds: seq<DetailedPost>): (r: seq<string>)
    ensures |r| == |ds|
  {
    seq(|ds|, k requires 0 <= k < |ds| => ds[k].link)
  }

  /** `gather_details(posts)`, with the requests run one after the other:
      every post gets exactly one result, whose link is the post's link. */
  method GatherDetails(posts: seq<Post>, outcomes: seq<FetchOutcome>) returns (detailed: seq<DetailedPost>)
    requires |outcomes| == |posts|
    ensures detailed == Gathered(posts, outcomes)
    ensures |detailed| == |posts|
    ensures multiset(DetailLinks(detailed)) == multiset(PostLinks(posts))
  {
    var output := new DetailsOutput();
    for idx := 0 to |posts|
      invariant output.items == Gathered(posts[..idx], outcomes[..idx])
    {
      assert Gathered(posts[..idx + 1], outcomes[..idx + 1]) ==
        Gathered(posts[..idx], outcomes[..idx]) + [FetchPostDetails(posts[idx].link, outcomes[idx])];
      BoundFetch(posts[idx].link, outcomes[idx], output);
    }
    assert posts[..|posts|] == posts && outcomes[..|outcomes|] == outcomes;
    detailed := output.items;
    GatheredLinks(posts, outcomes);
  }

  /** No result is dropped and none is invented: the links of the results
      are the links of the posts. */
  lemma GatheredLinks(posts: seq<Post>, outcomes: seq<FetchOutcome>)
    requires |outcomes| == |posts|
    ensures DetailLinks(Gathered(posts, outcomes)) == PostLinks(posts)
  {
  }

  /** One failing request does not affect any other post's result. */
  lemma GatheredIsolation(posts: seq<Post>, outcomes: seq<FetchOutcome>, j: nat, other: FetchOutcome)
    requires |outcomes| == |posts| && j < |posts|
    ensures var r := Gathered(posts, outcomes);
      var r' := Gathered(posts, outcomes[j := other]);
      forall k :: 0 <= k < |posts| && k != j ==> r'[k] == r[k]
  {
  }
}
