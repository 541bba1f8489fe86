/**
 * The client-side search of the terminal (assets/js/agent.js): `performSearch` filters the
 * post index by a case-insensitive substring test, and `showSearchResults` turns each hit
 * into one row of the results panel.
 */
module Search {
  import opened Wrappers
  import opened Text
  import Command

  /** One entry of the post index the page embeds. */
  datatype Post = Post(title: string, excerpt: Option<string>, tags: seq<string>, date: string, url: string)

  /** `haystack.toLowerCase().indexOf(needle) !== -1`, where `needle` is already lower-cased. */
  function Hits(haystack: string, needle: string): (h: bool)
    ensures h <==> Contains(Lower(haystack), needle)
  {
    IndexOf(Lower(haystack), needle) != -1
  }

  /** `tags.some(...)`: some tag holds the lower-cased keyword. */
  predicate AnyTagHits(tags: seq<string>, needle: string)
    decreases |tags|
  {
    tags != [] && (Hits(tags[0], needle) || AnyTagHits(tags[1..], needle))
  }

  /** The reference reading of a match: the lower-cased keyword is a substring of the title, the excerpt or a tag. */
  ghost predicate Mentions(p: Post, keyword: string) {
    var k := Lower(keyword);
    Contains(Lower(p.title), k) ||
    (p.excerpt.Some? && p.excerpt.value != [] && Contains(Lower(p.excerpt.value), k)) ||
    exists t :: t in p.tags && Contains(Lower(t), k)
  }

  lemma {:induction false} AnyTagHitsIff(tags: seq<string>, needle: string)
    ensures AnyTagHits(tags, needle) <==> exists t :: t in tags && Contains(Lower(t), needle)
    decreases |tags|
  {
    if tags != [] {
      AnyTagHitsIff(tags[1..], needle);
      assert forall t :: t in tags <==> t == tags[0] || t in tags[1..];
    }
  }

  /**
   * The predicate `performSearch` passes to `filter`. An excerpt only counts when it is
   * present and non-empty, as the `post.excerpt && ...` guard has it. The `indexOf` tests
   * amount exactly to the substring reading Mentions.
   */
  function Matches(p: Post, keyword: string): (m: bool)
    ensures m <==> Mentions(p, keyword)
  {
    var k := Lower(keyword);
    AnyTagHitsIff(p.tags, k);
    Hits(p.title, k) ||
    (p.excerpt.Some? && p.excerpt.value != [] && Hits(p.excerpt.value, k)) ||
    AnyTagHits(p.tags, k)
  }

  /** `posts.filter(...)`: the posts that match, in their original order. */
  function SearchPosts(posts: seq<Post>, keyword: string): (r: seq<Post>)
    ensures |r| <= |posts|
    ensures forall p :: p in r ==> p in posts && Matches(p, keyword)
    decreases |posts|
  {
    if posts == [] then []
    else if Matches(posts[0], keyword) then [posts[0]] + SearchPosts(posts[1..], keyword)
    else SearchPosts(posts[1..], keyword)
  }

  /** No matching post is dropped. */
  lemma {:induction false} SearchComplete(posts: seq<Post>, keyword: string, p: Post)
    requires p in posts && Matches(p, keyword)
    ensures p in SearchPosts(posts, keyword)
    decreases |posts|
  {
    if posts[0] != p {
      SearchComplete(posts[1..], keyword, p);
    }
  }

  /** Filtering a concatenation filters each part and keeps them in order. */
  lemma {:induction false} SearchAppend(a: seq<Post>, b: seq<Post>, keyword: string)
    ensures SearchPosts(a + b, keyword) == SearchPosts(a, keyword) + SearchPosts(b, keyword)
    decreases |a|
  {
    if a == [] {
      assert a + b == b;
    } else {
      var ab := a + b;
      assert ab[0] == a[0] && ab[1..] == a[1..] + b;
      SearchAppend(a[1..], b, keyword);
      SearchCons(ab, keyword);
      SearchCons(a, keyword);
      var h := if Matches(a[0], keyword) then [a[0]] else [];
      AppendStep(h, SearchPosts(ab[1..], keyword), SearchPosts(a[1..], keyword), SearchPosts(b, keyword),
        SearchPosts(ab, keyword), SearchPosts(a, keyword));
    }
  }

  /** One step of the filter: the head is kept exactly when it matches. */
  lemma SearchCons(posts: seq<Post>, keyword: string)
    requires posts != []
    ensures SearchPosts(posts, keyword) ==
      (if Matches(posts[0], keyword) then [posts[0]] else []) + SearchPosts(posts[1..], keyword)
  {
  }

  lemma AppendStep<T>(h: seq<T>, x: seq<T>, y: seq<T>, z: seq<T>, u: seq<T>, v: seq<T>)
    requires u == h + x && x == y + z && v == h + y
    ensures u == v + z
  {
  }

  /** Searching the results again finds them all again. */
  lemma {:induction false} SearchIdempotent(posts: seq<Post>, keyword: string)
    ensures SearchPosts(SearchPosts(posts, keyword), keyword) == SearchPosts(posts, keyword)
    decreases |posts|
  {
    if posts != [] {
      SearchIdempotent(posts[1..], keyword);
    }
  }

  /** What one row of the results panel shows: date, first tag (or nothing), title, and the link. */
  datatype Row = Row(date: string, tag: string, title: string, href: string)

  /** The row `showSearchResults` renders for one post; the link is `base + post.url`. */
  function RowOf(base: string, p: Post): Row {
    Row(p.date, if |p.tags| > 0 then p.tags[0] else [], p.title, base + p.url)
  }

  /** The `results.forEach` of `showSearchResults`: one row per result, in order. */
  method RenderRows(base: string, results: seq<Post>) returns (rows: seq<Row>)
    ensures |rows| == |results|
    ensures forall i :: 0 <= i < |results| ==> rows[i] == RowOf(base, results[i])
  {
    rows := [];
    for i := 0 to |results|
      invariant |rows| == i
      invariant forall j :: 0 <= j < i ==> rows[j] == RowOf(base, results[j])
    {
      rows := rows + [RowOf(base, results[i])];
    }
  }

  /** The results panel: the echoed command line, the summary line and the rows. */
  datatype Panel = Panel(command: string, summary: string, rows: seq<Row>)

  /**
   * The summary line above the rows: with results it quotes the keyword and gives the count;
   * without, it quotes the keyword in the no-results wording.
   */
  function Summary(keyword: string, count: nat): (r: string)
    ensures count > 0 ==> StartsWith(r, "Searching for '" + keyword + "'... Found " + NatToString(count))
    ensures count == 0 ==> StartsWith(r, "No results found for '" + keyword + "'")
  {
    if count > 0 then
      var head := "Searching for '" + keyword + "'... Found " + NatToString(count);
      PrefixOfConcat(head, " match(es):");
      head + " match(es):"
    else
      var head := "No results found for '" + keyword + "'";
      PrefixOfConcat(head, ". Try a different keyword.");
      head + ". Try a different keyword."
  }

  /**
   * The panel for `keyword` whose rows are `rows`. Its echoed command line, typed again,
   * parses back into the same search.
   */
  function PanelFor(keyword: string, rows: seq<Row>): (r: Panel)
    ensures r.rows == rows && r.summary == Summary(keyword, |rows|)
    ensures Trimmed(keyword) ==> Command.ParseCommand(r.command) == Command.Parsed("/search", keyword)
  {
    if Trimmed(keyword) then Command.ParseSearch(keyword); Panel("/search " + keyword, Summary(keyword, |rows|), rows)
    else Panel("/search " + keyword, Summary(keyword, |rows|), rows)
  }
}
