/**
 * The page side of the terminal (assets/js/agent.js): the `base` prefix taken from the
 * stylesheet link, the blocks of the terminal's content area into which errors and search
 * results are inserted, the help overlay, and `executeCommand` applying the action that
 * module Command computes.
 */
module Terminal {
  import opened Wrappers
  import opened Text
  import opened Command
  import opened Search

  /** The stylesheet path whose prefix is the site's base URL. */
  const Marker := "/assets/css/main.css"

  /**
   * `base`: the part of the stylesheet href before the first `/assets/css/main.css`, when
   * that occurrence is at an index above 0; the empty string otherwise, and when the page
   * has no stylesheet link (`href` is None).
   */
  function BaseFrom(href: Option<string>): (b: string)
    ensures href.None? ==> b == []
    ensures b != [] ==> href.Some? && OccursAt(Marker, href.value, |b|) && b == href.value[..|b|]
    ensures b != [] ==> forall i :: 0 <= i < |b| ==> !OccursAt(Marker, href.value, i)
  {
    match href
    case None => []
    case Some(h) =>
      var i := IndexOf(h, Marker);
      if i > 0 then h[..i] else []
  }

  /** The base is empty exactly when there is no link, no marker, or the marker starts the href. */
  lemma BaseEmpty(href: Option<string>)
    ensures BaseFrom(href) == [] <==>
      href.None? || !Contains(href.value, Marker) || OccursAt(Marker, href.value, 0)
  {
  }

  /** A site served under `b` gets `b` back as its base. */
  lemma BaseRoundTrip(b: string, rest: string)
    requires b != []
    requires forall i :: 0 <= i < |b| ==> !OccursAt(Marker, b + Marker + rest, i)
    ensures BaseFrom(Some(b + Marker + rest)) == b
  {
    var h := b + Marker + rest;
    assert h[|b|..|b| + |Marker|] == Marker;
    assert OccursAt(Marker, h, |b|);
    assert h[..|b|] == b;
  }

  /** The children of the terminal's content area that these scripts care about. */
  datatype Block =
    | Response              // the `#ai-response` element
    | Note(message: string) // an error line inserted by showError
    | Results(panel: Panel) // a `.search-results` panel
    | Other                 // any other content

  function PanelCount(bs: seq<Block>): (n: nat)
    ensures n <= |bs|
    ensures n == 0 <==> forall i :: 0 <= i < |bs| ==> !bs[i].Results?
    decreases |bs|
  {
    if bs == [] then 0 else (if bs[0].Results? then 1 else 0) + PanelCount(bs[1..])
  }

  lemma {:induction false} PanelCountAppend(a: seq<Block>, b: seq<Block>)
    ensures PanelCount(a + b) == PanelCount(a) + PanelCount(b)
    decreases |a|
  {
    if a == [] {
      assert a + b == b;
    } else {
      assert (a + b)[0] == a[0] && (a + b)[1..] == a[1..] + b;
      PanelCountAppend(a[1..], b);
    }
  }

  /** The index of the first `.search-results` panel, or -1. */
  function FirstPanelIndex(bs: seq<Block>): (k: int)
    ensures k == -1 <==> PanelCount(bs) == 0
    ensures k != -1 ==> 0 <= k < |bs| && bs[k].Results? && forall i :: 0 <= i < k ==> !bs[i].Results?
    decreases |bs|
  {
    if bs == [] then -1
    else if bs[0].Results? then 0
    else
      var k := FirstPanelIndex(bs[1..]);
      if k == -1 then -1 else k + 1
  }

  /** `content.querySelector('.search-results')` removed: the first panel goes, the rest keep their order. */
  function RemoveFirstPanel(bs: seq<Block>): (r: seq<Block>)
    ensures PanelCount(r) == if PanelCount(bs) == 0 then 0 else PanelCount(bs) - 1
    ensures PanelCount(bs) == 0 ==> r == bs
    ensures |r| == if PanelCount(bs) == 0 then |bs| else |bs| - 1
    ensures PanelCount(bs) > 0 ==> var k := FirstPanelIndex(bs); r == bs[..k] + bs[k + 1..]
    decreases |bs|
  {
    if bs == [] then []
    else if bs[0].Results? then bs[1..]
    else
      var rest := RemoveFirstPanel(bs[1..]);
      if PanelCount(bs) > 0 then SpliceAfterHead(bs, rest); [bs[0]] + rest else
      [bs[0]] + rest
  }

  /** Keeping a head that is not a panel commutes with cutting the first panel out of the tail. */
  lemma SpliceAfterHead(bs: seq<Block>, rest: seq<Block>)
    requires bs != [] && !bs[0].Results? && PanelCount(bs) > 0
    requires var j := FirstPanelIndex(bs[1..]); rest == bs[1..][..j] + bs[1..][j + 1..]
    ensures var k := FirstPanelIndex(bs); [bs[0]] + rest == bs[..k] + bs[k + 1..]
  {
    var j := FirstPanelIndex(bs[1..]);
    assert bs[..j + 1] == [bs[0]] + bs[1..][..j];
    assert bs[j + 2..] == bs[1..][j + 1..];
  }

  /** The index of the first `#ai-response`, or -1. */
  function ResponseIndex(bs: seq<Block>): (k: int)
    ensures k == -1 <==> Response !in bs
    ensures k != -1 ==> 0 <= k < |bs| && bs[k] == Response && Response !in bs[..k]
    decreases |bs|
  {
    if bs == [] then -1
    else if bs[0] == Response then 0
    else
      var k := ResponseIndex(bs[1..]);
      assert bs[1..][..if k == -1 then 0 else k] == bs[1..if k == -1 then 1 else k + 1];
      if k == -1 then -1 else k + 1
  }

  /**
   * Where showError and showSearchResults put a new block: right after `#ai-response`, or at
   * the end of the content area when there is none.
   */
  function InsertAfterResponse(bs: seq<Block>, b: Block): (r: seq<Block>)
    ensures |r| == |bs| + 1
    ensures Response !in bs ==> r == bs + [b]
    ensures Response in bs ==> var k := ResponseIndex(bs);
      r[k + 1] == b && r[..k + 1] == bs[..k + 1] && r[k + 2..] == bs[k + 1..]
  {
    var k := ResponseIndex(bs);
    if k == -1 then bs + [b] else bs[..k + 1] + [b] + bs[k + 1..]
  }

  /** Inserting adds the new block's panel, if it is one, and nothing else. */
  lemma InsertPanelCount(bs: seq<Block>, b: Block)
    ensures PanelCount(InsertAfterResponse(bs, b)) == PanelCount(bs) + if b.Results? then 1 else 0
  {
    var k := ResponseIndex(bs);
    PanelCountAppend(bs, [b]);
    if k != -1 {
      assert bs == bs[..k + 1] + bs[k + 1..];
      PanelCountAppend(bs[..k + 1], bs[k + 1..]);
      PanelCountAppend(bs[..k + 1], [b]);
      PanelCountAppend(bs[..k + 1] + [b], bs[k + 1..]);
    }
  }

  /** The remove-then-insert rule of showSearchResults leaves exactly one panel, the new one. */
  lemma ReplacePanel(bs: seq<Block>, p: Panel)
    requires PanelCount(bs) <= 1
    ensures var r := InsertAfterResponse(RemoveFirstPanel(bs), Results(p));
      PanelCount(r) == 1 && Results(p) in r
  {
    var rest := RemoveFirstPanel(bs);
    InsertPanelCount(rest, Results(p));
    var r := InsertAfterResponse(rest, Results(p));
    if Response in rest {
      assert r[ResponseIndex(rest) + 1] == Results(p);
    } else {
      assert r[|rest|] == Results(p);
    }
  }

  /** The rows of a panel listing `results`, as RenderRows builds them. */
  function RowsOf(base: string, results: seq<Post>): seq<Row> {
    seq(|results|, i requires 0 <= i < |results| => RowOf(base, results[i]))
  }

  /** The terminal page: its content area, the help overlay and where the browser is sent. */
  class Terminal {
    const base: string
    /** `window.__POSTS__`, or the empty index when the page has none. */
    const posts: seq<Post>
    /** `encodeURIComponent`, taken as given. */
    const encode: string -> string
    /** Whether `#terminal-output .terminal__content` exists; without it errors and results are dropped. */
    const hasContent: bool
    /** Whether `#help-overlay` exists. */
    const hasHelp: bool
    var blocks: seq<Block>
    var helpShown: bool
    /** The last `window.location.href` assigned, if any. */
    var location: Option<string>

    /** At most one results panel is on the page. */
    predicate Valid()
      reads this
    {
      PanelCount(blocks) <= 1
    }

    constructor(stylesheetHref: Option<string>, posts: seq<Post>, encode: string -> string,
                hasContent: bool, hasHelp: bool, blocks: seq<Block>)
      requires PanelCount(blocks) <= 1
      ensures Valid()
      ensures this.base == BaseFrom(stylesheetHref) && this.posts == posts && this.encode == encode
      ensures this.hasContent == hasContent && this.hasHelp == hasHelp && this.blocks == blocks
      ensures !helpShown && location.None?
    {
      this.base := BaseFrom(stylesheetHref);
      this.posts := posts;
      this.encode := encode;
      this.hasContent := hasContent;
      this.hasHelp := hasHelp;
      this.blocks := blocks;
      helpShown := false;
      location := None;
    }

    /** `navigateTo(path)`: the browser is sent to `base + path`. */
    method NavigateTo(path: string)
      modifies this
      ensures location == Some(base + path)
      ensures blocks == old(blocks) && helpShown == old(helpShown)
    {
      location := Some(base + path);
    }

    /** `showHelp()`: the overlay is displayed, if the page has one. */
    method ShowHelp()
      modifies this
      ensures helpShown == (hasHelp || old(helpShown))
      ensures blocks == old(blocks) && location == old(location)
    {
      if hasHelp {
        helpShown := true;
      }
    }

    /** `showError(msg)`: one error line right after `#ai-response`. */
    method ShowError(msg: string)
      requires Valid()
      modifies this
      ensures Valid()
      ensures blocks == if hasContent then InsertAfterResponse(old(blocks), Note(msg)) else old(blocks)
      ensures helpShown == old(helpShown) && location == old(location)
    {
      if hasContent {
        InsertPanelCount(blocks, Note(msg));
        blocks := InsertAfterResponse(blocks, Note(msg));
      }
    }

    /** `showSearchResults(keyword, results)`: the old panel is removed before the new one is inserted. */
    method ShowSearchResults(keyword: string, results: seq<Post>)
      requires Valid()
      modifies this
      ensures Valid()
      ensures hasContent ==> PanelCount(blocks) == 1
      ensures blocks == if hasContent
        then InsertAfterResponse(RemoveFirstPanel(old(blocks)), Results(PanelFor(keyword, RowsOf(base, results))))
        else old(blocks)
      ensures helpShown == old(helpShown) && location == old(location)
    {
      if hasContent {
        var rows := RenderRows(base, results);
        assert rows == RowsOf(base, results);
        ReplacePanel(blocks, PanelFor(keyword, rows));
        blocks := InsertAfterResponse(RemoveFirstPanel(blocks), Results(PanelFor(keyword, rows)));
      }
    }

    /** `performSearch(keyword)`: the posts that match, shown as one panel. */
    method PerformSearch(keyword: string)
      requires Valid()
      modifies this
      ensures Valid()
      ensures blocks == if hasContent
        then InsertAfterResponse(RemoveFirstPanel(old(blocks)),
          Results(PanelFor(keyword, RowsOf(base, SearchPosts(posts, keyword)))))
        else old(blocks)
      ensures helpShown == old(helpShown) && location == old(location)
    {
      ShowSearchResults(keyword, SearchPosts(posts, keyword));
    }

    /** `executeCommand(raw)`: the one action Route picks, carried out. */
    method Execute(raw: string)
      requires Valid()
      modifies this
      ensures Valid()
      ensures var a := Route(raw, encode);
        && location == (if a.Navigate? then Some(base + a.path) else old(location))
        && helpShown == (if a.ShowHelp? then hasHelp || old(helpShown) else old(helpShown))
        && blocks == match a
          case Navigate(_) => old(blocks)
          case ShowHelp => old(blocks)
          case ShowError(msg) => if hasContent then InsertAfterResponse(old(blocks), Note(msg)) else old(blocks)
          case RunSearch(k) => if hasContent
            then InsertAfterResponse(RemoveFirstPanel(old(blocks)), Results(PanelFor(k, RowsOf(base, SearchPosts(posts, k)))))
            else old(blocks)
    {
      match Route(raw, encode)
      case Navigate(path) => NavigateTo(path);
      case RunSearch(keyword) => PerformSearch(keyword);
      case ShowHelp => ShowHelp();
      case ShowError(msg) => ShowError(msg);
    }
  }
}
