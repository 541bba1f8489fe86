/**
 * `applyFilters` (assets/js/agent.js): on the post listing, the `tag` and `category` query
 * parameters hide the items whose attributes do not hold them, and the status line and the
 * echoed command line say which filter is applied.
 */
module Filters {
  import opened Wrappers
  import opened Text
  import Command

  /** A query parameter counts only when it is given and not empty (`if (tag)` in the script). */
  predicate Present(p: Option<string>) {
    p.Some? && p.value != []
  }

  /** `attr.toLowerCase().indexOf(value.toLowerCase()) !== -1`, or true when the filter is absent. */
  function Passes(attr: string, filter: Option<string>): (b: bool)
    ensures b <==> (Present(filter) ==> Contains(Lower(attr), Lower(filter.value)))
  {
    !Present(filter) || IndexOf(Lower(attr), Lower(filter.value)) != -1
  }

  /**
   * Whether an item with these attribute strings stays visible: exactly when every present
   * filter, lower-cased, is a substring of its lower-cased attribute.
   */
  function Shows(tags: string, categories: string, tag: Option<string>, category: Option<string>): (b: bool)
    ensures b <==>
      (Present(tag) ==> Contains(Lower(tags), Lower(tag.value))) &&
      (Present(category) ==> Contains(Lower(categories), Lower(category.value)))
  {
    Passes(tags, tag) && Passes(categories, category)
  }

  /** One `.post-list__item[data-tags]` element of the listing. */
  class ListItem {
    /** `data-tags`; the selector guarantees the attribute, `|| ''` its value. */
    const tags: string
    /** `data-categories`, or the empty string when the attribute is missing. */
    const categories: string
    /** `style.display == 'none'`. */
    var hidden: bool

    constructor(tags: string, categories: string, hidden: bool)
      ensures this.tags == tags && this.categories == categories && this.hidden == hidden
    {
      this.tags := tags;
      this.categories := categories;
      this.hidden := hidden;
    }
  }

  /** How many of `items` stay visible. */
  function CountShown(items: seq<ListItem>, tag: Option<string>, category: Option<string>): (n: nat)
    ensures n <= |items|
    decreases |items|
  {
    if items == [] then 0
    else
      var last := items[|items| - 1];
      CountShown(items[..|items| - 1], tag, category) + if Shows(last.tags, last.categories, tag, category) then 1 else 0
  }

  /** Every item is visible, and counted, exactly when every item passes. */
  lemma {:induction false} CountShownAll(items: seq<ListItem>, tag: Option<string>, category: Option<string>)
    ensures CountShown(items, tag, category) == |items| <==>
      forall i :: 0 <= i < |items| ==> Shows(items[i].tags, items[i].categories, tag, category)
    decreases |items|
  {
    if items != [] {
      var init, last := items[..|items| - 1], items[|items| - 1];
      CountShownAll(init, tag, category);
      assert items == init + [last];
      var pass := Shows(last.tags, last.categories, tag, category);
      assert CountShown(items, tag, category) == CountShown(init, tag, category) + if pass then 1 else 0;
    }
  }

  /** The text of `.filter-status`: the tag wording when a tag is given, else the category wording; both report the count. */
  function StatusText(tag: Option<string>, category: Option<string>, count: nat): (r: string)
    ensures Present(tag) ==> StartsWith(r, "Filtering posts tagged '" + tag.value + "'... Found " + NatToString(count))
    ensures !Present(tag) && Present(category) ==>
      StartsWith(r, "Showing posts in '" + category.value + "' category... Found " + NatToString(count))
    ensures !Present(tag) && !Present(category) ==> r == []
  {
    if Present(tag) then
      var head := "Filtering posts tagged '" + tag.value + "'... Found " + NatToString(count);
      PrefixOfConcat(head, " result(s):");
      head + " result(s):"
    else if Present(category) then
      var head := "Showing posts in '" + category.value + "' category... Found " + NatToString(count);
      PrefixOfConcat(head, " result(s):");
      head + " result(s):"
    else ""
  }

  /**
   * The text of `.command-line__text` after the two assignments: the category one, when
   * given, is written last and wins.
   */
  function EchoText(tag: Option<string>, category: Option<string>, previous: string): (r: string)
    ensures Present(category) ==> r == "/posts --category " + category.value
    ensures !Present(category) && Present(tag) ==> r == "/posts --tag " + tag.value
    ensures !Present(category) && !Present(tag) ==> r == previous
  {
    var afterTag := if Present(tag) then "/posts --tag " + tag.value else previous;
    if Present(category) then "/posts --category " + category.value else afterTag
  }

  /** The echoed tag command, typed into the terminal, leads back to the same tag listing. */
  lemma EchoReplaysTag(tag: Option<string>, previous: string, encode: string -> string)
    requires Present(tag) && NoSpace(tag.value)
    ensures Command.Route(EchoText(tag, None, previous), encode) == Command.Navigate("/posts/?tag=" + encode(tag.value))
  {
    Command.RoutePostsTag(tag.value, encode);
  }

  /** With both filters given, the status speaks of the tag while the echoed command names the category. */
  lemma StatusAndEchoDisagree(tag: Option<string>, category: Option<string>, count: nat, previous: string)
    requires Present(tag) && Present(category)
    ensures var status, echo := StatusText(tag, category, count), EchoText(tag, category, previous);
      status[..24] == "Filtering posts tagged '" && status[24..24 + |tag.value|] == tag.value &&
      echo[..18] == "/posts --category " && echo[18..] == category.value
  {
    var pre, post := "Filtering posts tagged '", "'... Found " + NatToString(count) + " result(s):";
    assert |pre| == 24;
    ConcatSlices(pre, tag.value, post);
    var cmd := "/posts --category ";
    assert |cmd| == 18;
    ConcatSlices(cmd, category.value, []);
    assert cmd + category.value + [] == cmd + category.value;
  }

  /** The post listing page. */
  class Listing {
    const items: seq<ListItem>
    /** Whether `.filter-status` exists. */
    const hasStatus: bool
    /** Whether `.command-line__text` exists. */
    const hasEcho: bool
    var status: string
    var statusShown: bool
    var echo: string

    /** The list items are distinct elements. */
    predicate Valid()
      reads this
    {
      forall i, j :: 0 <= i < j < |items| ==> items[i] != items[j]
    }

    constructor(items: seq<ListItem>, hasStatus: bool, hasEcho: bool, echo: string)
      requires forall i, j :: 0 <= i < j < |items| ==> items[i] != items[j]
      ensures Valid()
      ensures this.items == items && this.hasStatus == hasStatus && this.hasEcho == hasEcho
      ensures this.echo == echo && status == [] && !statusShown
    {
      this.items := items;
      this.hasStatus := hasStatus;
      this.hasEcho := hasEcho;
      this.echo := echo;
      status := [];
      statusShown := false;
    }

    /**
     * `applyFilters()` with the query parameters `tag` and `category` already read. Returns
     * `visibleCount`; when no filter is present or there are no items, nothing changes.
     */
    method ApplyFilters(tag: Option<string>, category: Option<string>) returns (visible: nat)
      requires Valid()
      modifies this, items
      ensures !(Present(tag) || Present(category)) || items == [] ==>
        && visible == 0
        && (forall i :: 0 <= i < |items| ==> items[i].hidden == old(items[i].hidden))
        && status == old(status) && statusShown == old(statusShown) && echo == old(echo)
      ensures (Present(tag) || Present(category)) && items != [] ==>
        && (forall i :: 0 <= i < |items| ==>
              items[i].hidden == !Shows(items[i].tags, items[i].categories, tag, category))
        && visible == CountShown(items, tag, category)
        && status == (if hasStatus then StatusText(tag, category, visible) else old(status))
        && statusShown == (hasStatus || old(statusShown))
        && echo == (if hasEcho then EchoText(tag, category, old(echo)) else old(echo))
    {
      visible := 0;
      if !Present(tag) && !Present(category) {
        return;
      }
      if |items| == 0 {
        return;
      }
      visible := HideItems(items, tag, category);
      if hasStatus {
        status := StatusText(tag, category, visible);
        statusShown := true;
      }
      if hasEcho {
        if Present(tag) {
          echo := "/posts --tag " + tag.value;
        }
        if Present(category) {
          echo := "/posts --category " + category.value;
        }
      }
    }
  }

  /** The `items.forEach` of `applyFilters`: each item hidden or shown, the shown ones counted. */
  method HideItems(items: seq<ListItem>, tag: Option<string>, category: Option<string>) returns (visible: nat)
    requires forall i, j :: 0 <= i < j < |items| ==> items[i] != items[j]
    modifies items
    ensures forall i :: 0 <= i < |items| ==>
      items[i].hidden == !Shows(items[i].tags, items[i].categories, tag, category)
    ensures visible == CountShown(items, tag, category)
  {
    visible := 0;
    for i := 0 to |items|
      invariant visible == CountShown(items[..i], tag, category)
      invariant forall j :: 0 <= j < i ==>
        items[j].hidden == !Shows(items[j].tags, items[j].categories, tag, category)
    {
      var item := items[i];
      var show := Shows(item.tags, item.categories, tag, category);
      item.hidden := !show;
      assert items[..i + 1][..i] == items[..i];
      if show {
        visible := visible + 1;
      }
    }
    assert items[..|items|] == items;
  }
}
