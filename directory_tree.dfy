/**
 * `treeToHtml`, which both scripts carry (identically, except that the price
 * updater url-encodes names with `urlencode` and the image importer with
 * `rawurlencode`). The encoder and `htmlspecialchars` are parameters: their
 * outputs are opaque here.
 */
module DirectoryTree {
  import opened PhpText

  /**
   * One element of the listing `getDirectories` builds: a file has no
   * sub-directories, a directory lists its contents.
   */
  datatype Entry = Entry(name: string, directories: seq<Entry>)

  /** An entry is drawn as a leaf when it has nothing below it or the depth limit is reached. */
  predicate IsLeaf(e: Entry, subnodes: int, current: int) {
    e.directories == [] || (subnodes > 0 && current >= subnodes)
  }

  /** A branch has its own list drawn below it only while the depth limit allows it. */
  predicate Expands(subnodes: int, current: int) {
    subnodes < 0 || current < subnodes
  }

  /** The link to a child: PHP's `empty($link)` also holds for the link "0". */
  function ChildLink(link: string, name: string, encode: string -> string): (r: string)
    ensures PhpEmpty(link) ==> r == encode(name)
    ensures !PhpEmpty(link) ==> |r| > |link| && r[..|link| + 1] == link + "/"
    ensures |r| >= |encode(name)| && r[|r| - |encode(name)|..] == encode(name)
    ensures |r| == (if PhpEmpty(link) then 0 else |link| + 1) + |encode(name)|
  {
    (if PhpEmpty(link) then "" else link + "/") + encode(name)
  }

  function ListOpen(first: bool): string {
    "<ul" + (if first then " id=\"navigable_tree\" class=\"navigable_tree\"" else "") + ">"
  }

  function Anchor(link: string, name: string, escape: string -> string): string {
    "<a id=\"" + link + "\" href=\"#" + link + "\">" + escape(name) + "</a>"
  }

  /** `treeToHtml($branch, $link, $subnodes, $current, $first)`. */
  function TreeToHtml(branch: seq<Entry>, link: string, subnodes: int, current: int, first: bool,
                      encode: string -> string, escape: string -> string): (html: string)
    ensures |html| >= 8 && html[..3] == "<ul" && html[|html| - 5..] == "</ul>"
    decreases branch, 1
  {
    ListOpen(first) + Items(branch, link, subnodes, current, encode, escape) + "</ul>"
  }

  /** The list items of the `foreach` over `$branch`, in order. */
  function Items(branch: seq<Entry>, link: string, subnodes: int, current: int,
                 encode: string -> string, escape: string -> string): (html: string)
    ensures html == "" <==> branch == []
    ensures branch != [] ==> |html| >= 9 && html[|html| - 5..] == "</li>"
    decreases branch, 0
  {
    if branch == [] then ""
    else Item(branch[0], link, subnodes, current, encode, escape)
         + Items(branch[1..], link, subnodes, current, encode, escape)
  }

  /** One entry's list item; a branch within the depth limit carries its own nested list. */
  function Item(e: Entry, link: string, subnodes: int, current: int,
                encode: string -> string, escape: string -> string): (html: string)
    ensures |html| >= 9 && html[|html| - 5..] == "</li>"
    decreases e
  {
    var newLink := ChildLink(link, e.name, encode);
    if IsLeaf(e, subnodes, current) then
      LeafItem(newLink, e.name, escape)
    else
      BranchHead(newLink, e.name, escape)
      + (if Expands(subnodes, current)
         then TreeToHtml(e.directories, newLink, subnodes, current + 1, false, encode, escape)
         else "")
      + "</li>"
  }

  function LeafItem(link: string, name: string, escape: string -> string): (html: string)
    ensures |html| >= 9 && html[..3] == "<li" && html[|html| - 5..] == "</li>"
  {
    var head := "<li class=\"leaf\" id=\"leaf-" + link + "\">" + Anchor(link, name, escape);
    assert (head + "</li>")[..3] == head[..3];
    head + "</li>"
  }

  function BranchHead(link: string, name: string, escape: string -> string): string {
    "<li class=\"branch\" id=\"branch-" + link + "\">" + Anchor(link, name, escape)
  }

  // ---------------------------------------------------------------------
  // What gets drawn: entries shown and lists opened, as independent counts.

  /** Number of entries that get a list item. */
  function Shown(branch: seq<Entry>, subnodes: int, current: int): nat
    decreases branch
  {
    if branch == [] then 0
    else
      var e := branch[0];
      1 + (if !IsLeaf(e, subnodes, current) && Expands(subnodes, current)
           then Shown(e.directories, subnodes, current + 1) else 0)
      + Shown(branch[1..], subnodes, current)
  }

  /** Number of nested lists opened below this one. */
  function Nested(branch: seq<Entry>, subnodes: int, current: int): nat
    decreases branch
  {
    if branch == [] then 0
    else
      var e := branch[0];
      (if !IsLeaf(e, subnodes, current) && Expands(subnodes, current)
       then 1 + Nested(e.directories, subnodes, current + 1) else 0)
      + Nested(branch[1..], subnodes, current)
  }

  /** Every entry of the tree, at any depth. */
  function Size(branch: seq<Entry>): nat
    decreases branch
  {
    if branch == [] then 0 else 1 + Size(branch[0].directories) + Size(branch[1..])
  }

  /** The entries at depth 1 through `depth`. */
  function SizeToDepth(branch: seq<Entry>, depth: nat): nat
    decreases branch
  {
    if branch == [] || depth == 0 then 0
    else 1 + SizeToDepth(branch[0].directories, depth - 1) + SizeToDepth(branch[1..], depth)
  }

  function CountLt(s: string): nat {
    if s == [] then 0 else (if s[0] == '<' then 1 else 0) + CountLt(s[1..])
  }

  lemma {:induction false} CountLtAppend(a: string, b: string)
    ensures CountLt(a + b) == CountLt(a) + CountLt(b)
  {
    if a == [] {
      assert a + b == b;
    } else {
      assert (a + b)[1..] == a[1..] + b;
      CountLtAppend(a[1..], b);
    }
  }

  /** The outputs of `f` never contain '<' (true of the url-encoders and of `htmlspecialchars`). */
  ghost predicate NoTagOpen(f: string -> string) {
    forall s :: '<' !in f(s)
  }

  lemma {:induction false} CountLtNone(s: string)
    requires '<' !in s
    ensures CountLt(s) == 0
  {
    if s != [] { CountLtNone(s[1..]); }
  }

  /**
   * The markup has one list per expanded branch plus the outer one, each
   * contributing its opening and closing tag, and four tags (`<li`, `<a`,
   * `</a>`, `</li>`) for every entry shown; since encoded names and escaped
   * text contain no '<', counting '<' counts tags.
   */
  lemma {:induction false} TagCount(branch: seq<Entry>, link: string, subnodes: int, current: int, first: bool,
                                    encode: string -> string, escape: string -> string)
    requires NoTagOpen(encode) && NoTagOpen(escape) && '<' !in link
    ensures CountLt(TreeToHtml(branch, link, subnodes, current, first, encode, escape))
            == 2 * (1 + Nested(branch, subnodes, current)) + 4 * Shown(branch, subnodes, current)
    decreases branch, 1
  {
    var items := Items(branch, link, subnodes, current, encode, escape);
    ItemsTagCount(branch, link, subnodes, current, encode, escape);
    CountLtAppend(ListOpen(first) + items, "</ul>");
    CountLtAppend(ListOpen(first), items);
    ListOpenTagCount(first);
    OneTag("</ul>");
  }

  lemma {:induction false} ListOpenTagCount(first: bool)
    ensures CountLt(ListOpen(first)) == 1
  {
    var attrs := if first then " id=\"navigable_tree\" class=\"navigable_tree\"" else "";
    assert ListOpen(first)[1..] == "ul" + attrs + ">";
    assert '<' !in attrs;
    OneTag(ListOpen(first));
  }

  lemma {:induction false} OneTag(s: string)
    requires |s| > 0 && s[0] == '<' && '<' !in s[1..]
    ensures CountLt(s) == 1
  {
    CountLtNone(s[1..]);
  }

  lemma {:induction false} ItemsTagCount(branch: seq<Entry>, link: string, subnodes: int, current: int,
                                         encode: string -> string, escape: string -> string)
    requires NoTagOpen(encode) && NoTagOpen(escape) && '<' !in link
    ensures CountLt(Items(branch, link, subnodes, current, encode, escape))
            == 2 * Nested(branch, subnodes, current) + 4 * Shown(branch, subnodes, current)
    decreases branch, 0
  {
    if branch != [] {
      ItemTagCount(branch[0], link, subnodes, current, encode, escape);
      ItemsTagCount(branch[1..], link, subnodes, current, encode, escape);
      CountLtAppend(Item(branch[0], link, subnodes, current, encode, escape),
                    Items(branch[1..], link, subnodes, current, encode, escape));
    }
  }

  lemma {:induction false} ItemTagCount(e: Entry, link: string, subnodes: int, current: int,
                                        encode: string -> string, escape: string -> string)
    requires NoTagOpen(encode) && NoTagOpen(escape) && '<' !in link
    ensures CountLt(Item(e, link, subnodes, current, encode, escape))
            == 2 * Nested([e], subnodes, current) + 4 * Shown([e], subnodes, current)
    decreases e
  {
    var newLink := ChildLink(link, e.name, encode);
    LinkTagFree(link, e.name, encode);
    assert [e][1..] == [];
    if IsLeaf(e, subnodes, current) {
      LeafItemTagCount(newLink, e.name, escape);
    } else {
      BranchHeadTagCount(newLink, e.name, escape);
      var head := BranchHead(newLink, e.name, escape);
      var sub := if Expands(subnodes, current)
                 then TreeToHtml(e.directories, newLink, subnodes, current + 1, false, encode, escape)
                 else "";
      if Expands(subnodes, current) {
        TagCount(e.directories, newLink, subnodes, current + 1, false, encode, escape);
      }
      CountLtAppend(head, sub);
      CountLtAppend(head + sub, "</li>");
      OneTag("</li>");
    }
  }

  lemma {:induction false} LinkTagFree(link: string, name: string, encode: string -> string)
    requires NoTagOpen(encode) && '<' !in link
    ensures '<' !in ChildLink(link, name, encode)
  {
    assert '<' !in encode(name);
  }

  lemma {:induction false} LeafItemTagCount(link: string, name: string, escape: string -> string)
    requires NoTagOpen(escape) && '<' !in link
    ensures CountLt(LeafItem(link, name, escape)) == 4
  {
    var open := "<li class=\"leaf\" id=\"leaf-" + link + "\">";
    assert open[1..] == "li class=\"leaf\" id=\"leaf-" + link + "\">";
    OneTag(open);
    AnchorTagCount(link, name, escape);
    CountLtAppend(open, Anchor(link, name, escape));
    CountLtAppend(open + Anchor(link, name, escape), "</li>");
    OneTag("</li>");
  }

  lemma {:induction false} BranchHeadTagCount(link: string, name: string, escape: string -> string)
    requires NoTagOpen(escape) && '<' !in link
    ensures CountLt(BranchHead(link, name, escape)) == 3
  {
    var open := "<li class=\"branch\" id=\"branch-" + link + "\">";
    assert open[1..] == "li class=\"branch\" id=\"branch-" + link + "\">";
    OneTag(open);
    AnchorTagCount(link, name, escape);
    CountLtAppend(open, Anchor(link, name, escape));
  }

  lemma {:induction false} AnchorTagCount(link: string, name: string, escape: string -> string)
    requires NoTagOpen(escape) && '<' !in link
    ensures CountLt(Anchor(link, name, escape)) == 2
  {
    var text := escape(name);
    assert '<' !in text;
    var head := "<a id=\"" + link + "\" href=\"#" + link + "\">";
    assert head[1..] == "a id=\"" + link + "\" href=\"#" + link + "\">";
    OneTag(head);
    CountLtNone(text);
    CountLtAppend(head, text);
    CountLtAppend(head + text, "</a>");
    OneTag("</a>");
  }

  // ---------------------------------------------------------------------
  // The depth limit.

  /** With a negative `$subnodes` the whole tree is drawn. */
  lemma {:induction false} NegativeShowsAll(branch: seq<Entry>, subnodes: int, current: int)
    requires subnodes < 0
    ensures Shown(branch, subnodes, current) == Size(branch)
    decreases branch
  {
    if branch != [] {
      NegativeShowsAll(branch[0].directories, subnodes, current + 1);
      NegativeShowsAll(branch[1..], subnodes, current);
    }
  }

  /**
   * With a positive `$subnodes`, a listing drawn from level `current` shows
   * exactly the entries down to level `subnodes`.
   */
  lemma {:induction false} PositiveShowsToDepth(branch: seq<Entry>, subnodes: int, current: int)
    requires 0 < current <= subnodes
    ensures Shown(branch, subnodes, current) == SizeToDepth(branch, subnodes - current + 1)
    decreases branch
  {
    if branch != [] {
      var e := branch[0];
      PositiveShowsToDepth(branch[1..], subnodes, current);
      if current < subnodes {
        PositiveShowsToDepth(e.directories, subnodes, current + 1);
        if e.directories == [] {
          assert SizeToDepth(e.directories, subnodes - current) == 0;
        }
      } else {
        assert SizeToDepth(e.directories, 0) == 0;
      }
    }
  }

  /**
   * A `$subnodes` of zero is neither "no limit" nor a limit that turns
   * entries into leaves: branches are drawn as branches but never opened,
   * so only the top level is shown.
   */
  lemma {:induction false} ZeroShowsTopLevel(branch: seq<Entry>, current: int)
    requires current >= 1
    ensures Shown(branch, 0, current) == |branch|
    ensures Nested(branch, 0, current) == 0
    decreases branch
  {
    if branch != [] {
      ZeroShowsTopLevel(branch[1..], current);
    }
  }

  /**
   * An item is drawn as a leaf exactly when `IsLeaf` holds, and carries a
   * nested list exactly when it is a branch whose level is below the limit.
   */
  lemma {:induction false} ItemShape(e: Entry, link: string, subnodes: int, current: int,
                  encode: string -> string, escape: string -> string)
    requires NoTagOpen(encode) && NoTagOpen(escape) && '<' !in link
    ensures var item := Item(e, link, subnodes, current, encode, escape);
      && (|item| >= 16 && item[..16] == "<li class=\"leaf\"" <==> IsLeaf(e, subnodes, current))
      && (CountLt(item) > 4 <==> !IsLeaf(e, subnodes, current) && Expands(subnodes, current))
  {
    ItemTagCount(e, link, subnodes, current, encode, escape);
    assert [e][1..] == [];
    var item := Item(e, link, subnodes, current, encode, escape);
    var newLink := ChildLink(link, e.name, encode);
    if IsLeaf(e, subnodes, current) {
      assert item[..16] == LeafItem(newLink, e.name, escape)[..16];
    } else {
      var head := BranchHead(newLink, e.name, escape);
      assert head[..18] == "<li class=\"branch\"";
      assert item[..16] == head[..16];
      assert item[..16][11] == head[..18][11] == 'b';
    }
  }

  /**
   * Below a directory named "0" the parent part of each link is dropped,
   * because PHP's `empty("0")` holds: every child of top-level "0" links
   * to its own encoded name, not to `"0/"` followed by it.
   */
  lemma {:induction false} ZeroNamedParentLink(encode: string -> string, name: string)
    requires encode("0") == "0"
    ensures ChildLink(ChildLink("", "0", encode), name, encode) == encode(name)
    ensures ChildLink(ChildLink("", "0", encode), name, encode) != "0/" + encode(name)
  {
  }
}
