/**
 * The canvas app's navigation menu: the menu tree, its conversion to the UI
 * library's item format, and the resolution of a location path to the key of
 * the menu entry to highlight.
 */
module Menu {
  import opened Wrappers
  import opened Sequences

  /** A menu entry; icons, permissions and dividers carry no behaviour here. An
      absent child list is the empty one: every use treats the two alike. */
  datatype MenuItem = MenuItem(key: string, labelText: string, path: string, children: seq<MenuItem>)

  /** An entry in the UI library's format. */
  datatype AntdItem = AntdItem(key: string, labelText: string, children: Option<seq<AntdItem>>)

  /** The configured menu. */
  const MenuItems: seq<MenuItem> := [
    MenuItem("canvas", "AI画布", "/canvas", []),
    MenuItem("graph", "图表分析", "/graph", []),
    MenuItem("dev", "开发工具", "/dev", [
      MenuItem("api-test", "API测试", "/dev/api-test", []),
      MenuItem("code-gen", "代码生成", "/dev/code-gen", [])]),
    MenuItem("settings", "系统设置", "/settings", [])]

  predicate HasChildren(item: MenuItem) {
    |item.children| > 0
  }

  // ---------------------------------------------------------------------------
  // Conversion to the UI library's format

  /** `converted` keeps the keys, labels, order and nesting of `items`; an entry
      gets a child list exactly when its source entry has a non-empty one. */
  ghost predicate SameShape(items: seq<MenuItem>, converted: seq<AntdItem>)
    decreases items
  {
    && |converted| == |items|
    && forall i :: 0 <= i < |items| ==>
         && converted[i].key == items[i].key
         && converted[i].labelText == items[i].labelText
         && (converted[i].children.Some? <==> HasChildren(items[i]))
         && (HasChildren(items[i]) ==> SameShape(items[i].children, converted[i].children.value))
  }

  function ToAntdItem(item: MenuItem): (r: AntdItem)
    decreases item, 1
    ensures r.key == item.key && r.labelText == item.labelText
    ensures r.children.Some? <==> HasChildren(item)
    ensures HasChildren(item) ==> SameShape(item.children, r.children.value)
  {
    AntdItem(item.key, item.labelText,
      if HasChildren(item) then Some(GetAntdMenuItems(item.children)) else None)
  }

  function GetAntdMenuItems(items: seq<MenuItem>): (r: seq<AntdItem>)
    decreases items, 0
    ensures SameShape(items, r)
  {
    seq(|items|, i requires 0 <= i < |items| => ToAntdItem(items[i]))
  }

  // ---------------------------------------------------------------------------
  // Path strings

  /** The string with one leading '/' removed, if it has one. */
  function StripLeadingSlash(s: string): string {
    if |s| > 0 && s[0] == '/' then s[1..] else s
  }

  // ---------------------------------------------------------------------------
  // Menu search

  predicate PathMatches(item: MenuItem, path: string) {
    item.path == path || item.path == "/" + path
  }

  /** Depth-first search in declaration order, an entry before its children. */
  function FindMenuItem(items: seq<MenuItem>, path: string): Option<MenuItem>
    decreases items, 0
  {
    if items == [] then None
    else
      var here := FindInItem(items[0], path);
      if here.Some? then here else FindMenuItem(items[1..], path)
  }

  function FindInItem(item: MenuItem, path: string): Option<MenuItem>
    decreases item, 1
  {
    if PathMatches(item, path) then Some(item)
    else FindMenuItem(item.children, path)
  }

  /** All entries of the tree, each before its children: the independent
      reference for the search order. */
  function Preorder(items: seq<MenuItem>): seq<MenuItem>
    decreases items, 0
  {
    if items == [] then [] else ItemPreorder(items[0]) + Preorder(items[1..])
  }

  function ItemPreorder(item: MenuItem): seq<MenuItem>
    decreases item, 1
  {
    [item] + Preorder(item.children)
  }

  /** The first entry of a sequence whose path matches. */
  function FirstMatch(entries: seq<MenuItem>, path: string): Option<MenuItem> {
    if entries == [] then None
    else if PathMatches(entries[0], path) then Some(entries[0])
    else FirstMatch(entries[1..], path)
  }

  lemma {:induction false} FirstMatchAppend(a: seq<MenuItem>, b: seq<MenuItem>, path: string)
    ensures FirstMatch(a + b, path) == if FirstMatch(a, path).Some? then FirstMatch(a, path) else FirstMatch(b, path)
  {
    if a != [] {
      assert (a + b)[1..] == a[1..] + b;
      FirstMatchAppend(a[1..], b, path);
    } else {
      assert a + b == b;
    }
  }

  /** The search returns the first matching entry of the preorder listing. */
  lemma {:induction false} FindIsFirstInPreorder(items: seq<MenuItem>, path: string)
    decreases items, 0
    ensures FindMenuItem(items, path) == FirstMatch(Preorder(items), path)
  {
    if items != [] {
      FindInItemIsFirst(items[0], path);
      FindIsFirstInPreorder(items[1..], path);
      FirstMatchAppend(ItemPreorder(items[0]), Preorder(items[1..]), path);
    }
  }

  lemma {:induction false} FindInItemIsFirst(item: MenuItem, path: string)
    decreases item, 1
    ensures FindInItem(item, path) == FirstMatch(ItemPreorder(item), path)
  {
    var below := Preorder(item.children);
    assert ([item] + below)[1..] == below;
    FindIsFirstInPreorder(item.children, path);
  }

  /** A found entry matches the path and is one of the tree's entries. */
  lemma {:induction false} FoundIsMatchingEntry(items: seq<MenuItem>, path: string)
    ensures FindMenuItem(items, path).Some? ==>
      PathMatches(FindMenuItem(items, path).value, path) && FindMenuItem(items, path).value in Preorder(items)
    ensures FindMenuItem(items, path).None? ==> forall e :: e in Preorder(items) ==> !PathMatches(e, path)
  {
    FindIsFirstInPreorder(items, path);
    FirstMatchSound(Preorder(items), path);
  }

  lemma {:induction false} FirstMatchSound(entries: seq<MenuItem>, path: string)
    ensures FirstMatch(entries, path).Some? ==>
      PathMatches(FirstMatch(entries, path).value, path) && FirstMatch(entries, path).value in entries
    ensures FirstMatch(entries, path).None? ==> forall e :: e in entries ==> !PathMatches(e, path)
  {
    if entries != [] {
      FirstMatchSound(entries[1..], path);
    }
  }

  // ---------------------------------------------------------------------------
  // Selected keys

  /** The path tried first: the location with a single leading '/'. */
  function FullPath(pathname: string): string {
    "/" + Join(Split(StripLeadingSlash(pathname), '/'), "/")
  }

  /** The key to highlight for a location, searching `items`. */
  function SelectedKeys(items: seq<MenuItem>, pathname: string): seq<string> {
    var paths := Split(StripLeadingSlash(pathname), '/');
    if paths[0] == "" then ["canvas"]
    else
      var fullPath := "/" + Join(paths, "/");
      var menuItem := FindMenuItem(items, fullPath);
      if menuItem.Some? then [menuItem.value.key]
      else if |paths| > 0 then
        var firstLevel := FindMenuItem(items, "/" + paths[0]);
        if firstLevel.Some? then [firstLevel.value.key] else []
      else []
  }

  /** The key to highlight for a location in the configured menu. */
  function GetSelectedKeys(pathname: string): seq<string> {
    SelectedKeys(MenuItems, pathname)
  }

  /** The first path segment: what precedes the first '/' after one leading '/'
      is removed. */
  function FirstSegment(pathname: string): string {
    Split(StripLeadingSlash(pathname), '/')[0]
  }

  /** The path tried first is the location itself when it starts with '/', and
      the location with '/' prepended otherwise. */
  lemma FullPathIsNormalised(pathname: string)
    ensures FullPath(pathname) == if |pathname| > 0 && pathname[0] == '/' then pathname else "/" + pathname
  {
    JoinSplit(StripLeadingSlash(pathname), '/');
    if |pathname| > 0 && pathname[0] == '/' {
      assert pathname == "/" + pathname[1..];
    }
  }

  /** What the key resolution promises, for every menu and every location. */
  lemma SelectedKeysSpec(items: seq<MenuItem>, pathname: string)
    ensures |SelectedKeys(items, pathname)| <= 1
    ensures FirstSegment(pathname) == "" ==> SelectedKeys(items, pathname) == ["canvas"]
    ensures FirstSegment(pathname) != "" ==>
      SelectedKeys(items, pathname) ==
        if FirstMatch(Preorder(items), FullPath(pathname)).Some? then
          [FirstMatch(Preorder(items), FullPath(pathname)).value.key]
        else if FirstMatch(Preorder(items), "/" + FirstSegment(pathname)).Some? then
          [FirstMatch(Preorder(items), "/" + FirstSegment(pathname)).value.key]
        else []
  {
    FindIsFirstInPreorder(items, FullPath(pathname));
    FindIsFirstInPreorder(items, "/" + FirstSegment(pathname));
  }

  /** The empty first segment comes exactly from "", "/" and locations whose
      remainder after one leading '/' starts with another '/'. */
  lemma EmptyFirstSegment(pathname: string)
    ensures FirstSegment(pathname) == "" <==>
      var rest := StripLeadingSlash(pathname); |rest| == 0 || rest[0] == '/'
  {
    SplitHead(StripLeadingSlash(pathname), '/');
  }

  lemma HomeSelectsCanvas()
    ensures GetSelectedKeys("/") == ["canvas"]
    ensures GetSelectedKeys("") == ["canvas"]
  {
  }
}
