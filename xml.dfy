/** CAP_XML: looking up a configuration value by a dotted element path,
    such as "database.host", in the parsed XML document. */
module Xml {

  import opened Strings

  /** A DOM node: an element with its tag and its child nodes in document
      order, or a text node. */
  datatype Node = Element(tag: string, children: seq<Node>) | Text(data: string)

  /** What a lookup gives: the value (getValue returns true and sets strDest),
      nothing (false, strDest left as it was), or a first child that is not
      text, which the lookup casts to a text node regardless. */
  datatype Lookup = Found(value: string) | NotFound | NotText

  /** Whether a node is an element with tag `tag`. */
  predicate Tagged(n: Node, tag: string) {
    n.Element? && n.tag == tag
  }

  /** getNextElementSibling from position j on: the first element among
      cs[j..], or |cs| when there is none. */
  function NextElement(cs: seq<Node>, j: nat): (k: nat)
    requires j <= |cs|
    ensures j <= k <= |cs|
    ensures k < |cs| ==> cs[k].Element?
    ensures forall m :: j <= m < k ==> !cs[m].Element?
    decreases |cs| - j
  {
    if j == |cs| || cs[j].Element? then j else NextElement(cs, j + 1)
  }

  /** The first element among cs[j..] tagged `tag`, or |cs| when there is none. */
  function FirstMatch(cs: seq<Node>, tag: string, j: nat): (k: nat)
    requires j <= |cs|
    ensures j <= k <= |cs|
    ensures k < |cs| ==> Tagged(cs[k], tag)
    ensures forall m :: j <= m < k ==> !Tagged(cs[m], tag)
    decreases |cs| - j
  {
    if j == |cs| || Tagged(cs[j], tag) then j else FirstMatch(cs, tag, j + 1)
  }

  /** searchNode as a function: an empty path asks for the element's text; a
      non-empty one descends into the first child element whose tag is the
      head of the path, and that branch's answer is final. */
  function Search(node: Node, path: seq<string>): Lookup
    requires node.Element?
    decreases node
  {
    if |path| == 0 then
      if |node.children| == 0 then NotFound
      else if node.children[0].Text? then Found(node.children[0].data)
      else NotText
    else
      var k := FirstMatch(node.children, path[0], 0);
      if k == |node.children| then NotFound else Search(node.children[k], path[1..])
  }

  /** searchNode: recursion down the path, and a walk along the siblings of
      the first child element until one carries the tag sought. */
  method SearchNode(node: Node, elemPath: seq<string>) returns (r: Lookup)
    requires node.Element?
    ensures r == Search(node, elemPath)
    decreases node
  {
    var cs := node.children;
    if |elemPath| == 0 {
      if |cs| == 0 {
        return NotFound;
      }
      var text := cs[0];
      if text.Text? {
        return Found(text.data);
      }
      return NotText;
    }
    var i := NextElement(cs, 0);
    if i == |cs| {
      return NotFound;
    }
    if cs[i].tag == elemPath[0] {
      r := SearchNode(cs[i], elemPath[1..]);
      return;
    }
    i := NextElement(cs, i + 1);
    while i < |cs|
      invariant i <= |cs|
      invariant i < |cs| ==> cs[i].Element?
      invariant FirstMatch(cs, elemPath[0], 0) == FirstMatch(cs, elemPath[0], i)
      decreases |cs| - i
    {
      if cs[i].tag == elemPath[0] {
        r := SearchNode(cs[i], elemPath[1..]);
        return;
      }
      i := NextElement(cs, i + 1);
    }
    return NotFound;
  }

  /** The element path cut at every '.'. */
  method ParsePath(strElem: string) returns (elemPath: seq<string>)
    ensures elemPath == Split(strElem, '.')
    ensures |elemPath| == Count(strElem, '.') + 1
    ensures forall k :: 0 <= k < |elemPath| ==> '.' !in elemPath[k]
    ensures Join(elemPath, '.') == strElem
  {
    elemPath := [];
    var nParseStart := 0;
    var nPeriod := Find(strElem, '.', 0);
    assert strElem[nParseStart..] == strElem;
    while nPeriod != -1
      invariant 0 <= nParseStart <= |strElem|
      invariant nPeriod == Find(strElem, '.', nParseStart)
      invariant elemPath + Split(strElem[nParseStart..], '.') == Split(strElem, '.')
      decreases |strElem| - nParseStart
    {
      SplitAtFound(strElem, '.', nParseStart, nPeriod);
      assert elemPath + [strElem[nParseStart..nPeriod]] + Split(strElem[nPeriod + 1..], '.')
          == elemPath + Split(strElem[nParseStart..], '.');
      elemPath := elemPath + [strElem[nParseStart..nPeriod]];
      nParseStart := nPeriod + 1;
      nPeriod := Find(strElem, '.', nParseStart);
    }
    SplitAtEnd(strElem, '.', nParseStart);
    assert elemPath + [strElem[nParseStart..]] == elemPath + Split(strElem[nParseStart..], '.');
    elemPath := elemPath + [strElem[nParseStart..]];
    SplitCount(strElem, '.');
    SplitPiecesFree(strElem, '.');
    JoinSplit(strElem, '.');
  }

  /** getValue: the path is matched from the document's root element down,
      the root's own tag not being part of it. */
  method GetValue(root: Node, elem: string) returns (r: Lookup)
    requires root.Element?
    ensures r == Search(root, Split(elem, '.'))
  {
    var elemPath := ParsePath(elem);
    r := SearchNode(root, elemPath);
  }

  // ---------------------------------------------------------------------------
  // What a lookup finds

  /** The path leads, through some choice of child elements with the path's
      tags, to an element whose first child is the text `v`. */
  ghost predicate Reaches(node: Node, path: seq<string>, v: string)
    decreases node
  {
    node.Element? &&
    if |path| == 0 then |node.children| > 0 && node.children[0] == Text(v)
    else exists k :: 0 <= k < |node.children| && Tagged(node.children[k], path[0])
                     && Reaches(node.children[k], path[1..], v)
  }

  /** No element has two child elements with the same tag. */
  ghost predicate UniqueTags(node: Node)
    decreases node
  {
    node.Element? ==>
      (forall i, j :: 0 <= i < j < |node.children| && node.children[i].Element? && node.children[j].Element?
        ==> node.children[i].tag != node.children[j].tag)
      && forall i :: 0 <= i < |node.children| ==> UniqueTags(node.children[i])
  }

  /** A value found is a value the path leads to. */
  lemma {:induction false} SearchSound(node: Node, path: seq<string>, v: string)
    requires node.Element? && Search(node, path) == Found(v)
    ensures Reaches(node, path, v)
    decreases node
  {
    if |path| > 0 {
      var k := FirstMatch(node.children, path[0], 0);
      SearchSound(node.children[k], path[1..], v);
    }
  }

  /** When sibling tags are unique, every value the path leads to is found. */
  lemma {:induction false} SearchComplete(node: Node, path: seq<string>, v: string)
    requires UniqueTags(node) && Reaches(node, path, v)
    ensures Search(node, path) == Found(v)
    decreases node
  {
    if |path| > 0 {
      var cs := node.children;
      var k :| 0 <= k < |cs| && Tagged(cs[k], path[0]) && Reaches(cs[k], path[1..], v);
      var m := FirstMatch(cs, path[0], 0);
      assert forall i :: 0 <= i < k ==> !Tagged(cs[i], path[0]);
      assert m == k;
      SearchComplete(cs[k], path[1..], v);
    }
  }

  /** There is no backtracking: when the first child element with the tag
      leads nowhere, a later sibling with the same tag is not tried. */
  lemma NoBacktracking()
    ensures var root := Element("config", [Element("db", []), Element("db", [Text("host")])]);
      Reaches(root, ["db"], "host") && Search(root, ["db"]) == NotFound
  {
    var inner := Element("db", [Text("host")]);
    var root := Element("config", [Element("db", []), inner]);
    assert Reaches(inner, [], "host");
    assert ["db"][1..] == [];
    assert Tagged(root.children[1], "db") && Reaches(root.children[1], ["db"][1..], "host");
  }

  /** A path that goes on below an element without child elements finds
      nothing, whatever text the element holds. */
  lemma NoElementChildren(node: Node, path: seq<string>)
    requires node.Element? && |path| > 0
    requires forall i :: 0 <= i < |node.children| ==> node.children[i].Text?
    ensures Search(node, path) == NotFound
  {
  }

  /** The root's tag plays no part in a lookup. */
  lemma RootTagIgnored(root: Node, tag: string, elem: string)
    requires root.Element?
    ensures Search(root.(tag := tag), Split(elem, '.')) == Search(root, Split(elem, '.'))
  {
  }
}
