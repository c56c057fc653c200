/**
 * The part of a parsed documentation comment that the generator reads: a
 * tree whose leaves are excerpts of comment text and whose inner nodes are
 * structural (sections, paragraphs, plain-text runs, tags, ...).
 */
module DocTree {

  /** Kinds of the structural nodes; an excerpt is its own constructor below. */
  datatype DocNodeKind =
    | Section | Paragraph | PlainText | SoftBreak | CodeSpan
    | Block | BlockTag | InlineTag | ModifierTag

  /** A documentation node: an excerpt leaf carrying text, or a node with ordered children. */
  datatype DocNode =
    | Excerpt(content: string)
    | Container(kind: DocNodeKind, children: seq<DocNode>)

  /** `extractExcerpts`: the text of an excerpt, or the concatenated texts of a node's children. */
  function ExtractExcerpts(node: DocNode): string
    decreases node, 1
  {
    match node
    case Excerpt(content) => content
    case Container(_, children) => ExtractFromAll(children)
  }

  /** The loop over `getChildNodes()`: the children's extracted texts, left to right. */
  function ExtractFromAll(nodes: seq<DocNode>): string
    decreases nodes, 0
  {
    if |nodes| == 0 then "" else ExtractExcerpts(nodes[0]) + ExtractFromAll(nodes[1..])
  }

  /** Every node of the tree in document (pre-) order, the node itself first. */
  function Preorder(node: DocNode): (nodes: seq<DocNode>)
    ensures |nodes| >= 1 && nodes[0] == node
    decreases node, 1
  {
    match node
    case Excerpt(_) => [node]
    case Container(_, children) => [node] + PreorderAll(children)
  }

  function PreorderAll(nodes: seq<DocNode>): seq<DocNode>
    decreases nodes, 0
  {
    if |nodes| == 0 then [] else Preorder(nodes[0]) + PreorderAll(nodes[1..])
  }

  /** The texts of the excerpt nodes among `nodes`, in the same order. */
  function ExcerptTexts(nodes: seq<DocNode>): seq<string>
  {
    if |nodes| == 0 then []
    else (if nodes[0].Excerpt? then [nodes[0].content] else []) + ExcerptTexts(nodes[1..])
  }

  /** All strings of `texts` concatenated in order. */
  function Concat(texts: seq<string>): string
  {
    if |texts| == 0 then "" else texts[0] + Concat(texts[1..])
  }

  lemma {:induction false} ExcerptTextsAppend(a: seq<DocNode>, b: seq<DocNode>)
    ensures ExcerptTexts(a + b) == ExcerptTexts(a) + ExcerptTexts(b)
    decreases |a|
  {
    if |a| == 0 {
      assert a + b == b;
    } else {
      assert (a + b)[1..] == a[1..] + b;
      ExcerptTextsAppend(a[1..], b);
    }
  }

  lemma {:induction false} ConcatAppend(a: seq<string>, b: seq<string>)
    ensures Concat(a + b) == Concat(a) + Concat(b)
    decreases |a|
  {
    if |a| == 0 {
      assert a + b == b;
    } else {
      assert (a + b)[1..] == a[1..] + b;
      ConcatAppend(a[1..], b);
    }
  }

  /**
   * The extracted text of a tree is the concatenation, in document order, of
   * the contents of all its excerpt leaves.
   */
  lemma {:induction false} ExtractIsExcerptsInDocumentOrder(node: DocNode)
    ensures ExtractExcerpts(node) == Concat(ExcerptTexts(Preorder(node)))
    decreases node, 1
  {
    match node
    case Excerpt(content) =>
      assert ExcerptTexts([node]) == [content];
    case Container(_, children) =>
      ExtractAllIsExcerptsInDocumentOrder(children);
      ExcerptTextsAppend([node], PreorderAll(children));
      assert ExcerptTexts([node]) == [];
      assert ExcerptTexts(Preorder(node)) == ExcerptTexts(PreorderAll(children));
  }

  lemma {:induction false} ExtractAllIsExcerptsInDocumentOrder(nodes: seq<DocNode>)
    ensures ExtractFromAll(nodes) == Concat(ExcerptTexts(PreorderAll(nodes)))
    decreases nodes, 0
  {
    if |nodes| > 0 {
      ExtractIsExcerptsInDocumentOrder(nodes[0]);
      ExtractAllIsExcerptsInDocumentOrder(nodes[1..]);
      ExcerptTextsAppend(Preorder(nodes[0]), PreorderAll(nodes[1..]));
      ConcatAppend(ExcerptTexts(Preorder(nodes[0])), ExcerptTexts(PreorderAll(nodes[1..])));
    }
  }

  /** A tree without excerpt leaves yields the empty string. */
  lemma NoExcerptsNoText(node: DocNode)
    requires forall k :: 0 <= k < |Preorder(node)| ==> !Preorder(node)[k].Excerpt?
    ensures ExtractExcerpts(node) == ""
  {
    NoExcerptTexts(Preorder(node));
    ExtractIsExcerptsInDocumentOrder(node);
  }

  lemma {:induction false} NoExcerptTexts(nodes: seq<DocNode>)
    requires forall k :: 0 <= k < |nodes| ==> !nodes[k].Excerpt?
    ensures ExcerptTexts(nodes) == []
    decreases |nodes|
  {
    if |nodes| > 0 {
      NoExcerptTexts(nodes[1..]);
    }
  }
}
