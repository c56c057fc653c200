/** Tag definitions and the word each syntax kind gets in a configuration file. */
module TagDefinitions {
  import opened Wrappers

  /** The closed set of tag syntax kinds. */
  datatype TagSyntaxKind = InlineTag | BlockTag | ModifierTag

  /** One recognised tag: its name (starting with '@'), its syntax kind and whether it may repeat. */
  datatype TagDefinition = TagDefinition(tagName: string, syntaxKind: TagSyntaxKind, allowMultiple: bool)

  /** The placeholder word the generator starts from before dispatching on the kind. */
  const UnknownLabel: string := "??"

  /** The `syntaxKind` word written for a definition. */
  function SyntaxKindLabel(kind: TagSyntaxKind): (word: string)
    ensures word != UnknownLabel
    ensures word == "block" || word == "modifier" || word == "inline"
  {
    match kind
    case BlockTag => "block"
    case ModifierTag => "modifier"
    case InlineTag => "inline"
  }

  /** Reading a word back: the kind a word names, if any. */
  function ParseSyntaxKind(word: string): (kind: Option<TagSyntaxKind>)
    ensures kind.Some? <==> word == "block" || word == "modifier" || word == "inline"
  {
    if word == "block" then Some(BlockTag)
    else if word == "modifier" then Some(ModifierTag)
    else if word == "inline" then Some(InlineTag)
    else None
  }

  /** Every kind's word reads back as that kind, and only the labels of kinds read back. */
  lemma LabelRoundTrip(kind: TagSyntaxKind, word: string)
    ensures ParseSyntaxKind(SyntaxKindLabel(kind)) == Some(kind)
    ensures ParseSyntaxKind(word) == Some(kind) <==> word == SyntaxKindLabel(kind)
  {
  }

  /** Distinct kinds get distinct labels. */
  lemma LabelInjective(k1: TagSyntaxKind, k2: TagSyntaxKind)
    ensures SyntaxKindLabel(k1) == SyntaxKindLabel(k2) <==> k1 == k2
  {
    LabelRoundTrip(k1, SyntaxKindLabel(k2));
  }
}
