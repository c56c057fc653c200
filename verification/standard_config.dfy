/**
 * Generation of the standard tag configuration file (`tsdoc-standard.json`):
 * a fixed header, one record per tag definition (preceded by the tag's
 * word-wrapped summary as `//` comment lines), a comma and a blank line
 * between records, and a fixed footer, all joined with line feeds.
 */
module StandardConfig {
  import opened Wrappers
  import opened Text
  import opened DocTree
  import opened TagDefinitions

  // ---------------------------------------------------------------------------
  // Inputs
  // ---------------------------------------------------------------------------

  /**
   * A member of the documented `StandardTags` class as the API model reports
   * it: a documented item with the summary section of its doc comment (absent
   * when the item has no doc comment), or an item of some other kind.
   */
  datatype ApiItem = DocumentedItem(summarySection: Option<DocNode>) | OtherItem

  /** The first member of `StandardTags` found under each name. */
  type ApiMembers = map<string, ApiItem>

  /** The word-wrapping step (80 columns, no indent), supplied by the caller. */
  type Wrapper = string -> string

  /** Why generation stopped. */
  datatype GenError = MissingDefinition(tagName: string)

  function ErrorMessage(e: GenError): string
  {
    "Unable to find definition for " + e.tagName
  }

  /** A definition together with the comment lines emitted in front of its record. */
  datatype Entry = Entry(definition: TagDefinition, comments: seq<string>)

  // ---------------------------------------------------------------------------
  // Fixed lines (long ones are written as concatenations of shorter literals
  // only so that the verifier can see their individual characters)
  // ---------------------------------------------------------------------------

  const BannerLine: string :=
    "// This file defines the " + "standard TSDoc tags.  Your " + "tsdoc.json config file"
  const BannerBlankLine: string := "// "
  const GeneratedNoteLine: string :=
    "// (THIS IS A " + "MACHINE-GENERATED FILE.  To " + "make a change, edit the " + "StandardTags.ts source " + "file.)"
  const OpenObjectLine: string := "{"
  const SchemaLine: string :=
    "  \"$schema\": " + "\"https://developer.microsoft" + ".com/json-schemas/tsdoc/v0/t" + "sdoc.schema.json\","
  const TagDefinitionsLine: string := "  \"tagDefinitions\": ["
  const CloseArrayLine: string := "  ],"
  const SupportNoteLine: string :=
    "  // Note: Adding at least " + "one entry to this list " + "enables warnings for " + "unsupported tags"
  const SupportForTagsLine: string := "  \"supportForTags\": { }"
  const CloseObjectLine: string := "}"

  const Header: seq<string> :=
    [BannerLine, BannerBlankLine, GeneratedNoteLine, OpenObjectLine, SchemaLine, "", TagDefinitionsLine]

  const Footer: seq<string> :=
    [CloseArrayLine, "", SupportNoteLine, SupportForTagsLine, CloseObjectLine]

  const OpenLine: string := "    {"
  const CloseLine: string := "    }"
  const CloseLineWithComma: string := "    },"
  const TagNamePrefix: string := "      \"tagName\": \""
  const TagNameSuffix: string := "\","
  const SyntaxKindPrefix: string := "      \"syntaxKind\": \""
  const SyntaxKindSuffix: string := "\""
  const CommentPrefix: string := "    // "

  function TagNameLine(tagName: string): string
  {
    TagNamePrefix + tagName + TagNameSuffix
  }

  function SyntaxKindLine(kind: TagSyntaxKind): string
  {
    SyntaxKindPrefix + SyntaxKindLabel(kind) + SyntaxKindSuffix
  }

  /** The four lines of one record, closed by `closer`. */
  function Record(d: TagDefinition, closer: string): seq<string>
  {
    [OpenLine, TagNameLine(d.tagName), SyntaxKindLine(d.syntaxKind), closer]
  }

  // ---------------------------------------------------------------------------
  // Summary comments
  // ---------------------------------------------------------------------------

  predicate IsCommentLine(line: string)
  {
    |line| >= |CommentPrefix| && line[..|CommentPrefix|] == CommentPrefix
  }

  predicate AllCommentLines(lines: seq<string>)
  {
    forall k :: 0 <= k < |lines| ==> IsCommentLine(lines[k])
  }

  function Uncomment(line: string): string
    requires IsCommentLine(line)
  {
    line[|CommentPrefix|..]
  }

  function UncommentAll(lines: seq<string>): seq<string>
    requires AllCommentLines(lines)
  {
    seq(|lines|, k requires 0 <= k < |lines| => Uncomment(lines[k]))
  }

  /** Each line of the wrapped summary, prefixed as a comment. */
  function CommentLines(summary: string): (lines: seq<string>)
    ensures AllCommentLines(lines)
    ensures forall k :: 0 <= k < |lines| ==> '\n' !in lines[k]
  {
    var parts := Split(summary, '\n');
    seq(|parts|, k requires 0 <= k < |parts| => CommentPrefix + parts[k])
  }

  /**
   * The comment lines hold one line per line of the summary, every one of
   * them a comment line, and removing the prefixes and joining them with line
   * feeds gives back the summary.
   */
  lemma CommentLinesRoundTrip(summary: string)
    ensures |CommentLines(summary)| == Count(summary, '\n') + 1
    ensures AllCommentLines(CommentLines(summary))
    ensures Join(UncommentAll(CommentLines(summary)), '\n') == summary
  {
    var parts := Split(summary, '\n');
    var lines := CommentLines(summary);
    forall k | 0 <= k < |lines|
      ensures Uncomment(lines[k]) == parts[k]
    {
      assert lines[k] == CommentPrefix + parts[k];
    }
    assert UncommentAll(lines) == parts;
    JoinSplit(summary, '\n');
  }

  // ---------------------------------------------------------------------------
  // Looking up the documentation of a definition
  // ---------------------------------------------------------------------------

  /** `tagName.substring(1)`: the member name, i.e. the tag name without its '@'. */
  function LookupKey(tagName: string): (key: string)
    ensures |tagName| > 0 ==> tagName == [tagName[0]] + key
    ensures |tagName| == 0 ==> key == ""
  {
    if |tagName| == 0 then "" else tagName[1..]
  }

  predicate IsDocumented(d: TagDefinition, members: ApiMembers)
  {
    LookupKey(d.tagName) in members && members[LookupKey(d.tagName)].DocumentedItem?
  }

  /** The wrapped summary text of a documented definition, if its item has a doc comment. */
  function SummaryText(d: TagDefinition, members: ApiMembers, wrap: Wrapper): Option<string>
    requires IsDocumented(d, members)
  {
    match members[LookupKey(d.tagName)].summarySection
    case None => None
    case Some(section) => Some(wrap(ExtractExcerpts(section)))
  }

  /**
   * The comment lines for one definition: an error naming the tag when its
   * member is missing or undocumented, no lines when the member has no doc
   * comment, and otherwise one comment line per line of the wrapped summary.
   */
  function Comments(d: TagDefinition, members: ApiMembers, wrap: Wrapper): (r: Result<seq<string>, GenError>)
    ensures r.Err? <==> !IsDocumented(d, members)
    ensures r.Err? ==> r.error == MissingDefinition(d.tagName)
    ensures r.Ok? ==> AllCommentLines(r.value)
    ensures r.Ok? ==> forall k :: 0 <= k < |r.value| ==> '\n' !in r.value[k]
    ensures r.Ok? ==> (r.value == [] <==> SummaryText(d, members, wrap).None?)
  {
    var key := LookupKey(d.tagName);
    if key !in members || !members[key].DocumentedItem? then Err(MissingDefinition(d.tagName))
    else
      match members[key].summarySection
      case None => Ok([])
      case Some(section) => Ok(CommentLines(wrap(ExtractExcerpts(section))))
  }

  /** The comment lines of a documented definition carry exactly its wrapped summary. */
  lemma CommentsCarrySummary(d: TagDefinition, members: ApiMembers, wrap: Wrapper)
    requires IsDocumented(d, members)
    ensures Comments(d, members, wrap).Ok?
    ensures var lines := Comments(d, members, wrap).value;
            match SummaryText(d, members, wrap)
            case None => lines == []
            case Some(text) => lines != [] && Join(UncommentAll(lines), '\n') == text
  {
    match SummaryText(d, members, wrap)
    case None =>
    case Some(text) => CommentLinesRoundTrip(text);
  }

  /** The entries of all definitions in order, or the error of the first undocumented one. */
  function ResolveAll(defs: seq<TagDefinition>, members: ApiMembers, wrap: Wrapper): (r: Result<seq<Entry>, GenError>)
    ensures r.Ok? <==> forall i :: 0 <= i < |defs| ==> IsDocumented(defs[i], members)
    ensures r.Ok? ==> |r.value| == |defs|
    ensures r.Ok? ==> forall i :: 0 <= i < |defs| ==>
                        r.value[i].definition == defs[i] && Comments(defs[i], members, wrap) == Ok(r.value[i].comments)
    decreases |defs|
  {
    if |defs| == 0 then Ok([])
    else
      match Comments(defs[0], members, wrap)
      case Err(e) => Err(e)
      case Ok(c) =>
        match ResolveAll(defs[1..], members, wrap)
        case Err(e) => Err(e)
        case Ok(es) =>
          assert forall i :: 1 <= i < |defs| ==> defs[i] == defs[1..][i - 1];
          Ok([Entry(defs[0], c)] + es)
  }

  /** Resolution reports the first undocumented definition. */
  lemma {:induction false} ResolveAllFailsAtFirstMissing(defs: seq<TagDefinition>, members: ApiMembers, wrap: Wrapper, i: nat)
    requires i < |defs| && !IsDocumented(defs[i], members)
    requires forall j :: 0 <= j < i ==> IsDocumented(defs[j], members)
    ensures ResolveAll(defs, members, wrap) == Err(MissingDefinition(defs[i].tagName))
    decreases i
  {
    if i > 0 {
      assert IsDocumented(defs[0], members);
      ResolveAllFailsAtFirstMissing(defs[1..], members, wrap, i - 1);
    }
  }

  /** Resolving a longer list extends the resolution of its prefix by one entry, or stops at the new definition. */
  lemma {:induction false} ResolveAllSnoc(defs: seq<TagDefinition>, d: TagDefinition, members: ApiMembers, wrap: Wrapper)
    requires ResolveAll(defs, members, wrap).Ok?
    ensures ResolveAll(defs + [d], members, wrap) ==
              match Comments(d, members, wrap)
              case Err(e) => Err(e)
              case Ok(c) => Ok(ResolveAll(defs, members, wrap).value + [Entry(d, c)])
    decreases |defs|
  {
    var all := defs + [d];
    if |defs| == 0 {
      assert all == [d];
      assert all[1..] == [];
      match Comments(d, members, wrap)
      case Err(e) =>
      case Ok(c) =>
        assert [Entry(d, c)] + [] == [] + [Entry(d, c)];
    } else {
      assert all[0] == defs[0];
      assert all[1..] == defs[1..] + [d];
      var c0 := Comments(defs[0], members, wrap).value;
      var rest := ResolveAll(defs[1..], members, wrap);
      assert rest.Ok?;
      ResolveAllSnoc(defs[1..], d, members, wrap);
      match Comments(d, members, wrap)
      case Err(e) =>
      case Ok(c) =>
        assert ResolveAll(defs, members, wrap).value == [Entry(defs[0], c0)] + rest.value;
        assert [Entry(defs[0], c0)] + (rest.value + [Entry(d, c)]) == ([Entry(defs[0], c0)] + rest.value) + [Entry(d, c)];
    }
  }

  // ---------------------------------------------------------------------------
  // The generated lines
  // ---------------------------------------------------------------------------

  /** The lines of one entry: its comments, then its record. */
  function EntryLines(e: Entry, closer: string): seq<string>
  {
    e.comments + Record(e.definition, closer)
  }

  /**
   * The records section: every entry but the last is closed by `    },` and
   * followed by a blank line; the last is closed by `    }`.
   */
  function Body(es: seq<Entry>): seq<string>
    decreases |es|
  {
    if |es| == 0 then []
    else if |es| == 1 then EntryLines(es[0], CloseLine)
    else EntryLines(es[0], CloseLineWithComma) + [""] + Body(es[1..])
  }

  /** The lines of the configuration file, or the error that stops generation. */
  function Generate(defs: seq<TagDefinition>, members: ApiMembers, wrap: Wrapper): (r: Result<seq<string>, GenError>)
    ensures r.Ok? <==> forall i :: 0 <= i < |defs| ==> IsDocumented(defs[i], members)
    ensures r.Ok? ==> |Header| + |Footer| <= |r.value|
                      && r.value[..|Header|] == Header && r.value[|r.value| - |Footer|..] == Footer
  {
    match ResolveAll(defs, members, wrap)
    case Err(e) => Err(e)
    case Ok(es) => Ok(Header + Body(es) + Footer)
  }

  /** `outputLines.join('\n')`. */
  function GenerateContent(defs: seq<TagDefinition>, members: ApiMembers, wrap: Wrapper): (r: Result<string, GenError>)
    ensures r.Ok? <==> forall i :: 0 <= i < |defs| ==> IsDocumented(defs[i], members)
  {
    match Generate(defs, members, wrap)
    case Err(e) => Err(e)
    case Ok(lines) => Ok(Join(lines, '\n'))
  }

  /** `lines[lines.length - 1] += ','`. */
  function AppendComma(lines: seq<string>): seq<string>
    requires |lines| > 0
  {
    lines[..|lines| - 1] + [lines[|lines| - 1] + ","]
  }

  lemma AppendCommaAfter(h: seq<string>, b: seq<string>)
    requires |b| > 0
    ensures AppendComma(h + b) == h + AppendComma(b)
  {
    assert (h + b)[..|h + b| - 1] == h + b[..|b| - 1];
  }

  lemma CommaClosesRecord(e: Entry)
    ensures AppendComma(EntryLines(e, CloseLine)) == EntryLines(e, CloseLineWithComma)
  {
    var lines := EntryLines(e, CloseLine);
    assert CloseLine + "," == CloseLineWithComma;
    assert lines[..|lines| - 1] == e.comments + [OpenLine, TagNameLine(e.definition.tagName), SyntaxKindLine(e.definition.syntaxKind)];
  }

  /** Adding one entry at the end puts a comma on the previous last line, then a blank line and the new entry. */
  lemma {:induction false} BodySnoc(es: seq<Entry>, e: Entry)
    requires |es| > 0
    ensures |Body(es)| > 0
    ensures Body(es + [e]) == AppendComma(Body(es)) + [""] + EntryLines(e, CloseLine)
    decreases |es|
  {
    var all := es + [e];
    assert all[0] == es[0];
    assert all[1..] == es[1..] + [e];
    if |es| == 1 {
      CommaClosesRecord(es[0]);
      assert all[1..] == [e];
    } else {
      BodySnoc(es[1..], e);
      var head := EntryLines(es[0], CloseLineWithComma) + [""];
      var tail := Body(es[1..]);
      assert Body(es) == head + tail;
      AppendCommaAfter(head, tail);
    }
  }

  /** One turn of the generator's loop, for a documented definition. */
  lemma EmitStep(defs: seq<TagDefinition>, i: nat, es: seq<Entry>, comments: seq<string>, members: ApiMembers, wrap: Wrapper)
    requires i < |defs|
    requires ResolveAll(defs[..i], members, wrap) == Ok(es)
    requires Comments(defs[i], members, wrap) == Ok(comments)
    ensures ResolveAll(defs[..i + 1], members, wrap) == Ok(es + [Entry(defs[i], comments)])
    ensures Header + Body(es + [Entry(defs[i], comments)]) ==
              (if i == 0 then Header else AppendComma(Header + Body(es)) + [""]) + comments + Record(defs[i], CloseLine)
  {
    assert defs[..i + 1] == defs[..i] + [defs[i]];
    ResolveAllSnoc(defs[..i], defs[i], members, wrap);
    var e := Entry(defs[i], comments);
    var before := if i == 0 then Header else AppendComma(Header + Body(es)) + [""];
    if i == 0 {
      assert es + [e] == [e];
      FramedFirst(Header, e);
    } else {
      FramedNext(Header, es, e);
    }
    AppendAssoc(before, comments, Record(defs[i], CloseLine));
  }

  /** The first record below a header `h` follows it directly. */
  lemma FramedFirst(h: seq<string>, e: Entry)
    ensures h + Body([e]) == h + EntryLines(e, CloseLine)
  {
  }

  /** A later record below a header `h`: a comma on the previous last line, then a blank line. */
  lemma FramedNext(h: seq<string>, es: seq<Entry>, e: Entry)
    requires |es| > 0
    ensures h + Body(es + [e]) == AppendComma(h + Body(es)) + [""] + EntryLines(e, CloseLine)
  {
    BodySnoc(es, e);
    assert h + Body(es + [e]) == h + (AppendComma(Body(es)) + [""] + EntryLines(e, CloseLine));
    CommaAfterPrefix(h, Body(es), EntryLines(e, CloseLine));
  }

  /** Patching a comma onto the last of `b` and appending `y` commutes with a prefix `h`. */
  lemma CommaAfterPrefix(h: seq<string>, b: seq<string>, y: seq<string>)
    requires |b| > 0
    ensures h + (AppendComma(b) + [""] + y) == AppendComma(h + b) + [""] + y
  {
    AppendCommaAfter(h, b);
    AppendAssoc(h, AppendComma(b) + [""], y);
    AppendAssoc(h, AppendComma(b), [""]);
  }

  /** The loop stops at an undocumented definition exactly as resolution does. */
  lemma EmitStops(defs: seq<TagDefinition>, i: nat, es: seq<Entry>, members: ApiMembers, wrap: Wrapper)
    requires i < |defs| && !IsDocumented(defs[i], members)
    requires ResolveAll(defs[..i], members, wrap) == Ok(es)
    ensures Generate(defs, members, wrap) == Err(MissingDefinition(defs[i].tagName))
  {
    forall j | 0 <= j < i
      ensures IsDocumented(defs[j], members)
    {
      assert defs[..i][j] == defs[j];
    }
    ResolveAllFailsAtFirstMissing(defs, members, wrap, i);
  }

  /**
   * The generator's loop as written: a running list of lines, a first-item
   * flag, a comma patched onto the previous last line before every record but
   * the first, and an early stop at the first undocumented definition. It
   * produces exactly the lines `Generate` describes.
   */
  method EmitLines(defs: seq<TagDefinition>, members: ApiMembers, wrap: Wrapper) returns (r: Result<seq<string>, GenError>)
    ensures r == Generate(defs, members, wrap)
  {
    var outputLines := Header;
    var firstItem := true;
    ghost var es: seq<Entry> := [];
    var i := 0;
    while i < |defs|
      invariant 0 <= i <= |defs|
      invariant firstItem <==> i == 0
      invariant |es| == i && ResolveAll(defs[..i], members, wrap) == Ok(es)
      invariant outputLines == Header + Body(es)
    {
      var d := defs[i];
      if firstItem {
        firstItem := false;
      } else {
        outputLines := AppendComma(outputLines);
        outputLines := outputLines + [""];
      }
      var documented := Comments(d, members, wrap);
      if documented.Err? {
        EmitStops(defs, i, es, members, wrap);
        return Err(documented.error);
      }
      var comments := documented.value;
      outputLines := outputLines + comments + Record(d, CloseLine);
      EmitStep(defs, i, es, comments, members, wrap);
      es := es + [Entry(d, comments)];
      i := i + 1;
    }
    assert defs[..i] == defs;
    r := Ok(outputLines + Footer);
  }
}
