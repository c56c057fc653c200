/**
 * A reader for the record layout the generator writes. It recovers, in file
 * order, each record's tag name and syntax kind together with the summary
 * held by the `//` comment lines directly in front of it; the round-trip
 * theorems below show that it recovers exactly the definitions generated.
 */
module RecordReader {
  import opened Wrappers
  import opened Text
  import opened TagDefinitions
  import opened StandardConfig

  /** What a reader learns about one tag from the file. */
  datatype TagRecord = TagRecord(tagName: string, syntaxKind: TagSyntaxKind, summary: Option<string>)

  /** The text between a known prefix and a known suffix of `line`, if it has both. */
  function Unwrap(line: string, prefix: string, suffix: string): (inner: Option<string>)
    ensures inner.Some? ==> line == prefix + inner.value + suffix
  {
    if |line| >= |prefix| + |suffix| && line[..|prefix|] == prefix && line[|line| - |suffix|..] == suffix
    then
      var inner := line[|prefix|..|line| - |suffix|];
      assert line == line[..|prefix|] + inner + line[|line| - |suffix|..];
      Some(inner)
    else None
  }

  lemma UnwrapWrapped(prefix: string, inner: string, suffix: string)
    ensures Unwrap(prefix + inner + suffix, prefix, suffix) == Some(inner)
  {
    var line := prefix + inner + suffix;
    assert line[..|prefix|] == prefix;
    assert line[|line| - |suffix|..] == suffix;
    assert line[|prefix|..|line| - |suffix|] == inner;
  }

  /** Reads a four-line record, attaching the given summary. */
  function ReadRecord(lines: seq<string>, summary: Option<string>): Option<TagRecord>
    requires |lines| == 4
  {
    if lines[0] != OpenLine || (lines[3] != CloseLine && lines[3] != CloseLineWithComma) then None
    else
      match Unwrap(lines[1], TagNamePrefix, TagNameSuffix)
      case None => None
      case Some(name) =>
        match Unwrap(lines[2], SyntaxKindPrefix, SyntaxKindSuffix)
        case None => None
        case Some(word) =>
          match ParseSyntaxKind(word)
          case None => None
          case Some(kind) => Some(TagRecord(name, kind, summary))
  }

  /** The summary a run of comment lines spells out: none for an empty run. */
  function PendingSummary(pending: seq<string>): Option<string>
  {
    if |pending| == 0 then None else Some(Join(pending, '\n'))
  }

  /**
   * All records of `lines`, in order. `pending` holds the uncommented texts
   * of the comment lines seen since the last line of any other kind.
   */
  function ReadRecords(lines: seq<string>, pending: seq<string>): (records: seq<TagRecord>)
    ensures 4 * |records| <= |lines|
    decreases |lines|
  {
    if |lines| == 0 then []
    else if IsCommentLine(lines[0]) then ReadRecords(lines[1..], pending + [Uncomment(lines[0])])
    else if |lines| >= 4 && ReadRecord(lines[..4], PendingSummary(pending)).Some? then
      [ReadRecord(lines[..4], PendingSummary(pending)).value] + ReadRecords(lines[4..], [])
    else ReadRecords(lines[1..], [])
  }

  /** The records of a configuration file's text. */
  function ReadConfig(content: string): seq<TagRecord>
  {
    ReadRecords(Split(content, '\n'), [])
  }

  /** The record each definition should read back as. */
  function Expected(defs: seq<TagDefinition>, members: ApiMembers, wrap: Wrapper): seq<TagRecord>
    requires forall i :: 0 <= i < |defs| ==> IsDocumented(defs[i], members)
  {
    seq(|defs|, i requires 0 <= i < |defs| =>
      TagRecord(defs[i].tagName, defs[i].syntaxKind, SummaryText(defs[i], members, wrap)))
  }

  /** The record each entry reads back as. */
  function EntryRecords(es: seq<Entry>): seq<TagRecord>
    requires forall i :: 0 <= i < |es| ==> AllCommentLines(es[i].comments)
  {
    seq(|es|, i requires 0 <= i < |es| =>
      TagRecord(es[i].definition.tagName, es[i].definition.syntaxKind,
                PendingSummary(UncommentAll(es[i].comments))))
  }

  // ---------------------------------------------------------------------------
  // Reading the pieces of the layout
  // ---------------------------------------------------------------------------

  lemma {:induction false} ReadCollectsComments(cs: seq<string>, rest: seq<string>, pending: seq<string>)
    requires AllCommentLines(cs)
    ensures ReadRecords(cs + rest, pending) == ReadRecords(rest, pending + UncommentAll(cs))
    decreases |cs|
  {
    if |cs| == 0 {
      assert cs + rest == rest;
      assert pending + UncommentAll(cs) == pending;
    } else {
      assert (cs + rest)[0] == cs[0];
      assert (cs + rest)[1..] == cs[1..] + rest;
      ReadCollectsComments(cs[1..], rest, pending + [Uncomment(cs[0])]);
      assert UncommentAll(cs) == [Uncomment(cs[0])] + UncommentAll(cs[1..]);
      assert pending + [Uncomment(cs[0])] + UncommentAll(cs[1..]) == pending + UncommentAll(cs);
    }
  }

  /** A line that is neither a comment nor a record opening only clears the pending comments. */
  predicate IsPlainLine(line: string)
  {
    !IsCommentLine(line) && line != OpenLine
  }

  lemma {:induction false} ReadSkipsPlainLines(junk: seq<string>, rest: seq<string>, pending: seq<string>)
    requires |junk| > 0
    requires forall k :: 0 <= k < |junk| ==> IsPlainLine(junk[k])
    ensures ReadRecords(junk + rest, pending) == ReadRecords(rest, [])
    decreases |junk|
  {
    var lines := junk + rest;
    assert lines[0] == junk[0];
    assert lines[1..] == junk[1..] + rest;
    if |junk| > 1 {
      ReadSkipsPlainLines(junk[1..], rest, []);
    } else {
      assert junk[1..] + rest == rest;
    }
  }

  lemma ReadRecordOf(d: TagDefinition, closer: string, summary: Option<string>)
    requires closer == CloseLine || closer == CloseLineWithComma
    ensures ReadRecord(Record(d, closer), summary) == Some(TagRecord(d.tagName, d.syntaxKind, summary))
  {
    UnwrapWrapped(TagNamePrefix, d.tagName, TagNameSuffix);
    UnwrapWrapped(SyntaxKindPrefix, SyntaxKindLabel(d.syntaxKind), SyntaxKindSuffix);
    LabelRoundTrip(d.syntaxKind, SyntaxKindLabel(d.syntaxKind));
  }

  lemma ReadEntry(e: Entry, closer: string, rest: seq<string>)
    requires closer == CloseLine || closer == CloseLineWithComma
    requires AllCommentLines(e.comments)
    ensures ReadRecords(EntryLines(e, closer) + rest, []) ==
              [TagRecord(e.definition.tagName, e.definition.syntaxKind, PendingSummary(UncommentAll(e.comments)))]
              + ReadRecords(rest, [])
  {
    var record := Record(e.definition, closer);
    assert EntryLines(e, closer) + rest == e.comments + (record + rest);
    ReadCollectsComments(e.comments, record + rest, []);
    assert [] + UncommentAll(e.comments) == UncommentAll(e.comments);
    var lines := record + rest;
    assert lines[..4] == record;
    assert lines[4..] == rest;
    assert !IsCommentLine(OpenLine);
    ReadRecordOf(e.definition, closer, PendingSummary(UncommentAll(e.comments)));
  }

  function EntryRecord(e: Entry): TagRecord
    requires AllCommentLines(e.comments)
  {
    TagRecord(e.definition.tagName, e.definition.syntaxKind, PendingSummary(UncommentAll(e.comments)))
  }

  lemma EntryRecordsCons(es: seq<Entry>)
    requires |es| > 0
    requires forall i :: 0 <= i < |es| ==> AllCommentLines(es[i].comments)
    ensures EntryRecords(es) == [EntryRecord(es[0])] + EntryRecords(es[1..])
  {
  }

  lemma BodyCons(es: seq<Entry>, rest: seq<string>)
    requires |es| > 1
    ensures Body(es) + rest == EntryLines(es[0], CloseLineWithComma) + ([""] + (Body(es[1..]) + rest))
  {
    var first := EntryLines(es[0], CloseLineWithComma);
    assert Body(es) == first + [""] + Body(es[1..]);
    ConcatRegroup(first, [""], Body(es[1..]), rest);
  }

  lemma {:induction false} ReadBody(es: seq<Entry>, rest: seq<string>)
    requires forall i :: 0 <= i < |es| ==> AllCommentLines(es[i].comments)
    ensures ReadRecords(Body(es) + rest, []) == EntryRecords(es) + ReadRecords(rest, [])
    decreases |es|
  {
    if |es| == 0 {
      assert Body(es) + rest == rest;
    } else if |es| == 1 {
      ReadEntry(es[0], CloseLine, rest);
      EntryRecordsCons(es);
    } else {
      ReadBody(es[1..], rest);
      ReadBodyCons(es, rest);
    }
  }

  /** One step of `ReadBody`: a record closed by `    },`, a blank line, then the later records. */
  lemma ReadBodyCons(es: seq<Entry>, rest: seq<string>)
    requires |es| > 1
    requires forall i :: 0 <= i < |es| ==> AllCommentLines(es[i].comments)
    requires ReadRecords(Body(es[1..]) + rest, []) == EntryRecords(es[1..]) + ReadRecords(rest, [])
    ensures ReadRecords(Body(es) + rest, []) == EntryRecords(es) + ReadRecords(rest, [])
  {
    ReadFirstRecord(es, rest);
    EntryRecordsCons(es);
    AppendAssoc([EntryRecord(es[0])], EntryRecords(es[1..]), ReadRecords(rest, []));
  }

  /** Reading past the first record, closed by `    },`, and the blank line after it. */
  lemma ReadFirstRecord(es: seq<Entry>, rest: seq<string>)
    requires |es| > 1 && AllCommentLines(es[0].comments)
    ensures ReadRecords(Body(es) + rest, []) == [EntryRecord(es[0])] + ReadRecords(Body(es[1..]) + rest, [])
  {
    var tail := Body(es[1..]) + rest;
    BodyCons(es, rest);
    ReadEntry(es[0], CloseLineWithComma, [""] + tail);
    ReadSkipsPlainLines([""], tail, []);
  }

  /** Lines too short for the comment prefix, or not indented by four spaces, are not comment lines. */
  lemma PlainIfNotIndented(line: string)
    requires |line| < |CommentPrefix| || line[0] != ' ' || line[2] != ' '
    requires line != OpenLine
    ensures IsPlainLine(line)
  {
    if |line| >= |CommentPrefix| {
      assert line[..|CommentPrefix|][0] == line[0];
      assert line[..|CommentPrefix|][2] == line[2];
    }
  }

  lemma ReadFramePieces()
    ensures forall k :: 0 <= k < |Header| ==> IsPlainLine(Header[k])
    ensures forall k :: 0 <= k < |Footer| ==> IsPlainLine(Footer[k])
    ensures ReadRecords(Footer, []) == []
  {
    PlainIfNotIndented(Header[0]);
    PlainIfNotIndented(Header[1]);
    PlainIfNotIndented(Header[2]);
    PlainIfNotIndented(Header[3]);
    PlainIfNotIndented(Header[4]);
    PlainIfNotIndented(Header[5]);
    PlainIfNotIndented(Header[6]);
    PlainIfNotIndented(Footer[0]);
    PlainIfNotIndented(Footer[1]);
    PlainIfNotIndented(Footer[2]);
    PlainIfNotIndented(Footer[3]);
    PlainIfNotIndented(Footer[4]);
    ReadSkipsPlainLines(Footer, [], []);
    assert Footer + [] == Footer;
  }

  /**
   * Reading the generated lines gives one record per definition, in the
   * definitions' order, each with its tag name, its syntax kind and the
   * wrapped summary of its documentation (none when it has no doc comment).
   */
  lemma GeneratedLinesReadBack(defs: seq<TagDefinition>, members: ApiMembers, wrap: Wrapper)
    requires Generate(defs, members, wrap).Ok?
    ensures forall i :: 0 <= i < |defs| ==> IsDocumented(defs[i], members)
    ensures ReadRecords(Generate(defs, members, wrap).value, []) == Expected(defs, members, wrap)
  {
    var es := ResolveAll(defs, members, wrap).value;
    ReadFramePieces();
    ResolvedRecords(defs, members, wrap, es);
    FramedReadBack(Header, es, Footer);
  }

  /**
   * Reading the records of `es` framed by a header `h` of plain lines and a
   * footer `f` that reads as no record gives the records the entries carry.
   */
  lemma FramedReadBack(h: seq<string>, es: seq<Entry>, f: seq<string>)
    requires |h| > 0 && forall k :: 0 <= k < |h| ==> IsPlainLine(h[k])
    requires ReadRecords(f, []) == []
    requires forall i :: 0 <= i < |es| ==> AllCommentLines(es[i].comments)
    ensures ReadRecords(h + Body(es) + f, []) == EntryRecords(es)
  {
    assert h + Body(es) + f == h + (Body(es) + f);
    ReadSkipsPlainLines(h, Body(es) + f, []);
    ReadBody(es, f);
  }

  /** The records carried by resolved entries are the definitions' expected records. */
  lemma ResolvedRecords(defs: seq<TagDefinition>, members: ApiMembers, wrap: Wrapper, es: seq<Entry>)
    requires ResolveAll(defs, members, wrap) == Ok(es)
    ensures forall i :: 0 <= i < |es| ==> AllCommentLines(es[i].comments)
    ensures forall i :: 0 <= i < |defs| ==> IsDocumented(defs[i], members)
    ensures EntryRecords(es) == Expected(defs, members, wrap)
  {
    forall i | 0 <= i < |defs|
      ensures EntryRecords(es)[i] == Expected(defs, members, wrap)[i]
    {
      CommentsCarrySummary(defs[i], members, wrap);
    }
  }

  /** No line of the generated file contains a line feed when no tag name does. */
  lemma {:induction false} BodyHasNoLineFeeds(es: seq<Entry>)
    requires forall i :: 0 <= i < |es| ==> '\n' !in es[i].definition.tagName
    requires forall i, k :: 0 <= i < |es| && 0 <= k < |es[i].comments| ==> '\n' !in es[i].comments[k]
    ensures forall k :: 0 <= k < |Body(es)| ==> '\n' !in Body(es)[k]
    decreases |es|
  {
    if |es| > 0 {
      var d := es[0].definition;
      assert '\n' !in TagNameLine(d.tagName);
      assert '\n' !in SyntaxKindLine(d.syntaxKind);
      if |es| > 1 {
        BodyHasNoLineFeeds(es[1..]);
      }
    }
  }

  /** No line of `lines` contains a line feed, so joining and splitting on line feeds keeps them apart. */
  predicate NoLineFeeds(lines: seq<string>)
  {
    forall k :: 0 <= k < |lines| ==> '\n' !in lines[k]
  }

  lemma BannerHasNoLineFeeds()
    ensures '\n' !in BannerLine
  {
  }

  lemma GeneratedNoteHasNoLineFeeds()
    ensures '\n' !in GeneratedNoteLine
  {
  }

  lemma SchemaHasNoLineFeeds()
    ensures '\n' !in SchemaLine
  {
  }

  lemma HeaderHasNoLineFeeds()
    ensures NoLineFeeds(Header)
  {
    BannerHasNoLineFeeds();
    GeneratedNoteHasNoLineFeeds();
    SchemaHasNoLineFeeds();
  }

  lemma FooterHasNoLineFeeds()
    ensures NoLineFeeds(Footer)
  {
    assert '\n' !in SupportNoteLine;
  }

  lemma NoLineFeedsConcat(a: seq<string>, b: seq<string>, c: seq<string>)
    requires NoLineFeeds(a) && NoLineFeeds(b) && NoLineFeeds(c)
    ensures NoLineFeeds(a + b + c)
  {
  }

  lemma GeneratedLinesHaveNoLineFeeds(defs: seq<TagDefinition>, members: ApiMembers, wrap: Wrapper)
    requires Generate(defs, members, wrap).Ok?
    requires forall i :: 0 <= i < |defs| ==> '\n' !in defs[i].tagName
    ensures NoLineFeeds(Generate(defs, members, wrap).value)
  {
    var es := ResolveAll(defs, members, wrap).value;
    BodyHasNoLineFeeds(es);
    HeaderHasNoLineFeeds();
    FooterHasNoLineFeeds();
    NoLineFeedsConcat(Header, Body(es), Footer);
  }

  /**
   * Reading the generated text (the lines joined with line feeds) gives
   * back every definition in order, provided no tag name contains a line
   * feed.
   */
  lemma GeneratedContentReadsBack(defs: seq<TagDefinition>, members: ApiMembers, wrap: Wrapper)
    requires GenerateContent(defs, members, wrap).Ok?
    requires forall i :: 0 <= i < |defs| ==> '\n' !in defs[i].tagName
    ensures forall i :: 0 <= i < |defs| ==> IsDocumented(defs[i], members)
    ensures ReadConfig(GenerateContent(defs, members, wrap).value) == Expected(defs, members, wrap)
  {
    var lines := Generate(defs, members, wrap).value;
    GeneratedLinesHaveNoLineFeeds(defs, members, wrap);
    SplitJoin(lines, '\n');
    GeneratedLinesReadBack(defs, members, wrap);
  }
}
