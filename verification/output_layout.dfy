/**
 * Layout facts about the generated lines: where the commas and the blank
 * separator lines go, and what surrounds the records.
 */
module OutputLayout {
  import opened Wrappers
  import opened Text
  import opened TagDefinitions
  import opened StandardConfig

  /** The record-closing lines of `lines`, in order. */
  function Closers(lines: seq<string>): seq<string>
  {
    if |lines| == 0 then []
    else (if lines[0] == CloseLine || lines[0] == CloseLineWithComma then [lines[0]] else [])
         + Closers(lines[1..])
  }

  function Repeat(line: string, n: nat): (r: seq<string>)
    ensures |r| == n && forall k :: 0 <= k < n ==> r[k] == line
  {
    seq(n, _ => line)
  }

  lemma {:induction false} ClosersAppend(a: seq<string>, b: seq<string>)
    ensures Closers(a + b) == Closers(a) + Closers(b)
    decreases |a|
  {
    if |a| == 0 {
      assert a + b == b;
    } else {
      assert (a + b)[0] == a[0];
      assert (a + b)[1..] == a[1..] + b;
      ClosersAppend(a[1..], b);
      var head := if a[0] == CloseLine || a[0] == CloseLineWithComma then [a[0]] else [];
      assert Closers(a) == head + Closers(a[1..]);
      assert head + (Closers(a[1..]) + Closers(b)) == head + Closers(a[1..]) + Closers(b);
    }
  }

  /** Lines that are neither blank nor closers contribute nothing to either count. */
  lemma {:induction false} NeutralLines(lines: seq<string>)
    requires forall k :: 0 <= k < |lines| ==> lines[k] != "" && lines[k] != CloseLine && lines[k] != CloseLineWithComma
    ensures Closers(lines) == [] && Count(lines, "") == 0
    decreases |lines|
  {
    if |lines| > 0 {
      NeutralLines(lines[1..]);
    }
  }

  /** One entry contributes exactly its closer and no blank line. */
  lemma EntryLayout(e: Entry, closer: string)
    requires AllCommentLines(e.comments)
    requires closer == CloseLine || closer == CloseLineWithComma
    ensures Closers(EntryLines(e, closer)) == [closer]
    ensures Count(EntryLines(e, closer), "") == 0
  {
    var opening := e.comments + [OpenLine, TagNameLine(e.definition.tagName), SyntaxKindLine(e.definition.syntaxKind)];
    assert EntryLines(e, closer) == opening + [closer];
    assert forall k :: 0 <= k < |opening| ==> |opening[k]| > |CloseLineWithComma| || opening[k] == OpenLine;
    NeutralLines(opening);
    ClosersAppend(opening, [closer]);
    CountAppend(opening, [closer], "");
  }

  /**
   * In the records section every record but the last is closed by `    },`,
   * the last by `    }`, and there is one blank line per pair of
   * neighbouring records.
   */
  lemma {:induction false} BodyLayout(es: seq<Entry>)
    requires |es| > 0
    requires forall i :: 0 <= i < |es| ==> AllCommentLines(es[i].comments)
    ensures Closers(Body(es)) == Repeat(CloseLineWithComma, |es| - 1) + [CloseLine]
    ensures Count(Body(es), "") == |es| - 1
    decreases |es|
  {
    if |es| == 1 {
      EntryLayout(es[0], CloseLine);
    } else {
      var first := EntryLines(es[0], CloseLineWithComma);
      assert Body(es) == first + [""] + Body(es[1..]);
      EntryLayout(es[0], CloseLineWithComma);
      BodyLayout(es[1..]);
      ClosersAppend(first + [""], Body(es[1..]));
      ClosersAppend(first, [""]);
      CountAppend(first + [""], Body(es[1..]), "");
      CountAppend(first, [""], "");
      assert Repeat(CloseLineWithComma, |es| - 1) == [CloseLineWithComma] + Repeat(CloseLineWithComma, |es| - 2);
    }
  }

  lemma FrameLayout()
    ensures Closers(Header) == [] && Count(Header, "") == 1
    ensures Closers(Footer) == [] && Count(Footer, "") == 1
  {
    var h1 := [BannerLine, BannerBlankLine, GeneratedNoteLine, OpenObjectLine, SchemaLine];
    var h2 := [TagDefinitionsLine];
    assert Header == h1 + [""] + h2;
    NeutralLines(h1);
    NeutralLines(h2);
    ClosersAppend(h1 + [""], h2);
    ClosersAppend(h1, [""]);
    CountAppend(h1 + [""], h2, "");
    CountAppend(h1, [""], "");
    var f1 := [CloseArrayLine];
    var f2 := [SupportNoteLine, SupportForTagsLine, CloseObjectLine];
    assert Footer == f1 + [""] + f2;
    NeutralLines(f1);
    NeutralLines(f2);
    ClosersAppend(f1 + [""], f2);
    ClosersAppend(f1, [""]);
    CountAppend(f1 + [""], f2, "");
    CountAppend(f1, [""], "");
  }

  /**
   * The generated lines: the seven header lines, then the records (with a
   * comma on every closing brace but the last and one blank line between
   * neighbours, nothing between the header and the first record), then the
   * five footer lines.
   */
  lemma GeneratedLayout(defs: seq<TagDefinition>, members: ApiMembers, wrap: Wrapper)
    requires Generate(defs, members, wrap).Ok?
    ensures var lines := Generate(defs, members, wrap).value;
            && |lines| >= |Header| + |Footer|
            && lines[..|Header|] == Header
            && lines[|lines| - |Footer|..] == Footer
            && (|defs| == 0 ==> lines == Header + Footer)
            && (|defs| > 0 ==> Closers(lines) == Repeat(CloseLineWithComma, |defs| - 1) + [CloseLine])
            && Count(lines, "") == (if |defs| == 0 then 2 else |defs| + 1)
            && (|defs| > 0 ==> lines[|Header|] == OpenLine || IsCommentLine(lines[|Header|]))
  {
    FrameLayout();
    FramedBodyLayout(Header, ResolveAll(defs, members, wrap).value, Footer);
  }

  /**
   * The closers, blank lines and first body line of the records of `es`
   * framed by a header `h` and a footer `f` that hold no closer and one
   * blank line each.
   */
  lemma FramedBodyLayout(h: seq<string>, es: seq<Entry>, f: seq<string>)
    requires Closers(h) == [] && Count(h, "") == 1
    requires Closers(f) == [] && Count(f, "") == 1
    requires forall i :: 0 <= i < |es| ==> AllCommentLines(es[i].comments)
    ensures var lines := h + Body(es) + f;
            && (|es| == 0 ==> lines == h + f)
            && (|es| > 0 ==> Closers(lines) == Repeat(CloseLineWithComma, |es| - 1) + [CloseLine])
            && Count(lines, "") == (if |es| == 0 then 2 else |es| + 1)
            && (|es| > 0 ==> lines[|h|] == OpenLine || IsCommentLine(lines[|h|]))
  {
    if |es| == 0 {
      assert Body(es) == [];
    } else {
      FramedClosers(h, es, f);
      FramedFirstLine(h, es, f);
    }
    FramedBlankLines(h, es, f);
  }

  lemma FramedClosers(h: seq<string>, es: seq<Entry>, f: seq<string>)
    requires Closers(h) == [] && Closers(f) == []
    requires |es| > 0 && forall i :: 0 <= i < |es| ==> AllCommentLines(es[i].comments)
    ensures Closers(h + Body(es) + f) == Repeat(CloseLineWithComma, |es| - 1) + [CloseLine]
  {
    ClosersAppend(h + Body(es), f);
    ClosersAppend(h, Body(es));
    BodyLayout(es);
  }

  lemma FramedBlankLines(h: seq<string>, es: seq<Entry>, f: seq<string>)
    requires Count(h, "") == 1 && Count(f, "") == 1
    requires forall i :: 0 <= i < |es| ==> AllCommentLines(es[i].comments)
    ensures Count(h + Body(es) + f, "") == if |es| == 0 then 2 else |es| + 1
  {
    CountAppend(h + Body(es), f, "");
    CountAppend(h, Body(es), "");
    if |es| == 0 {
      assert Body(es) == [];
    } else {
      BodyLayout(es);
    }
  }

  lemma FramedFirstLine(h: seq<string>, es: seq<Entry>, f: seq<string>)
    requires |es| > 0 && AllCommentLines(es[0].comments)
    ensures var lines := h + Body(es) + f;
            |h| < |lines| && (lines[|h|] == OpenLine || IsCommentLine(lines[|h|]))
  {
    var first := if |es| == 1 then CloseLine else CloseLineWithComma;
    if |es| == 1 {
      assert Body(es) == EntryLines(es[0], first);
    } else {
      assert Body(es) == EntryLines(es[0], first) + [""] + Body(es[1..]);
    }
    assert (h + Body(es) + f)[|h|] == EntryLines(es[0], first)[0];
  }
}
