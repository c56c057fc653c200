/**
 * The whole generation script: locate the `StandardTags` documentation,
 * generate the file text, compare it with the checked-in file, and rewrite
 * and re-validate the file only when it has drifted.
 */
module GenerateScript {
  import opened Wrappers
  import opened Text
  import opened TagDefinitions
  import opened StandardConfig

  /** What the configuration loader reports for a file's text. */
  datatype LoadReport =
    | Loaded(hasErrors: bool, errorSummary: string)
    | LoadThrew(errorText: string)

  /** The loader, supplied by the caller. */
  type Loader = string -> LoadReport

  /**
   * What one run of the script does: the text it writes to the target file
   * (if any), the process exit code, and the message of the error it
   * reports (if any).
   */
  datatype Report = Report(written: Option<string>, exitCode: nat, error: Option<string>)

  const MissingStandardTagsMessage: string := "Unable to find StandardTags API"
  const InvalidFilePrefix: string := "The generated target file is invalid: "
  const UnparsableFilePrefix: string := "The generated target file cannot be parsed: "

  /** `String(error)` of an `Error` thrown with `message`. */
  function ErrorText(message: string): string
  {
    "Error: " + message
  }

  /** The target is up to date when the trimmed output equals the trimmed, carriage-return-free previous text. */
  predicate IsUpToDate(outputContent: string, previousContent: string)
  {
    Trim(outputContent) == Trim(StripCarriageReturns(previousContent))
  }

  /** The error message the post-write validation produces, if any. */
  function ValidationError(report: LoadReport): (r: Option<string>)
    ensures r.Some? <==> report.LoadThrew? || report.hasErrors
    ensures r.Some? ==> UnparsableFilePrefix <= r.value
  {
    match report
    case Loaded(hasErrors, summary) =>
      if hasErrors then Some(UnparsableFilePrefix + ErrorText(InvalidFilePrefix + summary)) else None
    case LoadThrew(text) => Some(UnparsableFilePrefix + text)
  }

  /** The API model loaded and holds a `StandardTags` class. */
  predicate Found(api: Result<Option<ApiMembers>, string>)
  {
    api.Ok? && api.value.Some?
  }

  /**
   * One run of the script. `api` is the message of the error loading the
   * API model, or the documented `StandardTags` class (absent when the model
   * has none); `previous` is the target file's text or the message of the
   * error reading it; `writeFailure` is the message of the error writing the
   * target, if writing fails; and `load` is the configuration loader applied
   * to the text just written.
   */
  function Run(api: Result<Option<ApiMembers>, string>, defs: seq<TagDefinition>, wrap: Wrapper,
               previous: Result<string, string>, writeFailure: Option<string>, load: Loader): (r: Report)
    ensures r.exitCode == 0 || r.exitCode == 1 || r.exitCode == 2
    ensures r.exitCode == 2 <==> r.error.Some?
    ensures r.written.Some? <==>
              && Found(api)
              && GenerateContent(defs, api.value.value, wrap).Ok?
              && previous.Ok?
              && !IsUpToDate(GenerateContent(defs, api.value.value, wrap).value, previous.value)
              && writeFailure.None?
    ensures r.written.Some? ==> r.written.value == GenerateContent(defs, api.value.value, wrap).value
    ensures r.exitCode == 0 <==>
              && Found(api)
              && GenerateContent(defs, api.value.value, wrap).Ok?
              && previous.Ok?
              && IsUpToDate(GenerateContent(defs, api.value.value, wrap).value, previous.value)
    ensures r.written.Some? ==> (r.exitCode == 2 <==> ValidationError(load(r.written.value)).Some?)
    ensures r.written.Some? && r.exitCode == 2 ==> r.error == ValidationError(load(r.written.value))
    ensures r.exitCode == 1 ==> r.written.Some?
    ensures api.Err? ==> r == Report(None, 2, Some(api.error))
    ensures api == Ok(None) ==> r == Report(None, 2, Some(MissingStandardTagsMessage))
    ensures Found(api) && GenerateContent(defs, api.value.value, wrap).Err? ==>
              r == Report(None, 2, Some(ErrorMessage(GenerateContent(defs, api.value.value, wrap).error)))
    ensures Found(api) && GenerateContent(defs, api.value.value, wrap).Ok? && previous.Err? ==>
              r == Report(None, 2, Some(previous.error))
    ensures && Found(api)
            && GenerateContent(defs, api.value.value, wrap).Ok?
            && previous.Ok?
            && !IsUpToDate(GenerateContent(defs, api.value.value, wrap).value, previous.value)
            && writeFailure.Some?
            ==> r == Report(None, 2, Some(writeFailure.value))
  {
    match api
    case Err(message) => Report(None, 2, Some(message))
    case Ok(None) => Report(None, 2, Some(MissingStandardTagsMessage))
    case Ok(Some(members)) =>
      match GenerateContent(defs, members, wrap)
      case Err(e) => Report(None, 2, Some(ErrorMessage(e)))
      case Ok(content) =>
        match previous
        case Err(message) => Report(None, 2, Some(message))
        case Ok(existing) =>
          if IsUpToDate(content, existing) then Report(None, 0, None)
          else if writeFailure.Some? then Report(None, 2, Some(writeFailure.value))
          else
            match ValidationError(load(content))
            case Some(message) => Report(Some(content), 2, Some(message))
            case None => Report(Some(content), 1, None)
  }

  /** A missing or undocumented tag stops the run with its name and writes nothing. */
  lemma MissingDocumentationWritesNothing(members: ApiMembers, defs: seq<TagDefinition>, wrap: Wrapper,
                                          previous: Result<string, string>, writeFailure: Option<string>,
                                          load: Loader, i: nat)
    requires i < |defs| && !IsDocumented(defs[i], members)
    requires forall j :: 0 <= j < i ==> IsDocumented(defs[j], members)
    ensures Run(Ok(Some(members)), defs, wrap, previous, writeFailure, load)
              == Report(None, 2, Some("Unable to find definition for " + defs[i].tagName))
  {
    ResolveAllFailsAtFirstMissing(defs, members, wrap, i);
  }

  /**
   * The file text as a checkout may present it: with CR LF line endings and
   * surrounding white space still reads as up to date, as long as the
   * generated text has no carriage return of its own.
   */
  lemma UpToDateDespiteLineEndings(content: string, before: string, after: string)
    requires '\r' !in content
    requires AllWhiteSpace(before) && AllWhiteSpace(after)
    ensures IsUpToDate(content, before + WithCrlf(content) + after)
  {
    StripDistributes(before + WithCrlf(content), after);
    StripDistributes(before, WithCrlf(content));
    StripUndoesCrlf(content);
    StripKeepsWhiteSpace(before);
    StripKeepsWhiteSpace(after);
    TrimIgnoresPadding(StripCarriageReturns(before), content, StripCarriageReturns(after));
  }

  lemma {:induction false} StripKeepsWhiteSpace(s: string)
    requires AllWhiteSpace(s)
    ensures AllWhiteSpace(StripCarriageReturns(s))
    decreases |s|
  {
    if |s| > 0 {
      StripKeepsWhiteSpace(s[1..]);
      StripDistributes([s[0]], s[1..]);
      assert s == [s[0]] + s[1..];
    }
  }

  /**
   * Regenerating from unchanged inputs against the file a previous run
   * wrote (possibly checked out with CR LF line endings) reports "up to
   * date", writes nothing and exits with 0, provided the generated text
   * holds no carriage return.
   */
  lemma RegenerationIsUpToDate(members: ApiMembers, defs: seq<TagDefinition>, wrap: Wrapper,
                               writeFailure: Option<string>, load: Loader, crlf: bool)
    requires GenerateContent(defs, members, wrap).Ok?
    requires '\r' !in GenerateContent(defs, members, wrap).value
    ensures var content := GenerateContent(defs, members, wrap).value;
            Run(Ok(Some(members)), defs, wrap, Ok(if crlf then WithCrlf(content) else content), writeFailure, load)
              == Report(None, 0, None)
  {
    RegeneratedFileIsUpToDate(GenerateContent(defs, members, wrap).value, crlf);
  }

  /** Carriage-return-free text is up to date with itself, whatever line endings it was checked out with. */
  lemma RegeneratedFileIsUpToDate(content: string, crlf: bool)
    requires '\r' !in content
    ensures IsUpToDate(content, if crlf then WithCrlf(content) else content)
  {
    if crlf {
      StripUndoesCrlf(content);
    } else {
      StripIdentityIff(content);
    }
  }

  /**
   * A run that rewrites the file and validates it leaves a file that the
   * next run with the same inputs accepts as up to date.
   */
  lemma RewriteReachesFixedPoint(members: ApiMembers, defs: seq<TagDefinition>, wrap: Wrapper,
                                 previous: Result<string, string>, writeFailure: Option<string>,
                                 nextWriteFailure: Option<string>, load: Loader)
    requires Run(Ok(Some(members)), defs, wrap, previous, writeFailure, load).written.Some?
    requires '\r' !in Run(Ok(Some(members)), defs, wrap, previous, writeFailure, load).written.value
    ensures var written := Run(Ok(Some(members)), defs, wrap, previous, writeFailure, load).written.value;
            Run(Ok(Some(members)), defs, wrap, Ok(written), nextWriteFailure, load) == Report(None, 0, None)
  {
    RegenerationIsUpToDate(members, defs, wrap, nextWriteFailure, load, false);
  }

  /**
   * The up-to-date check strips carriage returns from the previous text
   * only, so text that still holds a carriage return once trimmed never
   * matches the very file it was written to.
   */
  lemma CarriageReturnDefeatsUpToDate(content: string)
    requires '\r' in Trim(content)
    ensures !IsUpToDate(content, content)
  {
    TrimAvoids(StripCarriageReturns(content), '\r');
  }

  /** The generated text starts with `/` and ends with `}`, so trimming leaves it unchanged. */
  lemma GeneratedTextIsTrimmed(defs: seq<TagDefinition>, members: ApiMembers, wrap: Wrapper)
    requires GenerateContent(defs, members, wrap).Ok?
    ensures Trim(GenerateContent(defs, members, wrap).value) == GenerateContent(defs, members, wrap).value
  {
    var es := ResolveAll(defs, members, wrap).value;
    var lines := Header + Body(es) + Footer;
    assert lines[0] == BannerLine;
    assert BannerLine[0] == '/';
    JoinStartsWithFirstPiece(lines, '\n');
    assert lines[|lines| - 1] == CloseObjectLine;
    JoinEndsWithLastPiece(lines, '\n');
    TrimOfUnpadded(Join(lines, '\n'));
  }

  /**
   * Generated text holding a carriage return anywhere is never up to date
   * with the file it was written to: every run after it exits with 1 or 2,
   * and rewrites the file whenever the write succeeds.
   */
  lemma GeneratedCarriageReturnDefeatsUpToDate(members: ApiMembers, defs: seq<TagDefinition>, wrap: Wrapper,
                                               writeFailure: Option<string>, load: Loader)
    requires GenerateContent(defs, members, wrap).Ok?
    requires '\r' in GenerateContent(defs, members, wrap).value
    ensures var content := GenerateContent(defs, members, wrap).value;
            var r := Run(Ok(Some(members)), defs, wrap, Ok(content), writeFailure, load);
            r.exitCode != 0 && (writeFailure.None? ==> r.written == Some(content))
  {
    var content := GenerateContent(defs, members, wrap).value;
    GeneratedTextIsTrimmed(defs, members, wrap);
    CarriageReturnDefeatsUpToDate(content);
    DriftedTextIsRewritten(members, defs, wrap, writeFailure, load, content);
  }

  /**
   * A run whose previous file is not up to date with the generated text
   * exits with 1 or 2, and rewrites the file with that text when the write
   * succeeds.
   */
  lemma DriftedTextIsRewritten(members: ApiMembers, defs: seq<TagDefinition>, wrap: Wrapper,
                               writeFailure: Option<string>, load: Loader, previous: string)
    requires GenerateContent(defs, members, wrap).Ok?
    requires !IsUpToDate(GenerateContent(defs, members, wrap).value, previous)
    ensures var r := Run(Ok(Some(members)), defs, wrap, Ok(previous), writeFailure, load);
            r.exitCode != 0 && (writeFailure.None? ==> r.written == Some(GenerateContent(defs, members, wrap).value))
  {
  }
}
