# TSDoc standard-tags configuration generator, in Dafny

This project models the script that writes `tsdoc-standard.json`, the
configuration file listing the standard TSDoc tags. The script:

1. takes the ordered list of standard tag definitions (name, syntax kind);
2. looks up each tag's documented member of the `StandardTags` class (the tag
   name without its `@`);
3. extracts the text of that member's summary section by walking the
   documentation tree and concatenating its excerpts;
4. emits a fixed header, one four-line record per definition (preceded by the
   word-wrapped summary as `    // ` comment lines; a comma and a blank line
   between neighbouring records), and a fixed footer, all joined with `\n`;
5. compares the result with the checked-in file (after removing every `\r`
   from the file and trimming both sides), and only when they differ rewrites
   the file, reloads it through the configuration loader, and exits with 1
   (or 2 on any error).

Modules, one concern each:

- `Wrappers` (`wrappers.dfy`): `Option` and `Result`.
- `Text` (`text.dfy`): JavaScript `split`/`join` with a one-character
  separator, `trim` with the ECMAScript white-space set, and carriage-return
  removal, with their algebraic laws.
- `DocTree` (`doc_tree.dfy`): the documentation tree (excerpt leaves and
  structural nodes) and `extractExcerpts`.
- `TagDefinitions` (`tag_definitions.dfy`): the syntax-kind enumeration, tag
  definitions, and the `"block"`/`"modifier"`/`"inline"` labels.
- `StandardConfig` (`standard_config.dfy`): the fixed lines, the summary
  comment lines, the documentation lookup, a declarative description of the
  generated lines (`Generate`), and `EmitLines`, the generator's loop as
  written (first-item flag, comma patched onto the previous last line),
  proved to produce exactly those lines.
- `RecordReader` (`record_reader.dfy`): a reader for the record layout and
  the round-trip theorems: reading the generated lines, or the generated text,
  gives back every definition in order with its name, kind and summary.
- `OutputLayout` (`output_layout.dfy`): comma, blank-line and framing facts.
- `GenerateScript` (`generate_script.dfy`): the whole run, the up-to-date
  check, the write and post-write validation, and exit codes.

Behaviour of the code worth stating explicitly, which the model follows:

- The code writes the target file *before* reloading it for validation, so a
  validation failure leaves the new file written and exits with 2 (it does
  not hold the write back until validation succeeds); `Run` states exactly
  that.
- A missing documented member is reported as
  `Unable to find definition for <tagName>`, and nothing is written.
- The up-to-date check removes carriage returns from the previous file only,
  not from the generated text; `GeneratedCarriageReturnDefeatsUpToDate` shows
  the consequence (such a file is rewritten on every run), and the stability
  lemmas assume generated text free of `\r`.

## Model

| member | source | states |
|---|---|---|
| DocTree.ExtractExcerpts | tsdoc-config/src/scripts/generate-tsdoc-standard.ts:33-43 | `extractExcerpts`: an excerpt yields its content, any other node the concatenation of its children's extractions in child order; `ExtractIsExcerptsInDocumentOrder` characterises it against an independent pre-order listing. |
| DocTree.ExtractIsExcerptsInDocumentOrder | tsdoc-config/src/scripts/generate-tsdoc-standard.ts:33-43 | The extracted text of any tree is the concatenation, in document (pre-)order, of the contents of all its excerpt leaves. |
| DocTree.NoExcerptsNoText | tsdoc-config/src/scripts/generate-tsdoc-standard.ts:33-43 | A tree with no excerpt leaf yields the empty string. |
| TagDefinitions.SyntaxKindLabel | tsdoc-config/src/scripts/generate-tsdoc-standard.ts:68-79 | Every syntax kind gets one of "block", "modifier", "inline"; the "??" fallback is never produced. |
| TagDefinitions.LabelRoundTrip | tsdoc-config/src/scripts/generate-tsdoc-standard.ts:68-79 | Each kind's label reads back as that kind, and a word reads back as a kind exactly when it is that kind's label. |
| TagDefinitions.LabelInjective | tsdoc-config/src/scripts/generate-tsdoc-standard.ts:68-79 | Two kinds share a label if and only if they are the same kind. |
| TagDefinitions.ParseSyntaxKind | tsdoc-config/src/scripts/generate-tsdoc-standard.ts:86 | A label is recognised exactly when it is one of the three words the generator writes. |
| StandardConfig.LookupKey | tsdoc-config/src/scripts/generate-tsdoc-standard.ts:56 | The lookup key is the tag name with its first character removed (empty for an empty name). |
| StandardConfig.Comments | tsdoc-config/src/scripts/generate-tsdoc-standard.ts:56-66 | Fails with the tag's name exactly when its member is missing or not a documented item; otherwise yields comment lines only, none of them containing a line feed, and none at all exactly when there is no summary. |
| StandardConfig.CommentLines | tsdoc-config/src/scripts/generate-tsdoc-standard.ts:65 | Every emitted summary line starts with the `    // ` prefix and holds no line feed. |
| StandardConfig.CommentLinesRoundTrip | tsdoc-config/src/scripts/generate-tsdoc-standard.ts:63-65 | One comment line per line of the wrapped summary; removing the prefixes and joining with line feeds gives the summary back. |
| StandardConfig.CommentsCarrySummary | tsdoc-config/src/scripts/generate-tsdoc-standard.ts:61-66 | A documented tag's comment lines are empty when it has no summary, and otherwise spell out exactly its wrapped summary text. |
| StandardConfig.ResolveAll | tsdoc-config/src/scripts/generate-tsdoc-standard.ts:47-66 | Succeeds exactly when every definition is documented, then with one entry per definition in list order carrying that definition's comment lines. |
| StandardConfig.ResolveAllFailsAtFirstMissing | tsdoc-config/src/scripts/generate-tsdoc-standard.ts:56-59 | The error reported names the first undocumented definition in list order. |
| StandardConfig.BodySnoc | tsdoc-config/src/scripts/generate-tsdoc-standard.ts:48-54 | Appending a definition to a non-empty list equals appending a comma to the previous last line, then a blank line, then the new record. |
| StandardConfig.Generate | tsdoc-config/src/scripts/generate-tsdoc-standard.ts:19-101 | The declarative output lines: succeeds exactly when every definition is documented, and then starts with the 7-line header and ends with the 5-line footer; `EmitLines` proves the code's loop computes it, `GeneratedLayout` pins its shape and `GeneratedLinesReadBack` reads it back to the definitions. |
| StandardConfig.GenerateContent | tsdoc-config/src/scripts/generate-tsdoc-standard.ts:103 | `outputLines.join('\n')`: succeeds exactly when every definition is documented; `GeneratedContentReadsBack` reads the joined text back to the definitions and `GeneratedTextIsTrimmed` shows trimming leaves it unchanged. |
| StandardConfig.EmitLines | tsdoc-config/src/scripts/generate-tsdoc-standard.ts:19-103 | The generator's loop (first-item flag, comma patched onto the last line, early stop) produces exactly header + records + footer, or the first missing-definition error. |
| RecordReader.Unwrap | tsdoc-config/src/scripts/generate-tsdoc-standard.ts:85-86 | Whatever is read from between a prefix and a suffix reassembles the line exactly. |
| RecordReader.GeneratedLinesReadBack | tsdoc-config/src/scripts/generate-tsdoc-standard.ts:47-90 | Reading the generated lines yields one record per definition, in list order, with its tag name, its syntax kind and its wrapped summary (none when undocumented by a comment). |
| RecordReader.GeneratedContentReadsBack | tsdoc-config/src/scripts/generate-tsdoc-standard.ts:103 | The same holds for the generated text joined with line feeds, when no tag name contains a line feed. |
| RecordReader.BodyHasNoLineFeeds | tsdoc-config/src/scripts/generate-tsdoc-standard.ts:81-89 | No record or comment line holds a line feed when no tag name and no comment line does, which `Comments` guarantees for the comment lines. |
| OutputLayout.BodyLayout | tsdoc-config/src/scripts/generate-tsdoc-standard.ts:45-54 | Every record but the last closes with `    },`, the last with `    }`, and there are exactly n-1 blank separator lines for n records. |
| OutputLayout.GeneratedLayout | tsdoc-config/src/scripts/generate-tsdoc-standard.ts:21-101 | The output starts with the 7 header lines and ends with the 5 footer lines; an empty list gives only these; the first record follows the header with no comma or blank line; closers and blank lines are as above. |
| Text.Join | tsdoc-config/src/scripts/generate-tsdoc-standard.ts:103 | `Array.prototype.join` with one separator character between consecutive pieces; `JoinSplit` and `SplitJoin` characterise it as the inverse of `split`. |
| Text.Split | tsdoc-config/src/scripts/generate-tsdoc-standard.ts:65 | `split('\n')` yields one more piece than there are line feeds, and no piece holds a line feed. |
| Text.JoinSplit | tsdoc-config/src/scripts/generate-tsdoc-standard.ts:65 | Joining the pieces of a split gives back the original text. |
| Text.SplitJoin | tsdoc-config/src/scripts/generate-tsdoc-standard.ts:103 | Splitting a join of line-feed-free lines gives back the lines. |
| Text.StripCarriageReturns | tsdoc-config/src/scripts/generate-tsdoc-standard.ts:109 | The result holds no carriage return and is shorter by exactly the number of carriage returns. |
| Text.StripDistributes | tsdoc-config/src/scripts/generate-tsdoc-standard.ts:109 | Removal distributes over concatenation, so all other characters stay, in order. |
| Text.StripIdentityIff | tsdoc-config/src/scripts/generate-tsdoc-standard.ts:109 | Removal leaves a text unchanged if and only if it holds no carriage return. |
| Text.StripIdempotent | tsdoc-config/src/scripts/generate-tsdoc-standard.ts:109 | Removing carriage returns twice equals removing them once. |
| Text.StripUndoesCrlf | tsdoc-config/src/scripts/generate-tsdoc-standard.ts:109 | A CR LF copy of carriage-return-free text reads back as that text. |
| Text.Trim | tsdoc-config/src/scripts/generate-tsdoc-standard.ts:111 | `trim()` yields an infix with only white space cut from either side and no white space at either end. |
| Text.TrimIgnoresPadding | tsdoc-config/src/scripts/generate-tsdoc-standard.ts:111 | White-space padding on either side does not change the trimmed text. |
| Text.TrimIdempotent | tsdoc-config/src/scripts/generate-tsdoc-standard.ts:111 | Trimming twice equals trimming once. |
| GenerateScript.IsUpToDate | tsdoc-config/src/scripts/generate-tsdoc-standard.ts:109-111 | The up-to-date comparison: trimmed output equals the trimmed previous text with every carriage return removed; characterised by `UpToDateDespiteLineEndings`, `RegenerationIsUpToDate` and `CarriageReturnDefeatsUpToDate`. |
| GenerateScript.ValidationError | tsdoc-config/src/scripts/generate-tsdoc-standard.ts:117-125 | The post-write validation fails exactly when the loader throws or reports errors, and its message then starts with `The generated target file cannot be parsed: `. |
| GenerateScript.RegeneratedFileIsUpToDate | tsdoc-config/src/scripts/generate-tsdoc-standard.ts:109-111 | Carriage-return-free text is up to date with itself, checked out with LF or with CR LF line endings. |
| GenerateScript.Run | tsdoc-config/src/scripts/generate-tsdoc-standard.ts:9-134 | Exit 0 exactly when generation succeeds and the file is up to date; a write happens exactly when the file has drifted and writing succeeds, and writes the generated text; exit 2 exactly when an error is reported, and exit 1 only after a write. Every error path is pinned, each with exit 2, its message and no write: a failed load of the API model reports that error's message, a missing `StandardTags` class reports `Unable to find StandardTags API`, a failed generation reports the missing definition's message, a failed read of the target reports that error's message, a failed write of a drifted target reports that error's message (and skips the reload); after a write, exit 2 exactly when reloading the written text fails, reporting the validation message. |
| GenerateScript.MissingDocumentationWritesNothing | tsdoc-config/src/scripts/generate-tsdoc-standard.ts:56-59 | The first undocumented tag stops the run with `Unable to find definition for <tagName>`, exit 2, and no write. |
| GenerateScript.UpToDateDespiteLineEndings | tsdoc-config/src/scripts/generate-tsdoc-standard.ts:109-111 | A previous file holding the generated text with CR LF endings and white-space padding counts as up to date. |
| GenerateScript.RegenerationIsUpToDate | tsdoc-config/src/scripts/generate-tsdoc-standard.ts:109-112 | Regenerating from unchanged inputs against the text last written (LF or CR LF) writes nothing and exits with 0, whatever writing would do. |
| GenerateScript.RewriteReachesFixedPoint | tsdoc-config/src/scripts/generate-tsdoc-standard.ts:111-115 | After a rewrite, the next run with the same inputs is up to date. |
| GenerateScript.CarriageReturnDefeatsUpToDate | tsdoc-config/src/scripts/generate-tsdoc-standard.ts:109-111 | Any text that still holds a carriage return after trimming is never up to date with itself as the previous file. |
| GenerateScript.GeneratedTextIsTrimmed | tsdoc-config/src/scripts/generate-tsdoc-standard.ts:103-111 | The generated text starts with `/` and ends with `}`, so trimming leaves it unchanged. |
| GenerateScript.GeneratedCarriageReturnDefeatsUpToDate | tsdoc-config/src/scripts/generate-tsdoc-standard.ts:109-115 | A run whose previous file is exactly generated text holding a carriage return never exits with 0, and rewrites that text whenever the write succeeds. |
| Text.TrimAvoids | tsdoc-config/src/scripts/generate-tsdoc-standard.ts:111 | Trimming never introduces a character the text does not hold. |

## Left out

- File and process effects (`readFileSync`, `writeFileSync`, console output, `process.exitCode`): `Run` takes the outcome of reading the API model, of reading the target and of writing it as inputs (the text read, or the message of the error thrown) and returns the text written, the exit code and the error message instead. A failed write is taken to leave the target unwritten; a partially written file is not modelled.
- The API documentation model (`ApiPackage.loadFromJsonFile`, `findMembersByName`): taken as the message of the error loading it (a missing entry point included) or an optional map from member name to the first member of that name.
- The `word-wrap` library: taken as a caller-supplied function `wrap`; nothing is assumed about it.
- The configuration loader `TSDocConfigFile.loadFile` is not part of this model: it is a caller-supplied function returning either a report (with `hasErrors` and an error summary) or the text of what it threw. `RecordReader` is an independent reader of the record layout, not that loader.
- The TSDoc parser, the tag registry and the contents of `StandardTags.allDefinitions`: the definition list is an input sequence and the documentation tree an input value.
- `TextRange`: excerpt contents are modelled as plain strings.
- JSON escaping: tag names are written between quotes unescaped, exactly as the code does; the model does not claim the output is valid JSON for names holding `"` or `\`.
- `api-demo/src/advancedDemo.ts`: compiler-API glue and printing only.
- GenerateScript.RegenerationIsUpToDate: requires the generated text to hold no carriage return, because the code strips carriage returns from the previous file only (see `CarriageReturnDefeatsUpToDate`).
- GenerateScript.UpToDateDespiteLineEndings: requires the generated text to hold no carriage return, because the code strips carriage returns from the previous file only (see `CarriageReturnDefeatsUpToDate`).
- GenerateScript.RegeneratedFileIsUpToDate: requires the text to hold no carriage return, for the same reason.
- GenerateScript.RewriteReachesFixedPoint: requires the written text to hold no carriage return, for the same reason.
- RecordReader.GeneratedContentReadsBack: requires tag names without line feeds, because a line feed inside a name would split its record line.
