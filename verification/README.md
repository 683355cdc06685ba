# mdbook-scientific in Dafny

A model of the `mdbook-scientific` preprocessor for mdbook, with proofs about it.
The preprocessor renders the mathematics and plots of a book's chapters into SVG fragments and rewrites the chapters to show them.

It works in two passes over the book:
- The **block pass** (`replace_blocks`) turns `$$`-delimited display blocks into numbered figures and equations. It registers each label in one shared reference map.
- The **inline pass** (`replace_inline_blocks`) turns `$…$` formulas into inline objects and resolves `$ref:fig|bib|equ:name$` links against that map.

Every fragment is named after a 24-character SHA-256 fingerprint of its body. It is rendered by latex/dvisvgm or gnuplot only when the files it needs are missing from the fragment directory, which thereby acts as a cache.
A configured bibliography seeds the map with `[1]`, `[2]`, … in file order and is appended as a last chapter. The first error stops all work. On success the fragments used are copied to the book's asset directory.

The project has six modules:

- `Strings` (strings.dfy): the standard string operations the source relies on. These are `split`, `splitn`, `trim`, `replace`, `matches().count()`, `format!("{}")` and `parse::<usize>()`.
- `Errors` (errors.dfy): the error enum of `error.rs`.
- `Fragments` (fragments.dfy): `hash`, the `parse_*` renderers, `generate_svg_from_latex` with its latex-log fold, and `bib_to_html`.
  - The fragment directory is the class `FragmentDir`, whose fields hold the files and the external programs started so far.
  - Each renderer is a method proved equal to a function over a `Disk` value.
- `Blocks` (blocks.dfy): `replace_blocks`.
  - It is specified by `DisplayBlocks`, a fold of `Step` over the chapter's lines.
  - It is implemented by the loop of `ReplaceBlocks` on the fragment directory.
- `Inline` (inline.dfy): `replace_inline_blocks`.
  - It is specified by `InlineBlocksOf`, over lines and `$`-pieces.
  - It is implemented by `ReplaceInlineBlocks`.
- `Scientific` (scientific.dfy): `Scientific::run`.
  - `RunBook` specifies the run as a function of the book, the fragment directory and the asset directory.
  - The method `Run` implements it with the bibliography loop, the two latched passes (`BlockPass`, `InlinePass`) and the copy loop.
  - Both passes are one function `Pass`, parametric in the chapter rewrite (`StageRewrite`). Its lemmas hold for any rewrite that only adds to the shared state (`Adds`).

External programs are oracles held by a `Backend` value:
- latex, dvisvgm and gnuplot are functions from their input to their output and exit status;
- `which` is a flag per program;
- SHA-256 is a function constrained to return 64 lower-case hex digits.

The bibliography file is given as the sequence of its citation keys. The asset files that body-less blocks read are a map.

Two behaviours of the code worth knowing:
- The cache key is the body alone (`fragments.rs:139,166,187,207`). Equal bodies of different kinds share one file (`KindIndependentName`); they are not kept apart by kind.
- A labelled equation shows its number as `(<head><n>)`: the printed head number of the chapter is followed directly by the counter, with nothing added between them (`preprocess.rs:28-29`).

## Model

| member | source | states |
|---|---|---|
| Strings.TrimStart | mdbook-scientific/src/preprocess.rs:37 | drops exactly the leading whitespace: the result is a suffix, starts with a non-space, and everything dropped is whitespace |
| Strings.TrimEnd | mdbook-scientific/src/preprocess.rs:37 | drops exactly the trailing whitespace: the result is a prefix, ends with a non-space, and everything dropped is whitespace |
| Strings.Trim | mdbook-scientific/src/preprocess.rs:37 | the trimmed line is no longer than the line and has no whitespace at either end |
| Strings.TrimNoop | mdbook-scientific/src/preprocess.rs:37 | a line without whitespace at its ends is left as it is |
| Strings.TrimIdempotent | mdbook-scientific/src/preprocess.rs:55 | trimming twice is trimming once |
| Strings.Split | mdbook-scientific/src/preprocess.rs:35 | `split` yields at least one piece, and no piece holds the separator |
| Strings.JoinSplit | mdbook-scientific/src/preprocess.rs:105 | joining the pieces of a split with the same separator gives the string back |
| Strings.SplitAbsent | mdbook-scientific/src/preprocess.rs:114 | a string without the separator splits into itself alone |
| Strings.SplitN | mdbook-scientific/src/preprocess.rs:54 | `splitn(n, c)` yields between 1 and n pieces whose join is the input |
| Strings.SplitNPieces | mdbook-scientific/src/preprocess.rs:54 | every piece but the last is free of the separator, and so is the last when fewer than n came out |
| Strings.ReplaceAbsent | mdbook-scientific/src/preprocess.rs:56 | `replace` without an occurrence of the pattern is the identity |
| Strings.RemovePairLeavesNone | mdbook-scientific/src/preprocess.rs:56 | after removing every `$$`, no `$$` is left |
| Strings.Count | mdbook-scientific/src/preprocess.rs:110 | the count of `$` is at most the length and is zero exactly when there is no `$` |
| Strings.NatToString | mdbook-scientific/src/preprocess.rs:22 | `format!("{}", n)` is a non-empty string of digits without a leading zero |
| Strings.NatToStringValue | mdbook-scientific/src/preprocess.rs:22 | the printed digits denote the number printed |
| Strings.ParseUsize | mdbook-scientific/src/fragments.rs:58 | a parsed value fits in usize, and the empty string does not parse |
| Strings.ParseFormatted | mdbook-scientific/src/fragments.rs:58 | parsing what `format!` printed gives the number back |
| Fragments.LowerHex | mdbook-scientific/src/fragments.rs:14 | `{:x}` prints two lower-case hex digits per byte |
| Fragments.Hash | mdbook-scientific/src/fragments.rs:11-17 | the fingerprint is exactly 24 lower-case hex digits, a function of the text alone |
| Fragments.ArtifactName | mdbook-scientific/src/fragments.rs:158 | `<hash>.svg` is a fragment name: 24 hex digits followed by `.svg` |
| Fragments.FilterDiagnostics | mdbook-scientific/src/fragments.rs:48-52 | a line is kept iff it is a line of the log that starts with `! ` or `l.` and holds no "Emergency stop"; never more lines than the log |
| Fragments.FilterDiagnosticsAppend | mdbook-scientific/src/fragments.rs:48-52 | filtering keeps the log's order: the filter of two pieces is the filter of each, concatenated |
| Fragments.DiagnoseLine | mdbook-scientific/src/fragments.rs:53-67 | one fold step: a `! ` line becomes the reason; an `l.<n> <rest>` line sets the line number only when `<n>` parses as a usize and the element to the trimmed `<rest>` only when there is one; every other field stays |
| Fragments.LatexLogError | mdbook-scientific/src/fragments.rs:48-73 | the reason is the last kept `! ` line, the element the trimmed rest of the last kept `l.` line that has one, the line number that of the last kept `l.` line whose number parses; each defaults to `""`, `""`, `usize::MAX`, so a log with no diagnostic line gives exactly those defaults |
| Fragments.FoldReasonShape | mdbook-scientific/src/fragments.rs:53-67 | the fold from `("", "", usize::MAX)` over filtered lines keeps the reason's shape and a usize line number |
| Fragments.FoldPicksLast | mdbook-scientific/src/fragments.rs:53-67 | folding from any accumulator, each field ends as the value of the last line that sets it, or the accumulator's own value when no line does |
| Fragments.LatexStep | mdbook-scientific/src/fragments.rs:25-75 | latex runs exactly when the `.dvi` is missing and latex is found; an existing `.dvi` means nothing happens; `BinaryNotFound` exactly when latex is needed but missing; when latex runs, the `.dvi` is its output, the step succeeds iff latex succeeds, and a failure is `InvalidMath` with the diagnosis extracted from latex's stdout; only the `.dvi` may be added and no file is overwritten |
| Fragments.DvisvgmStep | mdbook-scientific/src/fragments.rs:78-97 | without a missing `.svg` next to a present `.dvi` nothing happens and the step succeeds; otherwise a missing dvisvgm is `BinaryNotFound`, and a run writes its output as the `.svg` and fails with `InvalidDvisvgm(stderr)` exactly when it does not succeed or its stderr contains "error:"; only the `.svg` may be added |
| Fragments.GenerateSvg | mdbook-scientific/src/fragments.rs:20-100 | latex is started iff the `.dvi` is missing (and found), and its failure is `InvalidMath` from its stdout with dvisvgm not started; dvisvgm is started iff the `.svg` is missing, dvisvgm is found and a `.dvi` exists or was made, and then the `.svg` holds dvisvgm's output and the call fails with `InvalidDvisvgm(stderr)` exactly when dvisvgm fails or reports "error:"; `BinaryNotFound("dvisvgm")` exactly when it is needed but missing; any other error is impossible, so the call succeeds when no step fails; gnuplot never; nothing is overwritten |
| Fragments.GenerateFresh | mdbook-scientific/src/fragments.rs:20-100 | with neither `.dvi` nor `.svg`, the call succeeds exactly when latex is found and succeeds and, if it wrote a `.dvi`, dvisvgm is found and does not fail; the `.svg` then holds dvisvgm's output, and without a `.dvi` no `.svg` appears |
| Fragments.LatexStepLeaves | mdbook-scientific/src/fragments.rs:26-79 | after a latex step that succeeds, the `.svg` is present iff it was before, and the `.dvi` is present iff it was or latex made it |
| Fragments.Named | mdbook-scientific/src/fragments.rs:156-158 | a successful render returns `<stem>.svg`, and a failure passes the error on |
| Fragments.RenderTex | mdbook-scientific/src/fragments.rs:143-158 | `<stem>.tex` is written only when missing, and the fragment is `<stem>.svg`; the call succeeds exactly when `generate_svg_from_latex` on the directory with the `.tex` does, fails with its error and leaves its directory; a cached fragment is returned with no change; only the stem's three files may be added |
| Fragments.Equation | mdbook-scientific/src/fragments.rs:134-159 | the fragment is `hash(content).svg`; the `.tex` holds the preamble, the body and the postamble unless it existed; the result succeeds or fails, with the same error, exactly as `generate_svg_from_latex` at the given zoom on that directory; a cached fragment costs nothing; errors are render errors |
| Fragments.FreshEquation | mdbook-scientific/src/fragments.rs:134-159 | a body never rendered before yields `hash(content).svg` exactly when latex succeeds on the wrapped body and, if it wrote a `.dvi`, dvisvgm is found and does not fail; the `.svg` then holds dvisvgm's output |
| Fragments.LatexFigure | mdbook-scientific/src/fragments.rs:162-180 | like an equation, but the `.tex` is the body verbatim and the render runs at zoom 1.0: success and error are those of `generate_svg_from_latex` on that directory |
| Fragments.GnuplotStep | mdbook-scientific/src/fragments.rs:190-193 | gnuplot runs exactly when the `.tex` is missing and gnuplot is found, and the `.tex` then holds what gnuplot writes for the script naming it; `BinaryNotFound` when gnuplot is needed but missing |
| Fragments.GnuplotFigure | mdbook-scientific/src/fragments.rs:183-200 | the fragment is `hash(content).svg`; gnuplot is started iff the `.tex` is missing; with `.tex` and `.svg` present nothing happens |
| Fragments.GnuplotRendered | mdbook-scientific/src/fragments.rs:190-199 | without the `.svg`, a missing gnuplot fails the call with nothing changed; otherwise the result and directory are those of `generate_svg_from_latex` at zoom 1.0 on the directory gnuplot left |
| Fragments.GnuplotSvgCached | mdbook-scientific/src/fragments.rs:190-199 | with the `.svg` already present, latex and dvisvgm are not started even when gnuplot writes the `.tex`, and the call fails only with `BinaryNotFound("gnuplot")` |
| Fragments.GnuplotOnlyFigure | mdbook-scientific/src/fragments.rs:203-237 | an existing `.svg` returns the name at once; otherwise gnuplot is started once and the `.svg` holds what it writes for the svg script, or `BinaryNotFound` when it is missing |
| Fragments.KindIndependentName | mdbook-scientific/src/fragments.rs:134-237 | equation, latex, gnuplot and gnuplot-only renderings of one body all return the same name |
| Fragments.SkipUntil | mdbook-scientific/src/fragments.rs:259 | drops exactly the lines before the first `<dl class="bib2xhtml">` |
| Fragments.TakeUntil | mdbook-scientific/src/fragments.rs:260 | keeps exactly the lines before the first `</dl>` |
| Fragments.MapAnchors | mdbook-scientific/src/fragments.rs:261 | every line has `<a name="` replaced by `<a id="` |
| Fragments.BibToHtml | mdbook-scientific/src/fragments.rs:252-265 | fails with `InvalidBibliography(stderr)` iff stderr contains "error messages)"; otherwise returns the filtered list |
| Fragments.FragmentDir.GenerateSvgFromLatex | mdbook-scientific/src/fragments.rs:20-100 | the directory after the call and the result are those of `GenerateSvg` |
| Fragments.FragmentDir.ParseEquation | mdbook-scientific/src/fragments.rs:134-159 | the directory after the call and the result are those of `Equation` |
| Fragments.FragmentDir.ParseLatex | mdbook-scientific/src/fragments.rs:162-180 | the directory after the call and the result are those of `LatexFigure` |
| Fragments.FragmentDir.ParseGnuplot | mdbook-scientific/src/fragments.rs:183-200 | the directory after the call and the result are those of `GnuplotFigure` |
| Fragments.FragmentDir.ParseGnuplotOnly | mdbook-scientific/src/fragments.rs:203-237 | the directory after the call and the result are those of `GnuplotOnlyFigure` |
| Blocks.HeaderFieldClean | mdbook-scientific/src/preprocess.rs:55-56 | a header field holds no `$$`, and a field without one is only trimmed |
| Blocks.HeaderFields | mdbook-scientific/src/preprocess.rs:54-57 | a header has between one and three fields |
| Blocks.CleanFields | mdbook-scientific/src/preprocess.rs:55-56 | each field is trimmed and stripped of `$$`, field by field |
| Blocks.Classify | mdbook-scientific/src/preprocess.rs:72-94 | a figure iff three fields headed `latex`, `gnuplot` or `gnuplotonly` (anchor field 2, caption field 3); a labelled equation iff two fields headed `equation`/`equ` with a non-empty label; anything else an unlabelled equation |
| Blocks.Render | mdbook-scientific/src/preprocess.rs:72-95 | every kind's renderer returns `hash(body).svg` and only extends the directory |
| Blocks.Register | mdbook-scientific/src/preprocess.rs:20-28 | a captioned block advances only the figure counter and maps its anchor to `Figure <head><n>`; a labelled equation advances only the equation counter and maps its anchor to `<head><n>`; an unlabelled one changes neither; the insert overwrites an earlier value for the same anchor |
| Blocks.AddObject | mdbook-scientific/src/preprocess.rs:17-33 | `add_object` appends exactly the file to the used list and numbers and registers as `Register` says |
| Blocks.AddObjectShows | mdbook-scientific/src/preprocess.rs:24-31 | the markup shows the fragment, a figure's caption contains its registered number, an equation shows `(<number>)` |
| Blocks.NumbersOf | mdbook-scientific/src/preprocess.rs:22-28 | figure and equation numbers are numbers of this chapter |
| Blocks.RegisterRefs | mdbook-scientific/src/preprocess.rs:22-28 | registering keeps every key and only adds or changes values into numbers of this chapter |
| Blocks.PlaceGrows | mdbook-scientific/src/preprocess.rs:17-29 | placing an object appends one fragment name and keeps the bookkeeping growing |
| Blocks.CloseBlock | mdbook-scientific/src/preprocess.rs:53-98 | closing a block leaves the machine outside any block with an empty body; a non-empty body is rendered with the header's request; an empty body renders the asset named by field 2 or, without one, leaves the state as it was |
| Blocks.Emit | mdbook-scientific/src/preprocess.rs:72-98 | rendering a block leaves the machine outside any block with an empty body |
| Blocks.Step | mdbook-scientific/src/preprocess.rs:36-102 | after a line that does not fail, whether a block is open and whether its body is empty are as the line's shape dictates (open, accumulate, one-line header, close); what a whole block renders is `BlockRendered` |
| Blocks.EmitGrows | mdbook-scientific/src/preprocess.rs:72-98 | rendering and placing a block keeps the bookkeeping growing |
| Blocks.StepGrows | mdbook-scientific/src/preprocess.rs:36-102 | one line keeps the bookkeeping growing |
| Blocks.BodyText | mdbook-scientific/src/preprocess.rs:39-43 | the body a block builds is empty exactly when it has no lines |
| Blocks.BodyTextJoin | mdbook-scientific/src/preprocess.rs:37-42 | a block's body is its lines trimmed, joined with newlines, and ended with a newline |
| Blocks.BodyScan | mdbook-scientific/src/preprocess.rs:39-43 | inside a block, lines without `$$` emit nothing and only add their trimmed text and a newline to the body, in order |
| Blocks.OpenScan | mdbook-scientific/src/preprocess.rs:36-51 | outside a block, a `$$` line that is not a one-line block opens a block with that header and an empty body |
| Blocks.CloseScan | mdbook-scientific/src/preprocess.rs:47-53 | the `$$` line that ends a block hands `CloseBlock` the open header and the body, or its own header and no body when it is a one-line block |
| Blocks.BlockScan | mdbook-scientific/src/preprocess.rs:36-98 | a header line, body lines without `$$` and a closing line scan as `CloseBlock` on the header and the body built from those lines |
| Blocks.BlockRendered | mdbook-scientific/src/preprocess.rs:36-98 | a whole block renders and places its trimmed body lines, each followed by a newline; with no body it renders the asset named by field 2, and without that asset it is skipped with the state unchanged; scanning then goes on with the following lines |
| Blocks.ScanGrows | mdbook-scientific/src/preprocess.rs:35-104 | over all lines the used list only grows by fragment names, the map keeps its keys and gains only this chapter's numbers, counters never decrease, the directory only grows |
| Blocks.TrimLines | mdbook-scientific/src/preprocess.rs:37 | every line trimmed, in order |
| Blocks.PlainComplete | mdbook-scientific/src/preprocess.rs:39-46 | a chapter without `$$` lines never reads a header |
| Blocks.PlainStep | mdbook-scientific/src/preprocess.rs:39-46 | outside a block, a line without `$$` is emitted trimmed and nothing else changes |
| Blocks.PlainScan | mdbook-scientific/src/preprocess.rs:35-46 | lines without `$$` are emitted trimmed, in order, with the bookkeeping unchanged |
| Blocks.NoBlocksTrims | mdbook-scientific/src/preprocess.rs:35-45 | a chapter with no `$$` line yields its lines trimmed and joined with newlines, and the map, used list and directory are unchanged |
| Blocks.NoBlocksIdentity | mdbook-scientific/src/preprocess.rs:35-105 | a chapter with no `$$` line and no surrounding whitespace on its lines comes back unchanged |
| Blocks.MissingAssetSkipped | mdbook-scientific/src/preprocess.rs:62-69 | a one-line header whose field-2 asset is missing yields nothing and scanning goes on with the state as it was |
| Blocks.EmitPlaces | mdbook-scientific/src/preprocess.rs:72-98 | a block that renders emits exactly its object's markup, appends its fragment to the used list, numbers and registers as `Register` says, and leaves the renderer's directory |
| Blocks.EmitFails | mdbook-scientific/src/preprocess.rs:72-104 | a render failure emits and registers nothing and is kept as the pass's error |
| Blocks.ScanStops | mdbook-scientific/src/preprocess.rs:104 | after a failure the remaining lines are not looked at |
| Blocks.BlocksGrows | mdbook-scientific/src/preprocess.rs:11-106 | over a chapter the used list only grows by fragment names, the map keeps every key and gains only this chapter's numbers, and the directory only grows |
| Blocks.RenderBlock | mdbook-scientific/src/preprocess.rs:72-95 | the renderer call on the directory is `Render` |
| Blocks.EmitBlock | mdbook-scientific/src/preprocess.rs:72-98 | rendering and placing one block on the directory is `Emit` |
| Blocks.CloseBlockAt | mdbook-scientific/src/preprocess.rs:53-98 | closing a block on the directory, loading a missing body from the assets, is `CloseBlock` |
| Blocks.StepLine | mdbook-scientific/src/preprocess.rs:36-102 | one iteration of the line loop on the loop's variables is `Step` |
| Blocks.ReplaceBlocks | mdbook-scientific/src/preprocess.rs:11-106 | `replace_blocks`: the result, the map, the used list and the directory are those of `DisplayBlocks` |
| Inline.Reference | mdbook-scientific/src/preprocess.rs:119-145 | a `ref:` piece without exactly two further fields is kept verbatim; with two, it resolves iff the kind is `fig`, `bib` or `equ` and the name is in the map; every error is `InvalidReference` |
| Inline.ReferenceShows | mdbook-scientific/src/preprocess.rs:127-145 | a resolved link names its target and shows the registered value (an equation as `Eq. (v)`); a failure names the label or the kind and the line index |
| Inline.Segment | mdbook-scientific/src/preprocess.rs:114-156 | a piece only extends the directory |
| Inline.Prepend | mdbook-scientific/src/preprocess.rs:159 | collecting keeps the bookkeeping and the success of the rest |
| Inline.Joined | mdbook-scientific/src/preprocess.rs:160 | joining keeps the bookkeeping and the success of the list |
| Inline.TextSegment | mdbook-scientific/src/preprocess.rs:115-117 | even pieces come out as they are, with nothing rendered or recorded |
| Inline.ReferenceSegment | mdbook-scientific/src/preprocess.rs:119-146 | an odd `ref:` piece is resolved and touches neither the used list nor the directory |
| Inline.FormulaSegment | mdbook-scientific/src/preprocess.rs:147-154 | an odd non-reference piece is rendered as an equation at zoom 1.3; the piece succeeds exactly when that render does and fails with the render's own error; on success exactly its fragment is recorded and it becomes an inline object showing it; a failure records nothing |
| Inline.SegmentErrors | mdbook-scientific/src/preprocess.rs:119-155 | a piece fails only with a bad reference or a render error |
| Inline.SegmentUsed | mdbook-scientific/src/preprocess.rs:147-154 | a piece only appends fragment names to the used list |
| Inline.SegmentsFacts | mdbook-scientific/src/preprocess.rs:114-160 | the pieces of a line only append fragment names, extend the directory, fail only with reference or render errors, and on success keep the number of pieces |
| Inline.LineUneven | mdbook-scientific/src/preprocess.rs:110-112 | a line fails with `UnevenNumberDollar` exactly when its count of `$` is odd, and then nothing is rendered or recorded |
| Inline.LineWithoutDollar | mdbook-scientific/src/preprocess.rs:114-117 | a line with no `$` comes back as it is, with nothing rendered or recorded |
| Inline.LineTracks | mdbook-scientific/src/preprocess.rs:109-160 | a line only appends fragment names and extends the directory |
| Inline.LinesWithoutDollar | mdbook-scientific/src/preprocess.rs:109-163 | lines without `$` come back as they are |
| Inline.NoDollarIdentity | mdbook-scientific/src/preprocess.rs:108-164 | with no `$` anywhere the pass returns its input and records and renders nothing |
| Inline.LinesUneven | mdbook-scientific/src/preprocess.rs:109-112 | `UnevenNumberDollar` comes only from a line with an odd count of `$`, and such a first line fails the pass at once with nothing done |
| Inline.LinesUnevenAt | mdbook-scientific/src/preprocess.rs:109-112 | when the lines before line j succeed and line j has an odd count of `$`, the pass fails there with `UnevenNumberDollar`, keeping the used list and directory of the lines before |
| Inline.LinesTracks | mdbook-scientific/src/preprocess.rs:109-163 | over the lines the used list only grows by fragment names and the directory only grows |
| Inline.InlineTracks | mdbook-scientific/src/preprocess.rs:108-164 | over a chapter the used list only grows by fragment names and the directory only grows |
| Inline.InlineSegment | mdbook-scientific/src/preprocess.rs:114-156 | one piece on the directory is `Segment` |
| Inline.InlineLine | mdbook-scientific/src/preprocess.rs:110-160 | the loop over one line's pieces, stopping at the first error, is `Line` |
| Inline.ReplaceInlineBlocks | mdbook-scientific/src/preprocess.rs:108-164 | `replace_inline_blocks`: the result, the used list and the directory are those of `InlineBlocksOf` |
| Scientific.SeedKeeps | mdbook-scientific/src/lib.rs:63-65 | a key that is not among the entries keeps what it had |
| Scientific.SeedLastWins | mdbook-scientific/src/lib.rs:63-65 | each key gets `[i+1]` for its last entry i; a later duplicate overwrites an earlier one |
| Scientific.SeedKeys | mdbook-scientific/src/lib.rs:63-65 | seeding adds exactly the entries' keys |
| Scientific.Bibliography | mdbook-scientific/src/lib.rs:52-76 | without both `bibliography` and `bib2xhtml` set nothing is added; a missing file is `BibliographyNotFound`; a failing bib2xhtml run is `BibliographyFailed` with its error; otherwise exactly one chapter holding the generated HTML is added and the map holds exactly the file's citation keys |
| Scientific.BibliographyCites | mdbook-scientific/src/lib.rs:61-65 | after the bibliography, the map holds exactly its citation keys, each showing the position of its last entry |
| Scientific.BlockRewriteGrows | mdbook-scientific/src/lib.rs:91 | `replace_blocks` on a chapter only appends fragment names to the used list, keeps every key of the map and only extends the directory |
| Scientific.InlineRewriteGrows | mdbook-scientific/src/lib.rs:107 | `replace_inline_blocks` on a chapter only appends fragment names, only extends the directory and leaves the map as it is |
| Scientific.BlockRewriteAdds | mdbook-scientific/src/lib.rs:91 | the block rewrite only appends fragment names, keeps every key and extends the directory |
| Scientific.InlineRewriteAdds | mdbook-scientific/src/lib.rs:107 | the inline rewrite only appends fragment names, extends the directory and leaves the map as it is |
| Scientific.PassFacts | mdbook-scientific/src/lib.rs:83-112 | a pass keeps the book's shape (only chapter contents change), only appends fragment names, keeps every key, extends the directory, and on error stops at a chapter that, with all items after it, is left untouched and whose head number the error names |
| Scientific.PassSeesRefs | mdbook-scientific/src/lib.rs:83-112 | when the chapters before chapter k succeed, chapter k is rewritten with the map the pass started with, and its rewrite becomes that item or the pass's error |
| Scientific.PassesFacts | mdbook-scientific/src/lib.rs:83-116 | the block pass then the inline pass: the directory only grows, the used list holds fragment names only, keys survive, the shape is kept, and an error names a chapter of the book |
| Scientific.InlineSeesBlockRefs | mdbook-scientific/src/lib.rs:47-112 | every chapter's inline rewrite resolves against the map the block pass ended with, so a label of a later chapter resolves in an earlier one |
| Scientific.BlockChapter | mdbook-scientific/src/lib.rs:91-93 | one chapter's `replace_blocks` on the directory is the block rewrite |
| Scientific.InlineChapter | mdbook-scientific/src/lib.rs:107-109 | one chapter's `replace_inline_blocks` on the directory is the inline rewrite, with the map unchanged |
| Scientific.RewriteChapter | mdbook-scientific/src/lib.rs:88-110 | one chapter's rewrite by the running pass is that pass's rewrite |
| Scientific.PassStep | mdbook-scientific/src/lib.rs:83-112 | one item of the traversal advances the pass as `Pass` says, or latches its error |
| Scientific.BlockPass | mdbook-scientific/src/lib.rs:83-96 | the block pass's traversal of the book on the directory, latched by the first error, is `Pass` with the block rewrite |
| Scientific.InlinePass | mdbook-scientific/src/lib.rs:99-112 | the inline pass's traversal of the book on the directory, latched by the first error, is `Pass` with the inline rewrite |
| Scientific.CopyAllPlaces | mdbook-scientific/src/lib.rs:125-127 | the copy completes exactly when every used fragment names an `.svg` present in the fragment directory, and then puts each, with its content, into the asset directory and nothing else; a failed copy names a used fragment whose `.svg` is absent |
| Scientific.RunWithoutSection | mdbook-scientific/src/lib.rs:130-132 | without the preprocessor's section the run fails with `KeySectionNotFound` and touches neither directory |
| Scientific.RunWithoutBibliography | mdbook-scientific/src/lib.rs:56-58 | a configured bibliography that does not exist fails the run before any chapter is rendered |
| Scientific.RunGrows | mdbook-scientific/src/lib.rs:30-133 | every run only extends the fragment directory and lists fragment names only; a run that fails before the copy leaves the asset directory as it was |
| Scientific.RunDone | mdbook-scientific/src/lib.rs:114-128 | a successful run returns the book plus the bibliography chapter with only chapter contents rewritten, keeps every citation key, and copies every used fragment with its content into the asset directory, which gains nothing else |
| Scientific.RunPassFailed | mdbook-scientific/src/lib.rs:83-116 | a pass error names the head number of a chapter of the book |
| Scientific.Prepare | mdbook-scientific/src/lib.rs:52-76 | the bibliography loop and bib2xhtml's run give `Bibliography` |
| Scientific.CopyFragments | mdbook-scientific/src/lib.rs:125-127 | the copy loop gives `CopyAll` |
| Scientific.Run | mdbook-scientific/src/lib.rs:30-133 | `Scientific::run`: the result, the map, the used list, the fragment directory and the asset directory are those of `RunBook` |

## Left out

- Files, processes and paths. The fragment and asset directories are maps from names to contents, and the external programs are oracles. So the `fragment_path` and `assets` settings and their defaults, creating directories, `canonicalize`, working directories and command lines are not modelled, nor is the warning printed for a missing block file. The `Io` error, which only these raise, is never produced.
- Panics. The model excludes each one as follows:
  - A one-field header with an empty body would read a missing field (`preprocess.rs:63`). This is the precondition `HeadersComplete` on `DisplayBlocks`, `ReplaceBlocks`, `BlockPass` and `Run`.
  - latex failing with an empty stdout (`fragments.rs:43-46`) is excluded by the type of the latex oracle.
  - A spawn failure (`expect`) is not modelled.
  - A bibliography that does not parse is not modelled: its keys are given.
  - An `fs::copy` that fails at `lib.rs:126` becomes the error `CopyFailed`.
- HeadersComplete: it asks for two fields of every body-less header of every chapter, including headers the code never reaches because an earlier render failed (the short-circuiting `collect` at `preprocess.rs:104`, the latch at `lib.rs:84-86`). A book whose only such header comes after a failing block, for instance `$$equ,a` / `x` / `$$` / `$$equ$$` with latex failing on `x`, fails with `InvalidMath` in the code but is outside the model.
- BlockRewrite: on a chapter whose headers are incomplete, it leaves the chapter as it is instead of panicking. No entry point reaches that case, because `BlockPass`, `RunBook` and `Run` require complete headers.
- gnuplot's own run. It writes its output while the process runs on (`fragments.rs:110-130`, `213-233`). The model takes the oracle's output as written when the call returns and does not model writes that fail.
- The mdbook API. A book is the sequence of its items in the order `for_each_mut` visits them, nested chapters included. A chapter's number is the string mdbook prints for it.
- The bibliography parser. Its citation keys are given per bibliography path, in file order.
- `zoom` is an opaque number with no arithmetic. SHA-256 itself is an oracle: only the shape of its hex digest is modelled.
- Error messages are not formatted. A `RunError` carries the pieces of the message: the head number and the inner error.
- The width of `usize` is taken to be 64 bits, for `usize::MAX` in the latex-log fold.
- The label namespaces are not separated. The model keeps the source's single flat map, in which a citation key, a figure label and an equation label can overwrite each other (`RegisterRefs`, `SeedLastWins`).
