/**
 * The fragment cache: every block or inline formula is rendered to an SVG file
 * whose name is a fingerprint of its text, and every render step runs only
 * when the file it would produce is missing from the fragment directory.
 *
 * The directory is a map from file name to content; the external programs
 * (latex, dvisvgm, gnuplot) are oracle functions in a `Backend`, and the
 * SHA-256 fingerprint is any function that yields 24 lower-case hex digits.
 * Each operation is a pure function over a `Disk` value, and `FragmentDir`
 * carries out the same steps in place on an object.
 */
module Fragments {
  import opened Strings
  import opened Errors

  // ---------------------------------------------------------------------------
  // Fingerprints

  predicate IsLowerHex(c: char) { '0' <= c <= '9' || 'a' <= c <= 'f' }

  /** 24 lower-case hexadecimal digits: a SHA-256 digest in hex, truncated. */
  predicate IsFingerprint(s: string) {
    |s| == 24 && forall k :: 0 <= k < |s| ==> IsLowerHex(s[k])
  }

  newtype Byte = x: int | 0 <= x < 256

  /** SHA-256 of the UTF-8 bytes of a string: always 32 bytes. Its internals are not modelled. */
  type Sha256 = f: string -> seq<Byte> | forall s :: |f(s)| == 32
    witness (s: string) => seq(32, _ => 0 as Byte)

  function HexDigit(n: int): (c: char)
    requires 0 <= n < 16
    ensures IsLowerHex(c)
  {
    "0123456789abcdef"[n]
  }

  /** `format!("{:x}", digest)`: two lower-case hex digits per byte, high nibble first. */
  function LowerHex(bytes: seq<Byte>): (r: string)
    ensures |r| == 2 * |bytes|
    ensures forall k :: 0 <= k < |r| ==> IsLowerHex(r[k])
  {
    if bytes == [] then ""
    else [HexDigit(bytes[0] as int / 16), HexDigit(bytes[0] as int % 16)] + LowerHex(bytes[1..])
  }

  /** `hash`: the hex SHA-256 digest cut to 24 characters; a function of the text alone. */
  function Hash(sha: Sha256, input: string): (id: string)
    ensures IsFingerprint(id)
  {
    LowerHex(sha(input))[..24]
  }

  // ---------------------------------------------------------------------------
  // External programs

  /** The `--zoom` factor passed to dvisvgm, in tenths (1.6 is `Zoom(16)`). */
  datatype Zoom = Zoom(tenths: nat)

  /** The zoom of raw LaTeX and gnuplot figures (1.0). */
  const FigureZoom := Zoom(10)

  /** What one run of an external program did: its status, its two streams, the file it wrote. */
  datatype ToolRun = ToolRun(success: bool, stdout: string, stderr: string, output: Option<string>)

  /**
   * latex, run on the content of `<stem>.tex` (None when that file is missing).
   * A failing latex always prints its diagnostics to stdout.
   */
  type LatexOracle = f: Option<string> -> ToolRun | forall t :: f(t).success || f(t).stdout != ""
    witness (t: Option<string>) => ToolRun(true, "", "", None)

  datatype Tool = Latex | Dvisvgm | Gnuplot

  /** The environment the renderers run in: which binaries exist, what they do, the digest. */
  datatype Backend = Backend(
    latexFound: bool,
    dvisvgmFound: bool,
    gnuplotFound: bool,
    latex: LatexOracle,                    // <stem>.tex content -> run writing <stem>.dvi
    dvisvgm: (string, Zoom) -> ToolRun,    // <stem>.dvi content and zoom -> run writing <stem>.svg
    gnuplot: string -> Option<string>,     // script on stdin -> the file its `set output` names
    sha256: Sha256)

  // ---------------------------------------------------------------------------
  // The fragment directory as a value

  /** The three kinds of file a fragment leaves in the directory. */
  datatype Ext = Tex | Dvi | Svg

  /** `<stem>.<ext>` in the fragment directory. */
  datatype FileName = FileName(stem: string, ext: Ext)

  /** The files of the fragment directory and the programs started so far, in order. */
  datatype Disk = Disk(files: map<FileName, string>, spawned: seq<Tool>)

  datatype Outcome<+T> = Outcome(result: Result<T>, disk: Disk)

  function TexFile(stem: string): FileName { FileName(stem, Tex) }
  function DviFile(stem: string): FileName { FileName(stem, Dvi) }
  function SvgFile(stem: string): FileName { FileName(stem, Svg) }

  /** `format!("{}.svg", name)`: the artifact name the renderers return. */
  function SvgName(stem: string): string { stem + ".svg" }

  /** A fragment's file name: a fingerprint followed by `.svg`. */
  predicate IsArtifactName(x: string) {
    |x| == 28 && IsFingerprint(x[..24]) && x[24..] == ".svg"
  }

  lemma ArtifactName(sha: Sha256, content: string)
    ensures IsArtifactName(SvgName(Hash(sha, content)))
  {
    var x := SvgName(Hash(sha, content));
    assert x[..24] == Hash(sha, content);
  }

  /** A later disk keeps every file of the earlier one unchanged and only adds program runs. */
  ghost predicate Extends(d: Disk, e: Disk) {
    && (forall f :: f in d.files ==> f in e.files && e.files[f] == d.files[f])
    && |d.spawned| <= |e.spawned|
    && e.spawned[..|d.spawned|] == d.spawned
  }

  lemma ExtendsTrans(d: Disk, e: Disk, g: Disk)
    requires Extends(d, e) && Extends(e, g)
    ensures Extends(d, g)
  {
    assert g.spawned[..|d.spawned|] == g.spawned[..|e.spawned|][..|d.spawned|];
  }

  /** The programs started between `d` and `e`. */
  ghost function Started(d: Disk, e: Disk): seq<Tool>
    requires Extends(d, e)
  {
    e.spawned[|d.spawned|..]
  }

  lemma StartedConcat(d: Disk, e: Disk, g: Disk)
    requires Extends(d, e) && Extends(e, g)
    ensures Extends(d, g) && Started(d, g) == Started(d, e) + Started(e, g)
  {
    ExtendsTrans(d, e, g);
    assert g.spawned == d.spawned + Started(d, e) + Started(e, g);
  }

  function Lookup(files: map<FileName, string>, name: FileName): Option<string> {
    if name in files then Some(files[name]) else None
  }

  /** A program that wrote nothing leaves the directory as it was. */
  function Store(files: map<FileName, string>, name: FileName, content: Option<string>): map<FileName, string> {
    if content.Some? then files[name := content.value] else files
  }

  /** `tex`, `dvi` and `svg` of the stem are all on disk. */
  predicate Cached(d: Disk, stem: string) {
    TexFile(stem) in d.files && DviFile(stem) in d.files && SvgFile(stem) in d.files
  }

  // ---------------------------------------------------------------------------
  // Reading latex's log

  /** What `InvalidMath` carries: the `! ` message, the offending text and its line. */
  datatype LatexDiagnosis = LatexDiagnosis(reason: string, element: string, line: nat)

  const NoDiagnosis := LatexDiagnosis("", "", UsizeMax)

  /** The log lines the extractor looks at. */
  predicate IsDiagnosticLine(x: string) {
    (StartsWith(x, "! ") || StartsWith(x, "l.")) && !Contains(x, "Emergency stop")
  }

  /** Lines 48-52: the diagnostic lines of the log, all of them and no other. */
  function FilterDiagnostics(lines: seq<string>): (r: seq<string>)
    ensures |r| <= |lines|
    ensures forall k :: 0 <= k < |r| ==> IsDiagnosticLine(r[k])
    ensures forall x :: x in r <==> x in lines && IsDiagnosticLine(x)
  {
    if lines == [] then []
    else if IsDiagnosticLine(lines[0]) then [lines[0]] + FilterDiagnostics(lines[1..])
    else FilterDiagnostics(lines[1..])
  }

  /** The filter keeps the order of the log: filtering two pieces is filtering each. */
  lemma {:induction false} FilterDiagnosticsAppend(a: seq<string>, b: seq<string>)
    ensures FilterDiagnostics(a + b) == FilterDiagnostics(a) + FilterDiagnostics(b)
    decreases |a|
  {
    if a == [] {
      assert a + b == b;
    } else {
      assert (a + b)[0] == a[0] && (a + b)[1..] == a[1..] + b;
      FilterDiagnosticsAppend(a[1..], b);
    }
  }

  /** The reason a log line gives: a `! ` line is one. */
  function ReasonOf(x: string): Option<string> {
    if StartsWith(x, "! ") then Some(x) else None
  }

  /** The line number an `l.<n> <rest>` line gives, when `<n>` parses as a usize. */
  function LineNumberOf(x: string): Option<nat> {
    if StartsWith(x, "l.") then ParseUsize(Trim(SplitN(x[2..], ' ', 2)[0])) else None
  }

  /** The offending text an `l.<n> <rest>` line gives, when it has a `<rest>`: trimmed. */
  function ElementOf(x: string): Option<string> {
    if StartsWith(x, "l.") && |SplitN(x[2..], ' ', 2)| == 2 then Some(Trim(SplitN(x[2..], ' ', 2)[1])) else None
  }

  /** `o`'s value, or `dflt` when there is none. */
  function OrElse<T>(o: Option<T>, dflt: T): T {
    if o.Some? then o.value else dflt
  }

  /**
   * `v` is what the last line of `ls` that gives `f` a value gives, or
   * `dflt` when no line does.
   */
  ghost predicate IsLast<T>(ls: seq<string>, f: string -> Option<T>, dflt: T, v: T) {
    if forall k :: 0 <= k < |ls| ==> f(ls[k]).None? then v == dflt
    else exists k :: 0 <= k < |ls| && f(ls[k]) == Some(v) && forall k' :: k < k' < |ls| ==> f(ls[k']).None?
  }

  /** A line the fold reads: the last value wins, and a line without one keeps the previous value. */
  lemma LastStep<T>(ls: seq<string>, f: string -> Option<T>, dflt: T, v0: T)
    requires ls != [] && IsLast(ls[..|ls| - 1], f, dflt, v0)
    ensures IsLast(ls, f, dflt, OrElse(f(ls[|ls| - 1]), v0))
  {
    var n := |ls| - 1;
    var init := ls[..n];
    assert forall k :: 0 <= k < n ==> init[k] == ls[k];
    if f(ls[n]).None? {
      if !(forall k :: 0 <= k < |init| ==> f(init[k]).None?) {
        var k :| 0 <= k < |init| && f(init[k]) == Some(v0) && forall k' :: k < k' < |init| ==> f(init[k']).None?;
        assert f(ls[k]) == Some(v0);
      }
    } else {
      assert f(ls[n]) == Some(OrElse(f(ls[n]), v0));
    }
  }

  /** One step of the fold: a `! ` line sets the reason, an `l.<n> <rest>` line the line and element. */
  function DiagnoseLine(acc: LatexDiagnosis, x: string): (r: LatexDiagnosis)
    ensures StartsWith(x, "! ") ==> r == acc.(reason := x)
    ensures !StartsWith(x, "! ") ==> r.reason == acc.reason
    ensures acc.line <= UsizeMax ==> r.line <= UsizeMax
    ensures r == LatexDiagnosis(OrElse(ReasonOf(x), acc.reason), OrElse(ElementOf(x), acc.element), OrElse(LineNumberOf(x), acc.line))
  {
    if StartsWith(x, "! ") then acc.(reason := x)
    else if StartsWith(x, "l.") then
      var parts := SplitN(x[2..], ' ', 2);
      var n := ParseUsize(Trim(parts[0]));
      var acc' := if n.Some? then acc.(line := n.value) else acc;
      if |parts| == 2 then acc'.(element := Trim(parts[1])) else acc'
    else acc
  }

  /** The fold over the lines, left to right (written by peeling the last line). */
  function FoldDiagnosis(acc: LatexDiagnosis, lines: seq<string>): LatexDiagnosis {
    if lines == [] then acc
    else DiagnoseLine(FoldDiagnosis(acc, lines[..|lines| - 1]), lines[|lines| - 1])
  }

  /**
   * The diagnosis `generate_svg_from_latex` extracts from latex's stdout.
   * The reason is empty or a `! ` line, never an "Emergency stop".
   */
  function LatexLogError(stdout: string): (r: LatexDiagnosis)
    ensures r.reason == "" || (StartsWith(r.reason, "! ") && !Contains(r.reason, "Emergency stop"))
    ensures r.line <= UsizeMax
    ensures var ls := FilterDiagnostics(Split(stdout, '\n'));
      && IsLast(ls, ReasonOf, "", r.reason)
      && IsLast(ls, ElementOf, "", r.element)
      && IsLast(ls, LineNumberOf, UsizeMax, r.line)
    ensures (forall x :: x in Split(stdout, '\n') ==> !IsDiagnosticLine(x)) ==> r == NoDiagnosis
  {
    var lines := FilterDiagnostics(Split(stdout, '\n'));
    FoldReasonShape(lines);
    FoldPicksLast(NoDiagnosis, lines);
    FoldDiagnosis(NoDiagnosis, lines)
  }

  /**
   * The fold leaves the reason of the last `! ` line, the number of the last
   * `l.` line whose number parses and the text of the last `l.` line that has
   * one; a part no line sets keeps its starting value.
   */
  lemma {:induction false} FoldPicksLast(acc: LatexDiagnosis, ls: seq<string>)
    ensures var r := FoldDiagnosis(acc, ls);
      && IsLast(ls, ReasonOf, acc.reason, r.reason)
      && IsLast(ls, ElementOf, acc.element, r.element)
      && IsLast(ls, LineNumberOf, acc.line, r.line)
    decreases |ls|
  {
    if ls != [] {
      var init := ls[..|ls| - 1];
      FoldPicksLast(acc, init);
      var r0 := FoldDiagnosis(acc, init);
      LastStep(ls, ReasonOf, acc.reason, r0.reason);
      LastStep(ls, ElementOf, acc.element, r0.element);
      LastStep(ls, LineNumberOf, acc.line, r0.line);
    }
  }

  lemma {:induction false} FoldReasonShape(lines: seq<string>)
    requires forall k :: 0 <= k < |lines| ==> IsDiagnosticLine(lines[k])
    ensures var r := FoldDiagnosis(NoDiagnosis, lines);
      && (r.reason == "" || (StartsWith(r.reason, "! ") && !Contains(r.reason, "Emergency stop")))
      && r.line <= UsizeMax
  {
    if lines != [] {
      FoldReasonShape(lines[..|lines| - 1]);
    }
  }

  // ---------------------------------------------------------------------------
  // generate_svg_from_latex

  /** The errors a renderer can report. */
  predicate IsRenderError(e: Error) {
    e.BinaryNotFound? || e.InvalidMath? || e.InvalidDvisvgm?
  }

  /** What latex does when run on the directory's `<stem>.tex` (None when that file is missing). */
  function LatexRun(d: Disk, stem: string, b: Backend): ToolRun {
    b.latex(Lookup(d.files, TexFile(stem)))
  }

  /** The `InvalidMath` error a failed latex run is reported as. */
  function InvalidMathOf(stdout: string): Error {
    var diag := LatexLogError(stdout);
    InvalidMath(diag.reason, diag.element, diag.line)
  }

  /**
   * Lines 25-75: run latex on `<stem>.tex` unless `<stem>.dvi` is there
   * already. The run's `.dvi` is kept, and a failed run is `InvalidMath` with
   * the diagnosis read from its stdout.
   */
  function LatexStep(d: Disk, stem: string, b: Backend): (o: Outcome<()>)
    ensures Extends(d, o.disk)
    ensures o.disk.files.Keys <= d.files.Keys + {DviFile(stem)}
    ensures Started(d, o.disk) == if DviFile(stem) !in d.files && b.latexFound then [Latex] else []
    ensures o.result == Err(BinaryNotFound("latex")) <==> DviFile(stem) !in d.files && !b.latexFound
    ensures DviFile(stem) in d.files ==> o == Outcome(Ok(()), d)
    ensures DviFile(stem) !in d.files && b.latexFound ==>
      && Lookup(o.disk.files, DviFile(stem)) == LatexRun(d, stem, b).output
      && (o.result.Ok? <==> LatexRun(d, stem, b).success)
      && (o.result.Err? ==> o.result.error == InvalidMathOf(LatexRun(d, stem, b).stdout))
    ensures o.result.Err? ==> IsRenderError(o.result.error)
  {
    if DviFile(stem) in d.files then Outcome(Ok(()), d)
    else if !b.latexFound then Outcome(Err(BinaryNotFound("latex")), d)
    else
      var run := b.latex(Lookup(d.files, TexFile(stem)));
      var d' := Disk(Store(d.files, DviFile(stem), run.output), d.spawned + [Latex]);
      if run.success then Outcome(Ok(()), d')
      else
        Outcome(Err(InvalidMathOf(run.stdout)), d')
  }

  /** dvisvgm's run fails when its status says so or when it reports "error:" on stderr. */
  predicate DvisvgmFailed(run: ToolRun) {
    !run.success || Contains(run.stderr, "error:")
  }

  /**
   * Lines 78-97: run dvisvgm when `<stem>.svg` is missing and `<stem>.dvi` is
   * there; a failed run is `InvalidDvisvgm` with its stderr.
   */
  function DvisvgmStep(d: Disk, stem: string, zoom: Zoom, b: Backend): (o: Outcome<()>)
    ensures Extends(d, o.disk)
    ensures o.disk.files.Keys <= d.files.Keys + {SvgFile(stem)}
    ensures Started(d, o.disk) == if SvgFile(stem) !in d.files && DviFile(stem) in d.files && b.dvisvgmFound then [Dvisvgm] else []
    ensures o.result != Err(BinaryNotFound("latex"))
    ensures !(SvgFile(stem) !in d.files && DviFile(stem) in d.files) ==> o == Outcome(Ok(()), d)
    ensures SvgFile(stem) !in d.files && DviFile(stem) in d.files && !b.dvisvgmFound ==>
      o == Outcome(Err(BinaryNotFound("dvisvgm")), d)
    ensures SvgFile(stem) !in d.files && DviFile(stem) in d.files && b.dvisvgmFound ==>
      var run := b.dvisvgm(d.files[DviFile(stem)], zoom);
      && Lookup(o.disk.files, SvgFile(stem)) == run.output
      && (o.result.Ok? <==> !DvisvgmFailed(run))
      && (o.result.Err? ==> o.result.error == InvalidDvisvgm(run.stderr))
    ensures o.result.Err? ==> IsRenderError(o.result.error)
  {
    if SvgFile(stem) !in d.files && DviFile(stem) in d.files then
      if !b.dvisvgmFound then Outcome(Err(BinaryNotFound("dvisvgm")), d)
      else
        var run := b.dvisvgm(d.files[DviFile(stem)], zoom);
        var d' := Disk(Store(d.files, SvgFile(stem), run.output), d.spawned + [Dvisvgm]);
        if DvisvgmFailed(run) then Outcome(Err(InvalidDvisvgm(run.stderr)), d')
        else Outcome(Ok(()), d')
    else Outcome(Ok(()), d)
  }

  /**
   * `generate_svg_from_latex`: latex only without a `.dvi`, dvisvgm only without
   * an `.svg`; nothing on disk is overwritten, and a complete cache entry is left
   * alone without starting any program.
   */
  function GenerateSvg(d: Disk, stem: string, zoom: Zoom, b: Backend): (o: Outcome<()>)
    ensures Extends(d, o.disk)
    ensures o.disk.files.Keys <= d.files.Keys + {DviFile(stem), SvgFile(stem)}
    ensures Latex in Started(d, o.disk) <==> DviFile(stem) !in d.files && b.latexFound
    ensures Dvisvgm in Started(d, o.disk) ==> SvgFile(stem) !in d.files
    ensures Gnuplot !in Started(d, o.disk)
    ensures o.result == Err(BinaryNotFound("latex")) <==> DviFile(stem) !in d.files && !b.latexFound
    ensures DviFile(stem) in d.files && SvgFile(stem) in d.files ==> o == Outcome(Ok(()), d)
    ensures o.result.Err? ==> IsRenderError(o.result.error)
    ensures (o.result.Err? && o.result.error.InvalidMath?) <==> DviFile(stem) !in d.files && b.latexFound && !LatexRun(d, stem, b).success
    ensures DviFile(stem) !in d.files && b.latexFound && !LatexRun(d, stem, b).success ==>
      o.result == Err(InvalidMathOf(LatexRun(d, stem, b).stdout)) && Dvisvgm !in Started(d, o.disk)
    ensures Dvisvgm in Started(d, o.disk) <==>
      SvgFile(stem) !in d.files && b.dvisvgmFound && DviReady(d, stem, b)
    ensures o.result == Err(BinaryNotFound("dvisvgm")) <==>
      SvgFile(stem) !in d.files && !b.dvisvgmFound && DviReady(d, stem, b)
    ensures Dvisvgm in Started(d, o.disk) ==>
      && DviFile(stem) in o.disk.files
      && var run := b.dvisvgm(o.disk.files[DviFile(stem)], zoom);
         && Lookup(o.disk.files, SvgFile(stem)) == run.output
         && (o.result.Ok? <==> !DvisvgmFailed(run))
         && (o.result.Err? ==> o.result.error == InvalidDvisvgm(run.stderr))
    ensures o.result.Err? ==>
      || o.result == Err(BinaryNotFound("latex")) || o.result.error.InvalidMath?
      || o.result == Err(BinaryNotFound("dvisvgm")) || Dvisvgm in Started(d, o.disk)
  {
    var l := LatexStep(d, stem, b);
    if l.result.Err? then l
    else
      var v := DvisvgmStep(l.disk, stem, zoom, b);
      ChainSteps(d, l.disk, v, stem, b);
      LatexStepLeaves(d, stem, b);
      StartedConcat(d, l.disk, v.disk);
      v
  }

  /** A `.dvi` is there for dvisvgm: it was on disk, or latex ran, succeeded and wrote one. */
  predicate DviReady(d: Disk, stem: string, b: Backend) {
    DviFile(stem) in d.files || (b.latexFound && LatexRun(d, stem, b).success && LatexRun(d, stem, b).output.Some?)
  }

  /** After a latex step that went through, the `.dvi` is there exactly when `DviReady` says so, and the `.svg` is as before. */
  lemma LatexStepLeaves(d: Disk, stem: string, b: Backend)
    requires LatexStep(d, stem, b).result.Ok?
    ensures var e := LatexStep(d, stem, b).disk;
      && (SvgFile(stem) in e.files <==> SvgFile(stem) in d.files)
      && (DviFile(stem) in e.files <==> DviReady(d, stem, b))
  {
    if DviFile(stem) !in d.files {
      assert DviFile(stem) != SvgFile(stem);
    }
  }

  /**
   * Lines 20-100 on a stem with neither `.dvi` nor `.svg`: the call succeeds
   * exactly when latex is found and succeeds and, if it wrote a `.dvi`,
   * dvisvgm is found and does not fail; the `.svg` then holds what dvisvgm wrote.
   */
  lemma GenerateFresh(d: Disk, stem: string, zoom: Zoom, b: Backend)
    requires DviFile(stem) !in d.files && SvgFile(stem) !in d.files
    ensures var o := GenerateSvg(d, stem, zoom, b);
      var run := LatexRun(d, stem, b);
      && (o.result.Ok? <==>
            && b.latexFound && run.success
            && (run.output.Some? ==> b.dvisvgmFound && !DvisvgmFailed(b.dvisvgm(run.output.value, zoom))))
      && (o.result.Ok? && run.output.Some? ==>
            Lookup(o.disk.files, SvgFile(stem)) == b.dvisvgm(run.output.value, zoom).output)
      && (o.result.Ok? && run.output.None? ==> SvgFile(stem) !in o.disk.files)
  {
    var l := LatexStep(d, stem, b);
    if l.result.Ok? {
      LatexStepLeaves(d, stem, b);
      if LatexRun(d, stem, b).output.Some? {
        assert l.disk.files[DviFile(stem)] == LatexRun(d, stem, b).output.value;
      }
    }
  }

  /** What the two steps promise, chained: latex's step left `e`, dvisvgm's step then gave `v`. */
  lemma ChainSteps(d: Disk, e: Disk, v: Outcome<()>, stem: string, b: Backend)
    requires Extends(d, e) && e.files.Keys <= d.files.Keys + {DviFile(stem)}
    requires Started(d, e) == if DviFile(stem) !in d.files && b.latexFound then [Latex] else []
    requires DviFile(stem) in d.files || b.latexFound
    requires DviFile(stem) in d.files ==> e == d
    requires Extends(e, v.disk) && v.disk.files.Keys <= e.files.Keys + {SvgFile(stem)}
    requires Started(e, v.disk) == if SvgFile(stem) !in e.files && DviFile(stem) in e.files && b.dvisvgmFound then [Dvisvgm] else []
    requires v.result != Err(BinaryNotFound("latex"))
    requires SvgFile(stem) in e.files ==> v == Outcome(Ok(()), e)
    ensures Extends(d, v.disk)
    ensures v.disk.files.Keys <= d.files.Keys + {DviFile(stem), SvgFile(stem)}
    ensures Latex in Started(d, v.disk) <==> DviFile(stem) !in d.files && b.latexFound
    ensures Dvisvgm in Started(d, v.disk) ==> SvgFile(stem) !in d.files
    ensures Gnuplot !in Started(d, v.disk)
    ensures DviFile(stem) in d.files && SvgFile(stem) in d.files ==> v == Outcome(Ok(()), d)
  {
    StartedConcat(d, e, v.disk);
  }

  // ---------------------------------------------------------------------------
  // The four renderers

  const EquationPreamble :=
    "\\documentclass[20pt, preview]{standalone}\n\\usepackage{amsmath}\\usepackage{amsfonts}\n\\begin{document}\n$$\n"
  const EquationPostamble := "$$\n\\end{document}"

  /** The LaTeX document an equation body is wrapped in. */
  function EquationSource(content: string): string {
    EquationPreamble + content + EquationPostamble
  }

  /** Creates `name` with `content` when it is missing; an existing file is kept as it is. */
  function WriteIfAbsent(d: Disk, name: FileName, content: string): Disk {
    if name in d.files then d else d.(files := d.files[name := content])
  }

  /** The artifact name once the render steps succeeded. */
  function Named(r: Result<()>, stem: string): (n: Result<string>)
    ensures n.Ok? <==> r.Ok?
    ensures n.Ok? ==> n.value == SvgName(stem)
    ensures n.Err? ==> n.error == r.error
  {
    if r.Ok? then Ok(SvgName(stem)) else Err(r.error)
  }

  /**
   * The shared tail of `parse_equation` and `parse_latex`: write `<stem>.tex`
   * when it is missing, then run the latex pipeline.
   */
  function RenderTex(d: Disk, stem: string, tex: string, zoom: Zoom, b: Backend): (o: Outcome<string>)
    ensures o.result.Ok? ==> o.result.value == SvgName(stem)
    ensures Extends(d, o.disk)
    ensures o.disk.files.Keys <= d.files.Keys + {TexFile(stem), DviFile(stem), SvgFile(stem)}
    ensures TexFile(stem) in o.disk.files
    ensures o.disk.files[TexFile(stem)] == if TexFile(stem) in d.files then d.files[TexFile(stem)] else tex
    ensures Cached(d, stem) ==> o == Outcome(Ok(SvgName(stem)), d)
    ensures Gnuplot !in Started(d, o.disk)
    ensures o.result.Err? ==> IsRenderError(o.result.error)
    ensures var g := GenerateSvg(WriteIfAbsent(d, TexFile(stem), tex), stem, zoom, b);
      && o.disk == g.disk
      && (o.result.Ok? <==> g.result.Ok?)
      && (o.result.Err? ==> o.result.error == g.result.error)
  {
    var d1 := WriteIfAbsent(d, TexFile(stem), tex);
    var g := GenerateSvg(d1, stem, zoom, b);
    ExtendsTrans(d, d1, g.disk);
    Outcome(Named(g.result, stem), g.disk)
  }

  /**
   * `parse_equation`: the fragment is `hash(content).svg`; the `.tex` file is
   * written (wrapped in the preamble) only when missing.
   */
  function Equation(d: Disk, content: string, zoom: Zoom, b: Backend): (o: Outcome<string>)
    ensures o.result.Ok? ==> o.result.value == SvgName(Hash(b.sha256, content))
    ensures Extends(d, o.disk)
    ensures var stem := Hash(b.sha256, content);
      && o.disk.files.Keys <= d.files.Keys + {TexFile(stem), DviFile(stem), SvgFile(stem)}
      && TexFile(stem) in o.disk.files
      && o.disk.files[TexFile(stem)] == (if TexFile(stem) in d.files then d.files[TexFile(stem)] else EquationSource(content))
      && (Cached(d, stem) ==> o == Outcome(Ok(SvgName(stem)), d))
      && Gnuplot !in Started(d, o.disk)
    ensures o.result.Err? ==> IsRenderError(o.result.error)
    ensures var stem := Hash(b.sha256, content);
      var g := GenerateSvg(WriteIfAbsent(d, TexFile(stem), EquationSource(content)), stem, zoom, b);
      && o.disk == g.disk
      && (o.result.Ok? <==> g.result.Ok?)
      && (o.result.Err? ==> o.result.error == g.result.error)
  {
    RenderTex(d, Hash(b.sha256, content), EquationSource(content), zoom, b)
  }

  /** `parse_latex`: like an equation, but the `.tex` is the content verbatim and the zoom is 1.0. */
  function LatexFigure(d: Disk, content: string, b: Backend): (o: Outcome<string>)
    ensures o.result.Ok? ==> o.result.value == SvgName(Hash(b.sha256, content))
    ensures Extends(d, o.disk)
    ensures var stem := Hash(b.sha256, content);
      && o.disk.files.Keys <= d.files.Keys + {TexFile(stem), DviFile(stem), SvgFile(stem)}
      && TexFile(stem) in o.disk.files
      && o.disk.files[TexFile(stem)] == (if TexFile(stem) in d.files then d.files[TexFile(stem)] else content)
      && (Cached(d, stem) ==> o == Outcome(Ok(SvgName(stem)), d))
      && Gnuplot !in Started(d, o.disk)
    ensures o.result.Err? ==> IsRenderError(o.result.error)
    ensures var stem := Hash(b.sha256, content);
      var g := GenerateSvg(WriteIfAbsent(d, TexFile(stem), content), stem, FigureZoom, b);
      && o.disk == g.disk
      && (o.result.Ok? <==> g.result.Ok?)
      && (o.result.Err? ==> o.result.error == g.result.error)
  {
    RenderTex(d, Hash(b.sha256, content), content, FigureZoom, b)
  }

  /** What `generate_latex_from_gnuplot` pipes into gnuplot. */
  function GnuplotTexScript(stem: string, content: string): string {
    "set output '" + stem + ".tex'\n" + "set terminal epslatex color standalone\n" + content
  }

  /** What `parse_gnuplot_only` pipes into gnuplot. */
  function GnuplotSvgScript(stem: string, content: string): string {
    "set output '" + stem + ".svg'\n" + "set terminal svg\n" + "set encoding utf8\n" + content
  }

  /** Lines 190-193: gnuplot writes `<stem>.tex` unless it is there already. */
  function GnuplotStep(d: Disk, stem: string, content: string, b: Backend): (o: Outcome<()>)
    ensures Extends(d, o.disk)
    ensures o.disk.files.Keys <= d.files.Keys + {TexFile(stem)}
    ensures Started(d, o.disk) == if TexFile(stem) !in d.files && b.gnuplotFound then [Gnuplot] else []
    ensures o.result.Err? <==> TexFile(stem) !in d.files && !b.gnuplotFound
    ensures o.result.Err? ==> o == Outcome(Err(BinaryNotFound("gnuplot")), d)
    ensures TexFile(stem) in d.files ==> o == Outcome(Ok(()), d)
    ensures TexFile(stem) !in d.files && b.gnuplotFound ==>
      Lookup(o.disk.files, TexFile(stem)) == b.gnuplot(GnuplotTexScript(stem, content))
  {
    if TexFile(stem) in d.files then Outcome(Ok(()), d)
    else if !b.gnuplotFound then Outcome(Err(BinaryNotFound("gnuplot")), d)
    else
      var script := GnuplotTexScript(stem, content);
      Outcome(Ok(()), Disk(Store(d.files, TexFile(stem), b.gnuplot(script)), d.spawned + [Gnuplot]))
  }

  /**
   * `parse_gnuplot`: gnuplot only without a `.tex`, the latex pipeline only
   * without an `.svg`.
   */
  function GnuplotFigure(d: Disk, content: string, b: Backend): (o: Outcome<string>)
    ensures o.result.Ok? ==> o.result.value == SvgName(Hash(b.sha256, content))
    ensures Extends(d, o.disk)
    ensures var stem := Hash(b.sha256, content);
      && o.disk.files.Keys <= d.files.Keys + {TexFile(stem), DviFile(stem), SvgFile(stem)}
      && (Gnuplot in Started(d, o.disk) <==> TexFile(stem) !in d.files && b.gnuplotFound)
      && (TexFile(stem) in d.files && SvgFile(stem) in d.files ==> o == Outcome(Ok(SvgName(stem)), d))
    ensures o.result.Err? ==> IsRenderError(o.result.error)
  {
    var stem := Hash(b.sha256, content);
    var p := GnuplotStep(d, stem, content, b);
    if p.result.Err? then Outcome(Err(p.result.error), p.disk)
    else if SvgFile(stem) in p.disk.files then Outcome(Ok(SvgName(stem)), p.disk)
    else
      var g := GenerateSvg(p.disk, stem, FigureZoom, b);
      StartedConcat(d, p.disk, g.disk);
      assert Gnuplot !in Started(p.disk, g.disk);
      Outcome(Named(g.result, stem), g.disk)
  }

  /**
   * Lines 195-197: without the `.svg`, once gnuplot's step went through, the
   * call ends as `generate_svg_from_latex` at zoom 1.0 on the directory
   * gnuplot left; a missing gnuplot fails it first.
   */
  lemma GnuplotRendered(d: Disk, content: string, b: Backend)
    requires SvgFile(Hash(b.sha256, content)) !in d.files
    ensures var stem := Hash(b.sha256, content);
      var o := GnuplotFigure(d, content, b);
      var p := GnuplotStep(d, stem, content, b);
      && (p.result.Err? ==> o == Outcome(Err(BinaryNotFound("gnuplot")), d))
      && (p.result.Ok? ==>
            var g := GenerateSvg(p.disk, stem, FigureZoom, b);
            && o.disk == g.disk
            && (o.result.Ok? <==> g.result.Ok?)
            && (o.result.Err? ==> o.result.error == g.result.error))
  {
    var stem := Hash(b.sha256, content);
    assert SvgFile(stem) != TexFile(stem);
  }

  /**
   * Lines 190-199: with the `.svg` already there, latex and dvisvgm are not
   * started even when gnuplot had to write the `.tex`; only a missing gnuplot
   * makes the call fail.
   */
  lemma GnuplotSvgCached(d: Disk, content: string, b: Backend)
    requires SvgFile(Hash(b.sha256, content)) in d.files
    ensures var stem := Hash(b.sha256, content);
      var o := GnuplotFigure(d, content, b);
      && Latex !in Started(d, o.disk) && Dvisvgm !in Started(d, o.disk)
      && (o.result.Ok? <==> TexFile(stem) in d.files || b.gnuplotFound)
      && (o.result.Err? ==> o.result == Err(BinaryNotFound("gnuplot")))
  {
    var stem := Hash(b.sha256, content);
    var p := GnuplotStep(d, stem, content, b);
    assert SvgFile(stem) in p.disk.files;
  }

  /** `parse_gnuplot_only`: gnuplot writes the `.svg` itself, and only when it is missing. */
  function GnuplotOnlyFigure(d: Disk, content: string, b: Backend): (o: Outcome<string>)
    ensures o.result.Ok? ==> o.result.value == SvgName(Hash(b.sha256, content))
    ensures Extends(d, o.disk)
    ensures var stem := Hash(b.sha256, content);
      && o.disk.files.Keys <= d.files.Keys + {SvgFile(stem)}
      && (SvgFile(stem) in d.files ==> o == Outcome(Ok(SvgName(stem)), d))
      && (SvgFile(stem) !in d.files && !b.gnuplotFound ==> o == Outcome(Err(BinaryNotFound("gnuplot")), d))
      && (SvgFile(stem) !in d.files && b.gnuplotFound ==>
            && o.result.Ok? && Started(d, o.disk) == [Gnuplot]
            && Lookup(o.disk.files, SvgFile(stem)) == b.gnuplot(GnuplotSvgScript(stem, content)))
    ensures o.result.Err? ==> IsRenderError(o.result.error)
  {
    var stem := Hash(b.sha256, content);
    if SvgFile(stem) in d.files then Outcome(Ok(SvgName(stem)), d)
    else if !b.gnuplotFound then Outcome(Err(BinaryNotFound("gnuplot")), d)
    else
      var script := GnuplotSvgScript(stem, content);
      Outcome(Ok(SvgName(stem)), Disk(Store(d.files, SvgFile(stem), b.gnuplot(script)), d.spawned + [Gnuplot]))
  }

  /**
   * `parse_equation` on a body never rendered before: it yields
   * `hash(content).svg` exactly when latex is found and succeeds on the wrapped
   * body and, if latex wrote a `.dvi`, dvisvgm is found and does not fail on
   * it; the `.svg` then holds what dvisvgm wrote.
   */
  lemma FreshEquation(d: Disk, content: string, zoom: Zoom, b: Backend)
    requires var stem := Hash(b.sha256, content);
      TexFile(stem) !in d.files && DviFile(stem) !in d.files && SvgFile(stem) !in d.files
    ensures var stem := Hash(b.sha256, content);
      var o := Equation(d, content, zoom, b);
      var run := b.latex(Some(EquationSource(content)));
      && (o.result.Ok? <==>
            && b.latexFound && run.success
            && (run.output.Some? ==> b.dvisvgmFound && !DvisvgmFailed(b.dvisvgm(run.output.value, zoom))))
      && (o.result.Ok? ==> o.result.value == SvgName(stem))
      && (o.result.Ok? && run.output.Some? ==>
            Lookup(o.disk.files, SvgFile(stem)) == b.dvisvgm(run.output.value, zoom).output)
  {
    var stem := Hash(b.sha256, content);
    var d1 := WriteIfAbsent(d, TexFile(stem), EquationSource(content));
    assert LatexRun(d1, stem, b) == b.latex(Some(EquationSource(content))) by {
      assert Lookup(d1.files, TexFile(stem)) == Some(EquationSource(content));
    }
    GenerateFresh(d1, stem, zoom, b);
  }

  /** The artifact's name does not depend on the renderer: equal bodies of any kind share one file. */
  lemma KindIndependentName(d: Disk, e: Disk, content: string, zoom: Zoom, b: Backend)
    ensures var eq := Equation(d, content, zoom, b).result;
      && (eq.Ok? && LatexFigure(e, content, b).result.Ok? ==> LatexFigure(e, content, b).result.value == eq.value)
      && (eq.Ok? && GnuplotFigure(e, content, b).result.Ok? ==> GnuplotFigure(e, content, b).result.value == eq.value)
      && (eq.Ok? && GnuplotOnlyFigure(e, content, b).result.Ok? ==> GnuplotOnlyFigure(e, content, b).result.value == eq.value)
  {
  }

  // ---------------------------------------------------------------------------
  // bib_to_html

  const BibListOpen := "<dl class=\"bib2xhtml\">"
  const BibListClose := "</dl>"

  /** `skip_while(|x| x != target)`: drops the lines before the first `target`. */
  function SkipUntil(lines: seq<string>, target: string): (r: seq<string>)
    ensures |r| <= |lines| && r == lines[|lines| - |r|..]
    ensures r == [] || r[0] == target
    ensures forall k :: 0 <= k < |lines| - |r| ==> lines[k] != target
  {
    if lines == [] || lines[0] == target then lines else SkipUntil(lines[1..], target)
  }

  /** `take_while(|x| x != stop)`: keeps the lines before the first `stop`. */
  function TakeUntil(lines: seq<string>, stop: string): (r: seq<string>)
    ensures |r| <= |lines| && r == lines[..|r|]
    ensures |r| == |lines| || lines[|r|] == stop
    ensures forall k :: 0 <= k < |r| ==> r[k] != stop
  {
    if lines == [] || lines[0] == stop then [] else [lines[0]] + TakeUntil(lines[1..], stop)
  }

  /** Turns the `name` attribute of anchors into `id`. */
  function AnchorById(line: string): string {
    ReplaceAll(line, "<a name=\"", "<a id=\"")
  }

  function MapAnchors(lines: seq<string>): (r: seq<string>)
    ensures |r| == |lines|
    ensures forall k :: 0 <= k < |r| ==> r[k] == AnchorById(lines[k])
  {
    if lines == [] then [] else [AnchorById(lines[0])] + MapAnchors(lines[1..])
  }

  /** The `<dl>` list of bib2xhtml's output, opening line included, `</dl>` excluded, lines glued. */
  function BibList(stdout: string): string {
    Concat(MapAnchors(TakeUntil(SkipUntil(Split(stdout, '\n'), BibListOpen), BibListClose)))
  }

  /** `bib_to_html` once bib2xhtml has run: an error report on stderr fails, anything else is the list. */
  function BibToHtml(run: ToolRun): (r: Result<string>)
    ensures r.Err? <==> Contains(run.stderr, "error messages)")
    ensures r.Err? ==> r.error == InvalidBibliography(run.stderr)
    ensures r.Ok? ==> r.value == BibList(run.stdout)
  {
    if Contains(run.stderr, "error messages)") then Err(InvalidBibliography(run.stderr))
    else Ok(BibList(run.stdout))
  }

  // ---------------------------------------------------------------------------
  // The fragment directory as an object

  /** The fragment directory on disk, which the renderers change in place. */
  class FragmentDir {
    var files: map<FileName, string>
    var spawned: seq<Tool>

    function State(): Disk
      reads this
    {
      Disk(files, spawned)
    }

    constructor (existing: map<FileName, string>)
      ensures files == existing && spawned == []
    {
      files := existing;
      spawned := [];
    }

    /** `generate_svg_from_latex`. */
    method GenerateSvgFromLatex(stem: string, zoom: Zoom, b: Backend) returns (r: Result<()>)
      modifies this
      ensures Outcome(r, State()) == GenerateSvg(old(State()), stem, zoom, b)
    {
      var dvi := DviFile(stem);
      if dvi !in files {
        if !b.latexFound {
          return Err(BinaryNotFound("latex"));
        }
        var run := b.latex(Lookup(files, TexFile(stem)));
        spawned := spawned + [Latex];
        files := Store(files, dvi, run.output);
        if !run.success {
          var diag := LatexLogError(run.stdout);
          return Err(InvalidMath(diag.reason, diag.element, diag.line));
        }
      }
      var svg := SvgFile(stem);
      if svg !in files && dvi in files {
        if !b.dvisvgmFound {
          return Err(BinaryNotFound("dvisvgm"));
        }
        var run := b.dvisvgm(files[dvi], zoom);
        spawned := spawned + [Dvisvgm];
        files := Store(files, svg, run.output);
        if !run.success || Contains(run.stderr, "error:") {
          return Err(InvalidDvisvgm(run.stderr));
        }
      }
      return Ok(());
    }

    /** `parse_equation`. */
    method ParseEquation(content: string, zoom: Zoom, b: Backend) returns (r: Result<string>)
      modifies this
      ensures Outcome(r, State()) == Equation(old(State()), content, zoom, b)
    {
      var name := Hash(b.sha256, content);
      if TexFile(name) !in files {
        files := files[TexFile(name) := EquationSource(content)];
      }
      var g := GenerateSvgFromLatex(name, zoom, b);
      if g.Err? {
        return Err(g.error);
      }
      return Ok(SvgName(name));
    }

    /** `parse_latex`. */
    method ParseLatex(content: string, b: Backend) returns (r: Result<string>)
      modifies this
      ensures Outcome(r, State()) == LatexFigure(old(State()), content, b)
    {
      var name := Hash(b.sha256, content);
      if TexFile(name) !in files {
        files := files[TexFile(name) := content];
      }
      var g := GenerateSvgFromLatex(name, FigureZoom, b);
      if g.Err? {
        return Err(g.error);
      }
      return Ok(SvgName(name));
    }

    /** `parse_gnuplot`. */
    method ParseGnuplot(content: string, b: Backend) returns (r: Result<string>)
      modifies this
      ensures Outcome(r, State()) == GnuplotFigure(old(State()), content, b)
    {
      var name := Hash(b.sha256, content);
      if TexFile(name) !in files {
        if !b.gnuplotFound {
          return Err(BinaryNotFound("gnuplot"));
        }
        spawned := spawned + [Gnuplot];
        files := Store(files, TexFile(name), b.gnuplot(GnuplotTexScript(name, content)));
      }
      if SvgFile(name) !in files {
        var g := GenerateSvgFromLatex(name, FigureZoom, b);
        if g.Err? {
          return Err(g.error);
        }
      }
      return Ok(SvgName(name));
    }

    /** `parse_gnuplot_only`. */
    method ParseGnuplotOnly(content: string, b: Backend) returns (r: Result<string>)
      modifies this
      ensures Outcome(r, State()) == GnuplotOnlyFigure(old(State()), content, b)
    {
      var name := Hash(b.sha256, content);
      if SvgFile(name) !in files {
        if !b.gnuplotFound {
          return Err(BinaryNotFound("gnuplot"));
        }
        spawned := spawned + [Gnuplot];
        files := Store(files, SvgFile(name), b.gnuplot(GnuplotSvgScript(name, content)));
      }
      return Ok(SvgName(name));
    }
  }
}
