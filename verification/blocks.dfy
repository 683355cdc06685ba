/**
 * `replace_blocks` (preprocess.rs): the display-block pass over one chapter.
 *
 * Every line is trimmed. A line starting with `$$` opens a block (its header)
 * or closes the open one; a line that also ends with `$$` and is longer than
 * three characters is a header that closes at once. Lines inside a block make
 * up its body, every other line is copied. A closed block is rendered into a
 * fragment, numbered, registered in the shared reference map, and replaced by
 * its HTML.
 *
 * The pass is specified by `ScanLines`, a fold of `Step` over the lines, and
 * implemented by the method `ReplaceBlocks`, which keeps the source's local
 * state in variables and renders through a `FragmentDir`.
 */
module Blocks {
  import opened Strings
  import opened Errors
  import opened Fragments

  /** The zoom display equations are rendered at (1.6). */
  const BlockZoom := Zoom(16)

  // ---------------------------------------------------------------------------
  // Headers

  /** A header field: trimmed, then every `$$` removed. */
  function HeaderField(x: string): string {
    ReplaceAll(Trim(x), "$$", "")
  }

  /** A header field holds no `$$`, and a field without one is only trimmed. */
  lemma HeaderFieldClean(x: string)
    ensures !Contains(HeaderField(x), "$$")
    ensures !Contains(Trim(x), "$$") ==> HeaderField(x) == Trim(x)
  {
    RemovePairLeavesNone(Trim(x), '$');
    if !Contains(Trim(x), "$$") {
      ReplaceAbsent(Trim(x), "$$", "");
    }
  }

  /** A header line split into at most three comma-separated fields. */
  function HeaderFields(header: string): (f: seq<string>)
    ensures 1 <= |f| <= 3
  {
    CleanFields(SplitN(header, ',', 3))
  }

  /** `HeaderField` applied to every piece. */
  function CleanFields(parts: seq<string>): (f: seq<string>)
    ensures |f| == |parts|
    ensures forall k :: 0 <= k < |f| ==> f[k] == HeaderField(parts[k])
  {
    if parts == [] then [] else [HeaderField(parts[0])] + CleanFields(parts[1..])
  }

  datatype Kind = LatexKind | GnuplotKind | GnuplotOnlyKind | EquationKind

  /** What a header asks for: a renderer, an anchor ("" for none) and, for figures, a caption. */
  datatype Request = Request(kind: Kind, anchor: string, caption: Option<string>)

  /**
   * The dispatch on the header fields. Figures need exactly three fields; every
   * other header is an equation, labelled only by `equation,<anchor>` or `equ,<anchor>`.
   */
  function Classify(f: seq<string>): (q: Request)
    requires |f| >= 1
    ensures q.kind != EquationKind <==> |f| == 3 && (f[0] == "latex" || f[0] == "gnuplot" || f[0] == "gnuplotonly")
    ensures q.kind != EquationKind ==> q.anchor == f[1] && q.caption == Some(f[2])
    ensures q.kind == EquationKind ==> q.caption.None?
    ensures q.kind == EquationKind && q.anchor != "" <==> |f| == 2 && (f[0] == "equation" || f[0] == "equ") && f[1] != ""
    ensures q.kind == EquationKind && q.anchor != "" ==> q.anchor == f[1]
  {
    if |f| == 3 && f[0] == "latex" then Request(LatexKind, f[1], Some(f[2]))
    else if |f| == 3 && f[0] == "gnuplot" then Request(GnuplotKind, f[1], Some(f[2]))
    else if |f| == 3 && f[0] == "gnuplotonly" then Request(GnuplotOnlyKind, f[1], Some(f[2]))
    else if |f| == 2 && (f[0] == "equation" || f[0] == "equ") then Request(EquationKind, f[1], None)
    else Request(EquationKind, "", None)
  }

  /** Renders a block body with the renderer its kind names. */
  function Render(kind: Kind, d: Disk, content: string, b: Backend): (o: Outcome<string>)
    ensures o.result.Ok? ==> o.result.value == SvgName(Hash(b.sha256, content))
    ensures Extends(d, o.disk)
    ensures o.result.Err? ==> IsRenderError(o.result.error)
  {
    match kind
    case LatexKind => LatexFigure(d, content, b)
    case GnuplotKind => GnuplotFigure(d, content, b)
    case GnuplotOnlyKind => GnuplotOnlyFigure(d, content, b)
    case EquationKind => Equation(d, content, BlockZoom, b)
  }

  // ---------------------------------------------------------------------------
  // add_object

  datatype Counters = Counters(figures: nat, equations: nat)

  /** What `add_object` leaves behind: the block's HTML and the updated bookkeeping. */
  datatype Placed = Placed(markup: string, counters: Counters, refs: map<string, string>, used: seq<string>)

  /** The text a figure's number is shown as, and registered under. */
  function FigureNumber(head: string, n: nat): string { "Figure " + head + NatToString(n) }

  /** The text an equation's number is shown as, and registered under. */
  function EquationNumber(head: string, n: nat): string { head + NatToString(n) }

  /** Line 24: a figure with its caption, in pieces. */
  function FigureParts(anchor: string, file: string, number: string, caption: string): seq<string> {
    ["<figure id=\"", anchor, "\" class=\"figure\"><object data=\"", "assets/" + file,
     "\" type=\"image/svg+xml\"/></object><figcaption>", number, " ", caption, "</figcaption></figure>"]
  }

  /** Line 29: a numbered equation, its number in parentheses, in pieces. */
  function NumberedEquationParts(anchor: string, file: string, number: string): seq<string> {
    ["<div id=\"", anchor, "\" class=\"equation\"><div class=\"equation_inner\"><object data=\"",
     "assets/" + file, "\" type=\"image/svg+xml\"></object></div><span>", "(" + number + ")", "</span></div>\n"]
  }

  /** Line 31: an unnumbered equation, in pieces. */
  function EquationParts(file: string): seq<string> {
    ["<div class=\"equation\"><div class=\"equation_inner\"><object data=\"", "assets/" + file,
     "\" type=\"image/svg+xml\"></object></div></div>\n"]
  }

  /** The counters and the map after `add_object`. */
  datatype Numbering = Numbering(counters: Counters, refs: map<string, string>)

  /**
   * Lines 20-30: a captioned block takes the next figure number, a labelled
   * equation the next equation number, and its anchor is mapped to that
   * number; an unlabelled equation changes neither.
   */
  function Register(head: string, c: Counters, refs: map<string, string>, anchor: string, caption: Option<string>): (n: Numbering)
    ensures caption.Some? ==>
      n == Numbering(Counters(c.figures + 1, c.equations), refs[anchor := FigureNumber(head, c.figures + 1)])
    ensures caption.None? && anchor != "" ==>
      n == Numbering(Counters(c.figures, c.equations + 1), refs[anchor := EquationNumber(head, c.equations + 1)])
    ensures caption.None? && anchor == "" ==> n == Numbering(c, refs)
  {
    if caption.Some? then
      Numbering(Counters(c.figures + 1, c.equations), refs[anchor := FigureNumber(head, c.figures + 1)])
    else if anchor != "" then
      Numbering(Counters(c.figures, c.equations + 1), refs[anchor := EquationNumber(head, c.equations + 1)])
    else Numbering(c, refs)
  }

  /** Lines 24-31: the block's HTML. */
  function ObjectMarkup(head: string, c: Counters, file: string, anchor: string, caption: Option<string>): string {
    if caption.Some? then Concat(FigureParts(anchor, file, FigureNumber(head, c.figures + 1), caption.value))
    else if anchor != "" then Concat(NumberedEquationParts(anchor, file, EquationNumber(head, c.equations + 1)))
    else Concat(EquationParts(file))
  }

  /** The `add_object` closure: the fragment is recorded as used, numbered and registered. */
  function AddObject(head: string, c: Counters, refs: map<string, string>, used: seq<string>,
                     file: string, anchor: string, caption: Option<string>): (p: Placed)
    ensures p.used == used + [file]
    ensures Numbering(p.counters, p.refs) == Register(head, c, refs, anchor, caption)
  {
    var n := Register(head, c, refs, anchor, caption);
    Placed(ObjectMarkup(head, c, file, anchor, caption), n.counters, n.refs, used + [file])
  }

  /**
   * The HTML `add_object` returns shows the fragment and the number it
   * registers: a figure's caption starts with the registered text, an
   * equation shows it in parentheses.
   */
  lemma AddObjectShows(head: string, c: Counters, refs: map<string, string>, used: seq<string>,
                       file: string, anchor: string, caption: Option<string>)
    ensures var p := AddObject(head, c, refs, used, file, anchor, caption);
      && (caption.Some? ==> Contains(p.markup, p.refs[anchor]))
      && (caption.None? && anchor != "" ==> Contains(p.markup, "(" + p.refs[anchor] + ")"))
      && Contains(p.markup, "assets/" + file)
  {
    var m := ObjectMarkup(head, c, file, anchor, caption);
    assert AddObject(head, c, refs, used, file, anchor, caption).markup == m;
    if caption.Some? {
      var parts := FigureParts(anchor, file, FigureNumber(head, c.figures + 1), caption.value);
      assert m == Concat(parts) && parts[3] == "assets/" + file;
      ContainsPiece(parts, 3);
      ContainsPiece(parts, 5);
      assert Contains(m, "assets/" + file);
    } else if anchor != "" {
      var parts := NumberedEquationParts(anchor, file, EquationNumber(head, c.equations + 1));
      assert m == Concat(parts) && parts[3] == "assets/" + file;
      ContainsPiece(parts, 3);
      ContainsPiece(parts, 5);
      assert Contains(m, "assets/" + file);
    } else {
      assert m == Concat(EquationParts(file)) && EquationParts(file)[1] == "assets/" + file;
      ContainsPiece(EquationParts(file), 1);
      assert Contains(m, "assets/" + file);
    }
  }

  // ---------------------------------------------------------------------------
  // The line machine

  /** Where the block files named by body-less headers live: field 2 to the file's content. */
  datatype BlockEnv = BlockEnv(head: string, assets: map<string, string>, backend: Backend)

  /** The bookkeeping of a pass: the two counters, the shared map and list, the fragment directory. */
  datatype Ledger = Ledger(counters: Counters, refs: map<string, string>, used: seq<string>, disk: Disk)

  /**
   * The machine's state: the open header (`start_line`), the body read so far
   * (`content`), the lines emitted, the bookkeeping, and the first error,
   * after which nothing happens.
   */
  datatype Scan = Scan(startLine: Option<string>, body: string, out: seq<string>, ledger: Ledger, failure: Option<Error>)

  function Start(refs: map<string, string>, used: seq<string>, d: Disk): Scan {
    Scan(None, "", [], Ledger(Counters(0, 0), refs, used, d), None)
  }

  /** A `$$…$$` line longer than three characters: a header with an empty body that closes at once. */
  predicate IsOneLineBlock(line: string) {
    StartsWith(line, "$$") && EndsWith(line, "$$") && |line| > 3
  }

  /** Whether the trimmed line `line` closes a block, given the open header. */
  predicate Closes(startLine: Option<string>, line: string) {
    StartsWith(line, "$$") && (IsOneLineBlock(line) || startLine.Some?)
  }

  /** The header of the block `line` closes. */
  function ClosingHeader(startLine: Option<string>, line: string): string
    requires Closes(startLine, line)
  {
    if IsOneLineBlock(line) then line else startLine.value
  }

  /**
   * The source reads field 2 of a header whose body is empty; such a header
   * must have two fields.
   */
  predicate LoadsSafely(startLine: Option<string>, bodyEmpty: bool, line: string) {
    Closes(startLine, line) && (IsOneLineBlock(line) || bodyEmpty) ==> |HeaderFields(ClosingHeader(startLine, line))| >= 2
  }

  /** The open header and body emptiness after a line, which depend on the text alone. */
  function NextShape(startLine: Option<string>, bodyEmpty: bool, raw: string): (Option<string>, bool) {
    var line := Trim(raw);
    if !StartsWith(line, "$$") then (startLine, startLine.None? && bodyEmpty)
    else if Closes(startLine, line) then (None, true)
    else (Some(line), bodyEmpty)
  }

  /** No block in `lines` makes the source index a missing header field. */
  predicate HeadersComplete(lines: seq<string>, startLine: Option<string>, bodyEmpty: bool)
    decreases |lines|
  {
    lines == [] ||
    (LoadsSafely(startLine, bodyEmpty, Trim(lines[0])) &&
     var next := NextShape(startLine, bodyEmpty, lines[0]);
     HeadersComplete(lines[1..], next.0, next.1))
  }

  /**
   * The bookkeeping a pass may do: the used list only grows, by fragment
   * names; the map keeps its keys, and every value it changes is a number of
   * this chapter; the counters never go down; the directory only grows.
   */
  ghost predicate Grows(head: string, a: Ledger, b: Ledger) {
    && UsedGrows(a.used, b.used)
    && RefsGrow(head, a.refs, b.refs)
    && a.counters.figures <= b.counters.figures && a.counters.equations <= b.counters.equations
    && Extends(a.disk, b.disk)
  }

  /** `b` is `a` followed by fragment names. */
  ghost predicate UsedGrows(a: seq<string>, b: seq<string>) {
    |a| <= |b| && b[..|a|] == a && forall k :: |a| <= k < |b| ==> IsArtifactName(b[k])
  }

  /** `b` keeps the keys of `a`, and every value it adds or changes is a number of chapter `head`. */
  ghost predicate RefsGrow(head: string, a: map<string, string>, b: map<string, string>) {
    a.Keys <= b.Keys && forall key :: key in b && (key !in a || b[key] != a[key]) ==> IsNumberOf(head, b[key])
  }

  /** A display number of the chapter `head`: `<head><n>` or `Figure <head><n>`, n >= 1. */
  predicate IsNumberOf(head: string, v: string) {
    (StartsWith(v, head) && IsPositiveNumeral(v[|head|..]))
    || (StartsWith(v, "Figure " + head) && IsPositiveNumeral(v[|"Figure " + head|..]))
  }

  predicate IsPositiveNumeral(s: string) {
    s != [] && AllDigits(s) && s[0] != '0'
  }

  lemma NumbersOf(head: string, n: nat)
    requires n >= 1
    ensures IsNumberOf(head, FigureNumber(head, n)) && IsNumberOf(head, EquationNumber(head, n))
  {
    var s := NatToString(n);
    assert FigureNumber(head, n)[|"Figure " + head|..] == s;
    assert EquationNumber(head, n)[|head|..] == s;
  }

  lemma UsedTrans(a: seq<string>, b: seq<string>, c: seq<string>)
    requires UsedGrows(a, b) && UsedGrows(b, c)
    ensures UsedGrows(a, c)
  {
    assert c[..|b|][..|a|] == c[..|a|];
  }

  lemma GrowsRefl(head: string, l: Ledger)
    ensures Grows(head, l, l)
  {
    assert l.used[..|l.used|] == l.used;
  }

  lemma GrowsTrans(head: string, a: Ledger, b: Ledger, c: Ledger)
    requires Grows(head, a, b) && Grows(head, b, c)
    ensures Grows(head, a, c)
  {
    ExtendsTrans(a.disk, b.disk, c.disk);
    UsedTrans(a.used, b.used, c.used);
  }

  /**
   * Lines 62-98: close a block. A body-less block reads its body from the asset
   * named by field 2 and is dropped when there is none; otherwise the body is
   * rendered, and the first failure is kept.
   */
  function CloseBlock(env: BlockEnv, st: Scan, header: string): (r: Scan)
    requires st.failure.None? && st.startLine.None?
    requires st.body == "" ==> |HeaderFields(header)| >= 2
    ensures r.startLine.None? && r.body == ""
    ensures st.body == "" && HeaderFields(header)[1] !in env.assets ==> r == st
    ensures st.body != "" ==> r == Emit(env, st.(body := ""), Classify(HeaderFields(header)), st.body)
    ensures st.body == "" && HeaderFields(header)[1] in env.assets ==>
      r == Emit(env, st, Classify(HeaderFields(header)), env.assets[HeaderFields(header)[1]])
  {
    var f := HeaderFields(header);
    if st.body == "" && f[1] !in env.assets then st
    else
      var content := if st.body == "" then env.assets[f[1]] else st.body;
      Emit(env, Scan(None, "", st.out, st.ledger, None), Classify(f), content)
  }

  /** Lines 72-98: render the body and, on success, place the object; a failure is kept. */
  function Emit(env: BlockEnv, st: Scan, q: Request, content: string): (r: Scan)
    requires st.failure.None? && st.startLine.None? && st.body == ""
    ensures r.startLine.None? && r.body == ""
  {
    var o := Render(q.kind, st.ledger.disk, content, env.backend);
    match o.result
    case Err(e) => st.(ledger := st.ledger.(disk := o.disk), failure := Some(e))
    case Ok(file) =>
      var p := Place(env.head, st.ledger.(disk := o.disk), file, q);
      st.(out := st.out + [p.0], ledger := p.1)
  }

  /** Lines 72-96 after a successful render: `add_object`, with the directory as the renderer left it. */
  function Place(head: string, l: Ledger, file: string, q: Request): (string, Ledger) {
    var p := AddObject(head, l.counters, l.refs, l.used, file, q.anchor, q.caption);
    (p.markup, Ledger(p.counters, p.refs, p.used, l.disk))
  }

  /** Lines 36-102: one line of the machine. */
  function Step(env: BlockEnv, st: Scan, raw: string): (r: Scan)
    requires st.failure.None?
    requires LoadsSafely(st.startLine, st.body == "", Trim(raw))
    ensures r.failure.None? ==> (r.startLine, r.body == "") == NextShape(st.startLine, st.body == "", raw)
  {
    var line := Trim(raw);
    if !StartsWith(line, "$$") then
      if st.startLine.Some? then st.(body := st.body + line + "\n")
      else st.(out := st.out + [line])
    else if Closes(st.startLine, line) then
      var header := ClosingHeader(st.startLine, line);
      var body := if IsOneLineBlock(line) then "" else st.body;
      CloseBlock(env, Scan(None, body, st.out, st.ledger, None), header)
    else st.(startLine := Some(line))
  }

  /** The machine run over `lines`, stopping at the first error. */
  function ScanLines(env: BlockEnv, st: Scan, lines: seq<string>): Scan
    requires st.failure.Some? || HeadersComplete(lines, st.startLine, st.body == "")
    decreases |lines|
  {
    if lines == [] || st.failure.Some? then st
    else ScanLines(env, Step(env, st, lines[0]), lines[1..])
  }

  // ---------------------------------------------------------------------------
  // What a block renders

  /** Lines 38-41: the body a block's lines build up, each line trimmed and followed by a newline. */
  function BodyText(lines: seq<string>): (t: string)
    ensures t == "" <==> lines == []
  {
    if lines == [] then "" else Trim(lines[0]) + "\n" + BodyText(lines[1..])
  }

  /** A block's body is its lines trimmed, joined with newlines, with a final newline. */
  lemma {:induction false} BodyTextJoin(lines: seq<string>)
    requires lines != []
    ensures BodyText(lines) == Join(TrimLines(lines), "\n") + "\n"
    decreases |lines|
  {
    var t := TrimLines(lines);
    if |lines| == 1 {
      assert BodyText(lines[1..]) == "";
    } else {
      BodyTextJoin(lines[1..]);
      assert t[1..] == TrimLines(lines[1..]);
      assert Join(t, "\n") == t[0] + "\n" + Join(TrimLines(lines[1..]), "\n");
    }
  }

  /** Adding one trimmed body line to `acc`, then the rest, adds the whole body. */
  lemma BodyTextAfter(acc: string, lines: seq<string>)
    requires lines != []
    ensures (acc + Trim(lines[0]) + "\n") + BodyText(lines[1..]) == acc + BodyText(lines)
  {
    var x, y := Trim(lines[0]), BodyText(lines[1..]);
    assert BodyText(lines) == x + "\n" + y;
    Associative(acc, x, "\n");
    Associative(acc, x + "\n", y);
  }

  lemma Associative(a: string, b: string, c: string)
    ensures (a + b) + c == a + (b + c)
  {
  }

  lemma EmptyPrefix(a: string)
    ensures "" + a == a
  {
  }

  /** How the lines of a block fall apart around its header. */
  lemma BlockLines(h: string, body: seq<string>, c: string, rest: seq<string>)
    ensures [h] + body + [c] + rest == [h] + (body + ([c] + rest))
  {
  }

  /** How `body + rest` falls apart around its first line. */
  lemma ConsLines(body: seq<string>, rest: seq<string>)
    requires body != []
    ensures (body + rest)[0] == body[0] && (body + rest)[1..] == body[1..] + rest
  {
  }

  /** Inside a block, lines without `$$` only add to the body, trimmed and each followed by a newline. */
  lemma {:induction false} BodyScan(env: BlockEnv, header: string, acc: string, out: seq<string>, l: Ledger,
                                    body: seq<string>, rest: seq<string>)
    requires NoBlockLines(body)
    requires HeadersComplete(body + rest, Some(header), acc == "")
    ensures HeadersComplete(rest, Some(header), acc + BodyText(body) == "")
    ensures ScanLines(env, Scan(Some(header), acc, out, l, None), body + rest)
         == ScanLines(env, Scan(Some(header), acc + BodyText(body), out, l, None), rest)
    decreases |body|
  {
    if body == [] {
      assert body + rest == rest;
      assert acc + BodyText(body) == acc;
    } else {
      var st := Scan(Some(header), acc, out, l, None);
      var acc' := acc + Trim(body[0]) + "\n";
      NoBlockTail(body);
      ConsLines(body, rest);
      ScanAdvance(env, st, body + rest);
      assert Step(env, st, body[0]) == Scan(Some(header), acc', out, l, None);
      BodyScan(env, header, acc', out, l, body[1..], rest);
      BodyTextAfter(acc, body);
    }
  }

  /** Outside any block, a `$$` line that is not a one-line block opens one with an empty body. */
  lemma OpenScan(env: BlockEnv, out: seq<string>, l: Ledger, h: string, tail: seq<string>)
    requires StartsWith(Trim(h), "$$") && !IsOneLineBlock(Trim(h))
    requires HeadersComplete([h] + tail, None, true)
    ensures HeadersComplete(tail, Some(Trim(h)), true)
    ensures ScanLines(env, Scan(None, "", out, l, None), [h] + tail)
         == ScanLines(env, Scan(Some(Trim(h)), "", out, l, None), tail)
  {
    ConsHead(h, tail);
    ScanAdvance(env, Scan(None, "", out, l, None), [h] + tail);
    StepOpens(env, Scan(None, "", out, l, None), h);
  }

  /** Outside any block, a `$$` line that is not a one-line block only opens one. */
  lemma StepOpens(env: BlockEnv, st: Scan, h: string)
    requires st.failure.None? && st.startLine.None?
    requires StartsWith(Trim(h), "$$") && !IsOneLineBlock(Trim(h))
    ensures Step(env, st, h) == st.(startLine := Some(Trim(h)))
  {
  }

  /** How `[x] + tail` falls apart around its first line. */
  lemma ConsHead(x: string, tail: seq<string>)
    ensures ([x] + tail)[0] == x && ([x] + tail)[1..] == tail
  {
  }

  /** The line that closes an open block hands the header and the body read so far to `CloseBlock`. */
  lemma CloseScan(env: BlockEnv, header: string, text: string, out: seq<string>, l: Ledger, c: string, rest: seq<string>)
    requires StartsWith(Trim(c), "$$")
    requires HeadersComplete([c] + rest, Some(header), text == "")
    ensures HeadersComplete(rest, None, true)
    ensures var one := IsOneLineBlock(Trim(c));
      var body := if one then "" else text;
      var h := if one then Trim(c) else header;
      && (body == "" ==> |HeaderFields(h)| >= 2)
      && ScanLines(env, Scan(Some(header), text, out, l, None), [c] + rest)
         == ScanLines(env, CloseBlock(env, Scan(None, body, out, l, None), h), rest)
  {
    ConsHead(c, rest);
    ScanAdvance(env, Scan(Some(header), text, out, l, None), [c] + rest);
  }

  /**
   * Lines 36-98 for one block, from outside any block: a header line `h`, body
   * lines without `$$`, and a closing line `c` hand `CloseBlock` the header
   * and the body built from those lines. A closing line that is itself a
   * one-line block takes the place of the open header, and the body read so
   * far is dropped.
   */
  lemma BlockScan(env: BlockEnv, out: seq<string>, l: Ledger, h: string, body: seq<string>, c: string, rest: seq<string>)
    requires StartsWith(Trim(h), "$$") && !IsOneLineBlock(Trim(h))
    requires NoBlockLines(body) && StartsWith(Trim(c), "$$")
    requires HeadersComplete([h] + body + [c] + rest, None, true)
    ensures HeadersComplete(rest, None, true)
    ensures var one := IsOneLineBlock(Trim(c));
      var header := if one then Trim(c) else Trim(h);
      var text := if one then "" else BodyText(body);
      && (text == "" ==> |HeaderFields(header)| >= 2)
      && ScanLines(env, Scan(None, "", out, l, None), [h] + body + [c] + rest)
         == ScanLines(env, CloseBlock(env, Scan(None, text, out, l, None), header), rest)
  {
    BlockLines(h, body, c, rest);
    OpenScan(env, out, l, h, body + ([c] + rest));
    BodyScan(env, Trim(h), "", out, l, body, [c] + rest);
    EmptyPrefix(BodyText(body));
    CloseScan(env, Trim(h), BodyText(body), out, l, c, rest);
  }

  /**
   * What one block becomes: its body, the lines trimmed and each followed by
   * a newline, is rendered and placed; a block with no body renders the asset
   * its field 2 names instead, and without that asset it is skipped and the
   * state is as before.
   */
  lemma BlockRendered(env: BlockEnv, out: seq<string>, l: Ledger, h: string, body: seq<string>, c: string, rest: seq<string>)
    requires StartsWith(Trim(h), "$$") && !IsOneLineBlock(Trim(h))
    requires NoBlockLines(body) && StartsWith(Trim(c), "$$")
    requires HeadersComplete([h] + body + [c] + rest, None, true)
    ensures HeadersComplete(rest, None, true)
    ensures var one := IsOneLineBlock(Trim(c));
      var f := HeaderFields(if one then Trim(c) else Trim(h));
      var text := if one then "" else BodyText(body);
      var st := Scan(None, "", out, l, None);
      && (text == "" ==> |f| >= 2)
      && ScanLines(env, st, [h] + body + [c] + rest)
         == if text == "" && f[1] !in env.assets then ScanLines(env, st, rest)
            else ScanLines(env, Emit(env, st, Classify(f), if text == "" then env.assets[f[1]] else text), rest)
  {
    BlockScan(env, out, l, h, body, c, rest);
  }

  // ---------------------------------------------------------------------------
  // Bookkeeping

  /** `add_object` only writes numbers of this chapter into the map. */
  lemma RegisterRefs(head: string, c: Counters, refs: map<string, string>, anchor: string, caption: Option<string>)
    ensures RefsGrow(head, refs, Register(head, c, refs, anchor, caption).refs)
  {
    NumbersOf(head, c.figures + 1);
    NumbersOf(head, c.equations + 1);
  }

  /** `add_object` only appends a fragment name and writes a number of this chapter. */
  lemma PlaceGrows(head: string, l: Ledger, file: string, q: Request)
    requires IsArtifactName(file)
    ensures Grows(head, l, Place(head, l, file, q).1)
    ensures Place(head, l, file, q).1.used == l.used + [file]
  {
    assert (l.used + [file])[..|l.used|] == l.used;
    RegisterRefs(head, l.counters, l.refs, q.anchor, q.caption);
  }

  /** Rendering and placing one block keeps the bookkeeping growing. */
  lemma EmitGrows(env: BlockEnv, st: Scan, q: Request, content: string)
    requires st.failure.None? && st.startLine.None? && st.body == ""
    ensures Grows(env.head, st.ledger, Emit(env, st, q, content).ledger)
  {
    var o := Render(q.kind, st.ledger.disk, content, env.backend);
    var l := st.ledger.(disk := o.disk);
    GrowsRefl(env.head, st.ledger);
    if o.result.Ok? {
      ArtifactName(env.backend.sha256, content);
      PlaceGrows(env.head, l, o.result.value, q);
      GrowsTrans(env.head, st.ledger, l, Place(env.head, l, o.result.value, q).1);
    }
  }

  /** One line keeps the bookkeeping growing. */
  lemma StepGrows(env: BlockEnv, st: Scan, raw: string)
    requires st.failure.None?
    requires LoadsSafely(st.startLine, st.body == "", Trim(raw))
    ensures Grows(env.head, st.ledger, Step(env, st, raw).ledger)
  {
    GrowsRefl(env.head, st.ledger);
    var line := Trim(raw);
    if StartsWith(line, "$$") && Closes(st.startLine, line) {
      var header := ClosingHeader(st.startLine, line);
      var body := if IsOneLineBlock(line) then "" else st.body;
      var f := HeaderFields(header);
      if body != "" || f[1] in env.assets {
        var content := if body == "" then env.assets[f[1]] else body;
        EmitGrows(env, Scan(None, "", st.out, st.ledger, None), Classify(f), content);
      }
    }
  }

  /**
   * Over a whole chapter the used list only grows, by fragment names; the map
   * keeps every key, and every value the chapter adds or overwrites is one of
   * its own numbers; counters never go down; the directory only grows.
   */
  lemma {:induction false} ScanGrows(env: BlockEnv, st: Scan, lines: seq<string>)
    requires st.failure.Some? || HeadersComplete(lines, st.startLine, st.body == "")
    ensures Grows(env.head, st.ledger, ScanLines(env, st, lines).ledger)
    decreases |lines|
  {
    if lines == [] || st.failure.Some? {
      GrowsRefl(env.head, st.ledger);
    } else {
      var next := Step(env, st, lines[0]);
      StepGrows(env, st, lines[0]);
      ScanGrows(env, next, lines[1..]);
      GrowsTrans(env.head, st.ledger, next.ledger, ScanLines(env, next, lines[1..]).ledger);
    }
  }

  /** One step of the fold: the rest of the run starts from `Step`, and stops there on a failure. */
  lemma ScanAdvance(env: BlockEnv, st: Scan, lines: seq<string>)
    requires lines != [] && st.failure.None? && HeadersComplete(lines, st.startLine, st.body == "")
    ensures var next := Step(env, st, lines[0]);
      && ScanLines(env, st, lines) == ScanLines(env, next, lines[1..])
      && (next.failure.None? ==> HeadersComplete(lines[1..], next.startLine, next.body == ""))
  {
  }

  /** What `replace_blocks` returns, and the shared state it leaves behind. */
  datatype Replaced = Replaced(result: Result<string>, refs: map<string, string>, used: seq<string>, disk: Disk)

  function Finish(st: Scan): Replaced {
    Replaced(if st.failure.Some? then Err(st.failure.value) else Ok(Join(st.out, "\n")),
             st.ledger.refs, st.ledger.used, st.ledger.disk)
  }

  /** `replace_blocks` as a function of its inputs. */
  function DisplayBlocks(env: BlockEnv, source: string, refs: map<string, string>, used: seq<string>, d: Disk): (r: Replaced)
    requires HeadersComplete(Split(source, '\n'), None, true)
  {
    Finish(ScanLines(env, Start(refs, used, d), Split(source, '\n')))
  }

  // ---------------------------------------------------------------------------
  // What the pass does to a chapter

  /** Every line trimmed. */
  function TrimLines(lines: seq<string>): (r: seq<string>)
    ensures |r| == |lines|
    ensures forall k :: 0 <= k < |r| ==> r[k] == Trim(lines[k])
  {
    if lines == [] then [] else [Trim(lines[0])] + TrimLines(lines[1..])
  }

  /** No line opens or closes a block. */
  predicate NoBlockLines(lines: seq<string>) {
    forall k :: 0 <= k < |lines| ==> !StartsWith(Trim(lines[k]), "$$")
  }

  lemma NoBlockTail(lines: seq<string>)
    requires lines != [] && NoBlockLines(lines)
    ensures !StartsWith(Trim(lines[0]), "$$") && NoBlockLines(lines[1..])
  {
    forall k | 0 <= k < |lines[1..]| ensures !StartsWith(Trim(lines[1..][k]), "$$") {
      assert lines[1..][k] == lines[k + 1];
    }
  }

  /** Without `$$` lines no header is ever read. */
  lemma {:induction false} PlainComplete(lines: seq<string>)
    requires NoBlockLines(lines)
    ensures HeadersComplete(lines, None, true)
    decreases |lines|
  {
    if lines != [] {
      NoBlockTail(lines);
      PlainComplete(lines[1..]);
    }
  }

  /** Line 43: outside a block, a line without `$$` is copied trimmed. */
  lemma PlainStep(env: BlockEnv, st: Scan, lines: seq<string>)
    requires lines != [] && HeadersComplete(lines, st.startLine, st.body == "")
    requires st.failure.None? && st.startLine.None? && !StartsWith(Trim(lines[0]), "$$")
    ensures ScanLines(env, st, lines) == ScanLines(env, st.(out := st.out + [Trim(lines[0])]), lines[1..])
  {
    ScanAdvance(env, st, lines);
  }

  /** Outside any block, lines are copied trimmed, in order, and nothing else changes. */
  lemma {:induction false} PlainScan(env: BlockEnv, out: seq<string>, l: Ledger, lines: seq<string>)
    requires NoBlockLines(lines)
    ensures HeadersComplete(lines, None, true)
    ensures ScanLines(env, Scan(None, "", out, l, None), lines) == Scan(None, "", out + TrimLines(lines), l, None)
    decreases |lines|
  {
    PlainComplete(lines);
    if lines == [] {
      assert out + TrimLines(lines) == out;
    } else {
      var st := Scan(None, "", out, l, None);
      var next := Scan(None, "", out + [Trim(lines[0])], l, None);
      NoBlockTail(lines);
      PlainStep(env, st, lines);
      PlainScan(env, out + [Trim(lines[0])], l, lines[1..]);
      assert ScanLines(env, next, lines[1..]) == Scan(None, "", out + [Trim(lines[0])] + TrimLines(lines[1..]), l, None);
      assert out + [Trim(lines[0])] + TrimLines(lines[1..]) == out + TrimLines(lines);
    }
  }

  /**
   * Lines 35-45 and 105: a chapter with no `$$` line comes back as its lines
   * trimmed and re-joined, and the map, the used list and the directory are
   * left as they were.
   */
  lemma NoBlocksTrims(env: BlockEnv, source: string, refs: map<string, string>, used: seq<string>, d: Disk)
    requires NoBlockLines(Split(source, '\n'))
    ensures HeadersComplete(Split(source, '\n'), None, true)
    ensures DisplayBlocks(env, source, refs, used, d) == Replaced(Ok(Join(TrimLines(Split(source, '\n')), "\n")), refs, used, d)
  {
    PlainScan(env, [], Start(refs, used, d).ledger, Split(source, '\n'));
    assert [] + TrimLines(Split(source, '\n')) == TrimLines(Split(source, '\n'));
  }

  /** A chapter with no `$$` line whose lines carry no surrounding whitespace comes back unchanged. */
  lemma NoBlocksIdentity(env: BlockEnv, source: string, refs: map<string, string>, used: seq<string>, d: Disk)
    requires NoBlockLines(Split(source, '\n'))
    requires forall k :: 0 <= k < |Split(source, '\n')| ==> Trim(Split(source, '\n')[k]) == Split(source, '\n')[k]
    ensures HeadersComplete(Split(source, '\n'), None, true)
    ensures DisplayBlocks(env, source, refs, used, d) == Replaced(Ok(source), refs, used, d)
  {
    var lines := Split(source, '\n');
    NoBlocksTrims(env, source, refs, used, d);
    assert TrimLines(lines) == lines;
    JoinSplit(source, '\n');
  }

  /**
   * Lines 47-51 and 62-69: a one-line `$$…$$` header closes at once with an
   * empty body; when the asset its field 2 names is missing, the block
   * produces nothing and scanning goes on with the state as it was.
   */
  lemma MissingAssetSkipped(env: BlockEnv, st: Scan, raw: string)
    requires st.failure.None? && st.startLine.None?
    requires IsOneLineBlock(Trim(raw))
    requires |HeaderFields(Trim(raw))| >= 2 && HeaderFields(Trim(raw))[1] !in env.assets
    ensures Step(env, st, raw) == Scan(None, "", st.out, st.ledger, None)
  {
  }

  /**
   * Lines 72-96: a block that renders emits exactly one line, the object's
   * HTML, records its fragment as used, and numbers and registers it as
   * `Register` says; the directory is what the renderer left.
   */
  lemma EmitPlaces(env: BlockEnv, st: Scan, q: Request, content: string)
    requires st.failure.None? && st.startLine.None? && st.body == ""
    requires Render(q.kind, st.ledger.disk, content, env.backend).result.Ok?
    ensures var o := Render(q.kind, st.ledger.disk, content, env.backend);
      var file := SvgName(Hash(env.backend.sha256, content));
      var r := Emit(env, st, q, content);
      && r.failure.None?
      && r.out == st.out + [ObjectMarkup(env.head, st.ledger.counters, file, q.anchor, q.caption)]
      && r.ledger.used == st.ledger.used + [file]
      && Numbering(r.ledger.counters, r.ledger.refs) == Register(env.head, st.ledger.counters, st.ledger.refs, q.anchor, q.caption)
      && r.ledger.disk == o.disk
  {
  }

  /** A render failure stops the pass: nothing is emitted or registered, and the error is kept. */
  lemma EmitFails(env: BlockEnv, st: Scan, q: Request, content: string)
    requires st.failure.None? && st.startLine.None? && st.body == ""
    requires Render(q.kind, st.ledger.disk, content, env.backend).result.Err?
    ensures var o := Render(q.kind, st.ledger.disk, content, env.backend);
      var r := Emit(env, st, q, content);
      && r.failure == Some(o.result.error) && IsRenderError(o.result.error)
      && r.out == st.out
      && r.ledger == st.ledger.(disk := o.disk)
  {
  }

  /** After a failure the rest of the chapter is not looked at. */
  lemma {:induction false} ScanStops(env: BlockEnv, st: Scan, lines: seq<string>)
    requires st.failure.Some?
    ensures ScanLines(env, st, lines) == st
  {
  }

  /**
   * Over a chapter the used list only grows, by fragment names; the map keeps
   * every key and only gains numbers of this chapter; the directory only grows.
   */
  lemma BlocksGrows(env: BlockEnv, source: string, refs: map<string, string>, used: seq<string>, d: Disk)
    requires HeadersComplete(Split(source, '\n'), None, true)
    ensures var r := DisplayBlocks(env, source, refs, used, d);
      && UsedGrows(used, r.used) && RefsGrow(env.head, refs, r.refs) && refs.Keys <= r.refs.Keys
      && Extends(d, r.disk)
  {
    ScanGrows(env, Start(refs, used, d), Split(source, '\n'));
  }

  // ---------------------------------------------------------------------------
  // The implementation

  /** Lines 72-95: the renderer call for a block of the given kind. */
  method RenderBlock(dir: FragmentDir, kind: Kind, content: string, b: Backend) returns (r: Result<string>)
    modifies dir
    ensures Outcome(r, dir.State()) == Render(kind, old(dir.State()), content, b)
  {
    match kind {
      case LatexKind => r := dir.ParseLatex(content, b);
      case GnuplotKind => r := dir.ParseGnuplot(content, b);
      case GnuplotOnlyKind => r := dir.ParseGnuplotOnly(content, b);
      case EquationKind => r := dir.ParseEquation(content, BlockZoom, b);
    }
  }

  /** Lines 72-98: render one body and, on success, add the object. */
  method EmitBlock(dir: FragmentDir, env: BlockEnv, q: Request, content: string, out: seq<string>,
                   counters: Counters, refs: map<string, string>, used: seq<string>)
    returns (failure: Option<Error>, out': seq<string>, counters': Counters, refs': map<string, string>, used': seq<string>)
    modifies dir
    ensures Scan(None, "", out', Ledger(counters', refs', used', dir.State()), failure)
         == Emit(env, Scan(None, "", out, Ledger(counters, refs, used, old(dir.State())), None), q, content)
  {
    var file := RenderBlock(dir, q.kind, content, env.backend);
    if file.Err? {
      return Some(file.error), out, counters, refs, used;
    }
    var p := AddObject(env.head, counters, refs, used, file.value, q.anchor, q.caption);
    return None, out + [p.markup], p.counters, p.refs, p.used;
  }

  /** Lines 62-98: close the open block, loading a missing body from the assets. */
  method CloseBlockAt(dir: FragmentDir, env: BlockEnv, header: string, content: string, out: seq<string>,
                      counters: Counters, refs: map<string, string>, used: seq<string>)
    returns (failure: Option<Error>, out': seq<string>, counters': Counters, refs': map<string, string>, used': seq<string>)
    requires content == "" ==> |HeaderFields(header)| >= 2
    modifies dir
    ensures Scan(None, "", out', Ledger(counters', refs', used', dir.State()), failure)
         == CloseBlock(env, Scan(None, content, out, Ledger(counters, refs, used, old(dir.State())), None), header)
  {
    var f := HeaderFields(header);
    if content == "" && f[1] !in env.assets {
      return None, out, counters, refs, used;
    }
    var body := if content == "" then env.assets[f[1]] else content;
    failure, out', counters', refs', used' := EmitBlock(dir, env, Classify(f), body, out, counters, refs, used);
  }

  /** Lines 36-102: one line of the loop, on the loop's own variables. */
  method StepLine(dir: FragmentDir, env: BlockEnv, raw: string, startLine: Option<string>, content: string,
                  out: seq<string>, counters: Counters, refs: map<string, string>, used: seq<string>)
    returns (failure: Option<Error>, startLine': Option<string>, content': string,
             out': seq<string>, counters': Counters, refs': map<string, string>, used': seq<string>)
    requires LoadsSafely(startLine, content == "", Trim(raw))
    modifies dir
    ensures Scan(startLine', content', out', Ledger(counters', refs', used', dir.State()), failure)
         == Step(env, Scan(startLine, content, out, Ledger(counters, refs, used, old(dir.State())), None), raw)
  {
    failure, startLine', content', out', counters', refs', used' := None, startLine, content, out, counters, refs, used;
    var line := Trim(raw);
    if !StartsWith(line, "$$") {
      if startLine.Some? {
        content' := content + line + "\n";
      } else {
        out' := out + [line];
      }
    } else if Closes(startLine, line) {
      var header := ClosingHeader(startLine, line);
      var body := if IsOneLineBlock(line) then "" else content;
      failure, out', counters', refs', used' := CloseBlockAt(dir, env, header, body, out, counters, refs, used);
      startLine', content' := None, "";
    } else {
      startLine' := Some(line);
    }
  }

  /**
   * `replace_blocks`: the line loop over the source, rendering into `dir`
   * and updating the shared map and used list; the first failure is returned.
   */
  method ReplaceBlocks(dir: FragmentDir, env: BlockEnv, source: string,
                       refs0: map<string, string>, used0: seq<string>)
    returns (r: Result<string>, refs: map<string, string>, used: seq<string>)
    requires HeadersComplete(Split(source, '\n'), None, true)
    modifies dir
    ensures Replaced(r, refs, used, dir.State()) == DisplayBlocks(env, source, refs0, used0, old(dir.State()))
  {
    var lines := Split(source, '\n');
    var startLine: Option<string> := None;
    var content := "";
    var counters := Counters(0, 0);
    var out: seq<string> := [];
    refs, used := refs0, used0;
    ghost var spec := ScanLines(env, Start(refs0, used0, dir.State()), lines);
    var failure: Option<Error> := None;
    var i := 0;
    while i < |lines| && failure.None?
      invariant 0 <= i <= |lines|
      invariant failure.None? ==> HeadersComplete(lines[i..], startLine, content == "")
      invariant ScanLines(env, Scan(startLine, content, out, Ledger(counters, refs, used, dir.State()), failure), lines[i..]) == spec
    {
      ghost var st := Scan(startLine, content, out, Ledger(counters, refs, used, dir.State()), None);
      ScanAdvance(env, st, lines[i..]);
      assert lines[i..][0] == lines[i] && lines[i..][1..] == lines[i + 1..];
      failure, startLine, content, out, counters, refs, used :=
        StepLine(dir, env, lines[i], startLine, content, out, counters, refs, used);
      i := i + 1;
    }
    if failure.Some? {
      return Err(failure.value), refs, used;
    }
    return Ok(Join(out, "\n")), refs, used;
  }
}
