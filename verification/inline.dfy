/**
 * `replace_inline_blocks` (preprocess.rs): the inline pass over one chapter.
 *
 * The chapter is split into lines. A line with an odd number of `$` is an
 * error; otherwise the line is split on `$`. Even pieces are text and stay as
 * they are; odd pieces are either references `ref:<kind>:<name>`, resolved
 * against the shared map, or formulas, rendered into a fragment (at zoom 1.3)
 * and recorded as used. The pieces of a line are re-joined with a newline, and
 * so are the lines. Work stops at the first error; what was rendered and
 * recorded before it stays.
 *
 * The pass is specified by functions that thread the used list and the
 * fragment directory, and implemented by methods on a `FragmentDir`.
 */
module Inline {
  import opened Strings
  import opened Errors
  import opened Fragments
  import opened Blocks

  /** The zoom inline formulas are rendered at (1.3). */
  const InlineZoom := Zoom(13)

  /** What the pass reads: the shared reference map and the rendering backend. */
  datatype InlineEnv = InlineEnv(refs: map<string, string>, backend: Backend)

  /** A result together with the used list and the directory after computing it. */
  datatype Threaded<+T> = Threaded(result: Result<T>, used: seq<string>, disk: Disk)

  // ---------------------------------------------------------------------------
  // References

  /** The fields after `ref`: `ref:fig:x` gives `["fig", "x"]`. */
  function RefFields(elm: string): (f: seq<string>)
  {
    Split(elm, ':')[1..]
  }

  predicate IsRefKind(kind: string) {
    kind == "fig" || kind == "bib" || kind == "equ"
  }

  /** Lines 128-142: the link a resolved reference becomes, in pieces. */
  function RefParts(kind: string, name: string, value: string): seq<string>
    requires IsRefKind(kind)
  {
    if kind == "fig" then ["<a class=\"fig_ref\" href='#", name, "'>", value, "</a>"]
    else if kind == "bib" then ["<a class=\"bib_ref\" href='bibliography.html#", name, "'>", value, "</a>"]
    else ["<a class=\"equ_ref\" href='#", name, "'>", "Eq. (" + value + ")", "</a>"]
  }

  /** The message of a reference whose name is not in the map. */
  function NotFoundMessage(name: string, lineNum: nat): string {
    Concat(["could not find reference to `", name, "` in line ", NatToString(lineNum)])
  }

  /** The message of a reference of a kind other than fig, bib and equ. */
  function UnknownKindMessage(kind: string, lineNum: nat): string {
    Concat(["unknown reference type of `", kind, "` in line ", NatToString(lineNum)])
  }

  /**
   * Lines 119-145: a `ref:` piece. Without exactly two fields after `ref` it
   * is kept as it is; a known kind whose name is in the map becomes a link, a
   * missing name or an unknown kind is an `InvalidReference`.
   */
  function Reference(refs: map<string, string>, lineNum: nat, elm: string): (r: Result<string>)
    ensures |RefFields(elm)| != 2 ==> r == Ok(elm)
    ensures r.Err? ==> r.error.InvalidReference?
    ensures |RefFields(elm)| == 2 ==>
      (r.Ok? <==> IsRefKind(RefFields(elm)[0]) && RefFields(elm)[1] in refs)
  {
    var f := RefFields(elm);
    if |f| != 2 then Ok(elm)
    else if !IsRefKind(f[0]) then Err(InvalidReference(UnknownKindMessage(f[0], lineNum)))
    else if f[1] !in refs then Err(InvalidReference(NotFoundMessage(f[1], lineNum)))
    else Ok(Concat(RefParts(f[0], f[1], refs[f[1]])))
  }

  /**
   * A resolved reference links to its name and shows the registered value
   * (an equation's in `Eq. (…)`); a failed one names the offending name or
   * kind and the line.
   */
  lemma ReferenceShows(refs: map<string, string>, lineNum: nat, elm: string)
    requires |RefFields(elm)| == 2
    ensures var f := RefFields(elm);
      var r := Reference(refs, lineNum, elm);
      && (r.Ok? ==> Contains(r.value, f[1]) && Contains(r.value, if f[0] == "equ" then "Eq. (" + refs[f[1]] + ")" else refs[f[1]]))
      && (r.Err? && IsRefKind(f[0]) ==> Contains(r.error.message, f[1]) && Contains(r.error.message, NatToString(lineNum)))
      && (r.Err? && !IsRefKind(f[0]) ==> Contains(r.error.message, f[0]) && Contains(r.error.message, NatToString(lineNum)))
  {
    var f := RefFields(elm);
    var r := Reference(refs, lineNum, elm);
    if r.Ok? {
      var parts := RefParts(f[0], f[1], refs[f[1]]);
      assert r.value == Concat(parts);
      ContainsPiece(parts, 1);
      ContainsPiece(parts, 3);
    } else if IsRefKind(f[0]) {
      var parts := ["could not find reference to `", f[1], "` in line ", NatToString(lineNum)];
      assert r.error.message == NotFoundMessage(f[1], lineNum) == Concat(parts);
      ContainsPiece(parts, 1);
      ContainsPiece(parts, 3);
    } else {
      var parts := ["unknown reference type of `", f[0], "` in line ", NatToString(lineNum)];
      assert r.error.message == UnknownKindMessage(f[0], lineNum) == Concat(parts);
      ContainsPiece(parts, 1);
      ContainsPiece(parts, 3);
    }
  }

  // ---------------------------------------------------------------------------
  // Pieces, lines, chapters

  /** Line 148: the HTML of an inline formula. */
  function InlineObject(file: string): string {
    "<object class=\"equation_inline\" data=\"assets/" + file + "\" type=\"image/svg+xml\"></object>"
  }

  /** Lines 114-156: the piece at index `i` of line `lineNum`. */
  function Segment(env: InlineEnv, lineNum: nat, i: nat, elm: string, used: seq<string>, d: Disk): (r: Threaded<string>)
    ensures Extends(d, r.disk)
  {
    if i % 2 == 0 then Threaded(Ok(elm), used, d)
    else if StartsWith(elm, "ref:") then Threaded(Reference(env.refs, lineNum, elm), used, d)
    else
      var o := Equation(d, elm, InlineZoom, env.backend);
      if o.result.Err? then Threaded(Err(o.result.error), used, o.disk)
      else Threaded(Ok(InlineObject(o.result.value)), used + [o.result.value], o.disk)
  }

  /** `acc` put in front of a successful result; a failure is passed on. */
  function Prepend(acc: seq<string>, t: Threaded<seq<string>>): (r: Threaded<seq<string>>)
    ensures r.used == t.used && r.disk == t.disk && r.result.Err? == t.result.Err?
  {
    if t.result.Ok? then t.(result := Ok(acc + t.result.value)) else t
  }

  /** The pieces of a line from index `i` on, left to right, stopping at the first error. */
  function Segments(env: InlineEnv, lineNum: nat, segs: seq<string>, i: nat, used: seq<string>, d: Disk): (r: Threaded<seq<string>>)
    decreases |segs|
  {
    if segs == [] then Threaded(Ok([]), used, d)
    else
      var h := Segment(env, lineNum, i, segs[0], used, d);
      if h.result.Err? then Threaded(Err(h.result.error), h.used, h.disk)
      else Prepend([h.result.value], Segments(env, lineNum, segs[1..], i + 1, h.used, h.disk))
  }

  /** Re-joins a successful list with newlines. */
  function Joined(t: Threaded<seq<string>>): (r: Threaded<string>)
    ensures r.used == t.used && r.disk == t.disk && r.result.Err? == t.result.Err?
  {
    if t.result.Ok? then Threaded(Ok(Join(t.result.value, "\n")), t.used, t.disk) else Threaded(Err(t.result.error), t.used, t.disk)
  }

  /** Lines 109-160: one line, checked for an even number of `$`, split on `$`, re-joined with newlines. */
  function Line(env: InlineEnv, lineNum: nat, line: string, used: seq<string>, d: Disk): Threaded<string> {
    if Count(line, '$') % 2 != 0 then Threaded(Err(UnevenNumberDollar), used, d)
    else Joined(Segments(env, lineNum, Split(line, '$'), 0, used, d))
  }

  /** The lines from number `lineNum` on, stopping at the first error. */
  function Lines(env: InlineEnv, lines: seq<string>, lineNum: nat, used: seq<string>, d: Disk): (r: Threaded<seq<string>>)
    decreases |lines|
  {
    if lines == [] then Threaded(Ok([]), used, d)
    else
      var h := Line(env, lineNum, lines[0], used, d);
      if h.result.Err? then Threaded(Err(h.result.error), h.used, h.disk)
      else Prepend([h.result.value], Lines(env, lines[1..], lineNum + 1, h.used, h.disk))
  }

  /** `replace_inline_blocks` as a function of its inputs. */
  function InlineBlocksOf(env: InlineEnv, source: string, used: seq<string>, d: Disk): Threaded<string> {
    Joined(Lines(env, Split(source, '\n'), 0, used, d))
  }

  // ---------------------------------------------------------------------------
  // What a piece does

  /** Even pieces are text and come out as they are; nothing is rendered or recorded. */
  lemma TextSegment(env: InlineEnv, lineNum: nat, i: nat, elm: string, used: seq<string>, d: Disk)
    requires i % 2 == 0
    ensures Segment(env, lineNum, i, elm, used, d) == Threaded(Ok(elm), used, d)
  {
  }

  /** An odd `ref:` piece touches neither the used list nor the directory. */
  lemma ReferenceSegment(env: InlineEnv, lineNum: nat, i: nat, elm: string, used: seq<string>, d: Disk)
    requires i % 2 == 1 && StartsWith(elm, "ref:")
    ensures Segment(env, lineNum, i, elm, used, d) == Threaded(Reference(env.refs, lineNum, elm), used, d)
  {
  }

  /**
   * Lines 146-152: an odd piece that is not a reference is rendered as an
   * equation at zoom 1.3; on success exactly its fragment name is recorded
   * and the piece becomes an object showing that fragment; a failure records
   * nothing.
   */
  lemma FormulaSegment(env: InlineEnv, lineNum: nat, i: nat, elm: string, used: seq<string>, d: Disk)
    requires i % 2 == 1 && !StartsWith(elm, "ref:")
    ensures var r := Segment(env, lineNum, i, elm, used, d);
      var file := SvgName(Hash(env.backend.sha256, elm));
      && r.disk == Equation(d, elm, InlineZoom, env.backend).disk
      && (r.result.Ok? <==> Equation(d, elm, InlineZoom, env.backend).result.Ok?)
      && (r.result.Err? ==> r.result.error == Equation(d, elm, InlineZoom, env.backend).result.error)
      && (r.result.Ok? ==> r.used == used + [file] && r.result.value == InlineObject(file))
      && (r.result.Err? ==> r.used == used && IsRenderError(r.result.error))
  {
  }

  /** The errors a piece can raise: a bad reference or a failed render. */
  lemma SegmentErrors(env: InlineEnv, lineNum: nat, i: nat, elm: string, used: seq<string>, d: Disk)
    ensures var r := Segment(env, lineNum, i, elm, used, d);
      r.result.Err? ==> r.result.error.InvalidReference? || IsRenderError(r.result.error)
  {
  }

  /** A piece only appends fragment names to the used list. */
  lemma SegmentUsed(env: InlineEnv, lineNum: nat, i: nat, elm: string, used: seq<string>, d: Disk)
    ensures UsedGrows(used, Segment(env, lineNum, i, elm, used, d).used)
  {
    if i % 2 == 1 && !StartsWith(elm, "ref:") {
      FormulaUsed(env, lineNum, i, elm, used, d);
    } else {
      assert used[..|used|] == used;
      if i % 2 == 1 {
        ReferenceSegment(env, lineNum, i, elm, used, d);
      } else {
        TextSegment(env, lineNum, i, elm, used, d);
      }
    }
  }

  lemma FormulaUsed(env: InlineEnv, lineNum: nat, i: nat, elm: string, used: seq<string>, d: Disk)
    requires i % 2 == 1 && !StartsWith(elm, "ref:")
    ensures UsedGrows(used, Segment(env, lineNum, i, elm, used, d).used)
  {
    FormulaSegment(env, lineNum, i, elm, used, d);
    ArtifactName(env.backend.sha256, elm);
    GrowsByOne(used, SvgName(Hash(env.backend.sha256, elm)));
  }

  lemma GrowsByOne(used: seq<string>, file: string)
    requires IsArtifactName(file)
    ensures UsedGrows(used, used) && UsedGrows(used, used + [file])
  {
    assert used[..|used|] == used;
    assert (used + [file])[..|used|] == used;
  }

  // ---------------------------------------------------------------------------
  // What a line and a chapter do

  /** The fold over pieces stops at a piece that fails. */
  lemma SegmentsStop(env: InlineEnv, lineNum: nat, segs: seq<string>, i: nat, used: seq<string>, d: Disk)
    requires segs != [] && Segment(env, lineNum, i, segs[0], used, d).result.Err?
    ensures var h := Segment(env, lineNum, i, segs[0], used, d);
      Segments(env, lineNum, segs, i, used, d) == Threaded(Err(h.result.error), h.used, h.disk)
  {
  }

  /** The fold over pieces goes on after a piece that succeeds. */
  lemma SegmentsStep(env: InlineEnv, lineNum: nat, segs: seq<string>, i: nat, used: seq<string>, d: Disk)
    requires segs != [] && Segment(env, lineNum, i, segs[0], used, d).result.Ok?
    ensures var h := Segment(env, lineNum, i, segs[0], used, d);
      Segments(env, lineNum, segs, i, used, d) == Prepend([h.result.value], Segments(env, lineNum, segs[1..], i + 1, h.used, h.disk))
  {
  }

  /** The bookkeeping the pass may do: fragment names appended, the directory extended. */
  ghost predicate Tracks(used: seq<string>, d: Disk, used': seq<string>, d': Disk) {
    UsedGrows(used, used') && Extends(d, d')
  }

  lemma TracksTrans(u0: seq<string>, d0: Disk, u1: seq<string>, d1: Disk, u2: seq<string>, d2: Disk)
    requires Tracks(u0, d0, u1, d1) && Tracks(u1, d1, u2, d2)
    ensures Tracks(u0, d0, u2, d2)
  {
    UsedTrans(u0, u1, u2);
    ExtendsTrans(d0, d1, d2);
  }

  lemma TracksRefl(used: seq<string>, d: Disk)
    ensures Tracks(used, d, used, d)
  {
    assert used[..|used|] == used;
  }

  /** The pieces of a line only append fragment names and only raise reference or render errors. */
  lemma {:induction false} SegmentsFacts(env: InlineEnv, lineNum: nat, segs: seq<string>, i: nat, used: seq<string>, d: Disk)
    ensures var r := Segments(env, lineNum, segs, i, used, d);
      && Tracks(used, d, r.used, r.disk)
      && (r.result.Err? ==> r.result.error.InvalidReference? || IsRenderError(r.result.error))
      && (r.result.Ok? ==> |r.result.value| == |segs|)
    decreases |segs|
  {
    if segs == [] {
      TracksRefl(used, d);
    } else {
      var h := Segment(env, lineNum, i, segs[0], used, d);
      SegmentUsed(env, lineNum, i, segs[0], used, d);
      SegmentErrors(env, lineNum, i, segs[0], used, d);
      if h.result.Err? {
        SegmentsStop(env, lineNum, segs, i, used, d);
      } else {
        SegmentsStep(env, lineNum, segs, i, used, d);
        var t := Segments(env, lineNum, segs[1..], i + 1, h.used, h.disk);
        SegmentsFacts(env, lineNum, segs[1..], i + 1, h.used, h.disk);
        TracksTrans(used, d, h.used, h.disk, t.used, t.disk);
      }
    }
  }

  /**
   * Lines 110-112: a line fails with `UnevenNumberDollar` exactly when it
   * holds an odd number of `$`, and then nothing is rendered or recorded.
   */
  lemma LineUneven(env: InlineEnv, lineNum: nat, line: string, used: seq<string>, d: Disk)
    ensures var r := Line(env, lineNum, line, used, d);
      && (r.result == Err(UnevenNumberDollar) <==> Count(line, '$') % 2 != 0)
      && (Count(line, '$') % 2 != 0 ==> r.used == used && r.disk == d)
  {
    SegmentsFacts(env, lineNum, Split(line, '$'), 0, used, d);
  }

  /** A line with no `$` comes back as it is, with nothing rendered or recorded. */
  lemma LineWithoutDollar(env: InlineEnv, lineNum: nat, line: string, used: seq<string>, d: Disk)
    requires '$' !in line
    ensures Line(env, lineNum, line, used, d) == Threaded(Ok(line), used, d)
  {
    SplitAbsent(line, '$');
    TextSegment(env, lineNum, 0, line, used, d);
    SegmentsStep(env, lineNum, [line], 0, used, d);
    assert [line][1..] == [];
  }

  /** A line only appends fragment names, and extends the directory. */
  lemma LineTracks(env: InlineEnv, lineNum: nat, line: string, used: seq<string>, d: Disk)
    ensures var r := Line(env, lineNum, line, used, d);
      Tracks(used, d, r.used, r.disk)
  {
    if Count(line, '$') % 2 != 0 {
      TracksRefl(used, d);
    } else {
      SegmentsFacts(env, lineNum, Split(line, '$'), 0, used, d);
    }
  }

  /** One step of the fold over lines. */
  lemma LinesAdvance(env: InlineEnv, lines: seq<string>, lineNum: nat, used: seq<string>, d: Disk)
    requires lines != []
    ensures var h := Line(env, lineNum, lines[0], used, d);
      && (h.result.Err? ==> Lines(env, lines, lineNum, used, d) == Threaded(Err(h.result.error), h.used, h.disk))
      && (h.result.Ok? ==> Lines(env, lines, lineNum, used, d)
                           == Prepend([h.result.value], Lines(env, lines[1..], lineNum + 1, h.used, h.disk)))
  {
  }

  /** Lines without `$` come back as they are. */
  lemma {:induction false} LinesWithoutDollar(env: InlineEnv, lines: seq<string>, lineNum: nat, used: seq<string>, d: Disk)
    requires forall k :: 0 <= k < |lines| ==> '$' !in lines[k]
    ensures Lines(env, lines, lineNum, used, d) == Threaded(Ok(lines), used, d)
    decreases |lines|
  {
    if lines != [] {
      LinesAdvance(env, lines, lineNum, used, d);
      LineWithoutDollar(env, lineNum, lines[0], used, d);
      LinesWithoutDollar(env, lines[1..], lineNum + 1, used, d);
      assert [lines[0]] + lines[1..] == lines;
    }
  }

  /** A character absent from a string is absent from every piece of its split. */
  lemma {:induction false} SplitKeepsOut(s: string, c: char, x: char)
    requires x !in s
    ensures forall k :: 0 <= k < |Split(s, c)| ==> x !in Split(s, c)[k]
    decreases |s|
  {
    if s != [] {
      SplitKeepsOut(s[1..], c, x);
      var rest := Split(s[1..], c);
      if s[0] != c {
        assert Split(s, c) == [[s[0]] + rest[0]] + rest[1..];
      }
    }
  }

  /** With no `$` anywhere the pass returns its input, records nothing and renders nothing. */
  lemma NoDollarIdentity(env: InlineEnv, source: string, used: seq<string>, d: Disk)
    requires '$' !in source
    ensures InlineBlocksOf(env, source, used, d) == Threaded(Ok(source), used, d)
  {
    SplitKeepsOut(source, '\n', '$');
    LinesWithoutDollar(env, Split(source, '\n'), 0, used, d);
    JoinSplit(source, '\n');
  }

  /**
   * `UnevenNumberDollar` comes only from a line with an odd number of `$`;
   * the first line, when it has one, fails the pass at once.
   */
  lemma {:induction false} LinesUneven(env: InlineEnv, lines: seq<string>, lineNum: nat, used: seq<string>, d: Disk)
    ensures var r := Lines(env, lines, lineNum, used, d);
      && (r.result == Err(UnevenNumberDollar) ==> exists k :: 0 <= k < |lines| && Count(lines[k], '$') % 2 != 0)
      && (lines != [] && Count(lines[0], '$') % 2 != 0 ==> r == Threaded(Err(UnevenNumberDollar), used, d))
    decreases |lines|
  {
    if lines != [] {
      LinesAdvance(env, lines, lineNum, used, d);
      LineUneven(env, lineNum, lines[0], used, d);
      var h := Line(env, lineNum, lines[0], used, d);
      if h.result.Ok? {
        LinesUneven(env, lines[1..], lineNum + 1, h.used, h.disk);
        var r := Lines(env, lines, lineNum, used, d);
        if r.result == Err(UnevenNumberDollar) {
          var k :| 0 <= k < |lines[1..]| && Count(lines[1..][k], '$') % 2 != 0;
          assert lines[1..][k] == lines[k + 1];
        }
      }
    }
  }

  /**
   * Lines 109-112: when the lines before line `j` all go through and line `j`
   * holds an odd number of `$`, the pass fails there with `UnevenNumberDollar`;
   * what the earlier lines rendered and recorded stays.
   */
  lemma {:induction false} LinesUnevenAt(env: InlineEnv, lines: seq<string>, j: nat, lineNum: nat, used: seq<string>, d: Disk)
    requires j < |lines|
    requires Lines(env, lines[..j], lineNum, used, d).result.Ok?
    requires Count(lines[j], '$') % 2 != 0
    ensures var p := Lines(env, lines[..j], lineNum, used, d);
      Lines(env, lines, lineNum, used, d) == Threaded(Err(UnevenNumberDollar), p.used, p.disk)
    decreases j
  {
    LinesAdvance(env, lines, lineNum, used, d);
    if j == 0 {
      assert lines[..j] == [];
      LineUneven(env, lineNum, lines[0], used, d);
    } else {
      var pre := lines[..j];
      LinesAdvance(env, pre, lineNum, used, d);
      assert pre[0] == lines[0];
      var h := Line(env, lineNum, lines[0], used, d);
      assert pre[1..] == lines[1..][..j - 1];
      assert lines[1..][j - 1] == lines[j];
      LinesUnevenAt(env, lines[1..], j - 1, lineNum + 1, h.used, h.disk);
    }
  }

  /** Over a chapter the used list only grows, by fragment names, and the directory only grows. */
  lemma {:induction false} LinesTracks(env: InlineEnv, lines: seq<string>, lineNum: nat, used: seq<string>, d: Disk)
    ensures var r := Lines(env, lines, lineNum, used, d);
      Tracks(used, d, r.used, r.disk)
    decreases |lines|
  {
    if lines == [] {
      TracksRefl(used, d);
    } else {
      LinesAdvance(env, lines, lineNum, used, d);
      LineTracks(env, lineNum, lines[0], used, d);
      var h := Line(env, lineNum, lines[0], used, d);
      if h.result.Ok? {
        var t := Lines(env, lines[1..], lineNum + 1, h.used, h.disk);
        LinesTracks(env, lines[1..], lineNum + 1, h.used, h.disk);
        TracksTrans(used, d, h.used, h.disk, t.used, t.disk);
      }
    }
  }

  /** Over a chapter the used list only grows, by fragment names, and the directory only grows. */
  lemma InlineTracks(env: InlineEnv, source: string, used: seq<string>, d: Disk)
    ensures var r := InlineBlocksOf(env, source, used, d);
      Tracks(used, d, r.used, r.disk)
  {
    LinesTracks(env, Split(source, '\n'), 0, used, d);
  }

  lemma PrependEmpty(t: Threaded<seq<string>>)
    ensures Prepend([], t) == t
  {
    if t.result.Ok? {
      assert [] + t.result.value == t.result.value;
    }
  }

  lemma PrependPrepend(acc: seq<string>, x: string, t: Threaded<seq<string>>)
    ensures Prepend(acc, Prepend([x], t)) == Prepend(acc + [x], t)
  {
    if t.result.Ok? {
      assert acc + ([x] + t.result.value) == (acc + [x]) + t.result.value;
    }
  }

  // ---------------------------------------------------------------------------
  // The implementation

  /** Lines 114-156: one piece, rendered into `dir` when it is a formula. */
  method InlineSegment(dir: FragmentDir, env: InlineEnv, lineNum: nat, i: nat, elm: string, used: seq<string>)
    returns (r: Result<string>, used': seq<string>)
    modifies dir
    ensures Threaded(r, used', dir.State()) == Segment(env, lineNum, i, elm, used, old(dir.State()))
  {
    if i % 2 == 0 {
      return Ok(elm), used;
    }
    if StartsWith(elm, "ref:") {
      return Reference(env.refs, lineNum, elm), used;
    }
    var file := dir.ParseEquation(elm, InlineZoom, env.backend);
    if file.Err? {
      return Err(file.error), used;
    }
    return Ok(InlineObject(file.value)), used + [file.value];
  }

  /** Lines 110-160: one line, its pieces in order, stopping at the first error. */
  method InlineLine(dir: FragmentDir, env: InlineEnv, lineNum: nat, line: string, used0: seq<string>)
    returns (r: Result<string>, used: seq<string>)
    modifies dir
    ensures Threaded(r, used, dir.State()) == Line(env, lineNum, line, used0, old(dir.State()))
  {
    if Count(line, '$') % 2 != 0 {
      return Err(UnevenNumberDollar), used0;
    }
    var segs := Split(line, '$');
    ghost var spec := Segments(env, lineNum, segs, 0, used0, dir.State());
    var out: seq<string> := [];
    var failure: Option<Error> := None;
    used := used0;
    var i := 0;
    assert segs[0..] == segs;
    PrependEmpty(spec);
    while i < |segs| && failure.None?
      invariant 0 <= i <= |segs|
      invariant failure.None? ==> Prepend(out, Segments(env, lineNum, segs[i..], i, used, dir.State())) == spec
      invariant failure.Some? ==> spec == Threaded(Err(failure.value), used, dir.State())
    {
      ghost var d := dir.State();
      if Segment(env, lineNum, i, segs[i..][0], used, d).result.Err? {
        SegmentsStop(env, lineNum, segs[i..], i, used, d);
      } else {
        SegmentsStep(env, lineNum, segs[i..], i, used, d);
      }
      assert segs[i..][0] == segs[i] && segs[i..][1..] == segs[i + 1..];
      var piece;
      piece, used := InlineSegment(dir, env, lineNum, i, segs[i], used);
      if piece.Err? {
        failure := Some(piece.error);
      } else {
        PrependPrepend(out, piece.value, Segments(env, lineNum, segs[i + 1..], i + 1, used, dir.State()));
        out := out + [piece.value];
      }
      i := i + 1;
    }
    if failure.Some? {
      return Err(failure.value), used;
    }
    assert segs[i..] == [] && out + [] == out;
    assert spec == Threaded(Ok(out), used, dir.State());
    return Ok(Join(out, "\n")), used;
  }

  /**
   * `replace_inline_blocks`: the lines of the chapter in order, rendering into
   * `dir` and appending to the used list, stopping at the first error.
   */
  method ReplaceInlineBlocks(dir: FragmentDir, env: InlineEnv, source: string, used0: seq<string>)
    returns (r: Result<string>, used: seq<string>)
    modifies dir
    ensures Threaded(r, used, dir.State()) == InlineBlocksOf(env, source, used0, old(dir.State()))
  {
    var lines := Split(source, '\n');
    ghost var spec := Lines(env, lines, 0, used0, dir.State());
    var out: seq<string> := [];
    var failure: Option<Error> := None;
    used := used0;
    var i := 0;
    assert lines[0..] == lines;
    PrependEmpty(spec);
    while i < |lines| && failure.None?
      invariant 0 <= i <= |lines|
      invariant failure.None? ==> Prepend(out, Lines(env, lines[i..], i, used, dir.State())) == spec
      invariant failure.Some? ==> spec == Threaded(Err(failure.value), used, dir.State())
    {
      ghost var d := dir.State();
      LinesAdvance(env, lines[i..], i, used, d);
      assert lines[i..][0] == lines[i] && lines[i..][1..] == lines[i + 1..];
      var line;
      line, used := InlineLine(dir, env, i, lines[i], used);
      if line.Err? {
        failure := Some(line.error);
      } else {
        PrependPrepend(out, line.value, Lines(env, lines[i + 1..], i + 1, used, dir.State()));
        out := out + [line.value];
      }
      i := i + 1;
    }
    if failure.Some? {
      return Err(failure.value), used;
    }
    assert lines[i..] == [] && out + [] == out;
    assert spec == Threaded(Ok(out), used, dir.State());
    return Ok(Join(out, "\n")), used;
  }
}
