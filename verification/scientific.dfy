/**
 * `Scientific::run` (lib.rs): the preprocessor over a whole book.
 *
 * Without a `[preprocessor.scientific]` section the run fails at once. With a
 * bibliography configured, its file must exist; its citation keys are
 * registered as `[1]`, `[2]`, … in file order, and bib2xhtml's list becomes a
 * last chapter. Then the block pass runs over every chapter, then the inline
 * pass, both sharing one reference map and one used list; the first error
 * stops all further work. On success every used fragment is copied to the
 * asset directory.
 *
 * The book is a sequence of items in the order mdbook visits them; the run
 * is specified by `RunBook` and implemented by the method `Run`.
 */
module Scientific {
  import opened Strings
  import opened Errors
  import opened Fragments
  import opened Blocks
  import opened Inline

  /** A book item: a chapter (its number already formatted, as mdbook prints it), a separator or a part title. */
  datatype BookItem =
    | Chapter(name: string, number: Option<string>, content: string)
    | Separator
    | PartTitle(title: string)

  /** The keys of the preprocessor's section that the run reads. */
  datatype Config = Config(bibliography: Option<string>, bib2xhtml: Option<string>)

  /** Everything the run reads from outside the book. */
  datatype Project = Project(
    config: Option<Config>,                  // None: the section is missing
    bibFiles: map<string, seq<string>>,      // bibliography path -> citation keys of its entries, in file order
    bib2xhtml: (string, string) -> ToolRun,  // bibliography path, bib2xhtml directory -> the program's run
    assets: map<string, string>,             // field 2 of a body-less block header -> the block file's content
    backend: Backend)

  /** Why a run fails. */
  datatype RunError =
    | KeySectionNotFound
    | BibliographyNotFound(path: string)
    | BibliographyFailed(error: Error)
    | BlockPassFailed(head: string, error: Error)
    | InlinePassFailed(head: string, error: Error)
    | CopyFailed(fragment: string)

  datatype RunResult = Done(book: seq<BookItem>) | Failed(error: RunError)

  /** The result of a run, with the shared map and used list it ended with, the fragment directory and the asset directory. */
  datatype RunOutcome = RunOutcome(result: RunResult, refs: map<string, string>, used: seq<string>, disk: Disk, dest: map<string, string>)

  // ---------------------------------------------------------------------------
  // The bibliography

  /** How a citation is shown: its position in the bibliography, in brackets. */
  function Marker(n: nat): string { "[" + NatToString(n) + "]" }

  /** Lines 63-65: the entries from number `start + 1` on, each key mapped to its marker. */
  function SeedCitations(refs: map<string, string>, keys: seq<string>, start: nat): map<string, string>
    decreases |keys|
  {
    if keys == [] then refs else SeedCitations(refs[keys[0] := Marker(start + 1)], keys[1..], start + 1)
  }

  /** A key that is not among the entries keeps what it had. */
  lemma {:induction false} SeedKeeps(refs: map<string, string>, keys: seq<string>, start: nat, key: string)
    requires forall j :: 0 <= j < |keys| ==> keys[j] != key
    ensures key in SeedCitations(refs, keys, start) <==> key in refs
    ensures key in refs ==> SeedCitations(refs, keys, start)[key] == refs[key]
    decreases |keys|
  {
    if keys != [] {
      SeedKeeps(refs[keys[0] := Marker(start + 1)], keys[1..], start + 1, key);
    }
  }

  /** Every key gets the marker of its last entry: a later duplicate overwrites an earlier one. */
  lemma {:induction false} SeedLastWins(refs: map<string, string>, keys: seq<string>, start: nat, j: nat)
    requires j < |keys| && forall j' :: j < j' < |keys| ==> keys[j'] != keys[j]
    ensures keys[j] in SeedCitations(refs, keys, start)
    ensures SeedCitations(refs, keys, start)[keys[j]] == Marker(start + j + 1)
    decreases |keys|
  {
    var refs' := refs[keys[0] := Marker(start + 1)];
    if j == 0 {
      SeedKeeps(refs', keys[1..], start + 1, keys[0]);
    } else {
      SeedLastWins(refs', keys[1..], start + 1, j - 1);
    }
  }

  /** Seeding adds exactly the entries' keys. */
  lemma {:induction false} SeedKeys(refs: map<string, string>, keys: seq<string>, start: nat)
    ensures SeedCitations(refs, keys, start).Keys == refs.Keys + set k | k in keys
    decreases |keys|
  {
    if keys != [] {
      SeedKeys(refs[keys[0] := Marker(start + 1)], keys[1..], start + 1);
      assert (set k | k in keys) == {keys[0]} + set k | k in keys[1..];
    }
  }

  /** Lines 74-75: the chapter holding bib2xhtml's list. */
  function BibChapter(html: string): BookItem {
    Chapter("Bibliography", None, "# Bibliography\n" + html)
  }

  /** What the run starts its passes from: the seeded map and the chapters to append. */
  datatype Prelude = Ready(refs: map<string, string>, extra: seq<BookItem>) | Stopped(error: RunError)

  /**
   * Lines 52-76: with both a bibliography and bib2xhtml configured, the
   * bibliography must exist; its keys are seeded into the map and bib2xhtml's
   * list becomes the one extra chapter, unless bib2xhtml failed. Otherwise the
   * map starts empty and no chapter is added.
   */
  function Bibliography(p: Project, c: Config): (r: Prelude)
    ensures r.Ready? ==> |r.extra| <= 1
    ensures !(c.bibliography.Some? && c.bib2xhtml.Some?) ==> r == Ready(map[], [])
    ensures c.bibliography.Some? && c.bib2xhtml.Some? && c.bibliography.value !in p.bibFiles ==>
      r == Stopped(BibliographyNotFound(c.bibliography.value))
    ensures c.bibliography.Some? && c.bib2xhtml.Some? && c.bibliography.value in p.bibFiles ==>
      var html := BibToHtml(p.bib2xhtml(c.bibliography.value, c.bib2xhtml.value));
      && (html.Err? ==> r == Stopped(BibliographyFailed(html.error)))
      && (html.Ok? ==> r.Ready? && r.extra == [BibChapter(html.value)]
                       && r.refs.Keys == set k | k in p.bibFiles[c.bibliography.value])
  {
    if c.bibliography.Some? && c.bib2xhtml.Some? then
      var path := c.bibliography.value;
      if path !in p.bibFiles then Stopped(BibliographyNotFound(path))
      else
        var refs := SeedCitations(map[], p.bibFiles[path], 0);
        SeedKeys(map[], p.bibFiles[path], 0);
        var html := BibToHtml(p.bib2xhtml(path, c.bib2xhtml.value));
        if html.Err? then Stopped(BibliographyFailed(html.error))
        else Ready(refs, [BibChapter(html.value)])
    else Ready(map[], [])
  }

  /**
   * Lines 61-65: a bibliography that was read leaves the map holding exactly
   * its citation keys, each showing the position of its last entry.
   */
  lemma BibliographyCites(p: Project, c: Config, j: nat)
    requires c.bibliography.Some? && c.bib2xhtml.Some? && Bibliography(p, c).Ready?
    requires var keys := p.bibFiles[c.bibliography.value];
      j < |keys| && forall j' :: j < j' < |keys| ==> keys[j'] != keys[j]
    ensures var keys := p.bibFiles[c.bibliography.value];
      && Bibliography(p, c).refs.Keys == set k | k in keys
      && keys[j] in Bibliography(p, c).refs && Bibliography(p, c).refs[keys[j]] == Marker(j + 1)
  {
    var keys := p.bibFiles[c.bibliography.value];
    SeedKeys(map[], keys, 0);
    SeedLastWins(map[], keys, 0, j);
  }

  // ---------------------------------------------------------------------------
  // The two passes

  /** Lines 89 and 105: a chapter's head number, or nothing for an unnumbered chapter. */
  function HeadNumber(number: Option<string>): string {
    if number.Some? then number.value else ""
  }

  /** The block pass never reads a missing header field in this item. */
  predicate ItemComplete(item: BookItem) {
    item.Chapter? ==> HeadersComplete(Split(item.content, '\n'), None, true)
  }

  predicate AllComplete(items: seq<BookItem>) {
    forall k :: 0 <= k < |items| ==> ItemComplete(items[k])
  }

  lemma AllCompleteTail(items: seq<BookItem>)
    requires items != [] && AllComplete(items)
    ensures ItemComplete(items[0]) && AllComplete(items[1..])
  {
    forall k | 0 <= k < |items[1..]| ensures ItemComplete(items[1..][k]) {
      assert items[1..][k] == items[k + 1];
    }
  }

  /** A chapter rewrite: from the chapter's head number and content, the shared map and used list, and the directory. */
  type ChapterRewrite = (string, string, map<string, string>, seq<string>, Disk) -> Replaced

  /** Which pass is running; it decides the rewrite and how an error is reported. */
  datatype Stage = BlockStage | InlineStage

  /**
   * Line 91: `replace_blocks` on one chapter. A chapter whose headers are
   * incomplete, which no entry point passes in, is left as it is.
   */
  function BlockRewrite(p: Project, head: string, content: string, refs: map<string, string>, used: seq<string>, d: Disk): Replaced {
    if HeadersComplete(Split(content, '\n'), None, true)
    then DisplayBlocks(BlockEnv(head, p.assets, p.backend), content, refs, used, d)
    else Replaced(Ok(content), refs, used, d)
  }

  /** Line 107: `replace_inline_blocks` on one chapter, which only reads the map. */
  function InlineRewrite(p: Project, content: string, refs: map<string, string>, used: seq<string>, d: Disk): Replaced {
    var r := InlineBlocksOf(InlineEnv(refs, p.backend), content, used, d);
    Replaced(r.result, refs, r.used, r.disk)
  }

  /** The rewrite each pass applies to a chapter. */
  function StageRewrite(stage: Stage, p: Project): ChapterRewrite {
    match stage
    case BlockStage =>
      (head: string, content: string, refs: map<string, string>, used: seq<string>, d: Disk)
        => BlockRewrite(p, head, content, refs, used, d)
    case InlineStage =>
      (head: string, content: string, refs: map<string, string>, used: seq<string>, d: Disk)
        => InlineRewrite(p, content, refs, used, d)
  }

  /** Lines 93 and 109: the error of a failing chapter names the pass and the chapter's head number. */
  function StageFailed(stage: Stage, head: string, e: Error): RunError {
    match stage
    case BlockStage => BlockPassFailed(head, e)
    case InlineStage => InlinePassFailed(head, e)
  }

  /** The book after a pass, with the bookkeeping and the error it stopped at. */
  datatype PassState = PassState(items: seq<BookItem>, refs: map<string, string>, used: seq<string>, disk: Disk, error: Option<RunError>)

  /** The items before the pass's current position, put in front. */
  function Splice(pre: seq<BookItem>, s: PassState): PassState {
    s.(items := pre + s.items)
  }

  /**
   * Lines 83-96 and 99-112: a pass over every item in order. Only chapters are
   * rewritten; after the first error nothing more is touched.
   */
  function Pass(stage: Stage, rw: ChapterRewrite, items: seq<BookItem>, refs: map<string, string>, used: seq<string>, d: Disk): PassState
    decreases |items|
  {
    if items == [] then PassState([], refs, used, d, None)
    else
      if !items[0].Chapter? then Splice([items[0]], Pass(stage, rw, items[1..], refs, used, d))
      else
        var head := HeadNumber(items[0].number);
        var r := rw(head, items[0].content, refs, used, d);
        if r.result.Err? then PassState(items, r.refs, r.used, r.disk, Some(StageFailed(stage, head, r.result.error)))
        else Splice([items[0].(content := r.result.value)], Pass(stage, rw, items[1..], r.refs, r.used, r.disk))
  }

  // ---------------------------------------------------------------------------
  // What the two rewrites promise

  /** The rewrite only adds: fragment names to the used list, keys to the map, files and runs to the directory. */
  ghost predicate Adds(rw: ChapterRewrite) {
    forall head, content, refs, used, d ::
      && UsedGrows(used, rw(head, content, refs, used, d).used)
      && refs.Keys <= rw(head, content, refs, used, d).refs.Keys
      && Extends(d, rw(head, content, refs, used, d).disk)
  }

  /** The rewrite leaves the map as it is. */
  ghost predicate KeepsRefs(rw: ChapterRewrite) {
    forall head, content, refs, used, d ::
      rw(head, content, refs, used, d).refs == refs
  }

  /** `replace_blocks` on a chapter only appends fragment names, keeps every key and extends the directory. */
  lemma BlockRewriteGrows(p: Project, head: string, content: string, refs: map<string, string>, used: seq<string>, d: Disk)
    requires HeadersComplete(Split(content, '\n'), None, true)
    ensures var r := BlockRewrite(p, head, content, refs, used, d);
      UsedGrows(used, r.used) && refs.Keys <= r.refs.Keys && Extends(d, r.disk)
  {
    BlocksGrows(BlockEnv(head, p.assets, p.backend), content, refs, used, d);
  }

  /** A rewrite that hands back the shared state it was given adds nothing. */
  lemma Unchanged(result: Result<string>, refs: map<string, string>, used: seq<string>, d: Disk)
    ensures var r := Replaced(result, refs, used, d);
      UsedGrows(used, r.used) && refs.Keys <= r.refs.Keys && Extends(d, r.disk)
  {
    assert used[..|used|] == used;
  }

  /** `replace_inline_blocks` on a chapter only appends fragment names, extends the directory and keeps the map. */
  lemma InlineRewriteGrows(p: Project, content: string, refs: map<string, string>, used: seq<string>, d: Disk)
    ensures var r := InlineRewrite(p, content, refs, used, d);
      UsedGrows(used, r.used) && r.refs == refs && Extends(d, r.disk)
  {
    InlineTracks(InlineEnv(refs, p.backend), content, used, d);
  }

  /** The block pass's rewrite only adds to the shared state. */
  lemma BlockRewriteAdds(p: Project)
    ensures Adds(StageRewrite(BlockStage, p))
  {
    var rw := StageRewrite(BlockStage, p);
    forall head, content, refs, used, d
      ensures && UsedGrows(used, rw(head, content, refs, used, d).used)
              && refs.Keys <= rw(head, content, refs, used, d).refs.Keys
              && Extends(d, rw(head, content, refs, used, d).disk)
    {
      if HeadersComplete(Split(content, '\n'), None, true) {
        BlockRewriteGrows(p, head, content, refs, used, d);
      } else {
        Unchanged(Ok(content), refs, used, d);
      }
    }
  }

  /** The inline pass's rewrite only adds to the shared state, and keeps the map. */
  lemma InlineRewriteAdds(p: Project)
    ensures Adds(StageRewrite(InlineStage, p)) && KeepsRefs(StageRewrite(InlineStage, p))
  {
    var rw := StageRewrite(InlineStage, p);
    forall head, content, refs, used, d
      ensures && UsedGrows(used, rw(head, content, refs, used, d).used)
              && rw(head, content, refs, used, d).refs == refs
              && Extends(d, rw(head, content, refs, used, d).disk)
    {
      InlineRewriteGrows(p, content, refs, used, d);
    }
  }

  // ---------------------------------------------------------------------------
  // What a pass promises

  /** `b` is `a` after a pass: the same kind of item, a chapter keeping its name and number. */
  predicate SameShape(a: BookItem, b: BookItem) {
    && (a.Chapter? <==> b.Chapter?)
    && (a.Chapter? ==> b.name == a.name && b.number == a.number)
    && (!a.Chapter? ==> b == a)
  }

  /** A pass only rewrites the contents of chapters. */
  predicate Reshaped(items: seq<BookItem>, after: seq<BookItem>) {
    |after| == |items| && forall k :: 0 <= k < |items| ==> SameShape(items[k], after[k])
  }

  lemma ReshapedCons(x: BookItem, y: BookItem, items: seq<BookItem>, after: seq<BookItem>)
    requires SameShape(x, y) && Reshaped(items, after)
    ensures Reshaped([x] + items, [y] + after)
  {
    forall k | 0 <= k < |[x] + items| ensures SameShape(([x] + items)[k], ([y] + after)[k]) {
      if k > 0 {
        assert ([x] + items)[k] == items[k - 1] && ([y] + after)[k] == after[k - 1];
      }
    }
  }

  lemma ReshapedTrans(a: seq<BookItem>, b: seq<BookItem>, c: seq<BookItem>)
    requires Reshaped(a, b) && Reshaped(b, c)
    ensures Reshaped(a, c)
  {
    forall k | 0 <= k < |a| ensures SameShape(a[k], c[k]) {
      assert SameShape(a[k], b[k]) && SameShape(b[k], c[k]);
    }
  }

  /**
   * The first error stops the pass at a chapter: that chapter and every item
   * after it are left as they were, and the error names the pass and the
   * chapter's head number.
   */
  ghost predicate StoppedAt(stage: Stage, items: seq<BookItem>, s: PassState) {
    && s.error.Some?
    && |s.items| == |items|
    && exists j, e :: 0 <= j < |items| && items[j].Chapter? && s.items[j..] == items[j..]
                      && s.error.value == StageFailed(stage, HeadNumber(items[j].number), e)
  }

  lemma StoppedAtCons(stage: Stage, x: BookItem, y: BookItem, items: seq<BookItem>, s: PassState)
    requires StoppedAt(stage, items, s)
    ensures StoppedAt(stage, [x] + items, Splice([y], s))
  {
    var j, e :| 0 <= j < |items| && items[j].Chapter? && s.items[j..] == items[j..]
                && s.error.value == StageFailed(stage, HeadNumber(items[j].number), e);
    var s' := Splice([y], s);
    assert s'.items == [y] + s.items;
    assert ([y] + s.items)[j + 1..] == s.items[j..];
    assert ([x] + items)[j + 1..] == items[j..];
    assert ([x] + items)[j + 1] == items[j];
  }

  /**
   * With a rewrite that only adds, a pass keeps the book's shape, only appends
   * fragment names to the used list, keeps every key of the map, only extends
   * the directory, and stops at the chapter of its first error; with a rewrite
   * that keeps the map, so does the pass.
   */
  lemma {:induction false} PassFacts(stage: Stage, rw: ChapterRewrite, items: seq<BookItem>,
                                     refs: map<string, string>, used: seq<string>, d: Disk)
    requires Adds(rw)
    ensures var r := Pass(stage, rw, items, refs, used, d);
      && Reshaped(items, r.items)
      && UsedGrows(used, r.used) && refs.Keys <= r.refs.Keys && Extends(d, r.disk)
      && (KeepsRefs(rw) ==> r.refs == refs)
      && (r.error.Some? ==> StoppedAt(stage, items, r))
    decreases |items|
  {
    if items == [] {
      assert used[..|used|] == used;
    } else {
      if !items[0].Chapter? {
        PassFacts(stage, rw, items[1..], refs, used, d);
        var t := Pass(stage, rw, items[1..], refs, used, d);
        ReshapedCons(items[0], items[0], items[1..], t.items);
        assert [items[0]] + items[1..] == items;
        if t.error.Some? {
          StoppedAtCons(stage, items[0], items[0], items[1..], t);
        }
      } else {
        var head := HeadNumber(items[0].number);
        var c := rw(head, items[0].content, refs, used, d);
        if c.result.Err? {
          assert items[0..] == items;
        } else {
          var y := items[0].(content := c.result.value);
          PassFacts(stage, rw, items[1..], c.refs, c.used, c.disk);
          var t := Pass(stage, rw, items[1..], c.refs, c.used, c.disk);
          ReshapedCons(items[0], y, items[1..], t.items);
          assert [items[0]] + items[1..] == items;
          UsedTrans(used, c.used, t.used);
          ExtendsTrans(d, c.disk, t.disk);
          if t.error.Some? {
            StoppedAtCons(stage, items[0], y, items[1..], t);
          }
        }
      }
    }
  }

  /**
   * With a rewrite that keeps the map, every chapter the pass reaches is
   * rewritten against the map the pass started with, whatever the chapters
   * before it did.
   */
  lemma {:induction false} PassSeesRefs(stage: Stage, rw: ChapterRewrite, items: seq<BookItem>,
                                        refs: map<string, string>, used: seq<string>, d: Disk, k: nat)
    requires KeepsRefs(rw)
    requires k < |items| && items[k].Chapter?
    requires Pass(stage, rw, items[..k], refs, used, d).error.None?
    ensures var pre := Pass(stage, rw, items[..k], refs, used, d);
      var head := HeadNumber(items[k].number);
      var c := rw(head, items[k].content, refs, pre.used, pre.disk);
      var r := Pass(stage, rw, items, refs, used, d);
      && (c.result.Ok? ==> k < |r.items| && r.items[k] == items[k].(content := c.result.value))
      && (c.result.Err? ==> r.error == Some(StageFailed(stage, head, c.result.error)))
    decreases k
  {
    if k == 0 {
      assert items[..k] == [];
    } else {
      var pre := items[..k];
      assert pre[0] == items[0] && pre[1..] == items[1..][..k - 1];
      assert items[1..][k - 1] == items[k];
      if !items[0].Chapter? {
        PassSeesRefs(stage, rw, items[1..], refs, used, d, k - 1);
      } else {
        var c0 := rw(HeadNumber(items[0].number), items[0].content, refs, used, d);
        assert c0.refs == refs;
        PassSeesRefs(stage, rw, items[1..], refs, c0.used, c0.disk, k - 1);
      }
    }
  }

  /** Lines 83-116: the block pass, then, unless it failed, the inline pass over its result. */
  function Passes(blocks: ChapterRewrite, inline: ChapterRewrite, items: seq<BookItem>, refs: map<string, string>, d: Disk): PassState {
    var s := Pass(BlockStage, blocks, items, refs, [], d);
    if s.error.Some? then s
    else Pass(InlineStage, inline, s.items, s.refs, s.used, s.disk)
  }

  /** The error a pass stops with names a chapter of the book it ran over. */
  ghost predicate FailedAt(items: seq<BookItem>, e: RunError) {
    && (e.BlockPassFailed? || e.InlinePassFailed?)
    && exists j :: 0 <= j < |items| && items[j].Chapter? && e.head == HeadNumber(items[j].number)
  }

  /**
   * With rewrites that only add, the two passes only extend the directory,
   * list fragment names only, keep every key of the map, return a book of the
   * same shape, and fail only at a chapter of the book.
   */
  lemma PassesFacts(blocks: ChapterRewrite, inline: ChapterRewrite, items: seq<BookItem>, refs: map<string, string>, d: Disk)
    requires Adds(blocks) && Adds(inline)
    ensures var r := Passes(blocks, inline, items, refs, d);
      && Extends(d, r.disk) && UsedGrows([], r.used) && refs.Keys <= r.refs.Keys
      && Reshaped(items, r.items)
      && (r.error.Some? ==> FailedAt(items, r.error.value))
  {
    var s := Pass(BlockStage, blocks, items, refs, [], d);
    PassFacts(BlockStage, blocks, items, refs, [], d);
    if s.error.Some? {
      var j, e :| 0 <= j < |items| && items[j].Chapter? && s.items[j..] == items[j..]
                  && s.error.value == StageFailed(BlockStage, HeadNumber(items[j].number), e);
    } else {
      var r := Pass(InlineStage, inline, s.items, s.refs, s.used, s.disk);
      PassFacts(InlineStage, inline, s.items, s.refs, s.used, s.disk);
      UsedTrans([], s.used, r.used);
      ExtendsTrans(d, s.disk, r.disk);
      ReshapedTrans(items, s.items, r.items);
      if r.error.Some? {
        var j, e :| 0 <= j < |s.items| && s.items[j].Chapter? && r.items[j..] == s.items[j..]
                    && r.error.value == StageFailed(InlineStage, HeadNumber(s.items[j].number), e);
        assert SameShape(items[j], s.items[j]);
      }
    }
  }

  /**
   * Lines 47, 91 and 107: the inline pass resolves every chapter against the
   * map the block pass ended with, so a label registered in a later chapter
   * resolves in an earlier one.
   */
  lemma InlineSeesBlockRefs(blocks: ChapterRewrite, inline: ChapterRewrite, items: seq<BookItem>,
                            refs: map<string, string>, d: Disk, k: nat)
    requires KeepsRefs(inline)
    requires var s := Pass(BlockStage, blocks, items, refs, [], d);
      && s.error.None? && k < |s.items| && s.items[k].Chapter?
      && Pass(InlineStage, inline, s.items[..k], s.refs, s.used, s.disk).error.None?
    ensures var s := Pass(BlockStage, blocks, items, refs, [], d);
      var pre := Pass(InlineStage, inline, s.items[..k], s.refs, s.used, s.disk);
      var head := HeadNumber(s.items[k].number);
      var c := inline(head, s.items[k].content, s.refs, pre.used, pre.disk);
      var r := Passes(blocks, inline, items, refs, d);
      && (c.result.Ok? ==> k < |r.items| && r.items[k] == s.items[k].(content := c.result.value))
      && (c.result.Err? ==> r.error == Some(InlinePassFailed(head, c.result.error)))
  {
    var s := Pass(BlockStage, blocks, items, refs, [], d);
    PassSeesRefs(InlineStage, inline, s.items, s.refs, s.used, s.disk, k);
  }

  /** Splicing twice is splicing the joined prefix. */
  lemma SpliceSplice(a: seq<BookItem>, b: seq<BookItem>, s: PassState)
    ensures Splice(a, Splice(b, s)) == Splice(a + b, s)
  {
    assert a + (b + s.items) == (a + b) + s.items;
  }

  // ---------------------------------------------------------------------------
  // The passes over the fragment directory

  /** Line 91: one chapter's block rewrite, on the fragment directory. */
  method BlockChapter(dir: FragmentDir, p: Project, head: string, content: string,
                      refs0: map<string, string>, used0: seq<string>)
    returns (r: Result<string>, refs: map<string, string>, used: seq<string>)
    requires HeadersComplete(Split(content, '\n'), None, true)
    modifies dir
    ensures Replaced(r, refs, used, dir.State()) == StageRewrite(BlockStage, p)(head, content, refs0, used0, old(dir.State()))
  {
    r, refs, used := ReplaceBlocks(dir, BlockEnv(head, p.assets, p.backend), content, refs0, used0);
  }

  /** Line 107: one chapter's inline rewrite, on the fragment directory. */
  method InlineChapter(dir: FragmentDir, p: Project, head: string, content: string,
                       refs0: map<string, string>, used0: seq<string>)
    returns (r: Result<string>, refs: map<string, string>, used: seq<string>)
    modifies dir
    ensures Replaced(r, refs, used, dir.State()) == StageRewrite(InlineStage, p)(head, content, refs0, used0, old(dir.State()))
  {
    refs := refs0;
    r, used := ReplaceInlineBlocks(dir, InlineEnv(refs0, p.backend), content, used0);
  }

  /** Lines 91 and 107: one chapter's rewrite by the running pass. */
  method RewriteChapter(dir: FragmentDir, stage: Stage, p: Project, head: string, content: string,
                        refs0: map<string, string>, used0: seq<string>)
    returns (r: Result<string>, refs: map<string, string>, used: seq<string>)
    requires stage == BlockStage ==> HeadersComplete(Split(content, '\n'), None, true)
    modifies dir
    ensures Replaced(r, refs, used, dir.State()) == StageRewrite(stage, p)(head, content, refs0, used0, old(dir.State()))
  {
    if stage == BlockStage {
      r, refs, used := BlockChapter(dir, p, head, content, refs0, used0);
    } else {
      r, refs, used := InlineChapter(dir, p, head, content, refs0, used0);
    }
  }

  /** Item `i` of a pass, as the loops of `BlockPass` and `InlinePass` take it. */
  method PassStep(dir: FragmentDir, stage: Stage, p: Project, items0: seq<BookItem>, i: nat, items: seq<BookItem>,
                  refs0: map<string, string>, used0: seq<string>)
    returns (items': seq<BookItem>, refs: map<string, string>, used: seq<string>, error: Option<RunError>)
    requires i < |items0| && |items| == |items0| && items[i..] == items0[i..]
    requires stage == BlockStage ==> AllComplete(items0[i..])
    modifies dir
    ensures |items'| == |items0| && items'[i + 1..] == items0[i + 1..]
    ensures stage == BlockStage ==> AllComplete(items0[i + 1..])
    ensures error.None? ==>
              Splice(items'[..i + 1], Pass(stage, StageRewrite(stage, p), items0[i + 1..], refs, used, dir.State()))
              == Splice(items[..i], Pass(stage, StageRewrite(stage, p), items0[i..], refs0, used0, old(dir.State())))
    ensures error.Some? ==>
              PassState(items', refs, used, dir.State(), error)
              == Splice(items[..i], Pass(stage, StageRewrite(stage, p), items0[i..], refs0, used0, old(dir.State())))
  {
    var rw := StageRewrite(stage, p);
    if stage == BlockStage {
      AllCompleteTail(items0[i..]);
    }
    assert items0[i..][0] == items0[i] && items0[i..][1..] == items0[i + 1..];
    var item := items0[i];
    refs, used, error := refs0, used0, None;
    if item.Chapter? {
      var head := HeadNumber(item.number);
      var r;
      r, refs, used := RewriteChapter(dir, stage, p, head, item.content, refs0, used0);
      if r.Err? {
        error := Some(StageFailed(stage, head, r.error));
      } else {
        item := item.(content := r.value);
      }
    }
    if error.Some? {
      items' := items;
      assert items[..i] + items0[i..] == items;
    } else {
      SpliceSplice(items[..i], [item], Pass(stage, rw, items0[i + 1..], refs, used, dir.State()));
      items' := items[i := item];
      assert items'[..i + 1] == items[..i] + [item];
      assert items'[i + 1..] == items0[i + 1..];
    }
  }

  /**
   * Lines 83-96: the block pass over the book on the fragment directory,
   * sharing the map and the used list, latched by the first error.
   */
  method BlockPass(dir: FragmentDir, p: Project, items0: seq<BookItem>, refs0: map<string, string>, used0: seq<string>)
    returns (items: seq<BookItem>, refs: map<string, string>, used: seq<string>, error: Option<RunError>)
    requires AllComplete(items0)
    modifies dir
    ensures PassState(items, refs, used, dir.State(), error) == Pass(BlockStage, StageRewrite(BlockStage, p), items0, refs0, used0, old(dir.State()))
  {
    ghost var spec := Pass(BlockStage, StageRewrite(BlockStage, p), items0, refs0, used0, dir.State());
    items, refs, used, error := items0, refs0, used0, None;
    var i := 0;
    assert items0[0..] == items0 && items[..0] == [];
    while i < |items0| && error.None?
      invariant 0 <= i <= |items0|
      invariant |items| == |items0| && items[i..] == items0[i..]
      invariant AllComplete(items0[i..])
      invariant error.None? ==> Splice(items[..i], Pass(BlockStage, StageRewrite(BlockStage, p), items0[i..], refs, used, dir.State())) == spec
      invariant error.Some? ==> PassState(items, refs, used, dir.State(), error) == spec
      decreases |items0| - i
    {
      items, refs, used, error := PassStep(dir, BlockStage, p, items0, i, items, refs, used);
      i := i + 1;
    }
    if error.None? {
      assert items0[i..] == [] && items[..i] == items;
    }
  }

  /**
   * Lines 99-112: the inline pass over the book on the fragment directory,
   * reading the map and appending to the used list, latched by the first error.
   */
  method InlinePass(dir: FragmentDir, p: Project, items0: seq<BookItem>, refs0: map<string, string>, used0: seq<string>)
    returns (items: seq<BookItem>, refs: map<string, string>, used: seq<string>, error: Option<RunError>)
    modifies dir
    ensures PassState(items, refs, used, dir.State(), error) == Pass(InlineStage, StageRewrite(InlineStage, p), items0, refs0, used0, old(dir.State()))
  {
    ghost var spec := Pass(InlineStage, StageRewrite(InlineStage, p), items0, refs0, used0, dir.State());
    items, refs, used, error := items0, refs0, used0, None;
    var i := 0;
    assert items0[0..] == items0 && items[..0] == [];
    while i < |items0| && error.None?
      invariant 0 <= i <= |items0|
      invariant |items| == |items0| && items[i..] == items0[i..]
      invariant error.None? ==> Splice(items[..i], Pass(InlineStage, StageRewrite(InlineStage, p), items0[i..], refs, used, dir.State())) == spec
      invariant error.Some? ==> PassState(items, refs, used, dir.State(), error) == spec
      decreases |items0| - i
    {
      items, refs, used, error := PassStep(dir, InlineStage, p, items0, i, items, refs, used);
      i := i + 1;
    }
    if error.None? {
      assert items0[i..] == [] && items[..i] == items;
    }
  }

  // ---------------------------------------------------------------------------
  // Copying the fragments

  /** The file a used entry names in the fragment directory: `<stem>.svg`. */
  function SourceFile(fragment: string): Option<FileName> {
    if EndsWith(fragment, ".svg") then Some(SvgFile(fragment[..|fragment| - 4])) else None
  }

  /** The asset directory after copying, and the first fragment that could not be copied. */
  datatype Copied = Copied(dest: map<string, string>, missing: Option<string>)

  /** Lines 125-127: copy the used fragments in order, stopping at one that is not there. */
  function CopyAll(used: seq<string>, files: map<FileName, string>, dest: map<string, string>): Copied
    decreases |used|
  {
    if used == [] then Copied(dest, None)
    else
      var src := SourceFile(used[0]);
      if src.None? || src.value !in files then Copied(dest, Some(used[0]))
      else CopyAll(used[1..], files, dest[used[0] := files[src.value]])
  }

  /** A fragment that was copied: it names a file of the fragment directory, and the asset directory holds that file's content. */
  predicate CopiedInto(f: string, files: map<FileName, string>, dest: map<string, string>) {
    && SourceFile(f).Some? && SourceFile(f).value in files
    && f in dest && dest[f] == files[SourceFile(f).value]
  }

  /** A complete copy puts every used fragment, with its content, into the asset directory, and nothing else. */
  lemma {:induction false} CopyAllPlaces(used: seq<string>, files: map<FileName, string>, dest: map<string, string>)
    ensures var c := CopyAll(used, files, dest);
      && (c.missing.None? ==> forall k :: 0 <= k < |used| ==> CopiedInto(used[k], files, c.dest))
      && (forall f :: f in c.dest ==> f in dest || f in used)
      && (c.missing.Some? ==> c.missing.value in used)
      && (c.missing.Some? ==> SourceFile(c.missing.value).None? || SourceFile(c.missing.value).value !in files)
      && (c.missing.None? <==> forall k :: 0 <= k < |used| ==> SourceFile(used[k]).Some? && SourceFile(used[k]).value in files)
    decreases |used|
  {
    if used != [] {
      var src := SourceFile(used[0]);
      if src.Some? && src.value in files {
        var dest' := dest[used[0] := files[src.value]];
        CopyAllPlaces(used[1..], files, dest');
        var c := CopyAll(used, files, dest);
        assert c == CopyAll(used[1..], files, dest');
        if c.missing.None? {
          if used[0] in used[1..] {
            var m :| 0 <= m < |used[1..]| && used[1..][m] == used[0];
            assert CopiedInto(used[1..][m], files, c.dest);
          } else {
            CopyKeeps(used[1..], files, dest', used[0]);
          }
          assert CopiedInto(used[0], files, c.dest);
          forall k | 1 <= k < |used| ensures CopiedInto(used[k], files, c.dest) {
            assert used[k] == used[1..][k - 1];
          }
        } else {
          assert !(SourceFile(c.missing.value).Some? && SourceFile(c.missing.value).value in files);
          assert c.missing.value in used;
        }
        forall k | 1 <= k < |used| ensures used[k] == used[1..][k - 1] { }
      }
    }
  }

  /** A name the rest of the list does not mention keeps its entry. */
  lemma {:induction false} CopyKeeps(used: seq<string>, files: map<FileName, string>, dest: map<string, string>, f: string)
    requires f !in used && f in dest
    ensures f in CopyAll(used, files, dest).dest && CopyAll(used, files, dest).dest[f] == dest[f]
    decreases |used|
  {
    if used != [] {
      var src := SourceFile(used[0]);
      if src.Some? && src.value in files {
        CopyKeeps(used[1..], files, dest[used[0] := files[src.value]], f);
      }
    }
  }

  // ---------------------------------------------------------------------------
  // The run

  /** No block header in the book, the bibliography chapter included, reads a missing field. */
  predicate BookComplete(p: Project, book: seq<BookItem>) {
    p.config.Some? && Bibliography(p, p.config.value).Ready? ==> AllComplete(book + Bibliography(p, p.config.value).extra)
  }

  /** `Scientific::run` as a function of the book, the fragment directory and the asset directory. */
  function RunBook(p: Project, book: seq<BookItem>, d: Disk, dest: map<string, string>): RunOutcome
    requires BookComplete(p, book)
  {
    if p.config.None? then RunOutcome(Failed(KeySectionNotFound), map[], [], d, dest)
    else
      match Bibliography(p, p.config.value)
      case Stopped(e) => RunOutcome(Failed(e), map[], [], d, dest)
      case Ready(refs, extra) =>
        var s := Passes(StageRewrite(BlockStage, p), StageRewrite(InlineStage, p), book + extra, refs, d);
        if s.error.Some? then RunOutcome(Failed(s.error.value), s.refs, s.used, s.disk, dest)
        else
          var c := CopyAll(s.used, s.disk.files, dest);
          if c.missing.Some? then RunOutcome(Failed(CopyFailed(c.missing.value)), s.refs, s.used, s.disk, c.dest)
          else RunOutcome(Done(s.items), s.refs, s.used, s.disk, c.dest)
  }

  /** Lines 31 and 130-132: without the preprocessor's section the run fails and touches nothing. */
  lemma RunWithoutSection(p: Project, book: seq<BookItem>, d: Disk, dest: map<string, string>)
    requires p.config.None?
    ensures var r := RunBook(p, book, d, dest);
      r.result == Failed(KeySectionNotFound) && r.disk == d && r.dest == dest
  {
  }

  /** Lines 56-58: a configured bibliography that does not exist fails the run before any chapter is rendered. */
  lemma RunWithoutBibliography(p: Project, book: seq<BookItem>, d: Disk, dest: map<string, string>)
    requires p.config.Some? && p.config.value.bibliography.Some? && p.config.value.bib2xhtml.Some?
    requires p.config.value.bibliography.value !in p.bibFiles
    ensures var r := RunBook(p, book, d, dest);
      r.result == Failed(BibliographyNotFound(p.config.value.bibliography.value)) && r.disk == d && r.dest == dest
  {
  }

  /**
   * Whatever the outcome, the run only adds files and program runs to the
   * fragment directory, its used list holds fragment names only, and the
   * asset directory is only written by the copy.
   */
  lemma RunGrows(p: Project, book: seq<BookItem>, d: Disk, dest: map<string, string>)
    requires BookComplete(p, book)
    ensures var r := RunBook(p, book, d, dest);
      && Extends(d, r.disk) && UsedGrows([], r.used)
      && (r.result.Failed? && !r.result.error.CopyFailed? ==> r.dest == dest)
  {
    if p.config.Some? && Bibliography(p, p.config.value).Ready? {
      var pre := Bibliography(p, p.config.value);
      BlockRewriteAdds(p);
      InlineRewriteAdds(p);
      PassesFacts(StageRewrite(BlockStage, p), StageRewrite(InlineStage, p), book + pre.extra, pre.refs, d);
    } else {
      assert Extends(d, d);
    }
  }

  /**
   * A successful run returns the book with only chapter contents rewritten,
   * the bibliography chapter appended; every used fragment has been copied,
   * with its content, into the asset directory, which gained nothing else;
   * and every citation key of the bibliography is still in the map.
   */
  lemma RunDone(p: Project, book: seq<BookItem>, d: Disk, dest: map<string, string>)
    requires BookComplete(p, book)
    requires RunBook(p, book, d, dest).result.Done?
    ensures p.config.Some? && Bibliography(p, p.config.value).Ready?
    ensures var r := RunBook(p, book, d, dest);
      var pre := Bibliography(p, p.config.value);
      && Reshaped(book + pre.extra, r.result.book)
      && pre.refs.Keys <= r.refs.Keys
      && (forall k :: 0 <= k < |r.used| ==> CopiedInto(r.used[k], r.disk.files, r.dest))
      && (forall f :: f in r.dest ==> f in dest || f in r.used)
  {
    var pre := Bibliography(p, p.config.value);
    BlockRewriteAdds(p);
    InlineRewriteAdds(p);
    PassesFacts(StageRewrite(BlockStage, p), StageRewrite(InlineStage, p), book + pre.extra, pre.refs, d);
    var s := Passes(StageRewrite(BlockStage, p), StageRewrite(InlineStage, p), book + pre.extra, pre.refs, d);
    CopyAllPlaces(s.used, s.disk.files, dest);
  }

  /**
   * Lines 84-86, 93, 100-102 and 109: a chapter's error stops the run, and the
   * error names the pass and the head number of a chapter of the book.
   */
  lemma RunPassFailed(p: Project, book: seq<BookItem>, d: Disk, dest: map<string, string>)
    requires BookComplete(p, book)
    requires var r := RunBook(p, book, d, dest);
      r.result.Failed? && (r.result.error.BlockPassFailed? || r.result.error.InlinePassFailed?)
    ensures p.config.Some? && Bibliography(p, p.config.value).Ready?
    ensures FailedAt(book + Bibliography(p, p.config.value).extra, RunBook(p, book, d, dest).result.error)
  {
    var pre := Bibliography(p, p.config.value);
    BlockRewriteAdds(p);
    InlineRewriteAdds(p);
    PassesFacts(StageRewrite(BlockStage, p), StageRewrite(InlineStage, p), book + pre.extra, pre.refs, d);
  }

  /** Lines 52-76: the bibliography's keys registered in file order, and its chapter. */
  method Prepare(p: Project, c: Config) returns (pre: Prelude)
    ensures pre == Bibliography(p, c)
  {
    if c.bibliography.None? || c.bib2xhtml.None? {
      return Ready(map[], []);
    }
    var path := c.bibliography.value;
    if path !in p.bibFiles {
      return Stopped(BibliographyNotFound(path));
    }
    var keys := p.bibFiles[path];
    var refs := map[];
    var i := 0;
    while i < |keys|
      invariant 0 <= i <= |keys|
      invariant SeedCitations(refs, keys[i..], i) == SeedCitations(map[], keys, 0)
    {
      assert keys[i..][0] == keys[i] && keys[i..][1..] == keys[i + 1..];
      refs := refs[keys[i] := Marker(i + 1)];
      i := i + 1;
    }
    assert keys[i..] == [];
    var html := BibToHtml(p.bib2xhtml(path, c.bib2xhtml.value));
    if html.Err? {
      return Stopped(BibliographyFailed(html.error));
    }
    pre := Ready(refs, [BibChapter(html.value)]);
  }

  /** Lines 125-127: copy the used fragments into the asset directory, one by one. */
  method CopyFragments(used: seq<string>, files: map<FileName, string>, dest0: map<string, string>) returns (c: Copied)
    ensures c == CopyAll(used, files, dest0)
  {
    var dest := dest0;
    var k := 0;
    while k < |used|
      invariant 0 <= k <= |used|
      invariant CopyAll(used[k..], files, dest) == CopyAll(used, files, dest0)
    {
      assert used[k..][0] == used[k] && used[k..][1..] == used[k + 1..];
      var src := SourceFile(used[k]);
      if src.None? || src.value !in files {
        return Copied(dest, Some(used[k]));
      }
      dest := dest[used[k] := files[src.value]];
      k := k + 1;
    }
    assert used[k..] == [];
    c := Copied(dest, None);
  }

  /** Lines 30-133: `Scientific::run` on the fragment directory and the asset directory. */
  method Run(dir: FragmentDir, p: Project, book: seq<BookItem>, dest0: map<string, string>)
    returns (result: RunResult, refs: map<string, string>, used: seq<string>, dest: map<string, string>)
    requires BookComplete(p, book)
    modifies dir
    ensures RunOutcome(result, refs, used, dir.State(), dest) == RunBook(p, book, old(dir.State()), dest0)
  {
    refs, used, dest := map[], [], dest0;
    if p.config.None? {
      return Failed(KeySectionNotFound), refs, used, dest;
    }
    var pre := Prepare(p, p.config.value);
    if pre.Stopped? {
      return Failed(pre.error), refs, used, dest;
    }
    var items, error;
    items, refs, used, error := BlockPass(dir, p, book + pre.extra, pre.refs, []);
    if error.Some? {
      return Failed(error.value), refs, used, dest;
    }
    items, refs, used, error := InlinePass(dir, p, items, refs, used);
    if error.Some? {
      return Failed(error.value), refs, used, dest;
    }
    var c := CopyFragments(used, dir.files, dest0);
    dest := c.dest;
    if c.missing.Some? {
      return Failed(CopyFailed(c.missing.value)), refs, used, dest;
    }
    result := Done(items);
  }
}
