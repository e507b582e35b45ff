/**
 * What `gh gist view` promises about its output, proved of the model in
 * module GistView.
 */
module GistViewProperties {
  import opened Results
  import opened GoStrings
  import opened StringSort
  import opened GistView

  // ---------------------------------------------------------------------------
  // Render dispatch

  /** A markdown file outside raw mode is exactly the renderer's output, or its error with nothing written. */
  lemma MarkdownRenderIsVerbatim(f: GistFile, raw: bool, markdown: string -> Result<string, string>)
    requires UsesMarkdown(f.fileType, raw)
    ensures var r := Render(f, raw, markdown);
            && (r.Success? <==> markdown(f.content).Success?)
            && (r.Success? ==> r.value == [markdown(f.content).value])
            && (r.Failure? ==> r.error == RenderError(markdown(f.content).error))
  {
  }

  /**
   * Any other file is written as its content with at most one character
   * added, and the text always ends in a newline.
   */
  lemma RawRenderNormalizesNewline(f: GistFile, raw: bool, markdown: string -> Result<string, string>)
    requires !UsesMarkdown(f.fileType, raw)
    ensures Render(f, raw, markdown).Success?
    ensures var text := Concat(Render(f, raw, markdown).value);
            HasPrefix(text, f.content) && HasSuffix(text, "\n") && |text| <= |f.content| + 1
  {
    if HasSuffix(f.content, "\n") {
      assert Concat([f.content]) == f.content + Concat([]);
    } else {
      assert Concat([f.content, "\n"]) == f.content + Concat(["\n"]);
    }
  }

  /** Raw output is the content when it already ends in a newline, else the content and one newline. */
  lemma RawRenderText(f: GistFile, raw: bool, markdown: string -> Result<string, string>)
    requires !UsesMarkdown(f.fileType, raw)
    ensures Concat(Render(f, raw, markdown).value) ==
            if HasSuffix(f.content, "\n") then f.content else f.content + "\n"
  {
    RawRenderNormalizesNewline(f, raw, markdown);
    var text := Concat(Render(f, raw, markdown).value);
    assert text[..|f.content|] == f.content;
    if !HasSuffix(f.content, "\n") {
      assert |text| == |f.content| + 1;
      assert text == text[..|f.content|] + text[|f.content|..];
    }
  }

  /** Rendering a file raw, then rendering that text raw again, changes nothing. */
  lemma RawRenderIdempotent(f: GistFile, raw: bool, markdown: string -> Result<string, string>)
    requires !UsesMarkdown(f.fileType, raw)
    ensures var text := Concat(Render(f, raw, markdown).value);
            Concat(Render(GistFile(f.fileType, text), raw, markdown).value) == text
  {
    RawRenderNormalizesNewline(f, raw, markdown);
    var text := Concat(Render(f, raw, markdown).value);
    assert Render(GistFile(f.fileType, text), raw, markdown) == Success([text]);
    assert Concat([text]) == text + Concat([]);
  }

  /** With stdout redirected, no file ever goes through the markdown renderer. */
  lemma PipedOutputIsRaw(args: seq<string>, raw: bool, web: bool, listFiles: bool, filename: string,
                         f: GistFile, markdown: string -> Result<string, string>)
    requires |args| <= 1
    ensures var o := CommandOptions(args, raw, web, listFiles, filename, false);
            !UsesMarkdown(f.fileType, o.raw) && Render(f, o.raw, markdown).Success?
  {
  }

  /** In raw mode, or with the same renderer, a file renders the same. */
  lemma RenderUsesOnlyRenderer(f: GistFile, raw: bool, markdown: string -> Result<string, string>,
                               markdown': string -> Result<string, string>)
    requires raw || markdown == markdown'
    ensures Render(f, raw, markdown) == Render(f, raw, markdown')
  {
  }

  /** The body only consults the gray styler and, outside raw mode, the markdown renderer. */
  lemma {:induction false} BodyUsesOnlyStyling(files: map<string, GistFile>, names: seq<string>, show: bool,
                                               raw: bool, env: Env, env': Env, n: nat)
    requires n <= |names| && AllKeys(names, files)
    requires env.gray == env'.gray && (raw || env.markdown == env'.markdown)
    ensures Body(files, names, show, raw, env, n) == Body(files, names, show, raw, env', n)
  {
    if n > 0 {
      BodyUsesOnlyStyling(files, names, show, raw, env, env', n - 1);
      var name := names[n - 1];
      assert FileHeader(name, show, env) == FileHeader(name, show, env');
      RenderUsesOnlyRenderer(files[name], raw, env.markdown, env'.markdown);
    }
  }

  /**
   * Once the gist is fetched, output only depends on the stylers and, outside
   * raw mode, on the markdown renderer.
   */
  lemma ShowUsesOnlyStyling(g: Gist, opts: ViewOptions, env: Env, env': Env)
    requires env.gray == env'.gray && env.bold == env'.bold
    requires opts.raw || env.markdown == env'.markdown
    ensures Show(g, opts, env) == Show(g, opts, env')
  {
    if opts.filename == "" {
      ShowAllUsesOnlyStyling(g, opts.listFiles, opts.raw, env, env');
    } else {
      ShowFileUsesOnlyStyling(g, opts.filename, opts.raw, env, env');
    }
  }

  /** Without `--filename`, only the bold and gray stylers and (outside raw mode) the renderer matter. */
  lemma ShowAllUsesOnlyStyling(g: Gist, listFiles: bool, raw: bool, env: Env, env': Env)
    requires env.gray == env'.gray && env.bold == env'.bold
    requires raw || env.markdown == env'.markdown
    ensures ShowAll(g, listFiles, raw, env) == ShowAll(g, listFiles, raw, env')
  {
    assert DescriptionHeader(g, listFiles, env) == DescriptionHeader(g, listFiles, env');
    if !listFiles {
      var names := SortedNames(g.files);
      BodyUsesOnlyStyling(g.files, names, |g.files| > 1, raw, env, env', |names|);
    }
  }

  /** With `--filename`, no styler matters, and outside raw mode only the renderer does. */
  lemma ShowFileUsesOnlyStyling(g: Gist, filename: string, raw: bool, env: Env, env': Env)
    requires raw || env.markdown == env'.markdown
    ensures ShowFile(g, filename, raw, env) == ShowFile(g, filename, raw, env')
  {
    if filename in g.files {
      RenderUsesOnlyRenderer(g.files[filename], raw, env.markdown, env'.markdown);
    }
  }

  /** In raw mode the gist's output does not depend on the markdown renderer at all. */
  lemma RawShowIgnoresRenderer(g: Gist, opts: ViewOptions, env: Env, markdown: string -> Result<string, string>)
    requires opts.raw
    ensures Show(g, opts, env) == Show(g, opts, env.(markdown := markdown))
  {
    ShowUsesOnlyStyling(g, opts, env, env.(markdown := markdown));
  }

  // ---------------------------------------------------------------------------
  // Single-file branch

  /** `--filename` naming a missing file writes nothing and names the file in the error. */
  lemma MissingFileIsNamed(g: Gist, opts: ViewOptions, env: Env)
    requires opts.filename != "" && opts.filename !in g.files
    ensures Show(g, opts, env) == Emit([], Some(NoSuchFile(opts.filename)))
  {
  }

  /** `--filename` naming a present file writes exactly that file's render: no description, no name header. */
  lemma SingleFileIsJustItsRender(g: Gist, opts: ViewOptions, env: Env)
    requires opts.filename != "" && opts.filename in g.files
    ensures var r := Render(g.files[opts.filename], opts.raw, env.markdown);
            Show(g, opts, env) == if r.Success? then Emit(r.value, None) else Emit([], Some(r.error))
  {
  }

  // ---------------------------------------------------------------------------
  // Header, listing and body

  /**
   * Without `--filename`, output opens with the description line exactly when
   * the description is non-empty and only names are not being listed.
   */
  lemma DescriptionComesFirst(g: Gist, opts: ViewOptions, env: Env)
    requires opts.filename == ""
    ensures var header := DescriptionHeader(g, opts.listFiles, env);
            && (|header| == 1 <==> g.description != "" && !opts.listFiles)
            && (|header| == 1 ==> header[0] == env.bold(g.description) + "\n\n")
            && (|header| != 1 ==> header == [])
            && Show(g, opts, env).out[..|header|] == header
  {
  }

  /** `--files`: exactly the sorted file names, one per line, and nothing else. */
  lemma FilesOnlyListsSortedNames(g: Gist, opts: ViewOptions, env: Env)
    requires opts.filename == "" && opts.listFiles
    ensures var names := SortedNames(g.files);
            && Show(g, opts, env).err == None
            && |Show(g, opts, env).out| == |g.files|
            && (forall i :: 0 <= i < |names| ==> Show(g, opts, env).out[i] == names[i] + "\n")
            && Sorted(names) && multiset(names) == multiset(g.files.Keys)
  {
  }

  /** `parts` with `sep` between consecutive parts and nothing after the last. */
  function Join(parts: seq<seq<string>>, sep: seq<string>): seq<string> {
    if |parts| == 0 then []
    else if |parts| == 1 then parts[0]
    else parts[0] + sep + Join(parts[1..], sep)
  }

  /** Joining one more part adds one separator and that part at the end. */
  lemma {:induction false} JoinSnoc(parts: seq<seq<string>>, part: seq<string>, sep: seq<string>)
    requires |parts| > 0
    ensures Join(parts + [part], sep) == Join(parts, sep) + sep + part
  {
    if |parts| > 1 {
      assert (parts + [part])[1..] == parts[1..] + [part];
      JoinSnoc(parts[1..], part, sep);
    }
  }

  /** The number of writes in all parts together. */
  function TotalLength(parts: seq<seq<string>>): nat {
    if parts == [] then 0 else |parts[0]| + TotalLength(parts[1..])
  }

  /** Joining `n` parts adds exactly `n - 1` separators. */
  lemma {:induction false} JoinLength(parts: seq<seq<string>>, sep: seq<string>)
    requires |parts| > 0
    ensures |Join(parts, sep)| == TotalLength(parts) + (|parts| - 1) * |sep|
  {
    if |parts| > 1 {
      JoinLength(parts[1..], sep);
    }
  }

  /** The separator writes of the first `n` of `count` files. */
  function SeparatorWrites(n: nat, count: nat): nat {
    if n == 0 then 0 else SeparatorWrites(n - 1, count) + |Separator(n - 1, count)|
  }

  /** For `count` files the loop writes `count - 1` separators: one between each pair, none after the last. */
  lemma {:induction false} SeparatorCount(n: nat, count: nat)
    requires n <= count
    ensures SeparatorWrites(n, count) == if n == count && n > 0 then n - 1 else n
  {
    if n > 0 {
      SeparatorCount(n - 1, count);
    }
  }

  /** Every file's render succeeds. */
  predicate RendersCleanly(files: map<string, GistFile>, names: seq<string>, raw: bool, env: Env)
    requires AllKeys(names, files)
  {
    forall i :: 0 <= i < |names| ==> Render(files[names[i]], raw, env.markdown).Success?
  }

  /** One file's part of the body: its header (if shown) and its render. */
  function Block(file: GistFile, name: string, show: bool, raw: bool, env: Env): seq<string>
    requires Render(file, raw, env.markdown).Success?
  {
    FileHeader(name, show, env) + Render(file, raw, env.markdown).value
  }

  /** The blocks of the named files, in order. */
  function Blocks(files: map<string, GistFile>, names: seq<string>, show: bool, raw: bool, env: Env): seq<seq<string>>
    requires AllKeys(names, files) && RendersCleanly(files, names, raw, env)
  {
    seq(|names|, i requires 0 <= i < |names| => Block(files[names[i]], names[i], show, raw, env))
  }

  /** One iteration of the body loop on a file that renders. */
  lemma BodyStep(files: map<string, GistFile>, names: seq<string>, show: bool, raw: bool, env: Env, n: nat)
    requires 0 < n <= |names| && AllKeys(names, files)
    requires Body(files, names, show, raw, env, n - 1).err.None?
    requires Render(files[names[n - 1]], raw, env.markdown).Success?
    ensures Body(files, names, show, raw, env, n) ==
            Emit(Body(files, names, show, raw, env, n - 1).out + Block(files[names[n - 1]], names[n - 1], show, raw, env)
                 + Separator(n - 1, |names|), None)
  {
    var before := Body(files, names, show, raw, env, n - 1);
    var rendered := Render(files[names[n - 1]], raw, env.markdown);
    assert Body(files, names, show, raw, env, n) ==
           BodyIteration(before, FileHeader(names[n - 1], show, env), rendered, Separator(n - 1, |names|));
    assert before.out + FileHeader(names[n - 1], show, env) + rendered.value ==
           before.out + Block(files[names[n - 1]], names[n - 1], show, raw, env);
  }

  /** After `n` clean iterations the body is the first `n` blocks joined, then the `n`-th separator. */
  lemma {:induction false} BodyPrefixIsJoin(files: map<string, GistFile>, names: seq<string>, show: bool, raw: bool,
                                            env: Env, n: nat)
    requires 0 < n <= |names| && AllKeys(names, files) && RendersCleanly(files, names, raw, env)
    ensures Body(files, names, show, raw, env, n) ==
            Emit(Join(Blocks(files, names, show, raw, env)[..n], ["\n"]) + Separator(n - 1, |names|), None)
  {
    if n == 1 {
      BodyFirstBlock(files, names, show, raw, env);
    } else {
      var blocks := Blocks(files, names, show, raw, env);
      BodyPrefixIsJoin(files, names, show, raw, env, n - 1);
      assert blocks[..n] == blocks[..n - 1] + [blocks[n - 1]];
      JoinSnoc(blocks[..n - 1], blocks[n - 1], ["\n"]);
      BodyStep(files, names, show, raw, env, n);
    }
  }

  /** The first iteration writes the first block and its separator. */
  lemma BodyFirstBlock(files: map<string, GistFile>, names: seq<string>, show: bool, raw: bool, env: Env)
    requires 0 < |names| && AllKeys(names, files) && RendersCleanly(files, names, raw, env)
    ensures Body(files, names, show, raw, env, 1) ==
            Emit(Join(Blocks(files, names, show, raw, env)[..1], ["\n"]) + Separator(0, |names|), None)
  {
    var blocks := Blocks(files, names, show, raw, env);
    assert blocks[..1] == [blocks[0]];
    BodyStep(files, names, show, raw, env, 1);
  }

  /**
   * The body is the files' blocks joined by single blank lines: `n - 1`
   * separators for `n` files and none after the last.
   */
  lemma BodyIsJoin(files: map<string, GistFile>, names: seq<string>, show: bool, raw: bool, env: Env)
    requires AllKeys(names, files) && RendersCleanly(files, names, raw, env)
    ensures Body(files, names, show, raw, env, |names|) == Emit(Join(Blocks(files, names, show, raw, env), ["\n"]), None)
  {
    var blocks := Blocks(files, names, show, raw, env);
    if |names| > 0 {
      BodyPrefixIsJoin(files, names, show, raw, env, |names|);
      assert blocks[..|names|] == blocks;
    }
  }

  /**
   * With every render succeeding, the body of `n` files is their blocks plus
   * exactly `n - 1` separator writes.
   */
  lemma BodyWriteCount(files: map<string, GistFile>, names: seq<string>, show: bool, raw: bool, env: Env)
    requires AllKeys(names, files) && RendersCleanly(files, names, raw, env) && |names| > 0
    ensures |Body(files, names, show, raw, env, |names|).out| ==
            TotalLength(Blocks(files, names, show, raw, env)) + (|names| - 1)
  {
    BodyIsJoin(files, names, show, raw, env);
    JoinLength(Blocks(files, names, show, raw, env), ["\n"]);
  }

  /**
   * Without `--filename` or `--files` and with every render succeeding, the
   * output is the description line followed by the sorted files' blocks
   * joined by blank lines, each block headed by its file name iff the gist
   * has more than one file.
   */
  lemma FullOutput(g: Gist, opts: ViewOptions, env: Env)
    requires opts.filename == "" && !opts.listFiles
    requires RendersCleanly(g.files, SortedNames(g.files), opts.raw, env)
    ensures var names := SortedNames(g.files);
            Show(g, opts, env) ==
            Emit(DescriptionHeader(g, false, env) +
                 Join(Blocks(g.files, names, |g.files| > 1, opts.raw, env), ["\n"]), None)
  {
    BodyIsJoin(g.files, SortedNames(g.files), |g.files| > 1, opts.raw, env);
  }

  /** A render error stops the body: it is the first failing file's error and every earlier file rendered. */
  lemma {:induction false} BodyErrorIsFirstFailure(files: map<string, GistFile>, names: seq<string>, show: bool,
                                                   raw: bool, env: Env, n: nat)
    requires n <= |names| && AllKeys(names, files)
    requires Body(files, names, show, raw, env, n).err.Some?
    ensures exists k :: 0 <= k < n &&
              Render(files[names[k]], raw, env.markdown) == Failure(Body(files, names, show, raw, env, n).err.value) &&
              forall j :: 0 <= j < k ==> Render(files[names[j]], raw, env.markdown).Success?
  {
    var before := Body(files, names, show, raw, env, n - 1);
    if before.err.Some? {
      BodyErrorIsFirstFailure(files, names, show, raw, env, n - 1);
    } else {
      BodyCleanPrefix(files, names, show, raw, env, n - 1);
      var rendered := Render(files[names[n - 1]], raw, env.markdown);
      assert Body(files, names, show, raw, env, n) ==
             BodyIteration(before, FileHeader(names[n - 1], show, env), rendered, Separator(n - 1, |names|));
      assert rendered == Failure(Body(files, names, show, raw, env, n).err.value);
    }
  }

  /** While the body has no error, every file it has reached rendered. */
  lemma {:induction false} BodyCleanPrefix(files: map<string, GistFile>, names: seq<string>, show: bool,
                                           raw: bool, env: Env, n: nat)
    requires n <= |names| && AllKeys(names, files)
    requires Body(files, names, show, raw, env, n).err.None?
    ensures forall j :: 0 <= j < n ==> Render(files[names[j]], raw, env.markdown).Success?
  {
    if n > 0 {
      var before := Body(files, names, show, raw, env, n - 1);
      assert before.err.None?;
      BodyCleanPrefix(files, names, show, raw, env, n - 1);
    }
  }

  // ---------------------------------------------------------------------------
  // Choosing the gist

  /**
   * `--web` opens the selector itself when it has a slash and the gist host
   * prefix plus it otherwise; it writes nothing, fetches nothing and renders
   * nothing.
   */
  lemma WebModeOnlyOpensBrowser(opts: ViewOptions, env: Env, getGist: string -> Result<Gist, string>,
                                markdown: string -> Result<string, string>,
                                gistIdFromUrl: string -> Result<string, string>)
    requires ChoiceInRange(env) && opts.web
    ensures var o := View(opts, env);
            && o.out == [] && o.fetched == None
            && (o.browsed.Some? <==> env.httpClient.None? && Selected(opts, env).Success?)
            && (o.browsed.Some? && Contains(Selected(opts, env).value, "/") ==> o.browsed.value == Selected(opts, env).value)
            && (o.browsed.Some? && !Contains(Selected(opts, env).value, "/") ==>
                  o.browsed.value == env.gistPrefix + Selected(opts, env).value)
            && o == View(opts, env.(getGist := getGist, markdown := markdown, gistIdFromUrl := gistIdFromUrl))
  {
  }

  /** A selector without a slash is fetched as the ID itself; URL extraction is not consulted. */
  lemma BareIdFetchedAsIs(opts: ViewOptions, env: Env, gistIdFromUrl: string -> Result<string, string>)
    requires ChoiceInRange(env) && !opts.web && env.httpClient.None?
    requires Selected(opts, env).Success? && !Contains(Selected(opts, env).value, "/")
    ensures View(opts, env).fetched == Some(Selected(opts, env).value)
    ensures View(opts, env) == View(opts, env.(gistIdFromUrl := gistIdFromUrl))
  {
    var env' := env.(gistIdFromUrl := gistIdFromUrl);
    assert Selected(opts, env') == Selected(opts, env);
    var id := Selected(opts, env).value;
    if env.getGist(id).Success? {
      ShowUsesOnlyStyling(env.getGist(id).value, opts, env, env');
    }
  }

  /** A URL-shaped selector is fetched by the ID extracted from it, or fails before any fetch. */
  lemma UrlFetchedByExtractedId(opts: ViewOptions, env: Env)
    requires ChoiceInRange(env) && !opts.web && env.httpClient.None?
    requires Selected(opts, env).Success? && Contains(Selected(opts, env).value, "/")
    ensures var extracted := env.gistIdFromUrl(Selected(opts, env).value);
            && (extracted.Success? ==> View(opts, env).fetched == Some(extracted.value))
            && (extracted.Failure? ==> View(opts, env) == Failed(InvalidUrl(extracted.error)))
  {
  }

  /** Without a selector the gist is the one at the chosen index of the listing. */
  lemma PromptPicksChosenGist(opts: ViewOptions, env: Env)
    requires ChoiceInRange(env) && opts.selector == ""
    requires env.listGists.Success? && env.choice.Success?
    ensures Selected(opts, env) == Success(env.listGists.value[env.choice.value].id)
  {
  }

  /** Every listed gist has a label text: the description, a non-placeholder file name, or nothing. */
  lemma LabelAlwaysExists(g: Gist)
    ensures exists text :: LabelText(g, text)
  {
    if g.description != "" {
      assert LabelText(g, g.description);
    } else if exists name :: name in g.files && !HasPrefix(name, PlaceholderPrefix) {
      var name :| name in g.files && !HasPrefix(name, PlaceholderPrefix);
      assert LabelText(g, name);
    } else {
      assert LabelText(g, "");
    }
  }

  /** A gist without description whose files all have placeholder names is labelled by its age alone. */
  lemma PlaceholderOnlyLabelIsEmpty(g: Gist, text: string)
    requires g.description == ""
    requires forall name :: name in g.files ==> HasPrefix(name, PlaceholderPrefix)
    ensures LabelText(g, text) <==> text == ""
  {
    if text in g.files {
      assert HasPrefix(text, PlaceholderPrefix);
    }
  }

  /** A non-empty description is the label text, whatever the files are called. */
  lemma DescriptionIsLabel(g: Gist, text: string)
    requires g.description != ""
    ensures LabelText(g, text) <==> text == g.description
  {
  }

  /** An empty listing never reaches a gist: the prompt has nothing to offer. */
  lemma EmptyListingFails(opts: ViewOptions, env: Env)
    requires ChoiceInRange(env) && opts.selector == "" && env.httpClient.None?
    requires env.listGists == Success([])
    ensures View(opts, env).err.Some? && View(opts, env).fetched == None && View(opts, env).browsed == None
  {
  }

  // ---------------------------------------------------------------------------
  // Worked examples

  /** A string shorter than the marker cannot contain it. */
  lemma {:induction false} ShorterNeverContains(s: string, substr: string)
    requires |s| < |substr|
    ensures !Contains(s, substr)
    decreases |s|
  {
    if |s| > 0 {
      ShorterNeverContains(s[1..], substr);
    }
  }

  /** The files of the two-file gist in the examples below. */
  predicate IsDemo(g: Gist) {
    g.description == "Demo" &&
    g.files == map["b.txt" := GistFile("text", "bye"), "a.md" := GistFile("markdown", "# Hi")]
  }

  /** The sorted names of the demo gist. */
  lemma DemoNames(g: Gist)
    requires IsDemo(g)
    ensures SortedNames(g.files) == ["a.md", "b.txt"]
    ensures |g.files| == 2
  {
    assert g.files.Keys == {"a.md", "b.txt"};
    assert multiset(["a.md", "b.txt"]) == multiset(g.files.Keys);
    assert LessEq("a.md", "b.txt");
    SortedNamesUnique(g.files, ["a.md", "b.txt"]);
  }

  /** `--files` on a gist with `b.txt` and `a.md` prints `a.md` then `b.txt`, and no description. */
  lemma FilesOnlyExample(g: Gist, opts: ViewOptions, env: Env)
    requires IsDemo(g) && opts.filename == "" && opts.listFiles
    ensures Show(g, opts, env) == Emit(["a.md\n", "b.txt\n"], None)
  {
    DemoNames(g);
    var listing := Listing(["a.md", "b.txt"]);
    assert |listing| == 2 && listing[0] == "a.md\n" && listing[1] == "b.txt\n";
    assert listing == ["a.md\n", "b.txt\n"];
    assert DescriptionHeader(g, true, env) == [];
    assert ShowAll(g, true, opts.raw, env) == Emit([] + listing, None);
  }

  /** Outside raw mode `a.md` goes through the renderer and `b.txt` gains its final newline. */
  lemma DemoRenders(g: Gist, markdown: string -> Result<string, string>)
    requires IsDemo(g) && markdown("# Hi").Success?
    ensures Render(g.files["a.md"], false, markdown) == Success([markdown("# Hi").value])
    ensures Render(g.files["b.txt"], false, markdown) == Success(["bye", "\n"])
  {
    assert Contains("markdown", "markdown");
    ShorterNeverContains("text", "markdown");
    assert !HasSuffix("bye", "\n");
  }

  /**
   * The full view of the same gist: bold description, then `a.md` rendered as
   * markdown under its gray name, a blank line, and `b.txt` raw under its name.
   */
  lemma FullViewExample(g: Gist, opts: ViewOptions, env: Env)
    requires IsDemo(g) && opts.filename == "" && !opts.listFiles && !opts.raw
    requires env.markdown("# Hi").Success?
    ensures Show(g, opts, env).out ==
            [env.bold("Demo") + "\n\n",
             env.gray("a.md") + "\n\n", env.markdown("# Hi").value, "\n",
             env.gray("b.txt") + "\n\n", "bye", "\n"]
    ensures Show(g, opts, env).err == None
  {
    DemoBody(g, env);
    DemoShow(g, opts, env);
    PrependOne(env.bold("Demo") + "\n\n",
               [env.gray("a.md") + "\n\n", env.markdown("# Hi").value, "\n",
                env.gray("b.txt") + "\n\n", "bye", "\n"]);
  }

  /** Prepending one write to six. */
  lemma PrependOne<T>(x: T, s: seq<T>)
    requires |s| == 6
    ensures [x] + s == [x, s[0], s[1], s[2], s[3], s[4], s[5]]
  {
  }

  /** The demo gist's full view, as the description line and the joined blocks. */
  lemma DemoShow(g: Gist, opts: ViewOptions, env: Env)
    requires IsDemo(g) && opts.filename == "" && !opts.listFiles && !opts.raw
    requires RendersCleanly(g.files, ["a.md", "b.txt"], false, env)
    ensures Show(g, opts, env) ==
            Emit([env.bold("Demo") + "\n\n"] + Join(Blocks(g.files, ["a.md", "b.txt"], true, false, env), ["\n"]), None)
  {
    DemoNames(g);
    FullOutput(g, opts, env);
  }

  /** Both demo files render, and their blocks joined are the six body writes. */
  lemma DemoBody(g: Gist, env: Env)
    requires IsDemo(g) && env.markdown("# Hi").Success?
    ensures RendersCleanly(g.files, ["a.md", "b.txt"], false, env)
    ensures Join(Blocks(g.files, ["a.md", "b.txt"], true, false, env), ["\n"]) ==
            [env.gray("a.md") + "\n\n", env.markdown("# Hi").value, "\n",
             env.gray("b.txt") + "\n\n", "bye", "\n"]
  {
    var names := ["a.md", "b.txt"];
    DemoRenders(g, env.markdown);
    assert RendersCleanly(g.files, names, false, env);
    var blocks := Blocks(g.files, names, true, false, env);
    assert blocks[0] == [env.gray("a.md") + "\n\n", env.markdown("# Hi").value];
    assert blocks[1] == [env.gray("b.txt") + "\n\n", "bye", "\n"];
    assert Join(blocks, ["\n"]) == blocks[0] + ["\n"] + blocks[1];
  }
}
