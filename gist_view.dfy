/**
 * The `gh gist view` command: choosing the gist, the web short-cut, and the
 * assembly of what is written to standard output.
 *
 * Standard output is a sequence of writes, one string per `fmt.Fprint`,
 * `fmt.Fprintf` or `fmt.Fprintln` call. Everything the command asks of other
 * packages (the HTTP client, the gist API, the prompt, the markdown renderer,
 * the colour scheme, the browser) is a field of `Env`.
 */
module GistView {
  import opened Results
  import opened GoStrings
  import opened StringSort

  /** One file of a gist: its declared type and its text. */
  datatype GistFile = GistFile(fileType: string, content: string)

  /** A gist as the API returns it; `updatedAt` only feeds the prompt's age label. */
  datatype Gist = Gist(id: string, description: string, files: map<string, GistFile>, updatedAt: int)

  /** The command's options after flag and argument parsing. */
  datatype ViewOptions = ViewOptions(
    selector: string,
    filename: string,
    raw: bool,
    web: bool,
    listFiles: bool)

  /** The errors the command returns, tagged by where they come from. */
  datatype Error =
    | ClientError(message: string)      // opts.HttpClient()
    | ListError(message: string)        // list.ListGists
    | PromptAborted(message: string)    // survey.AskOne
    | InvalidUrl(message: string)       // shared.GistIDFromURL
    | FetchError(message: string)       // shared.GetGist
    | NoSuchFile(name: string)          // "gist has no such file: %q"
    | RenderError(message: string)      // markdown.Render
    | BrowserError(message: string)     // utils.OpenInBrowser

  /** What the collaborators answer in one run of the command. */
  datatype Env = Env(
    httpClient: Option<string>,                      // error from creating the HTTP client
    listGists: Result<seq<Gist>, string>,            // the 10 most recent gists, in API order
    choice: Result<nat, string>,                     // the index the user picks in the prompt
    fuzzyAgo: int -> string,                         // age of a timestamp, e.g. "about 1 hour ago"
    collapse: string -> string,                      // text.ReplaceExcessiveWhitespace
    gistPrefix: string,                              // ghinstance.GistPrefix of the default host
    openInBrowser: string -> Option<string>,         // error from opening a URL
    gistIdFromUrl: string -> Result<string, string>, // shared.GistIDFromURL
    getGist: string -> Result<Gist, string>,         // shared.GetGist by ID
    markdown: string -> Result<string, string>,      // markdown.Render with the terminal's style
    bold: string -> string,                          // ColorScheme().Bold
    gray: string -> string)                          // ColorScheme().Gray

  /** Writes made so far, and the error that stopped them if any. */
  datatype Emit = Emit(out: seq<string>, err: Option<Error>)

  /** Everything observable about one run. */
  datatype Outcome = Outcome(
    out: seq<string>,          // writes to standard output
    browsed: Option<string>,   // URL handed to the browser
    fetched: Option<string>,   // gist ID handed to shared.GetGist
    err: Option<Error>)        // error returned by viewRun

  const MarkdownMarker := "markdown"
  const PlaceholderPrefix := "gistfile"

  function Failed(e: Error): Outcome {
    Outcome([], None, None, Some(e))
  }

  // ---------------------------------------------------------------------------
  // Command construction

  /**
   * The options `RunE` hands to `viewRun`: the optional positional argument
   * becomes the selector, and raw mode is forced when stdout is not a terminal.
   * Cobra's `MaximumNArgs(1)` has already rejected longer argument lists.
   */
  function CommandOptions(args: seq<string>, raw: bool, web: bool, listFiles: bool,
                          filename: string, stdoutTTY: bool): (o: ViewOptions)
    requires |args| <= 1
    ensures o.raw <==> raw || !stdoutTTY
    ensures o.selector == if |args| == 1 then args[0] else ""
    ensures o.web == web && o.listFiles == listFiles && o.filename == filename
  {
    var selector := if |args| == 1 then args[0] else "";
    var forcedRaw := if !stdoutTTY then true else raw;
    ViewOptions(selector, filename, forcedRaw, web, listFiles)
  }

  // ---------------------------------------------------------------------------
  // The render closure

  /** A file goes through the markdown renderer iff its type mentions markdown and raw mode is off. */
  predicate UsesMarkdown(fileType: string, raw: bool) {
    Contains(fileType, MarkdownMarker) && !raw
  }

  /**
   * The writes `render` makes for one file: the renderer's output verbatim, or
   * the content followed by a newline when it does not already end in one.
   * A renderer failure writes nothing.
   */
  function Render(f: GistFile, raw: bool, markdown: string -> Result<string, string>): (r: Result<seq<string>, Error>)
    ensures r.Success? <==> !UsesMarkdown(f.fileType, raw) || markdown(f.content).Success?
    ensures r.Failure? ==> r.error.RenderError?
    ensures r.Success? ==> 1 <= |r.value| <= 2
  {
    if UsesMarkdown(f.fileType, raw) then
      match markdown(f.content)
      case Success(rendered) => Success([rendered])
      case Failure(e) => Failure(RenderError(e))
    else if HasSuffix(f.content, "\n") then Success([f.content])
    else Success([f.content, "\n"])
  }

  // ---------------------------------------------------------------------------
  // Choosing the gist

  /** The URL the web mode opens: the selector itself if it has a slash, else the gist host prefix plus it. */
  function WebUrl(selector: string, prefix: string): (url: string)
    ensures HasSuffix(url, selector)
    ensures url == selector <==> Contains(selector, "/") || prefix == ""
  {
    if Contains(selector, "/") then selector else prefix + selector
  }

  /** The gist ID to fetch: extracted from the selector when it is URL-shaped, else the selector. */
  function GistId(selector: string, env: Env): (r: Result<string, Error>)
    ensures !Contains(selector, "/") ==> r == Success(selector)
    ensures Contains(selector, "/") ==>
              (r.Success? <==> env.gistIdFromUrl(selector).Success?) &&
              (r.Success? ==> r.value == env.gistIdFromUrl(selector).value)
    ensures r.Failure? ==> r.error == InvalidUrl(env.gistIdFromUrl(selector).error)
  {
    if Contains(selector, "/") then
      match env.gistIdFromUrl(selector)
      case Success(id) => Success(id)
      case Failure(e) => Failure(InvalidUrl(e))
    else Success(selector)
  }

  /** The prompt library only answers with the index of an option that was offered. */
  predicate ChoiceInRange(env: Env) {
    env.listGists.Success? && env.choice.Success? ==> env.choice.value < |env.listGists.value|
  }

  /** The ID `promptGists` returns, or its error. */
  function PromptedId(env: Env): Result<string, Error>
    requires ChoiceInRange(env)
  {
    match env.listGists
    case Failure(e) => Failure(ListError(e))
    case Success(gists) =>
      match env.choice
      case Failure(e) => Failure(PromptAborted(e))
      case Success(index) => Success(gists[index].id)
  }

  /**
   * The text a prompt label is built from: the description, else a filename
   * that is not a placeholder `gistfileN` name, else nothing. Which of several
   * such filenames is taken depends on map order, so any of them is allowed.
   */
  ghost predicate LabelText(g: Gist, text: string) {
    if g.description != "" then text == g.description
    else (text in g.files && !HasPrefix(text, PlaceholderPrefix))
         || (text == "" && forall name :: name in g.files ==> HasPrefix(name, PlaceholderPrefix))
  }

  /** `"%s (%s)"` of the whitespace-collapsed text and the gist's age. */
  function PromptLabel(text: string, g: Gist, env: Env): (shown: string)
    ensures HasPrefix(shown, env.collapse(text))
    ensures HasSuffix(shown, " (" + env.fuzzyAgo(g.updatedAt) + ")")
    ensures |shown| == |env.collapse(text)| + |env.fuzzyAgo(g.updatedAt)| + 3
  {
    env.collapse(text) + " (" + env.fuzzyAgo(g.updatedAt) + ")"
  }

  ghost predicate IsLabel(g: Gist, shown: string, env: Env) {
    exists text :: LabelText(g, text) && shown == PromptLabel(text, g, env)
  }

  /**
   * `promptGists`: one label and one ID per listed gist, kept at the same
   * positions, and the ID at the index the user picks.
   */
  method PromptGists(env: Env) returns (labels: seq<string>, ids: seq<string>, r: Result<string, Error>)
    requires ChoiceInRange(env)
    ensures r == PromptedId(env)
    ensures env.listGists.Success? ==>
              |labels| == |env.listGists.value| && |ids| == |env.listGists.value| &&
              forall i :: 0 <= i < |ids| ==>
                ids[i] == env.listGists.value[i].id && IsLabel(env.listGists.value[i], labels[i], env)
    ensures env.listGists.Success? && r.Success? ==> r.value == ids[env.choice.value]
  {
    if env.listGists.Failure? {
      return [], [], Failure(ListError(env.listGists.error));
    }
    var gists := env.listGists.value;
    labels := [];
    var gistIDs := new string[|gists|];

    for i := 0 to |gists|
      invariant |labels| == i
      invariant forall j :: 0 <= j < i ==> gistIDs[j] == gists[j].id && IsLabel(gists[j], labels[j], env)
    {
      var gist := gists[i];
      gistIDs[i] := gist.id;
      var description := gist.description;
      if description == "" {
        var unseen := gist.files.Keys;
        while unseen != {}
          invariant unseen <= gist.files.Keys
          invariant forall name :: name in gist.files.Keys - unseen ==> HasPrefix(name, PlaceholderPrefix)
          invariant description == ""
          decreases unseen
        {
          var filename :| filename in unseen;
          if !HasPrefix(filename, PlaceholderPrefix) {
            description := filename;
            break;
          }
          unseen := unseen - {filename};
        }
      }
      assert LabelText(gist, description);
      labels := labels + [PromptLabel(description, gist, env)];
    }

    ids := gistIDs[..];
    match env.choice
    case Failure(e) => r := Failure(PromptAborted(e));
    case Success(index) => r := Success(ids[index]);
  }

  // ---------------------------------------------------------------------------
  // Output assembly

  /** Bold description and a blank line, unless there is no description or only names are listed. */
  function DescriptionHeader(g: Gist, listFiles: bool, env: Env): (h: seq<string>)
    ensures h != [] <==> g.description != "" && !listFiles
    ensures h == [] || h == [env.bold(g.description) + "\n\n"]
  {
    if g.description != "" && !listFiles then [env.bold(g.description) + "\n\n"] else []
  }

  /** Gray filename and a blank line, when file names are shown. */
  function FileHeader(name: string, show: bool, env: Env): (h: seq<string>)
    ensures h != [] <==> show
    ensures h == [] || h == [env.gray(name) + "\n\n"]
  {
    if show then [env.gray(name) + "\n\n"] else []
  }

  /** The newline written after the file at `index` unless it is the last of `count`. */
  function Separator(index: nat, count: nat): (sep: seq<string>)
    ensures sep != [] <==> index < count - 1
    ensures sep == [] || sep == ["\n"]
  {
    if index + 1 < count then ["\n"] else []
  }

  /** `fmt.Fprintln` of each name in turn. */
  function Listing(names: seq<string>): (lines: seq<string>)
    ensures |lines| == |names|
    ensures forall i :: 0 <= i < |names| ==>
              HasPrefix(lines[i], names[i]) && HasSuffix(lines[i], "\n") && |lines[i]| == |names[i]| + 1
  {
    seq(|names|, i requires 0 <= i < |names| => names[i] + "\n")
  }

  predicate AllKeys(names: seq<string>, files: map<string, GistFile>) {
    forall i :: 0 <= i < |names| ==> names[i] in files
  }

  /**
   * One iteration of the body loop after `before`: nothing once an error has
   * stopped the loop; otherwise the header, then the render and the
   * separator, or the header and the render's error.
   */
  function BodyIteration(before: Emit, header: seq<string>, rendered: Result<seq<string>, Error>,
                         separator: seq<string>): Emit {
    if before.err.Some? then before
    else
      match rendered
      case Failure(e) => Emit(before.out + header, Some(e))
      case Success(w) => Emit(before.out + header + w + separator, None)
  }

  /**
   * What the body loop has written after its first `n` iterations: for each
   * file its header, its render and a separator, stopping at the first render
   * error (whose file header has already been written).
   */
  function Body(files: map<string, GistFile>, names: seq<string>, show: bool, raw: bool, env: Env, n: nat): Emit
    requires n <= |names| && AllKeys(names, files)
  {
    if n == 0 then Emit([], None)
    else
      BodyIteration(Body(files, names, show, raw, env, n - 1),
                    FileHeader(names[n - 1], show, env),
                    Render(files[names[n - 1]], raw, env.markdown),
                    Separator(n - 1, |names|))
  }

  /** Once the loop has stopped on an error, later iterations add nothing. */
  lemma {:induction false} BodyStops(files: map<string, GistFile>, names: seq<string>, show: bool, raw: bool,
                                     env: Env, n: nat, m: nat)
    requires n <= m <= |names| && AllKeys(names, files)
    requires Body(files, names, show, raw, env, n).err.Some?
    ensures Body(files, names, show, raw, env, m) == Body(files, names, show, raw, env, n)
    decreases m
  {
    if m > n {
      BodyStops(files, names, show, raw, env, n, m - 1);
    }
  }

  /** The file names sorted ascending: a sorted permutation of the map's keys. */
  ghost function SortedNames(files: map<string, GistFile>): (names: seq<string>)
    ensures Sorted(names) && multiset(names) == multiset(files.Keys)
    ensures |names| == |files|
    ensures AllKeys(names, files)
  {
    var names := Sort(Enumerate(files.Keys));
    assert |names| == |multiset(names)| == |multiset(files.Keys)| == |files.Keys|;
    assert forall i :: 0 <= i < |names| ==> names[i] in multiset(names);
    names
  }

  /** Whatever order the keys were collected in, sorting them gives `SortedNames`. */
  lemma SortedNamesUnique(files: map<string, GistFile>, names: seq<string>)
    requires Sorted(names) && multiset(names) == multiset(files.Keys)
    ensures names == SortedNames(files)
  {
    SortedUnique(names, SortedNames(files));
  }

  /** What `viewRun` writes once the gist is fetched, and the error it then returns. */
  ghost function Show(g: Gist, opts: ViewOptions, env: Env): Emit {
    if opts.filename != "" then ShowFile(g, opts.filename, opts.raw, env)
    else ShowAll(g, opts.listFiles, opts.raw, env)
  }

  /** `--filename`: exactly that file's render, or an error naming the missing file. */
  function ShowFile(g: Gist, filename: string, raw: bool, env: Env): Emit {
    if filename !in g.files then Emit([], Some(NoSuchFile(filename)))
    else
      match Render(g.files[filename], raw, env.markdown)
      case Success(w) => Emit(w, None)
      case Failure(e) => Emit([], Some(e))
  }

  /** Without `--filename`: the description header, then the listing or the body. */
  ghost function ShowAll(g: Gist, listFiles: bool, raw: bool, env: Env): Emit {
    var header := DescriptionHeader(g, listFiles, env);
    var names := SortedNames(g.files);
    if listFiles then Emit(header + Listing(names), None)
    else
      var body := Body(g.files, names, |g.files| > 1, raw, env, |names|);
      Emit(header + body.out, body.err)
  }

  /** The selector, or the prompted gist's ID when no selector was given. */
  function Selected(opts: ViewOptions, env: Env): Result<string, Error>
    requires ChoiceInRange(env)
  {
    if opts.selector == "" then PromptedId(env) else Success(opts.selector)
  }

  /** The whole of `viewRun`, as a function of the options and the collaborators' answers. */
  ghost function View(opts: ViewOptions, env: Env): Outcome
    requires ChoiceInRange(env)
  {
    if env.httpClient.Some? then Failed(ClientError(env.httpClient.value))
    else
      var selected := Selected(opts, env);
      if selected.Failure? then Failed(selected.error)
      else if opts.web then
        var url := WebUrl(selected.value, env.gistPrefix);
        Outcome([], Some(url), None,
                match env.openInBrowser(url) case None => None case Some(e) => Some(BrowserError(e)))
      else
        match GistId(selected.value, env)
        case Failure(e) => Failed(e)
        case Success(id) =>
          match env.getGist(id)
          case Failure(e) => Outcome([], None, Some(id), Some(FetchError(e)))
          case Success(g) =>
            var shown := Show(g, opts, env);
            Outcome(shown.out, None, Some(id), shown.err)
  }

  /** `viewRun`, step by step as the command performs it. */
  method ViewRun(opts: ViewOptions, env: Env) returns (r: Outcome)
    requires ChoiceInRange(env)
    ensures r == View(opts, env)
  {
    var gistID := opts.selector;
    if env.httpClient.Some? {
      return Failed(ClientError(env.httpClient.value));
    }

    if gistID == "" {
      var _, _, picked := PromptGists(env);
      if picked.Failure? {
        return Failed(picked.error);
      }
      gistID := picked.value;
    }

    if opts.web {
      var gistURL := gistID;
      if !Contains(gistURL, "/") {
        gistURL := env.gistPrefix + gistID;
      }
      var browserErr := env.openInBrowser(gistURL);
      return Outcome([], Some(gistURL), None,
                     if browserErr.Some? then Some(BrowserError(browserErr.value)) else None);
    }

    if Contains(gistID, "/") {
      var id := env.gistIdFromUrl(gistID);
      if id.Failure? {
        return Failed(InvalidUrl(id.error));
      }
      gistID := id.value;
    }

    var fetched := env.getGist(gistID);
    if fetched.Failure? {
      return Outcome([], None, Some(gistID), Some(FetchError(fetched.error)));
    }
    var shown := WriteGist(fetched.value, opts, env);
    return Outcome(shown.out, None, Some(gistID), shown.err);
  }

  /** The part of `viewRun` after the fetch: the single-file branch, the header, the listing or the body. */
  method WriteGist(gist: Gist, opts: ViewOptions, env: Env) returns (e: Emit)
    ensures e == Show(gist, opts, env)
  {
    var out: seq<string> := [];

    if opts.filename != "" {
      if opts.filename !in gist.files {
        return Emit(out, Some(NoSuchFile(opts.filename)));
      }
      var rendered := Render(gist.files[opts.filename], opts.raw, env.markdown);
      if rendered.Failure? {
        return Emit(out, Some(rendered.error));
      }
      return Emit(out + rendered.value, None);
    }

    if gist.description != "" && !opts.listFiles {
      out := out + [env.bold(gist.description) + "\n\n"];
    }
    assert out == DescriptionHeader(gist, opts.listFiles, env);

    var showFilenames := |gist.files| > 1;
    var filenames := SortedFilenames(gist.files);
    assert ShowAll(gist, opts.listFiles, opts.raw, env) == Show(gist, opts, env);

    if opts.listFiles {
      var listing := WriteListing(filenames);
      return Emit(out + listing, None);
    }

    var body := WriteBody(gist.files, filenames, showFilenames, opts.raw, env);
    ghost var names := SortedNames(gist.files);
    assert body == Body(gist.files, names, |gist.files| > 1, opts.raw, env, |names|);
    return Emit(out + body.out, body.err);
  }

  /** The `filenames` slice: the keys appended in map order, then `sort.Strings`. */
  method SortedFilenames(files: map<string, GistFile>) returns (filenames: seq<string>)
    ensures filenames == SortedNames(files)
  {
    filenames := [];
    var unseen := files.Keys;
    while unseen != {}
      invariant unseen <= files.Keys
      invariant multiset(filenames) + multiset(unseen) == multiset(files.Keys)
      decreases unseen
    {
      var fn :| fn in unseen;
      assert multiset(unseen) == multiset(unseen - {fn}) + multiset{fn};
      filenames := filenames + [fn];
      unseen := unseen - {fn};
    }
    filenames := Sort(filenames);
    SortedNamesUnique(files, filenames);
  }

  /** The `--files` loop: each name on its own line. */
  method WriteListing(filenames: seq<string>) returns (out: seq<string>)
    ensures out == Listing(filenames)
    ensures |out| == |filenames|
    ensures forall i :: 0 <= i < |out| ==> out[i] == filenames[i] + "\n"
  {
    out := [];
    for i := 0 to |filenames|
      invariant out == Listing(filenames[..i])
    {
      out := out + [filenames[i] + "\n"];
    }
  }

  /** The body loop: header, render and separator per file, stopping at the first render error. */
  method WriteBody(files: map<string, GistFile>, filenames: seq<string>, showFilenames: bool, raw: bool, env: Env)
    returns (e: Emit)
    requires AllKeys(filenames, files)
    ensures e == Body(files, filenames, showFilenames, raw, env, |filenames|)
  {
    var out: seq<string> := [];
    for i := 0 to |filenames|
      invariant Body(files, filenames, showFilenames, raw, env, i) == Emit(out, None)
    {
      var fn := filenames[i];
      ghost var before := out;
      if showFilenames {
        out := out + [env.gray(fn) + "\n\n"];
      }
      assert out == before + FileHeader(fn, showFilenames, env);
      var rendered := Render(files[fn], raw, env.markdown);
      if rendered.Failure? {
        assert Body(files, filenames, showFilenames, raw, env, i + 1) == Emit(out, Some(rendered.error));
        BodyStops(files, filenames, showFilenames, raw, env, i + 1, |filenames|);
        return Emit(out, Some(rendered.error));
      }
      out := out + rendered.value;
      if i < |filenames| - 1 {
        out := out + ["\n"];
      }
      assert out == before + FileHeader(fn, showFilenames, env) + rendered.value + Separator(i, |filenames|);
    }
    return Emit(out, None);
  }
}
