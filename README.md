# `gh gist view`, modelled in Dafny

`gh gist view [<id> | <url>]` shows one gist of the GitHub CLI. Without an
argument it lists the ten most recent gists and lets the user pick one. With
`--web` it opens the gist in the browser. Otherwise it fetches the gist and
writes it to standard output in one of three ways:

- with `--filename`, the one named file;
- with `--files`, the sorted file names;
- by default, the description in bold, then every file in name order. When
  there are several files, each has a gray name header, and a blank line
  separates consecutive files.

A file whose type mentions markdown goes through the markdown renderer
unless raw mode is on. Raw mode is forced when standard output is not a
terminal. Any other file is written verbatim, followed by one added
newline when it does not already end in one.

The model covers the command's own logic in `pkg/cmd/gist/view/view.go`.

- Standard output is a `seq<string>`, one element per `fmt.Fprint`,
  `fmt.Fprintf` or `fmt.Fprintln` call. `GoStrings.Concat` gives the text
  they leave on the stream.
- Everything the command asks of other packages is a field of
  `GistView.Env`:
  - the HTTP client's error;
  - the gist listing and the prompt's answer;
  - the gist fetch, the URL-to-ID extraction and the gist host prefix;
  - the markdown renderer, the bold and gray stylers, whitespace collapsing,
    the age formatter and the browser.
- The imperative parts are methods proved against specification
  functions (`View`, `Show`, `ShowAll` and `SortedNames` are ghost;
  `Body`, `Listing` and `PromptedId` are not). The methods follow the
  order in which the command performs its steps:
  - `GistView.ViewRun`, `WriteGist`, `SortedFilenames`, `WriteListing` and
    `WriteBody`, against `View`, `Show` and `Body`;
  - `GistView.PromptGists`, which fills an ID array in a loop and searches
    for a label with a `break`, against `PromptedId` and `IsLabel`.
- Go ranges over a map in an unspecified order. The methods pick keys
  with `:|`. `GistView.SortedNames` sorts an arbitrary enumeration.
  `StringSort.SortedUnique` shows that every sorted permutation is the same
  one, so the output does not depend on map order.
- `GistViewProperties` states the command's promises about the output and
  proves them.

Modules: `Results` (Option and Result), `GoStrings` (`strings.HasPrefix`,
`HasSuffix`, `Contains`; written text), `StringSort` (Go string order and
`sort.Strings`), `GistView` (the command) and `GistViewProperties` (the
promises).

Three behaviours of the command that are easy to miss:

- The prompt runs before the `--web` check (view.go:77-84), so web mode
  without a selector also lists and prompts.
- Nothing checks for an empty listing before prompting (view.go:204-211).
  With no gists, the prompt library fails, and that error is returned
  (`GistViewProperties.EmptyListingFails`).
- The label's fallback filename is the first non-placeholder name in Go's
  map order, which is unspecified. The model allows any non-placeholder
  name (`GistView.LabelText`).

## Model

| member | source | states |
|---|---|---|
| GistView.CommandOptions | pkg/cmd/gist/view/view.go:46-53 | The single positional argument becomes the selector, or the selector is empty without one; raw mode is on iff `--raw` was given or stdout is not a terminal; the other flags pass through unchanged. |
| GistViewProperties.PipedOutputIsRaw | pkg/cmd/gist/view/view.go:51-53 | With stdout not a terminal, no file goes to the markdown renderer and every render succeeds. |
| GistView.Render | pkg/cmd/gist/view/view.go:116-134 | The `render` closure succeeds iff the file bypasses the renderer or the renderer succeeds. A failure is a renderer error. A success is one or two writes. |
| GistViewProperties.MarkdownRenderIsVerbatim | pkg/cmd/gist/view/view.go:117-123 | A markdown file outside raw mode writes exactly the renderer's output; a renderer failure writes nothing and is returned as the error. |
| GistViewProperties.RawRenderNormalizesNewline | pkg/cmd/gist/view/view.go:126-133 | Any other file always succeeds; its text starts with the content, ends in a newline, and is at most one character longer than the content. |
| GistViewProperties.RawRenderText | pkg/cmd/gist/view/view.go:126-133 | The raw text is the content when it already ends in a newline, and the content plus one newline otherwise. |
| GistViewProperties.RawRenderIdempotent | pkg/cmd/gist/view/view.go:126-133 | Rendering the raw text again yields the same text, so the render never adds a newline to content that already ends in one. |
| GistViewProperties.RenderUsesOnlyRenderer | pkg/cmd/gist/view/view.go:116-134 | A file's render depends on the markdown renderer only outside raw mode. |
| GoStrings.ContainsIffOccurs | pkg/cmd/gist/view/view.go:117 | `strings.Contains` holds exactly when the substring occurs at some position. |
| GistView.PromptLabel | pkg/cmd/gist/view/view.go:200-201 | A prompt option is `"%s (%s)"`: the collapsed label text, then the gist's age in parentheses, and nothing else. |
| GistViewProperties.LabelAlwaysExists | pkg/cmd/gist/view/view.go:191-199 | Every gist has a label text: its description, a file name not starting with `gistfile`, or the empty string. |
| GistViewProperties.DescriptionIsLabel | pkg/cmd/gist/view/view.go:191 | A non-empty description is the label text, whatever the file names are. |
| GistViewProperties.PlaceholderOnlyLabelIsEmpty | pkg/cmd/gist/view/view.go:192-198 | Without a description, and with every file name starting with `gistfile`, the label text is exactly the empty string. |
| GistView.PromptGists | pkg/cmd/gist/view/view.go:179-214 | A listing error is returned. Otherwise labels and IDs have one entry per listed gist, at the same positions. Each label is the collapsed description, or a non-placeholder filename, or empty, followed by the age. The result is the ID at the chosen index, or the prompt's error. |
| GistViewProperties.PromptPicksChosenGist | pkg/cmd/gist/view/view.go:204-213 | Without a selector, the gist used is the listed gist at the index the user chose. |
| GistViewProperties.EmptyListingFails | pkg/cmd/gist/view/view.go:204-211 | With an empty listing the run fails with nothing fetched and no browser opened. |
| GistView.ViewRun | pkg/cmd/gist/view/view.go:70-177 | The steps of `viewRun` have exactly the outcome `View` gives: the client error, the prompt, the web short-cut, URL-to-ID extraction, the fetch and the writes. |
| GistView.WebUrl | pkg/cmd/gist/view/view.go:85-89 | The web URL always ends with the selector. It is the selector itself iff the selector contains a slash or the gist host prefix is empty. |
| GistView.GistId | pkg/cmd/gist/view/view.go:96-102 | A selector without a slash is the ID itself. A selector with one is replaced by the ID extracted from it, and an extraction failure is an invalid-URL error. |
| GistViewProperties.WebModeOnlyOpensBrowser | pkg/cmd/gist/view/view.go:84-94 | `--web` opens the selector unchanged if it contains a slash and the host prefix plus the selector otherwise. It writes nothing and fetches nothing, and neither the fetch, the renderer nor the URL extraction affects it. |
| GistViewProperties.BareIdFetchedAsIs | pkg/cmd/gist/view/view.go:96-107 | Outside web mode a selector without a slash is fetched as the ID itself, and URL extraction is never consulted. |
| GistViewProperties.UrlFetchedByExtractedId | pkg/cmd/gist/view/view.go:96-104 | A selector with a slash is fetched by the extracted ID, or the run fails with the extraction error before any fetch. |
| GistView.WriteGist | pkg/cmd/gist/view/view.go:136-176 | The writes after the fetch are exactly `Show`: the single-file branch, or the description header followed by the listing or the body. |
| GistViewProperties.MissingFileIsNamed | pkg/cmd/gist/view/view.go:136-140 | `--filename` with a missing name writes nothing and fails with an error carrying that name. |
| GistViewProperties.SingleFileIsJustItsRender | pkg/cmd/gist/view/view.go:136-142 | `--filename` with a present name writes exactly that file's render, with no description or name header, or nothing and the render's error. |
| GistView.DescriptionHeader | pkg/cmd/gist/view/view.go:146-148 | The description header is written iff the description is non-empty and `--files` is off, and it is then the bold description followed by a blank line. |
| GistViewProperties.DescriptionComesFirst | pkg/cmd/gist/view/view.go:146-148 | The bold description line is written iff the description is non-empty and `--files` is off, and it is the first write. |
| GistView.SortedFilenames | pkg/cmd/gist/view/view.go:150-155 | Collecting the keys in map order and sorting gives `SortedNames`, whatever the map order was. |
| GistView.SortedNames | pkg/cmd/gist/view/view.go:150-155 | The file names are sorted ascending and are a permutation of the map's keys. |
| GistView.SortedNamesUnique | pkg/cmd/gist/view/view.go:150-155 | Any sorted permutation of the keys is `SortedNames`. |
| StringSort.Sort | pkg/cmd/gist/view/view.go:155 | `sort.Strings` returns a sorted permutation of its input. |
| StringSort.SortedUnique | pkg/cmd/gist/view/view.go:155 | Two sorted permutations of the same multiset are equal, so the sort's result does not depend on the input order. |
| StringSort.LessEqTotal | pkg/cmd/gist/view/view.go:155 | Go's string order is total. |
| StringSort.LessEqAntisymmetric | pkg/cmd/gist/view/view.go:155 | Strings ordered both ways are equal. |
| StringSort.LessEqTransitive | pkg/cmd/gist/view/view.go:155 | Go's string order is transitive. |
| GistView.Listing | pkg/cmd/gist/view/view.go:158-160 | The listing has one write per name. Write `i` is name `i` followed by one newline. |
| GistView.WriteListing | pkg/cmd/gist/view/view.go:157-162 | `--files` writes one line per name, in order: write `i` is name `i` followed by a newline. |
| GistViewProperties.FilesOnlyListsSortedNames | pkg/cmd/gist/view/view.go:150-162 | `--files` writes exactly the sorted file names, one per line, with no description, and never fails. |
| GistView.WriteBody | pkg/cmd/gist/view/view.go:164-174 | The body loop's writes and error are exactly `Body`. Each file gets its header, its render and a separator, and the loop stops at the first render error. |
| GistView.FileHeader | pkg/cmd/gist/view/view.go:165-167 | A file's header is written iff file names are shown, and it is then the gray name followed by a blank line. |
| GistView.Separator | pkg/cmd/gist/view/view.go:171-173 | A newline is written after a file iff it is not the last one. |
| GistViewProperties.SeparatorCount | pkg/cmd/gist/view/view.go:171-173 | Counts the indices at which `Separator` fires: `n - 1` of the `n` indices of a run, and all `k` of the first `k < n`. |
| GistViewProperties.BodyWriteCount | pkg/cmd/gist/view/view.go:164-174 | With every render succeeding, the body of `n` files has exactly the writes of their blocks plus `n - 1` separators. |
| GistView.BodyStops | pkg/cmd/gist/view/view.go:168-170 | Once a render has failed, later files add nothing. |
| GistViewProperties.BodyIsJoin | pkg/cmd/gist/view/view.go:164-174 | When every file renders, the body is the files' blocks (header and render) joined by single newlines, with none after the last. |
| GistViewProperties.BodyPrefixIsJoin | pkg/cmd/gist/view/view.go:164-174 | After `n` clean iterations the body is the first `n` blocks joined, followed by a newline unless the `n`-th file was the last. |
| GistViewProperties.JoinLength | pkg/cmd/gist/view/view.go:171-173 | Joining `n` blocks adds exactly `n - 1` separators. |
| GistViewProperties.FullOutput | pkg/cmd/gist/view/view.go:144-174 | With every render succeeding, the default output is the description line, then the sorted files' blocks joined by newlines. Each block has a name header iff the gist has more than one file. |
| GistViewProperties.BodyErrorIsFirstFailure | pkg/cmd/gist/view/view.go:168-170 | A body error is the error of some file's render, and every earlier file rendered successfully. |
| GistViewProperties.BodyCleanPrefix | pkg/cmd/gist/view/view.go:164-174 | While the body has no error, every file reached so far rendered. |
| GistViewProperties.BodyUsesOnlyStyling | pkg/cmd/gist/view/view.go:164-174 | The body depends only on the gray styler, plus the markdown renderer outside raw mode. |
| GistViewProperties.ShowUsesOnlyStyling | pkg/cmd/gist/view/view.go:136-174 | Once the gist is fetched, the output depends only on the bold and gray stylers, plus the renderer outside raw mode. |
| GistViewProperties.ShowAllUsesOnlyStyling | pkg/cmd/gist/view/view.go:144-174 | The same, for the output without `--filename`. |
| GistViewProperties.ShowFileUsesOnlyStyling | pkg/cmd/gist/view/view.go:136-142 | The same, for `--filename`: no styler is used. |
| GistViewProperties.RawShowIgnoresRenderer | pkg/cmd/gist/view/view.go:116-134 | In raw mode the output does not depend on the markdown renderer. |
| GistViewProperties.FilesOnlyExample | pkg/cmd/gist/view/view.go:150-162 | `--files` on a gist with `b.txt` and `a.md` writes `a.md` then `b.txt`. |
| GistViewProperties.FullViewExample | pkg/cmd/gist/view/view.go:144-174 | The full view of that gist has seven writes, without error: the bold description, the gray `a.md` header, its rendered markdown, a newline, the gray `b.txt` header, `bye`, and the added newline. |

## Left out

- The HTTP client, `shared.GetGist` and `list.ListGists` are network I/O. Their answers are `Env` fields. The listing's limit of 10 gists and its "all" visibility are the collaborator's business.
- The survey prompt is interactive. Its answer is the `Env.choice` input. `GistView.ChoiceInRange` states the library's guarantee that a chosen index is one of the offered options. The labels are computed, but handing them to the prompt is not modelled.
- The pager and its stderr warning (view.go:111-114) are terminal plumbing. So are the "Opening … in your browser." stderr line and `utils.DisplayURL`.
- The markdown renderer, theme detection and style choice are one `Env.markdown` function.
- `ColorScheme().Bold` and `Gray` are `Env.bold` and `Env.gray`.
- `shared.GistIDFromURL`, `ghinstance.GistPrefix` with `OverridableDefault`, `text.ReplaceExcessiveWhitespace` and `utils.FuzzyAgo` are opaque `Env` fields. Their source is not part of this model, and `FuzzyAgo` reads the clock.
- Cobra flag registration and the `MaximumNArgs(1)` check are not modelled. `GistView.CommandOptions` requires at most one argument instead.
- Go orders strings by byte. The model orders by `char`. The two orders agree on valid UTF-8, and invalid UTF-8 file names are not modelled.
- GistView.Render: write errors of `fmt.Fprint` on standard output are not modelled, so writes always succeed. The command would return such an error after a partial write.
- GistView.WriteBody: the command ignores the results of the header, listing and separator writes (view.go:147, 159, 166, 172), and so does the model. The only write errors the command acts on are the render's, listed under GistView.Render above.
- GistView.WriteGist: the missing-file error carries the file name as data (`NoSuchFile(name)`). The `%q` quoting of the message text is not modelled.
