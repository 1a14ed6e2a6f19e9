# Carousel photo parser, modelled in Dafny

The repository's carousel helper, `parse_photos(folder_path)` in
`carosels/parsers/parser.py`, turns a folder of images into two text files
for a Bootstrap carousel. It lists the folder and keeps the entries whose name
ends in `.png`, in listing order. It joins each kept name to the folder and
turns every backslash into `/`; these are the links. It then writes one line
per link to `photos.txt`. Each line is a `<div class="item"><img …>` element
pointing at the public assets URL followed by the link, with the link's base
name as the `alt` text. Finally it writes `indicators.txt`: the active `<li>`
line for slide 0 comes first, then one `<li … data-slide-to="i">` line for every
later index i.

The model has three modules:

- `Paths` (`paths.dfy`) covers the parts of Python's `str` and `os.path`
  that the parser uses. These are `endswith`, `os.path.join`, the backslash
  replacement and `os.path.basename`, each with the facts the parser relies on.
- `Text` (`text.dfy`) covers text written line by line (`Unlines`) and the
  independent reading of a text as lines (`Lines`), with the round trip
  between them. It also has decimal numerals (`NatToString`, read back by
  `DecimalValue`) and substring search (`Contains`).
- `Parser` (`parser.dfy`) holds the markup constants and the pure
  specification of what `parse_photos` computes. It also holds the method
  `ParsePhotos`, which has the source's three loops (append, `+=`, `+=` with
  `continue` at index 0) and is proved against that specification. The lemmas
  state the properties of the result.

The directory listing is a parameter, `names: seq<string>`, in the order the
listing gives. The two file writes are returned as `FileWrite(path, text)`
values.

Behaviour kept exactly as the code has it:
- the `.png` test is case-sensitive, so `photo.PNG` is dropped;
- nothing is sorted, renamed or sanitised: each kept name is used as listed;
- a `\` inside a listed name (a legal character in a POSIX file name) is
  turned into `/` like any other backslash, so it splits the link and the
  `alt` text keeps only the part after it;
- nothing checks where the two output paths point;
- slide lines carry no `active` marker;
- the index-0 indicator line is written even when the folder holds no `.png`
  file. An empty folder therefore gives an empty `photos.txt` but a
  one-line `indicators.txt`.

`os.path.join(folder, name)` is modelled as follows: the name alone when the
folder is empty; folder + name when the folder already ends in `/` or `\`;
otherwise folder + `/` + name. On Windows the separator `os.path.join` inserts
is `\`, but the `.replace("\\", "/")` that follows turns it into `/`. So after
normalisation both platforms give the modelled result, except for the cases
listed under "Left out".

## Model

| member | source | states |
|---|---|---|
| `Parser.ParsePhotos` | carosels/parsers/parser.py:3-26 | the returned links are the filtered, joined and normalised listing; the text written to `photos.txt` is one `"\n"`-terminated slide line per link; the text written to `indicators.txt` is the indicator lines for that many links; both paths are the folder joined with the file name and normalised |
| `Paths.EndsWith` | carosels/parsers/parser.py:6 | `filename.endswith(".png")`, comparing characters exactly; its properties are stated by `Parser.PngNamesMembers` |
| `Parser.FolderPath` | carosels/parsers/parser.py:7 | a name joined to the folder with backslashes replaced, the form of line 7 and of the output paths on lines 15 and 24; its properties are stated by `Parser.PathShape`, `Parser.AltIsName` and `Parser.OutputPaths` |
| `Parser.PngNames` | carosels/parsers/parser.py:5-6 | the listing entries that pass the `.png` test, in listing order; its properties are stated by `Parser.PngNamesMembers` and `Parser.PngNamesAppend` |
| `Parser.Links` | carosels/parsers/parser.py:4-8 | the list `file_contents` that the first loop builds; its properties are stated by `Parser.LinksOfPngNames`, `Parser.LinksAvoid` and `Parser.NoBackslashes` |
| `Parser.SlideLine` | carosels/parsers/parser.py:12 | the `html_stub` f-string for one link, character for character; its properties are stated by `Parser.SlideText` and `Parser.AltIsName` |
| `Parser.SlideLines` | carosels/parsers/parser.py:11-13 | one slide line per link, in link order; its properties are stated by `Parser.SlideText` and `Parser.ListingSlides` |
| `Parser.IndicatorLine` | carosels/parsers/parser.py:19-23 | the active line of line 19 for index 0 and the f-string of line 23 for every later index; its properties are stated by `Parser.IndicatorText` and `Parser.SingleActive` |
| `Parser.ActiveIndicatorText` | carosels/parsers/parser.py:19 | the indicator text before the loop: the active line for slide 0 and its `"\n"`, equal to the text of the indicator lines for no links; its properties are stated by `Parser.IndicatorText` and `Parser.SingleActive` |
| `Parser.IndicatorLines` | carosels/parsers/parser.py:19-23 | the index-0 line, then one line for every later index below the number of links; its properties are stated by `Parser.IndicatorText` and `Parser.SingleActive` |
| `Text.Unlines` | carosels/parsers/parser.py:13 | the text built by `+=` of each line and `"\n"`, as on lines 13, 19 and 23; it is empty exactly when there are no lines and otherwise ends in `"\n"`, and `Text.LinesUnlines` reads it back |
| `Parser.PngNamesAppend` | carosels/parsers/parser.py:5-6 | filtering a listing made of two parts filters each part and concatenates the results, so the relative order of the kept names is the listing's |
| `Parser.PngNamesMembers` | carosels/parsers/parser.py:5-6 | a name is kept if and only if it is listed and ends in `.png`, compared case-sensitively |
| `Parser.LinksOfPngNames` | carosels/parsers/parser.py:5-8 | there is one link per kept name, and link k is kept name k joined to the folder with backslashes replaced |
| `Parser.NoPngFiles` | carosels/parsers/parser.py:5-23 | a listing with no `.png` name gives no links and an empty slide text; the indicator text is still the single active line |
| `Parser.NoBackslashes` | carosels/parsers/parser.py:7-8 | no link and neither output path contains a backslash |
| `Parser.LinksAvoid` | carosels/parsers/parser.py:7-8 | a character other than `/` that is in neither the folder nor any name is in no link |
| `Parser.PathShape` | carosels/parsers/parser.py:7 | a joined path starts with the normalised folder and ends with the normalised name; when the folder is non-empty a `/` comes right before the name; the path has no backslash |
| `Parser.AltIsName` | carosels/parsers/parser.py:7-12 | whatever the folder, the base name of a link is the base name of the normalised file name; when the name has no `/` or `\` it is the name itself |
| `Parser.BackslashSplitsName` | carosels/parsers/parser.py:7-12 | for a name `a\b` whose last part `b` has no separator, the `alt` text is `b` alone: the backslash becomes a `/` and splits the name |
| `Parser.SlideText` | carosels/parsers/parser.py:10-13 | the slide text reads back as exactly one line per link, in link order; line k is the image markup, then link k, then the `alt` opening, then the base name of link k, then the closing markup; the text is empty if and only if there are no links |
| `Parser.ListingSlides` | carosels/parsers/parser.py:5-13 | for a whole listing, `photos.txt` reads back as one line per `.png` name, in listing order; line k links to kept name k joined to the folder and normalised, with the base name of the normalised name as its `alt` text, which is the name itself when it has no `/` or `\` |
| `Parser.IndicatorText` | carosels/parsers/parser.py:19-23 | the indicator text reads back as max(1, n) lines for n links; line 0 is the active line even when n = 0; line i, for 1 <= i < n, targets slide i in decimal |
| `Parser.SingleActive` | carosels/parsers/parser.py:19-23 | exactly one indicator line contains `class="active"`, and it is line 0 |
| `Parser.OutputPaths` | carosels/parsers/parser.py:15-24 | the `photos.txt` and `indicators.txt` paths each end with their own file name and are never equal |
| `Paths.Join` | carosels/parsers/parser.py:7 | the joined path starts with the folder and ends with the name; exactly one `/` is added between them, and only when the folder is non-empty and does not already end in a separator |
| `Paths.Normalize` | carosels/parsers/parser.py:7 | `.replace("\\", "/")` keeps the length, turns each backslash into `/`, leaves every other character in place, and leaves no backslash |
| `Paths.NormalizeIdentity` | carosels/parsers/parser.py:7 | a path without backslashes is unchanged by the replacement |
| `Paths.NormalizeIdempotent` | carosels/parsers/parser.py:7 | replacing backslashes a second time changes nothing |
| `Paths.BasenameAfterDirectory` | carosels/parsers/parser.py:12 | a directory part that is empty or ends in `/` does not change the base name of what follows it |
| `Paths.Basename` | carosels/parsers/parser.py:12 | `os.path.basename` gives a suffix of the path with no `/`, and the character before that suffix, if any, is `/` (the text after the last `/`) |
| `Text.LinesUnlines` | carosels/parsers/parser.py:13 | a text written by appending `line + "\n"` for each line reads back as those lines, provided no line contains a `"\n"` |
| `Text.NatToString` | carosels/parsers/parser.py:23 | the `{i}` numeral is non-empty, all decimal digits, and has no leading zero |
| `Text.DecimalRoundTrip` | carosels/parsers/parser.py:23 | reading the numeral of i back as a decimal number gives i |

## Left out

- `os.listdir` is not modelled; the listing is the input sequence `names`. Its order is whatever the operating system gives, and the code does not control it.
- Opening and writing the two files, and their UTF-8 encoding, are not modelled. The model returns the path and the full text of each write. Characters are abstract, with no encoding.
- `os.listdir("")` raises an error, so the source never completes a call with an empty folder. The model's results for `folder == ""`, including the empty-folder branch of `Paths.Join`, describe a case the source never reaches.
- Text-mode `open(..., "w")` on Windows writes each `"\n"` as `"\r\n"`. The texts in the model are the strings passed to `write`, not the bytes that end up in the files.
- `Paths.Join`: on POSIX, `os.path.join` treats only `/` as ending the folder. For a folder ending in `\` the code there produces `…//name`, while the model produces `…/name`.
- `Paths.Join`: a second argument that is an absolute path (which replaces the folder in `os.path.join`) and Windows drive-relative folders such as `C:` are not modelled. Names from a directory listing are never absolute, and the two output names are fixed relative names.
- `Paths.Basename` is the POSIX rule, the text after the last `/`. Windows' `ntpath.basename` also strips a drive prefix such as `C:`; this is not modelled. Links contain no backslash, so the two rules agree otherwise.
- `Parser.SlideText`, `Parser.ListingSlides`: the line-by-line reading needs the folder and the names to contain no `"\n"`. A file name containing a line break would split its slide line; the texts themselves are still specified exactly by `Parser.ParsePhotos`.
