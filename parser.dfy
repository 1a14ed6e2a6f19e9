/**
  `parse_photos(folder_path)` from carosels/parsers/parser.py: lists a folder,
  keeps the ".png" entries, and produces the slide markup written to
  `photos.txt` and the indicator markup written to `indicators.txt` of a
  Bootstrap carousel.

  The directory listing is a parameter (`names`, in the order the listing
  gives) and the two file writes are returned as `FileWrite` values.
 */
module Parser {
  import opened Paths
  import opened Text

  const PngSuffix := ".png"
  const PhotosFile := "photos.txt"
  const IndicatorsFile := "indicators.txt"

  // The fixed markup, kept in pieces of at most 30 characters so that
  // facts about their characters stay cheap to prove.

  /** The public URL every link is appended to: its host, then the folder of
      the assets repository. */
  const AssetsHost := "https://cyberherdit.github.io/"
  const AssetsRepo := "cyberherd-public-assets/"
  const AssetsUrl := AssetsHost + AssetsRepo
  /** The fixed parts of a slide line around the link and its base name. */
  const ImageOpen := "<div class=\"item\"><img src=\""
  const SlideOpen := ImageOpen + AssetsUrl
  const SlideAlt := "\" alt=\""
  const SlideClose := "\" style=\"width:100%;\"></div>"

  /** The fixed parts of an indicator line for a later index. */
  const IndicatorTarget := "<li data-target=\"#myCarousel\""
  const IndicatorOpen := IndicatorTarget + " data-slide-to=\""
  const IndicatorClose := "\"></li>"
  /** The marker of the slide shown first. */
  const ActiveMarker := "class=\"active\""
  /** The indicator line for index 0, emitted whatever the folder holds:
      `<li data-target="#myCarousel" data-slide-to="0" class="active"></li>`. */
  const ActiveIndicator := IndicatorOpen + "0\" " + ActiveMarker + "></li>"

  /** One file the parser writes: where, and the whole text. */
  datatype FileWrite = FileWrite(path: string, text: string)

  /** A name joined to the folder, with backslashes turned into '/'; the
      parser builds links and both output paths this way. */
  function FolderPath(folder: string, name: string): string
  {
    Normalize(Join(folder, name))
  }

  /** The entry names that end in ".png", in listing order. */
  function PngNames(names: seq<string>): seq<string>
  {
    if names == [] then []
    else
      var last := names[|names| - 1];
      PngNames(names[..|names| - 1]) + (if EndsWith(last, PngSuffix) then [last] else [])
  }

  /** The link list `file_contents`: every ".png" entry joined to the folder. */
  function Links(folder: string, names: seq<string>): seq<string>
  {
    if names == [] then []
    else
      var last := names[|names| - 1];
      Links(folder, names[..|names| - 1]) + (if EndsWith(last, PngSuffix) then [FolderPath(folder, last)] else [])
  }

  /** The slide line for one link, without its "\n". */
  function SlideLine(link: string): string
  {
    SlideOpen + link + SlideAlt + Basename(link) + SlideClose
  }

  function SlideLines(links: seq<string>): seq<string>
  {
    if links == [] then [] else SlideLines(links[..|links| - 1]) + [SlideLine(links[|links| - 1])]
  }

  /** The indicator line for index `i`, without its "\n": the active line for
      0, otherwise one that targets slide `i` in decimal. */
  function IndicatorLine(i: nat): string
  {
    if i == 0 then ActiveIndicator else IndicatorOpen + NatToString(i) + IndicatorClose
  }

  /** The indicator lines for `n` links: one per link, but never fewer than
      the index-0 line. */
  function IndicatorLines(n: nat): seq<string>
  {
    if n <= 1 then [IndicatorLine(0)] else IndicatorLines(n - 1) + [IndicatorLine(n - 1)]
  }

  /** One more listing entry adds its link when it ends in ".png". */
  lemma LinksSnoc(folder: string, names: seq<string>, j: nat)
    requires j < |names|
    ensures Links(folder, names[..j + 1]) ==
      Links(folder, names[..j]) + if EndsWith(names[j], PngSuffix) then [FolderPath(folder, names[j])] else []
  {
    assert names[..j + 1][..j] == names[..j];
  }

  /** One more link adds its slide line. */
  lemma SlideLinesSnoc(links: seq<string>, k: nat)
    requires k < |links|
    ensures SlideLines(links[..k + 1]) == SlideLines(links[..k]) + [SlideLine(links[k])]
  {
    assert links[..k + 1][..k] == links[..k];
  }

  /** Every index after 0 adds its own indicator line. */
  lemma IndicatorLinesSnoc(i: nat)
    requires i >= 1
    ensures IndicatorLines(i + 1) == IndicatorLines(i) + [IndicatorLine(i)]
  {
  }

  /** The indicator text before the loop: the active line for slide 0 and
      its "\n". */
  method ActiveIndicatorText() returns (text: string)
    ensures text == Unlines(IndicatorLines(0))
  {
    text := IndicatorLine(0) + "\n";
    assert IndicatorLines(0) == [] + [IndicatorLine(0)];
    UnlinesSnoc([], IndicatorLine(0));
  }

  /** `parse_photos`: the link list, then the write of the slide text to
      `photos.txt`, then the write of the indicator text to `indicators.txt`. */
  method ParsePhotos(folder: string, names: seq<string>)
    returns (links: seq<string>, photos: FileWrite, indicators: FileWrite)
    ensures links == Links(folder, names)
    ensures photos == FileWrite(FolderPath(folder, PhotosFile), Unlines(SlideLines(links)))
    ensures indicators == FileWrite(FolderPath(folder, IndicatorsFile), Unlines(IndicatorLines(|links|)))
  {
    links := [];
    for j := 0 to |names|
      invariant links == Links(folder, names[..j])
    {
      var name := names[j];
      LinksSnoc(folder, names, j);
      if EndsWith(name, PngSuffix) {
        links := links + [FolderPath(folder, name)];
      }
    }
    assert names[..|names|] == names;

    var text := "";
    for k := 0 to |links|
      invariant text == Unlines(SlideLines(links[..k]))
    {
      SlideLinesSnoc(links, k);
      UnlinesSnoc(SlideLines(links[..k]), SlideLine(links[k]));
      text := text + (SlideLine(links[k]) + "\n");
    }
    assert links[..|links|] == links;
    photos := FileWrite(FolderPath(folder, PhotosFile), text);

    text := ActiveIndicatorText();
    for i := 0 to |links|
      invariant text == Unlines(IndicatorLines(i))
    {
      if i == 0 {
        assert IndicatorLines(1) == IndicatorLines(0);
        continue;
      }
      IndicatorLinesSnoc(i);
      UnlinesSnoc(IndicatorLines(i), IndicatorLine(i));
      text := text + (IndicatorLine(i) + "\n");
    }
    indicators := FileWrite(FolderPath(folder, IndicatorsFile), text);
  }

  // ---------------------------------------------------------------------
  // The link list

  /** Filtering a listing split in two filters each part, keeping the order. */
  lemma {:induction false} PngNamesAppend(a: seq<string>, b: seq<string>)
    ensures PngNames(a + b) == PngNames(a) + PngNames(b)
  {
    if b == [] {
      assert a + b == a;
    } else {
      var init, last := b[..|b| - 1], b[|b| - 1];
      var kept := if EndsWith(last, PngSuffix) then [last] else [];
      PngNamesAppend(a, init);
      assert (a + b)[..|a + b| - 1] == a + init;
      assert (a + b)[|a + b| - 1] == last;
      assert PngNames(a + b) == PngNames(a + init) + kept;
      assert PngNames(b) == PngNames(init) + kept;
    }
  }

  /** A name is kept exactly when it is listed and ends in ".png", case
      included: "photo.PNG" is dropped. */
  lemma {:induction false} PngNamesMembers(names: seq<string>, x: string)
    ensures x in PngNames(names) <==> x in names && EndsWith(x, PngSuffix)
  {
    if names != [] {
      var init, last := names[..|names| - 1], names[|names| - 1];
      PngNamesMembers(init, x);
      assert names == init + [last];
    }
  }

  /** Link k is the k-th ".png" name joined to the folder. */
  lemma {:induction false} LinksOfPngNames(folder: string, names: seq<string>)
    ensures |Links(folder, names)| == |PngNames(names)|
    ensures forall k :: 0 <= k < |Links(folder, names)| ==>
      Links(folder, names)[k] == FolderPath(folder, PngNames(names)[k])
  {
    if names != [] {
      LinksOfPngNames(folder, names[..|names| - 1]);
    }
  }

  /** A joined and normalised path is the normalised directory part
      followed by the normalised name. */
  lemma PathSplit(folder: string, name: string) returns (dir: string)
    ensures FolderPath(folder, name) == dir + Normalize(name)
    ensures dir == [] <==> folder == []
    ensures dir != [] ==> dir[|dir| - 1] == '/'
    ensures |folder| <= |dir| && dir[..|folder|] == Normalize(folder)
  {
    var sep := if folder == [] || IsSep(folder[|folder| - 1]) then "" else "/";
    assert Join(folder, name) == (folder + sep) + name;
    NormalizeAppend(folder + sep, name);
    NormalizeAppend(folder, sep);
    var nf := Normalize(folder);
    dir := nf + Normalize(sep);
    assert Normalize(sep) == sep;
    assert dir[..|folder|] == nf;
    if folder != [] && sep == "" {
      assert nf[|folder| - 1] == '/';
    }
  }

  /** The shape of a joined and normalised path: it starts with the
      normalised folder, ends with the normalised name, has a '/' just before
      the name when the folder is not empty, and holds no backslash. */
  lemma PathShape(folder: string, name: string)
    ensures var p := FolderPath(folder, name);
      '\\' !in p &&
      |folder| <= |p| && p[..|folder|] == Normalize(folder) &&
      EndsWith(p, Normalize(name)) &&
      (folder != [] ==> |name| < |p| && p[|p| - |name| - 1] == '/')
  {
    var dir := PathSplit(folder, name);
    var p := FolderPath(folder, name);
    assert p[|p| - |name|..] == Normalize(name);
    assert p[..|folder|] == dir[..|folder|];
  }

  /** A name without '/' or '\\' is its own normalised base name. */
  lemma PlainNameIsBasename(name: string)
    requires '/' !in name && '\\' !in name
    ensures Basename(Normalize(name)) == name
  {
    NormalizeIdentity(name);
    BasenameWhole(name);
  }

  /** The `alt` text of a slide is the base name of the normalised file
      name, whatever the folder; for a name without '/' or '\\' that is the
      name itself. */
  lemma AltIsName(folder: string, name: string)
    ensures Basename(FolderPath(folder, name)) == Basename(Normalize(name))
    ensures '/' !in name && '\\' !in name ==> Basename(FolderPath(folder, name)) == name
  {
    assert Basename(FolderPath(folder, name)) == Basename(Normalize(name)) by {
      var dir := PathSplit(folder, name);
      BasenameAfterDirectory(dir, Normalize(name));
    }
    if '/' !in name && '\\' !in name {
      PlainNameIsBasename(name);
    }
  }

  /** A '\\' inside a listed name (a legal file name character on POSIX)
      becomes a path separator in the link, so the `alt` text is only the
      part of the name after it. */
  lemma BackslashSplitsName(folder: string, a: string, b: string)
    requires '/' !in b && '\\' !in b
    ensures Basename(FolderPath(folder, a + "\\" + b)) == b
  {
    AltIsName(folder, a + "\\" + b);
    NormalizeAppend(a + "\\", b);
    NormalizeAppend(a, "\\");
    NormalizeIdentity(b);
    var d := Normalize(a) + Normalize("\\");
    assert Normalize("\\") == "/";
    BasenameAfterDirectory(d, b);
    BasenameWhole(b);
  }

  /** No link and neither output path holds a backslash. */
  lemma {:induction false} NoBackslashes(folder: string, names: seq<string>)
    ensures forall k :: 0 <= k < |Links(folder, names)| ==> '\\' !in Links(folder, names)[k]
    ensures '\\' !in FolderPath(folder, PhotosFile) && '\\' !in FolderPath(folder, IndicatorsFile)
  {
    LinksOfPngNames(folder, names);
  }

  // ---------------------------------------------------------------------
  // The two output paths

  /** Neither output file name holds a backslash. */
  lemma OutputNamesPlain()
    ensures Normalize(PhotosFile) == PhotosFile && Normalize(IndicatorsFile) == IndicatorsFile
  {
    assert '\\' !in PhotosFile;
    assert '\\' !in IndicatorsFile;
    NormalizeIdentity(PhotosFile);
    NormalizeIdentity(IndicatorsFile);
  }

  /** `photos.txt` and `indicators.txt` go into the normalised folder, each
      under its own name, so they are never the same path. */
  lemma OutputPaths(folder: string)
    ensures EndsWith(FolderPath(folder, PhotosFile), PhotosFile)
    ensures EndsWith(FolderPath(folder, IndicatorsFile), IndicatorsFile)
    ensures FolderPath(folder, PhotosFile) != FolderPath(folder, IndicatorsFile)
  {
    OutputNamesPlain();
    PathShape(folder, PhotosFile);
    PathShape(folder, IndicatorsFile);
    var p := FolderPath(folder, PhotosFile);
    if p == FolderPath(folder, IndicatorsFile) {
      SuffixOfSuffix(p, PhotosFile, IndicatorsFile);
    }
  }


  // ---------------------------------------------------------------------
  // The slide text

  /** A character that is not '/' and occurs neither in the folder nor in
      any listed name occurs in no link: joining adds only '/' and
      normalising only turns '\\' into '/'. */
  lemma {:induction false} LinksAvoid(folder: string, names: seq<string>, c: char)
    requires c != '/' && c !in folder
    requires forall i :: 0 <= i < |names| ==> c !in names[i]
    ensures forall k :: 0 <= k < |Links(folder, names)| ==> c !in Links(folder, names)[k]
  {
    if names != [] {
      var init, last := names[..|names| - 1], names[|names| - 1];
      LinksAvoid(folder, init, c);
      var j := Join(folder, last);
      assert c !in j by {
        if folder == [] {
        } else if IsSep(folder[|folder| - 1]) {
        } else {
          assert j == folder + "/" + last;
        }
      }
      var p := FolderPath(folder, last);
      forall i | 0 <= i < |p| ensures p[i] != c {
        assert j[i] in j;
      }
    }
  }

  /** There is one slide line per link. */
  lemma {:induction false} SlideLinesLength(links: seq<string>)
    ensures |SlideLines(links)| == |links|
  {
    if links != [] {
      SlideLinesLength(links[..|links| - 1]);
    }
  }

  /** Slide line k belongs to link k. */
  lemma {:induction false} SlideLinesIndex(links: seq<string>, k: nat)
    requires k < |links|
    ensures |SlideLines(links)| == |links|
    ensures SlideLines(links)[k] == SlideLine(links[k])
  {
    SlideLinesLength(links);
    var init := links[..|links| - 1];
    SlideLinesLength(init);
    if k < |links| - 1 {
      SlideLinesIndex(init, k);
      assert init[k] == links[k];
    }
  }

  /** Line k of the slide lines belongs to link k. */
  lemma SlideLinesAt(links: seq<string>)
    ensures |SlideLines(links)| == |links|
    ensures forall k :: 0 <= k < |links| ==> SlideLines(links)[k] == SlideLine(links[k])
  {
    SlideLinesLength(links);
    forall k | 0 <= k < |links| ensures SlideLines(links)[k] == SlideLine(links[k]) {
      SlideLinesIndex(links, k);
    }
  }

  lemma AssetsUrlOneLine()
    ensures '\n' !in AssetsUrl
  {
    assert '\n' !in AssetsHost;
    assert '\n' !in AssetsRepo;
  }

  /** The fixed parts of a slide line hold no '\n'. */
  lemma SlideTemplateOneLine()
    ensures '\n' !in SlideOpen && '\n' !in SlideAlt && '\n' !in SlideClose
  {
    AssetsUrlOneLine();
    assert '\n' !in ImageOpen;
  }

  /** A slide line spans one line when its link does. */
  lemma SlideLineOneLine(link: string)
    requires '\n' !in link
    ensures '\n' !in SlideLine(link)
  {
    var b := Basename(link);
    SlideTemplateOneLine();
    forall i | 0 <= i < |b| ensures b[i] != '\n' {
      assert b[i] == link[|link| - |b| + i];
    }
  }

  /** The slide text reads as one line per link, in link order, each made of
      the fixed image markup around the link and its base name; it is empty
      exactly when there are no links. */
  lemma SlideText(links: seq<string>)
    requires forall k :: 0 <= k < |links| ==> '\n' !in links[k]
    ensures Unlines(SlideLines(links)) == "" <==> links == []
    ensures |Lines(Unlines(SlideLines(links)))| == |links|
    ensures forall k :: 0 <= k < |links| ==>
      Lines(Unlines(SlideLines(links)))[k] == SlideOpen + links[k] + SlideAlt + Basename(links[k]) + SlideClose
  {
    SlideLinesAt(links);
    var ls := SlideLines(links);
    forall k | 0 <= k < |ls| ensures '\n' !in ls[k] {
      SlideLineOneLine(links[k]);
    }
    LinesUnlines(ls);
  }

  // ---------------------------------------------------------------------
  // The indicator text

  /** There are max(1, n) indicator lines for n links. */
  lemma {:induction false} IndicatorLinesLength(n: nat)
    ensures |IndicatorLines(n)| == if n == 0 then 1 else n
  {
    if n > 1 {
      IndicatorLinesLength(n - 1);
    }
  }

  /** Line i of the indicator lines is the indicator line for index i. */
  lemma {:induction false} IndicatorLinesIndex(n: nat, i: nat)
    requires i < n || i == 0
    ensures i < |IndicatorLines(n)| && IndicatorLines(n)[i] == IndicatorLine(i)
  {
    IndicatorLinesLength(n);
    if n > 1 && i < n - 1 {
      IndicatorLinesIndex(n - 1, i);
      var prev := IndicatorLines(n - 1);
      assert (prev + [IndicatorLine(n - 1)])[i] == prev[i];
    }
  }

  /** All of the indicator lines, line by line. */
  lemma IndicatorLinesAt(n: nat)
    ensures |IndicatorLines(n)| == if n == 0 then 1 else n
    ensures forall i :: 0 <= i < |IndicatorLines(n)| ==> IndicatorLines(n)[i] == IndicatorLine(i)
  {
    IndicatorLinesLength(n);
    forall i | 0 <= i < |IndicatorLines(n)| ensures IndicatorLines(n)[i] == IndicatorLine(i) {
      IndicatorLinesIndex(n, i);
    }
  }

  /** The opening of an indicator line holds neither '\n' nor 'v'. */
  lemma IndicatorOpenChars()
    ensures '\n' !in IndicatorOpen && 'v' !in IndicatorOpen
  {
    assert '\n' !in IndicatorTarget && 'v' !in IndicatorTarget;
  }

  /** The active line spans one line. */
  lemma ActiveIndicatorOneLine()
    ensures '\n' !in ActiveIndicator
  {
    IndicatorOpenChars();
    assert '\n' !in ActiveMarker;
  }

  /** The indicator lines hold no '\n' and no 'v' except in the active
      line, where 'v' comes from its `class="active"`. */
  lemma IndicatorLineChars(i: nat)
    ensures '\n' !in IndicatorLine(i)
    ensures i > 0 ==> 'v' !in IndicatorLine(i)
  {
    IndicatorOpenChars();
    if i == 0 {
      ActiveIndicatorOneLine();
    } else {
      var d := NatToString(i);
      assert 'v' !in d && '\n' !in d by {
        forall j | 0 <= j < |d| ensures d[j] != 'v' && d[j] != '\n' {
          assert '0' <= d[j] <= '9';
        }
      }
    }
  }

  /** The indicator text reads as max(1, n) lines for n links: the active
      line for slide 0 first, even with no links at all, then for every later
      index i the line that targets slide i, written in decimal. */
  lemma IndicatorText(n: nat)
    ensures |Lines(Unlines(IndicatorLines(n)))| == if n == 0 then 1 else n
    ensures Lines(Unlines(IndicatorLines(n)))[0] == ActiveIndicator
    ensures forall i :: 1 <= i < n ==>
      Lines(Unlines(IndicatorLines(n)))[i] == IndicatorOpen + NatToString(i) + IndicatorClose
  {
    IndicatorLinesAt(n);
    var ls := IndicatorLines(n);
    forall i | 0 <= i < |ls| ensures '\n' !in ls[i] {
      IndicatorLineChars(i);
    }
    LinesUnlines(ls);
  }

  /** Exactly one indicator line carries `class="active"`, and it is the
      first. */
  lemma SingleActive(n: nat)
    ensures forall i :: 0 <= i < |IndicatorLines(n)| ==>
      (Contains(IndicatorLines(n)[i], ActiveMarker) <==> i == 0)
  {
    IndicatorLinesAt(n);
    ContainsMiddle(IndicatorOpen + "0\" ", ActiveMarker, "></li>");
    assert 'v' in ActiveMarker by {
      assert ActiveMarker[11] == 'v';
    }
    forall i | 1 <= i < |IndicatorLines(n)| ensures !Contains(IndicatorLines(n)[i], ActiveMarker) {
      IndicatorLineChars(i);
      if Contains(IndicatorLine(i), ActiveMarker) {
        ContainsChar(IndicatorLine(i), ActiveMarker, 'v');
      }
    }
  }

  // ---------------------------------------------------------------------
  // Whole listings

  /** What `photos.txt` reads as for a listing whose folder and names hold
      no line break: one line per ".png" name, in listing order, linking to
      the name under the folder, with the base name of the normalised name as
      the `alt` text; for a name without '/' or '\\' that is the name itself. */
  lemma ListingSlides(folder: string, names: seq<string>)
    requires '\n' !in folder
    requires forall i :: 0 <= i < |names| ==> '\n' !in names[i]
    ensures var png := PngNames(names);
      var lines := Lines(Unlines(SlideLines(Links(folder, names))));
      |lines| == |png| &&
      forall k :: 0 <= k < |png| ==>
        lines[k] == SlideOpen + FolderPath(folder, png[k]) + SlideAlt + Basename(Normalize(png[k])) + SlideClose &&
        ('/' !in png[k] && '\\' !in png[k] ==> Basename(Normalize(png[k])) == png[k])
  {
    var png, links := PngNames(names), Links(folder, names);
    var lines := Lines(Unlines(SlideLines(links)));
    assert |lines| == |links| && forall k :: 0 <= k < |links| ==>
      lines[k] == SlideOpen + links[k] + SlideAlt + Basename(links[k]) + SlideClose
    by {
      LinksAvoid(folder, names, '\n');
      SlideText(links);
    }
    LinksOfPngNames(folder, names);
    forall k | 0 <= k < |png|
      ensures lines[k] == SlideOpen + FolderPath(folder, png[k]) + SlideAlt + Basename(Normalize(png[k])) + SlideClose
      ensures '/' !in png[k] && '\\' !in png[k] ==> Basename(Normalize(png[k])) == png[k]
    {
      var name := png[k];
      assert links[k] == FolderPath(folder, name);
      AltIsName(folder, name);
      if '/' !in name && '\\' !in name {
        PlainNameIsBasename(name);
      }
    }
  }

  /** A listing without ".png" names gives no links, an empty `photos.txt`,
      and an `indicators.txt` that still holds the one active line. */
  lemma {:induction false} NoPngFiles(folder: string, names: seq<string>)
    requires forall i :: 0 <= i < |names| ==> !EndsWith(names[i], PngSuffix)
    ensures Links(folder, names) == []
    ensures Unlines(SlideLines(Links(folder, names))) == ""
    ensures Lines(Unlines(IndicatorLines(|Links(folder, names)|))) == [ActiveIndicator]
  {
    if names != [] {
      NoPngFiles(folder, names[..|names| - 1]);
    }
    IndicatorText(0);
  }
}
