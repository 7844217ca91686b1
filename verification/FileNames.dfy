/** Names of rotated files: `file_helper::split_by_extenstion` and `rotating_file_sink::calc_filename`. */
module FileNames {
  import opened Decimal

  const FOLDER_SEP := '/'

  ghost predicate NoneFrom(s: string, start: nat, c: char) {
    forall k :: start <= k < |s| ==> s[k] != c
  }

  /** The last place of `c` before position `n`, or -1. */
  function RFindBefore(s: string, c: char, n: nat): (i: int)
    requires n <= |s|
    ensures -1 <= i < n
    ensures i >= 0 ==> s[i] == c
    ensures forall k :: i < k < n ==> s[k] != c
  {
    if n == 0 then -1 else if s[n - 1] == c then n - 1 else RFindBefore(s, c, n - 1)
  }

  /** std::string::rfind of one character; -1 stands for npos. */
  function RFind(s: string, c: char): (i: int)
    ensures -1 <= i < |s|
    ensures i >= 0 ==> s[i] == c
    ensures NoneFrom(s, i + 1, c)
  {
    RFindBefore(s, c, |s|)
  }

  lemma RFindIs(s: string, c: char, i: int)
    requires -1 <= i < |s| && (i >= 0 ==> s[i] == c) && NoneFrom(s, i + 1, c)
    ensures RFind(s, c) == i
  {
    hide RFind;
  }

  /** The name `fname` has its extension at position `n`. */
  ghost predicate ExtensionAt(fname: string, n: nat) {
    && 0 < n < |fname| - 1 && fname[n - 1] != FOLDER_SEP && fname[n] == '.'
    && NoneFrom(fname, n + 1, '.') && NoneFrom(fname, n + 1, FOLDER_SEP)
  }

  /** Base name and extension; the name as a whole when it has no extension. */
  function SplitByExtension(fname: string): (r: (string, string))
    ensures r.0 + r.1 == fname
    ensures r.1 != [] <==> ExtensionAt(fname, |r.0|)
    ensures r.1 == [] ==> forall n: nat :: !ExtensionAt(fname, n)
  {
    hide RFind;
    var extIndex := RFind(fname, '.');
    if extIndex == -1 || extIndex == 0 || extIndex == |fname| - 1 then (fname, "")
    else
      var folderIndex := RFind(fname, FOLDER_SEP);
      if folderIndex != -1 && folderIndex >= extIndex - 1 then (fname, "")
      else (fname[..extIndex], fname[extIndex..])
  }

  /** A dot and at least one more character, without another dot or a folder. */
  ghost predicate IsExtension(ext: string) {
    |ext| >= 2 && ext[0] == '.' && NoneFrom(ext, 1, '.') && NoneFrom(ext, 1, FOLDER_SEP)
  }

  /** What may stand before an extension: not nothing, and not just a folder, so hidden files keep their name. */
  ghost predicate IsBase(base: string) {
    base != [] && base[|base| - 1] != FOLDER_SEP
  }

  lemma ExtensionFound(fname: string, n: nat)
    ensures ExtensionAt(fname, n) ==> SplitByExtension(fname) == (fname[..n], fname[n..])
    ensures n < |fname| && SplitByExtension(fname) == (fname[..n], fname[n..]) ==> ExtensionAt(fname, n)
  {
    if ExtensionAt(fname, n) {
      RFindIs(fname, '.', n);
    }
    hide RFind;
  }

  lemma JoinedExtension(base: string, ext: string)
    ensures IsBase(base) && IsExtension(ext) <==> ExtensionAt(base + ext, |base|)
  {
    var fname := base + ext;
    assert forall k :: |base| <= k < |fname| ==> fname[k] == ext[k - |base|];
    assert forall k :: 0 <= k < |ext| ==> ext[k] == fname[k + |base|];
  }

  /** The split finds an extension whenever there is one, and the name determines it. */
  lemma SplitExactly(base: string, ext: string)
    ensures IsBase(base) && IsExtension(ext) <==> ext != [] && SplitByExtension(base + ext) == (base, ext)
  {
    JoinedExtension(base, ext);
    ExtensionFound(base + ext, |base|);
    assert (base + ext)[..|base|] == base && (base + ext)[|base|..] == ext;
    hide *;
  }

  /** The examples in the source's comment. */
  lemma DocumentedSplits()
    ensures SplitByExtension("mylog.txt") == ("mylog", ".txt")
    ensures SplitByExtension("/dir1/dir2/mylog.txt") == ("/dir1/dir2/mylog", ".txt")
    ensures SplitByExtension("my_folder/.mylog.txt") == ("my_folder/.mylog", ".txt")
  {
    assert "mylog" + ".txt" == "mylog.txt";
    assert "/dir1/dir2/mylog" + ".txt" == "/dir1/dir2/mylog.txt";
    assert "my_folder/.mylog" + ".txt" == "my_folder/.mylog.txt";
    assert IsExtension(".txt") && IsBase("mylog") && IsBase("/dir1/dir2/mylog") && IsBase("my_folder/.mylog");
    SplitExactly("mylog", ".txt");
    SplitExactly("/dir1/dir2/mylog", ".txt");
    SplitExactly("my_folder/.mylog", ".txt");
    hide *;
  }

  lemma DocumentedNames()
    ensures SplitByExtension("mylog") == ("mylog", "")
    ensures SplitByExtension("mylog.") == ("mylog.", "")
    ensures SplitByExtension(".mylog") == (".mylog", "")
    ensures SplitByExtension("my_folder/.mylog") == ("my_folder/.mylog", "")
  {
    RFindIs("mylog", '.', -1);
    RFindIs("mylog.", '.', 5);
    RFindIs(".mylog", '.', 0);
    RFindIs("my_folder/.mylog", '.', 10);
    RFindIs("my_folder/.mylog", FOLDER_SEP, 9);
    hide RFind;
  }

  function CalcFilename(filename: string, index: nat): string {
    if index == 0 then filename
    else
      var (basename, ext) := SplitByExtension(filename);
      basename + "." + Digits(index) + ext
  }

  /** The example in the source's comment: the index goes before the extension. */
  lemma DocumentedRotation()
    ensures CalcFilename("logs/mylog.txt", 3) == "logs/mylog.3.txt"
  {
    assert "logs/mylog" + ".txt" == "logs/mylog.txt";
    assert IsExtension(".txt") && IsBase("logs/mylog");
    SplitExactly("logs/mylog", ".txt");
    assert Digits(3) == "3";
    hide SplitByExtension, Digits;
  }

  /** Different indices name different files. */
  lemma CalcFilenameInjective(filename: string, i: nat, j: nat)
    requires CalcFilename(filename, i) == CalcFilename(filename, j)
    ensures i == j
  {
    var (basename, ext) := SplitByExtension(filename);
    hide SplitByExtension, Digits;
    if i > 0 && j > 0 {
      Between(basename + ".", Digits(i), Digits(j), ext);
      DigitsInjective(i, j);
    }
  }

  lemma Between(prefix: string, x: string, y: string, suffix: string)
    requires prefix + x + suffix == prefix + y + suffix
    ensures x == y
  {
    assert x == (prefix + x + suffix)[|prefix|..|prefix| + |x|];
    assert y == (prefix + y + suffix)[|prefix|..|prefix| + |y|];
  }

  /** The mark that rotation adds: a dot and the index. */
  function Mark(index: nat): string {
    "." + Digits(index)
  }

  lemma MarkIsExtension(index: nat)
    ensures IsExtension(Mark(index)) && IsBase(Mark(index)) && NoneFrom(Mark(index), 0, FOLDER_SEP)
  {
    ValueOfDigits(index);
    hide Digits;
  }

  /** A rotated file keeps the extension, or else the index becomes its extension. */
  lemma SplitOfRotated(filename: string, index: nat)
    requires index > 0
    ensures var (basename, ext) := SplitByExtension(filename);
      && (ext != [] ==> SplitByExtension(CalcFilename(filename, index)) == (basename + Mark(index), ext))
      && (ext == [] && IsBase(filename) ==> SplitByExtension(CalcFilename(filename, index)) == (filename, Mark(index)))
  {
    var (basename, ext) := SplitByExtension(filename);
    MarkIsExtension(index);
    CalcIsMarked(filename, index);
    SplitExactly(basename, ext);
    SplitExactly(basename + Mark(index), ext);
    SplitExactly(filename, Mark(index));
    assert filename + Mark(index) + "" == filename + Mark(index);
    hide SplitByExtension, CalcFilename, Mark, IsExtension;
  }

  lemma CalcIsMarked(filename: string, index: nat)
    requires index > 0
    ensures var (basename, ext) := SplitByExtension(filename);
      CalcFilename(filename, index) == basename + Mark(index) + ext
    ensures SplitByExtension(filename).1 == [] ==> SplitByExtension(filename).0 == filename
  {
    var (basename, ext) := SplitByExtension(filename);
    assert basename + "." + Digits(index) == basename + Mark(index);
    assert ext == [] ==> basename + ext == basename;
    hide SplitByExtension;
  }

  /** Everything up to and including the last separator. */
  function Folder(fname: string): string {
    fname[..RFind(fname, FOLDER_SEP) + 1]
  }

  /** Rotated files stay in the folder of the log file. */
  lemma SameFolder(filename: string, index: nat)
    ensures Folder(CalcFilename(filename, index)) == Folder(filename)
  {
    if index > 0 {
      var (basename, ext) := SplitByExtension(filename);
      CalcIsMarked(filename, index);
      MarkIsExtension(index);
      SplitExactly(basename, ext);
      assert NoneFrom(ext, 0, FOLDER_SEP);
      FolderOfPrefix(basename, ext);
      FolderOfPrefix(basename + Mark(index), ext);
      FolderOfPrefix(basename, Mark(index));
      hide SplitByExtension, CalcFilename, Mark, Folder;
    }
  }

  lemma FolderOfPrefix(prefix: string, suffix: string)
    requires NoneFrom(suffix, 0, FOLDER_SEP)
    ensures Folder(prefix + suffix) == Folder(prefix)
  {
    var i := RFind(prefix, FOLDER_SEP);
    NoneInJoined(prefix, suffix, i + 1, FOLDER_SEP);
    RFindIs(prefix + suffix, FOLDER_SEP, i);
    hide RFind, NoneFrom;
  }

  lemma NoneInJoined(prefix: string, suffix: string, start: nat, c: char)
    requires NoneFrom(prefix, start, c) && NoneFrom(suffix, 0, c)
    ensures NoneFrom(prefix + suffix, start, c)
  {
    assert forall k :: |prefix| <= k < |prefix + suffix| ==> (prefix + suffix)[k] == suffix[k - |prefix|];
  }
}
