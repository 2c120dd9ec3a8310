/**
 * The default destination path of the converter's `main` (src/main.rs): without an explicit destination, the
 * output goes next to the source, named after the source's file stem with `-converted` appended and the source's
 * extension put back. Paths follow the rules of Rust's `std::path`, reduced to what the naming rule touches.
 */
module Destination {
  import opened Wrappers

  /**
   * A path: the components before the file name, and the file name, absent when the path ends in `..` or is a
   * root. Separators and prefixes are not modelled.
   */
  datatype Path = Path(dir: seq<string>, fileName: Option<string>)

  predicate NoDot(s: string) {
    forall j :: 0 <= j < |s| ==> s[j] != '.'
  }

  /** The index of the last `.` of a name, if it has one. */
  function LastDot(s: string): (r: Option<nat>)
    ensures r.None? <==> NoDot(s)
    ensures r.Some? ==> r.value < |s| && s[r.value] == '.' && NoDot(s[r.value + 1..])
  {
    if s == [] then None
    else if s[|s| - 1] == '.' then Some(|s| - 1)
    else
      var r := LastDot(s[..|s| - 1]);
      assert forall j :: 0 <= j < |s| - 1 ==> s[..|s| - 1][j] == s[j];
      if r.Some? then
        assert s[r.value + 1..] == s[..|s| - 1][r.value + 1..] + [s[|s| - 1]];
        r
      else
        r
  }

  /**
   * `rsplit_file_at_dot`: `..` and a name whose only dot leads it are all stem; a name without a dot is only the
   * part after the (missing) dot; otherwise the parts before and after the last dot.
   */
  function SplitFileAtDot(file: string): (Option<string>, Option<string>) {
    if file == ".." then (Some(file), None)
    else
      match LastDot(file)
      case None => (None, Some(file))
      case Some(i) => if i == 0 then (Some(file), None) else (Some(file[..i]), Some(file[i + 1..]))
  }

  /** `Path::file_stem`: the part before the last dot, or the whole name. */
  function FileStemOfName(name: string): string {
    var (before, after) := SplitFileAtDot(name);
    if before.Some? then before.value else after.value
  }

  /** `Path::extension`: the part after the last dot, when there is a part before it. */
  function ExtensionOfName(name: string): Option<string> {
    var (before, after) := SplitFileAtDot(name);
    if before.Some? then after else None
  }

  function FileStem(p: Path): (r: Option<string>)
    ensures r.Some? <==> p.fileName.Some?
  {
    if p.fileName.Some? then Some(FileStemOfName(p.fileName.value)) else None
  }

  function Extension(p: Path): Option<string> {
    if p.fileName.Some? then ExtensionOfName(p.fileName.value) else None
  }

  /** `Path::with_file_name`: the same directory with the given file name. */
  function WithFileName(p: Path, name: string): (r: Path)
    ensures r.dir == p.dir && r.fileName == Some(name)
  {
    p.(fileName := Some(name))
  }

  /** What `set_extension` leaves of a name: its stem, then a dot and the extension unless that is empty. */
  function ReplaceExtension(name: string, ext: string): string {
    if ext == "" then FileStemOfName(name) else FileStemOfName(name) + "." + ext
  }

  /**
   * `PathBuf::set_extension`: without a file stem nothing changes and `false` comes back; otherwise the path is
   * cut right after the file stem and the extension, if not empty, is appended after a dot. The `&mut self`
   * update is modelled as returning the new path.
   */
  method SetExtension(self: Path, extension: string) returns (r: Path, changed: bool)
    ensures changed <==> FileStem(self).Some?
    ensures !changed ==> r == self
    ensures changed ==> r.dir == self.dir && r.fileName == Some(ReplaceExtension(self.fileName.value, extension))
  {
    var fileStem := FileStem(self);
    if fileStem.None? {
      return self, false;
    }
    var v := fileStem.value;
    if extension != "" {
      v := v + "." + extension;
    }
    r := self.(fileName := Some(v));
    changed := true;
  }

  /** The file name the default destination gets, as the code computes it. */
  function AsWrittenName(file: Path): Option<string> {
    if FileStem(file).None? then None
    else
      var srcFilename := FileStem(file).value + "-converted";
      match Extension(file)
      case Some(fileExt) => Some(ReplaceExtension(srcFilename, fileExt))
      case None => Some(srcFilename)
  }

  /**
   * The destination `main` writes to (src/main.rs:28-40): an explicit destination is used as given; otherwise
   * the name is the source's file stem with `-converted` pushed onto it, set as file name beside the source,
   * and the source's extension is set on the result. A source without a file stem makes `expect` panic, which
   * is modelled as an error.
   */
  method DefaultDestination(file: Path, destFile: Option<Path>) returns (r: Result<Path>)
    ensures destFile.Some? ==> r == Ok(destFile.value)
    ensures destFile.None? ==> (r.Err? <==> FileStem(file).None?)
    ensures destFile.None? && r.Ok? ==> r.value.dir == file.dir && r.value.fileName == AsWrittenName(file)
  {
    if destFile.Some? {
      return Ok(destFile.value);
    }
    var stem := FileStem(file);
    if stem.None? {
      return Err(Error("<file> must be a file"));
    }
    var srcFilename := stem.value;
    srcFilename := srcFilename + "-converted";
    var destPath := WithFileName(file, srcFilename);
    var fileExt := Extension(file);
    if fileExt.Some? {
      var changed;
      destPath, changed := SetExtension(destPath, fileExt.value);
    }
    r := Ok(destPath);
  }

  // Properties of the naming rule

  /** A name made of a prefix, a dot and a dotless rest has its last dot right after the prefix. */
  lemma {:induction false} LastDotAfter(s: string, t: string)
    requires NoDot(t)
    ensures LastDot(s + "." + t) == Some(|s|)
    decreases |t|
  {
    if t == [] {
      assert s + "." + t == s + ".";
    } else {
      var u := s + "." + t;
      var t' := t[..|t| - 1];
      assert u[..|u| - 1] == s + "." + t';
      assert NoDot(t') by {
        forall j | 0 <= j < |t'| ensures t'[j] != '.' {
          assert t'[j] == t[j];
        }
      }
      assert u[|u| - 1] == t[|t| - 1];
      LastDotAfter(s, t');
    }
  }

  /** Splitting `stem.ext`, with a non-empty stem and a non-empty dotless extension, gives back both parts. */
  lemma SplitStemExt(stem: string, ext: string)
    requires stem != [] && ext != [] && NoDot(ext)
    ensures FileStemOfName(stem + "." + ext) == stem
    ensures ExtensionOfName(stem + "." + ext) == Some(ext)
  {
    var name := stem + "." + ext;
    LastDotAfter(stem, ext);
    assert name[..|stem|] == stem;
    assert name[|stem| + 1..] == ext;
  }

  /** A dotless name is all stem and has no extension. */
  lemma SplitNoDot(name: string)
    requires NoDot(name)
    ensures FileStemOfName(name) == name && ExtensionOfName(name) == None
  {
    assert name != ".." by {
      assert |name| == 0 || name[0] != '.';
    }
  }

  /** Appending `-converted` adds no dot. */
  lemma ConvertedNoDot(name: string)
    requires NoDot(name)
    ensures NoDot(name + "-converted")
  {
    var converted := name + "-converted";
    forall j | 0 <= j < |converted| ensures converted[j] != '.' {
      if j < |name| {
        assert converted[j] == name[j];
      } else {
        assert converted[j] == "-converted"[j - |name|];
      }
    }
  }

  /** A source `name.ext` (one dot, both parts present) gets the default `name-converted.ext`. */
  lemma AsWrittenOneDot(dir: seq<string>, name: string, ext: string)
    requires name != [] && ext != [] && NoDot(name) && NoDot(ext)
    ensures AsWrittenName(Path(dir, Some(name + "." + ext))) == Some(name + "-converted" + "." + ext)
  {
    SplitStemExt(name, ext);
    ConvertedNoDot(name);
    SplitNoDot(name + "-converted");
  }

  /** A source without an extension gets the default `stem-converted`, with no extension. */
  lemma AsWrittenNoExtension(dir: seq<string>, name: string)
    requires NoDot(name)
    ensures AsWrittenName(Path(dir, Some(name))) == Some(name + "-converted")
  {
    SplitNoDot(name);
  }

  /**
   * As written, a source `a.b.ext` gets the default name `a.ext`: `set_extension` cuts the pushed name
   * `a.b-converted` at its own last dot, so the `b` part of the stem and the suffix are lost.
   */
  lemma AsWrittenCutsDottedStem(dir: seq<string>, a: string, b: string, ext: string)
    requires a != [] && ext != [] && NoDot(b) && NoDot(ext)
    ensures AsWrittenName(Path(dir, Some(a + "." + b + "." + ext))) == Some(a + "." + ext)
  {
    var stem := a + "." + b;
    var srcFilename := stem + "-converted";
    SplitStemExt(stem, ext);
    ConvertedNoDot(b);
    SplitStemExt(a, b + "-converted");
    assert srcFilename == a + "." + (b + "-converted");
    assert FileStemOfName(srcFilename) == a;
  }

  /** The instance: the source `a.b.rnote` gets the default name `a.rnote`. */
  lemma AsWrittenLosesDottedStem()
    ensures AsWrittenName(Path([], Some("a" + "." + "b" + "." + "rnote"))) == Some("a" + "." + "rnote")
  {
    AsWrittenCutsDottedStem([], "a", "b", "rnote");
  }

  /** The name the rule evidently intends: the whole stem, then `-converted`, then the extension if any. */
  function IntendedName(file: Path): Option<string> {
    if FileStem(file).None? then None
    else
      var srcFilename := FileStem(file).value + "-converted";
      match Extension(file)
      case Some(fileExt) => Some(if fileExt == "" then srcFilename else srcFilename + "." + fileExt)
      case None => Some(srcFilename)
  }

  /**
   * The corrected rule: the extension is appended to the pushed name instead of set with `set_extension`, which
   * would cut the name at its own last dot.
   */
  method DefaultDestinationIntended(file: Path, destFile: Option<Path>) returns (r: Result<Path>)
    ensures destFile.Some? ==> r == Ok(destFile.value)
    ensures destFile.None? ==> (r.Err? <==> FileStem(file).None?)
    ensures destFile.None? && r.Ok? ==> r.value.dir == file.dir && r.value.fileName == IntendedName(file)
  {
    if destFile.Some? {
      return Ok(destFile.value);
    }
    var stem := FileStem(file);
    if stem.None? {
      return Err(Error("<file> must be a file"));
    }
    var srcFilename := stem.value;
    srcFilename := srcFilename + "-converted";
    var fileExt := Extension(file);
    if fileExt.Some? && fileExt.value != "" {
      srcFilename := srcFilename + "." + fileExt.value;
    }
    r := Ok(WithFileName(file, srcFilename));
  }

  /** An extension never holds a dot: it is what follows the last one. */
  lemma ExtensionHasNoDot(name: string)
    requires ExtensionOfName(name).Some?
    ensures NoDot(ExtensionOfName(name).value)
  {
  }

  /**
   * The intended name keeps the source's stem whole, followed by `-converted`, and keeps its extension: reading
   * the stem and extension of the destination gives exactly those back.
   */
  lemma IntendedKeepsStemAndExtension(file: Path)
    requires FileStem(file).Some? && FileStem(file).value != [] && Extension(file).Some? && Extension(file).value != []
    ensures FileStemOfName(IntendedName(file).value) == FileStem(file).value + "-converted"
    ensures ExtensionOfName(IntendedName(file).value) == Extension(file)
  {
    ExtensionHasNoDot(file.fileName.value);
    SplitStemExt(FileStem(file).value + "-converted", Extension(file).value);
  }

  /** For `a.b.rnote` the intended name is `a.b-converted.rnote`, unlike the name as written. */
  lemma IntendedKeepsDottedStem()
    ensures IntendedName(Path([], Some("a" + "." + "b" + "." + "rnote"))) == Some("a" + "." + "b" + "-converted" + "." + "rnote")
    ensures IntendedName(Path([], Some("a" + "." + "b" + "." + "rnote")))
            != AsWrittenName(Path([], Some("a" + "." + "b" + "." + "rnote")))
  {
    SplitStemExt("a" + "." + "b", "rnote");
    AsWrittenLosesDottedStem();
  }
}
