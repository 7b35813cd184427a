/**
 * The image importer's form checks (`dir`, `code_suffix`), the split of a
 * single-file path into directory and file name done by `addFiles`, the
 * filename sanitiser `formatName` and the product code taken from a file name.
 * Filesystem answers (`is_file`, `is_dir`) are parameters.
 */
module ImageForm {
  import opened Wrappers
  import opened PhpText

  /** `PATH`: where the images are kept; it ends with '/'. */
  const IMAGE_DIR: string := "/home/yourname/public_html/images/source/"

  // ---------------------------------------------------------------------
  // The `dir` field.

  datatype DirError =
    | DirRequired        // '* Required field'
    | InvalidDirectory   // '* Invalid directory'
    | DirNotFound        // '* Invalid directory or file'

  function LowerString(s: string): (r: string)
    ensures |r| == |s| && forall i :: 0 <= i < |s| ==> r[i] == Lower(s[i])
  {
    seq(|s|, i requires 0 <= i < |s| => Lower(s[i]))
  }

  /**
   * The path relative to `PATH` that the `dir` field names: "." and "/" mean
   * `PATH` itself; anything else loses its leading and trailing slashes and
   * backslashes and, unless it names a file, gets one trailing '/'.
   */
  function NormaliseDir(dir: string, isFile: string -> bool): (r: string)
    ensures dir == "." || dir == "/" ==> r == ""
    ensures dir != "." && dir != "/" ==>
      var t := Trim(dir, IsSlash);
      r == (if isFile(IMAGE_DIR + t) then t else t + "/")
  {
    if LowerString(dir) in [".", "/"] then
      ""
    else
      LowerStringPunct(dir, '.');
      LowerStringPunct(dir, '/');
      var t := Trim(dir, IsSlash);
      if !isFile(IMAGE_DIR + t) then t + "/" else t
  }

  /** Lower-casing leaves '.' and '/' alone and produces them from nothing else. */
  lemma {:induction false} LowerStringPunct(s: string, c: char)
    requires c == '.' || c == '/'
    ensures LowerString(s) == [c] <==> s == [c]
  {
    if LowerString(s) == [c] {
      assert Lower(s[0]) == c;
    }
    if s == [c] {
      assert LowerString(s)[0] == c;
    }
  }

  /** The whole `dir` check, including the final existence test under `PATH`. */
  function CheckDir(posted: string, isFile: string -> bool, isDir: string -> bool): (r: Result<string, DirError>)
    ensures var dir := Trim(posted, IsTrimSpace);
      && (PhpEmpty(dir) <==> r == Err(DirRequired))
      && (!PhpEmpty(dir) && HasDotDot(dir) <==> r == Err(InvalidDirectory))
    ensures r.Ok? ==> r.value == NormaliseDir(Trim(posted, IsTrimSpace), isFile)
                      && (isDir(IMAGE_DIR + r.value) || isFile(IMAGE_DIR + r.value))
    ensures var dir := Trim(posted, IsTrimSpace); var d := NormaliseDir(dir, isFile);
      !PhpEmpty(dir) && !HasDotDot(dir) ==>
        && (r.Ok? <==> isDir(IMAGE_DIR + d) || isFile(IMAGE_DIR + d))
        && (r == Err(DirNotFound) <==> !isDir(IMAGE_DIR + d) && !isFile(IMAGE_DIR + d))
  {
    var dir := Trim(posted, IsTrimSpace);
    if PhpEmpty(dir) then Err(DirRequired)
    else if HasDotDot(dir) then Err(InvalidDirectory)
    else
      var d := NormaliseDir(dir, isFile);
      if !isDir(IMAGE_DIR + d) && !isFile(IMAGE_DIR + d) then Err(DirNotFound) else Ok(d)
  }

  /** A normalised directory neither starts with a slash or backslash nor carries anything but one final '/'. */
  lemma {:induction false} NormalisedDirShape(dir: string, isFile: string -> bool)
    requires dir != "." && dir != "/"
    ensures var r := NormaliseDir(dir, isFile); var t := Trim(dir, IsSlash);
      && (t == [] || (!IsSlash(t[0]) && !IsSlash(t[|t| - 1])))
      && (r == t || r == t + "/")
      && (r == t + "/" <==> !isFile(IMAGE_DIR + t))
  {
    TrimSplits(dir, IsSlash);
    var t := Trim(dir, IsSlash);
    var lo, hi := TrimStart(dir, IsSlash), KeepLen(dir, IsSlash);
    if t != [] {
      assert t[0] == dir[lo] && t[|t| - 1] == dir[hi - 1];
    }
    assert |t + "/"| != |t|;
  }

  // ---------------------------------------------------------------------
  // The `code_suffix` field.

  datatype SuffixError = SuffixCharacters   // '* Valid characters are -, _, a-z, and 0-9'

  /** `[-_a-z0-9]` under `/i`. */
  predicate SuffixChar(c: char) {
    IsAsciiLetter(c) || IsDigit(c) || c == '-' || c == '_'
  }

  /** `code_suffix`: absent, "_" or "-" alone mean no suffix; otherwise it must match `/^[-_a-z0-9]*$/i`. */
  function CheckCodeSuffix(posted: Option<string>): (r: Result<string, SuffixError>)
    ensures posted.None? || posted.value in ["_", "-"] ==> r == Ok("")
    ensures posted.Some? && posted.value !in ["_", "-"] ==>
      (r.Ok? <==> WholeMatch(posted.value, SuffixChar, 0)) && (r.Ok? ==> r.value == posted.value)
  {
    if posted.None? || posted.value == "_" || posted.value == "-" then Ok("")
    else if !WholeMatch(posted.value, SuffixChar, 0) then Err(SuffixCharacters)
    else Ok(posted.value)
  }

  // ---------------------------------------------------------------------
  // The single-file case of `addFiles`.

  /**
   * As written: explode the path on '/', pop the file name, implode the rest
   * and append '/' unless PHP's `empty()` holds, which is also the case for
   * the directory "0".
   */
  function SplitSingleFileAsWritten(path: string): (r: (string, string))
    ensures r.0 == "" || r.0 == "0" || r.0[|r.0| - 1] == '/'
  {
    var parts := Explode('/', path);
    var dir := Implode('/', parts[..|parts| - 1]);
    (if PhpEmpty(dir) then dir else dir + "/", parts[|parts| - 1])
  }

  /** Corrected: append '/' whenever the directory part is not the empty string. */
  function SplitSingleFile(path: string): (r: (string, string))
    ensures r.0 == "" || r.0[|r.0| - 1] == '/'
  {
    var parts := Explode('/', path);
    var dir := Implode('/', parts[..|parts| - 1]);
    (if dir == "" then dir else dir + "/", parts[|parts| - 1])
  }

  /**
   * The corrected split yields a file name without '/' and a directory that
   * is empty or ends in '/', and for a relative path the two join back to it.
   */
  lemma {:induction false} SplitSingleFileParts(path: string)
    ensures var r := SplitSingleFile(path);
      && '/' !in r.1
      && (r.0 == [] || r.0[|r.0| - 1] == '/')
      && (path == [] || path[0] != '/' ==> r.0 + r.1 == path)
  {
    var parts := Explode('/', path);
    var dir := Implode('/', parts[..|parts| - 1]);
    var file := parts[|parts| - 1];
    var i := LastIndexOf(path, '/');
    assert dir == (if i < 0 then [] else path[..i]) && file == path[i + 1..] by {
      ExplodeLast('/', path);
    }
    if i > 0 {
      SplitAt(path, i);
    }
  }

  /** A string is the text before index `i`, the character at `i` and the text after it. */
  lemma {:induction false} SplitAt(s: string, i: nat)
    requires i < |s|
    ensures s[..i] + [s[i]] + s[i + 1..] == s
  {
    assert s == s[..i] + s[i..];
    assert s[i..] == [s[i]] + s[i + 1..];
  }

  /** The file `addFile` then looks for: `PATH . $dir . $file`. */
  function AddFileTarget(split: (string, string)): string {
    IMAGE_DIR + split.0 + split.1
  }

  /** With the correction, `addFile` looks at exactly the file the form named. */
  lemma {:induction false} SingleFileTargetIsInput(path: string)
    requires path == [] || path[0] != '/'
    ensures AddFileTarget(SplitSingleFile(path)) == IMAGE_DIR + path
  {
    SplitSingleFileParts(path);
  }

  /**
   * As written, "0/a.jpg" splits into "0" and "a.jpg" with no '/' between
   * them, and `addFile` looks for "0a.jpg" instead.
   */
  lemma {:induction false} SplitAsWrittenLosesSlash()
    ensures SplitSingleFileAsWritten("0/a.jpg") == ("0", "a.jpg")
    ensures AddFileTarget(SplitSingleFileAsWritten("0/a.jpg")) == IMAGE_DIR + "0a.jpg"
    ensures AddFileTarget(SplitSingleFileAsWritten("0/a.jpg")) != AddFileTarget(SplitSingleFile("0/a.jpg"))
  {
    ExplodeZeroDir();
    assert ["0", "a.jpg"][..1] == ["0"];
    SingleFileTargetIsInput("0/a.jpg");
    TargetsDiffer();
  }

  lemma {:induction false} ExplodeZeroDir()
    ensures Explode('/', "0/a.jpg") == ["0", "a.jpg"]
  {
    assert "0/a.jpg" == "0" + ['/'] + "a.jpg";
    ExplodeAppend('/', "0", "a.jpg");
    ExplodeNoSep('/', "0");
    ExplodeNoSep('/', "a.jpg");
  }

  lemma {:induction false} TargetsDiffer()
    ensures IMAGE_DIR + "0" + "a.jpg" != IMAGE_DIR + "0/a.jpg"
  {
    assert (IMAGE_DIR + "0" + "a.jpg")[|IMAGE_DIR| + 1] == 'a';
    assert (IMAGE_DIR + "0/a.jpg")[|IMAGE_DIR| + 1] == '/';
  }

  // ---------------------------------------------------------------------
  // `formatName` and the product code.

  /** `[\w\.\-\_]`: ASCII letters, digits, '_', '.', '-'. */
  predicate NameChar(c: char) {
    IsAsciiLetter(c) || IsDigit(c) || c == '_' || c == '.' || c == '-'
  }

  /** `formatName`: every byte outside the allowed set becomes '_'. */
  function FormatName(name: string): (r: string)
    ensures |r| == |name|
    ensures forall i :: 0 <= i < |r| ==> NameChar(r[i])
    ensures forall i :: 0 <= i < |r| ==> r[i] == (if NameChar(name[i]) then name[i] else '_')
  {
    seq(|name|, i requires 0 <= i < |name| => if NameChar(name[i]) then name[i] else '_')
  }

  /** Sanitising twice is sanitising once, and a name is left alone exactly when it is already clean. */
  lemma {:induction false} FormatNameFixpoint(name: string)
    ensures FormatName(FormatName(name)) == FormatName(name)
    ensures FormatName(name) == name <==> forall i :: 0 <= i < |name| ==> NameChar(name[i])
  {
    if FormatName(name) == name {
      forall i | 0 <= i < |name| ensures NameChar(name[i]) { assert name[i] == FormatName(name)[i]; }
    }
  }

  /**
   * `substr_replace($file, '', strrpos($file, '.'))`: the name up to its last
   * '.'; without a '.', `strrpos` gives false, taken as offset 0, and the
   * whole name is cut.
   */
  function ProductCode(file: string): (code: string)
    ensures '.' !in file ==> code == ""
    ensures '.' in file ==>
      |code| < |file| && file[..|code|] == code && file[|code|] == '.' && '.' !in file[|code| + 1..]
  {
    var i := LastIndexOf(file, '.');
    var start := if i < 0 then 0 else i;
    file[..start]
  }
}
