/**
 * The parts of System.IO.Path the upload check relies on.  Which characters
 * separate directories and which may not appear in a file name depend on the
 * operating system, so both are a parameter.
 */
module Paths {
  import opened Text

  datatype Platform = Platform(directorySeparators: set<char>, invalidFileNameChars: set<char>)

  /** Linux and macOS: '/' separates directories; NUL and '/' are invalid in names. */
  const Unix: Platform := Platform({'/'}, {0 as char, '/'})

  /** The position of the last directory separator, or -1. */
  function LastSeparator(path: string, os: Platform): (i: int)
    ensures -1 <= i < |path|
    ensures i >= 0 ==> path[i] in os.directorySeparators
    ensures forall k :: i < k < |path| ==> path[k] !in os.directorySeparators
  {
    if path == [] then -1
    else if path[|path| - 1] in os.directorySeparators then |path| - 1
    else LastSeparator(path[..|path| - 1], os)
  }

  /** `Path.GetFileName`: what follows the last directory separator. */
  function GetFileName(path: string, os: Platform): (name: string)
    ensures |name| <= |path| && name == path[|path| - |name|..]
    ensures forall k :: 0 <= k < |name| ==> name[k] !in os.directorySeparators
    ensures |name| < |path| ==> path[|path| - |name| - 1] in os.directorySeparators
  {
    path[LastSeparator(path, os) + 1..]
  }

  /** The extension of a file name: from its last '.', or "" when it has none or ends with one. */
  function ExtensionOf(name: string): (ext: string)
    ensures ext == "" || (|ext| >= 2 && ext[0] == '.' && '.' !in ext[1..])
  {
    var dot := LastIndexOf(name, '.');
    if dot < 0 || dot == |name| - 1 then "" else name[dot..]
  }

  /** The stem of a file name: everything before its last '.'. */
  function StemOf(name: string): (stem: string)
    ensures |stem| <= |name| && stem == name[..|stem|]
    ensures '.' in name ==> |stem| < |name|
  {
    var dot := LastIndexOf(name, '.');
    if dot < 0 then name else name[..dot]
  }

  /** `Path.GetExtension`. */
  function GetExtension(path: string, os: Platform): string {
    ExtensionOf(GetFileName(path, os))
  }

  /** `Path.GetFileNameWithoutExtension`. */
  function GetFileNameWithoutExtension(path: string, os: Platform): string {
    StemOf(GetFileName(path, os))
  }

  /**
   * A non-empty extension is a tail of the name, and the extension is empty
   * exactly when the name has no '.' or ends with one.
   */
  lemma ExtensionIsTail(name: string)
    ensures var ext := ExtensionOf(name);
      ext != "" ==> |ext| <= |name| && ext == name[|name| - |ext|..]
    ensures ExtensionOf(name) == "" <==> ('.' !in name || name[|name| - 1] == '.')
  {
    var dot := LastIndexOf(name, '.');
    if dot >= 0 && dot != |name| - 1 {
      assert name[|name| - 1] == name[dot + 1..][|name| - dot - 2];
    }
  }

  /**
   * Splitting a name into stem and extension loses nothing, unless the
   * name ends with '.', which both parts drop.
   */
  lemma StemAndExtensionMakeName(name: string)
    requires name == [] || name[|name| - 1] != '.'
    ensures StemOf(name) + ExtensionOf(name) == name
  {
    var dot := LastIndexOf(name, '.');
    if dot >= 0 {
      assert name == name[..dot] + name[dot..];
    }
  }
}
