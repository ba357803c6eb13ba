/**
 * `Captcha::image_type` (classes/captcha.php): the image type named by the
 * extension of a file name.
 */
module Images {
  import opened Wrappers
  import opened Text

  /** The position of the last '.' in `s` (`strrchr`), if there is one. */
  function LastDot(s: string): (r: Option<nat>)
    ensures r.Some? ==> r.value < |s| && s[r.value] == '.'
    ensures r.Some? ==> forall j :: r.value < j < |s| ==> s[j] != '.'
    ensures r.None? ==> forall j :: 0 <= j < |s| ==> s[j] != '.'
  {
    if s == [] then None
    else if s[|s| - 1] == '.' then Some(|s| - 1)
    else LastDot(s[..|s| - 1])
  }

  /**
   * `substr(strrchr($filename, '.'), 1)`: what follows the last '.', and
   * the empty string when there is no '.'.
   */
  function Extension(filename: string): (r: string)
    ensures '.' !in r
    ensures '.' !in filename ==> r == ""
    ensures '.' in filename ==> |r| < |filename| && filename[|filename| - |r| - 1..] == "." + r
  {
    match LastDot(filename)
    case None => ""
    case Some(i) => filename[i + 1..]
  }

  /** The extension of `stem.ext` is `ext` whenever `ext` holds no '.'. */
  lemma ExtensionOfName(stem: string, ext: string)
    requires '.' !in ext
    ensures Extension(stem + "." + ext) == ext
  {
    var name := stem + "." + ext;
    var d := LastDot(name);
    assert name[|stem|] == '.';
    assert d.Some?;
    assert d.value == |stem|;
    assert name[|stem| + 1..] == ext;
  }

  /**
   * `image_type($filename)`: "png", "gif" or "jpeg" (for both "jpg" and
   * "jpeg") by the lower-cased extension, and FALSE (None) otherwise.
   */
  function ImageType(filename: string): (r: Option<string>)
    ensures r == Some("png") <==> Lower(Extension(filename)) == "png"
    ensures r == Some("gif") <==> Lower(Extension(filename)) == "gif"
    ensures r == Some("jpeg") <==> Lower(Extension(filename)) == "jpg" || Lower(Extension(filename)) == "jpeg"
    ensures r.Some? ==> r.value == "png" || r.value == "gif" || r.value == "jpeg"
  {
    var ext := Lower(Extension(filename));
    if ext == "png" then Some("png")
    else if ext == "gif" then Some("gif")
    else if ext == "jpg" || ext == "jpeg" then Some("jpeg")
    else None
  }

  /** A file name without any '.' has no image type. */
  lemma NoDotNoType(filename: string)
    requires '.' !in filename
    ensures ImageType(filename) == None
  {
    assert LastDot(filename) == None;
  }

  /** The image type depends only on the text after the last '.', in any letter case. */
  lemma ImageTypeOfName(stem: string, ext: string)
    requires '.' !in ext
    ensures ImageType(stem + "." + ext) == ImageType("." + Lower(ext))
  {
    ExtensionOfName(stem, ext);
    ExtensionOfName("", Lower(ext));
    assert "" + "." + Lower(ext) == "." + Lower(ext);
    LowerIdempotent(ext);
  }
}
