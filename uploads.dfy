/** The upload-name check `allowed_file` and its allow-list `ALLOWED_EXTENSIONS`. */
module Uploads {
  import opened Wrappers
  import opened Text

  const AllowedExtensions: set<string> := {"png", "jpg", "jpeg", "gif"}

  /** `filename.rsplit(".", 1)[1]` when the name holds a dot: the text after the last dot. */
  function Extension(filename: string): Option<string>
  {
    match LastIndexOf(filename, '.')
    case None => None
    case Some(i) => Some(filename[i + 1..])
  }

  /** `allowed_file`. */
  predicate AllowedFile(filename: string)
  {
    var ext := Extension(filename);
    ext.Some? && Lower(ext.value) in AllowedExtensions
  }

  /** A name is accepted exactly when it holds a dot and the text after its last
      dot, lower-cased, is one of the allowed extensions. */
  lemma AllowedFileMeaning(filename: string)
    ensures AllowedFile(filename) <==>
              exists i :: 0 <= i < |filename| && filename[i] == '.'
                          && '.' !in filename[i + 1..]
                          && Lower(filename[i + 1..]) in AllowedExtensions
  {
    forall i | 0 <= i < |filename| && filename[i] == '.' && '.' !in filename[i + 1..]
      ensures LastIndexOf(filename, '.') == Some(i)
    {
      assert filename[i] in filename;
    }
  }

  /** Upper-casing a name upper-cases its extension and moves no dot. */
  lemma ExtensionOfUpper(filename: string)
    ensures Extension(filename).None? ==> Extension(Upper(filename)).None?
    ensures Extension(filename).Some? ==>
              Extension(Upper(filename)) == Some(Upper(Extension(filename).value))
  {
    LastIndexOfUpper(filename, '.');
    if LastIndexOf(filename, '.').Some? {
      UpperSuffix(filename, LastIndexOf(filename, '.').value + 1);
    }
  }

  /** The check ignores the case of the whole name, not just of the extension. */
  lemma AllowedFileIgnoresCase(filename: string)
    ensures AllowedFile(Upper(filename)) == AllowedFile(filename)
  {
    ExtensionOfUpper(filename);
    if Extension(filename).Some? {
      LowerOfUpper(Extension(filename).value);
    }
  }

  /** `photo.JPG` is accepted: its extension is compared after lower-casing. */
  lemma AcceptsUpperCaseExtension()
    ensures AllowedFile("photo.JPG")
  {
    assert LastIndexOf("photo.JPG", '.') == Some(5);
    assert "photo.JPG"[6..] == "JPG";
    assert Lower("JPG") == "jpg";
  }

  /** `malware.exe` is rejected. */
  lemma RejectsExecutable()
    ensures !AllowedFile("malware.exe")
  {
    assert LastIndexOf("malware.exe", '.') == Some(7);
    assert "malware.exe"[8..] == "exe";
    assert Lower("exe") == "exe";
  }

  /** Only the last extension counts: `archive.png.exe` is rejected. */
  lemma RejectsInnerExtension()
    ensures !AllowedFile("archive.png.exe")
  {
    assert LastIndexOf("archive.png.exe", '.') == Some(11);
    assert "archive.png.exe"[12..] == "exe";
    assert Lower("exe") == "exe";
  }

  /** A name without a dot is rejected. */
  lemma RejectsNameWithoutDot()
    ensures !AllowedFile("notes")
  {
    assert LastIndexOf("notes", '.') == None;
  }
}
