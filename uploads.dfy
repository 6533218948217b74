/** The upload rules shared by the beneficiary and gallery handlers: which file
    names are accepted, and the public path under which a stored file is served. */
module Uploads {
  import opened Wrappers
  import opened Text

  const AllowedExtensions: set<string> := {"png", "jpg", "jpeg", "gif"}

  /** `filename.rsplit('.', 1)[1]`: the text after the last dot, if there is a dot. */
  function Extension(f: string): (r: Option<string>)
    ensures r.None? <==> '.' !in f
    ensures r.Some? ==> && |r.value| < |f|
                        && f[|f| - |r.value| - 1] == '.'
                        && f[|f| - |r.value|..] == r.value
                        && '.' !in r.value
  {
    if f == [] then None
    else if f[|f| - 1] == '.' then Some([])
    else match Extension(f[..|f| - 1]) {
      case None => None
      case Some(e) => Some(e + [f[|f| - 1]])
    }
  }

  /** `allowed_file`: the name has a dot and its lower-cased extension is allowed. */
  predicate AllowedFile(f: string): (b: bool)
    ensures b ==> '.' in f && |f| >= 4
  {
    match Extension(f)
    case None => false
    case Some(e) => Lower(e) in AllowedExtensions
  }

  /** The text after a dot that no other dot follows is the extension. */
  lemma {:induction false} ExtensionAt(f: string, i: nat)
    requires i < |f| && f[i] == '.' && '.' !in f[i + 1..]
    ensures Extension(f) == Some(f[i + 1..])
  {
    var n := |f| - 1;
    if f[n] != '.' {
      assert i < n;
      var g := f[..n];
      assert g[i] == '.';
      assert g[i + 1..] + [f[n]] == f[i + 1..];
      ExtensionAt(g, i);
    }
  }

  /** A name is accepted exactly when some dot in it is followed by no other dot
      and by an allowed extension, in any letter case. */
  lemma AllowedFileIff(f: string)
    ensures AllowedFile(f) <==>
      exists i | 0 <= i < |f| :: f[i] == '.' && '.' !in f[i + 1..] && Lower(f[i + 1..]) in AllowedExtensions
  {
    if AllowedFile(f) {
      var e := Extension(f).value;
      var i := |f| - |e| - 1;
      assert f[i + 1..] == e;
    }
    if exists i | 0 <= i < |f| :: f[i] == '.' && '.' !in f[i + 1..] && Lower(f[i + 1..]) in AllowedExtensions {
      var i :| 0 <= i < |f| && f[i] == '.' && '.' !in f[i + 1..] && Lower(f[i + 1..]) in AllowedExtensions;
      ExtensionAt(f, i);
    }
  }

  lemma RejectsVirusExe()
    ensures !AllowedFile("virus.exe")
  {
    ExtensionAt("virus.exe", 5);
    assert "virus.exe"[6..] == "exe";
    assert Lower("exe")[0] == 'e';
  }

  lemma RejectsBareExtension()
    ensures !AllowedFile("png")
  {
    assert '.' !in "png";
  }

  lemma AcceptsUpperCase()
    ensures AllowedFile("a.PNG")
  {
    ExtensionAt("a.PNG", 1);
    assert "a.PNG"[2..] == "PNG";
    assert Lower("PNG") == "png";
  }

  lemma AcceptsLastExtension()
    ensures AllowedFile("x.tar.gif")
  {
    ExtensionAt("x.tar.gif", 5);
    assert "x.tar.gif"[6..] == "gif";
    assert Lower("gif") == "gif";
  }

  /** The `file and file.filename != '' and allowed_file(file.filename)` test: a
      photo field was sent and names an acceptable file. */
  predicate AcceptsUpload(photo: Option<string>): (b: bool)
    ensures b ==> photo.Some? && '.' in photo.value && |photo.value| >= 4
  {
    photo.Some? && photo.value != "" && AllowedFile(photo.value)
  }

  const UploadsRoute: string := "/uploads/"

  /** `url_for('uploaded_file', filename=name)` for the `/uploads/<filename>` route. */
  function UploadRef(name: string): (url: string)
    ensures |url| == |UploadsRoute| + |name|
    ensures url[..|UploadsRoute|] == UploadsRoute && url[|UploadsRoute|..] == name
  {
    UploadsRoute + name
  }

  /** The file name the `/uploads/<filename>` route serves for a path, if any. */
  function UploadedName(url: string): (r: Option<string>)
    ensures r.Some? ==> |r.value| < |url| && url == UploadRef(r.value)
  {
    if |url| >= |UploadsRoute| && url[..|UploadsRoute|] == UploadsRoute
    then Some(url[|UploadsRoute|..]) else None
  }

  /** The reference to a stored file leads back to that file, so distinct stored
      names never share a reference and no reference is empty. */
  lemma UploadRefRoundTrip(name: string)
    ensures UploadedName(UploadRef(name)) == Some(name)
    ensures UploadRef(name) != ""
  {
    assert UploadRef(name)[..|UploadsRoute|] == UploadsRoute;
  }

  lemma UploadRefInjective(a: string, b: string)
    requires UploadRef(a) == UploadRef(b)
    ensures a == b
  {
    UploadRefRoundTrip(a);
    UploadRefRoundTrip(b);
  }
}
