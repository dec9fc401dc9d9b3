/** The screenshot-type check made before a match record is stored. */
module Upload {
  import opened Text

  /** The file extensions accepted as screenshot proof. */
  const AllowedExt: set<string> := {"png", "jpg", "jpeg", "gif"}

  /** `name.rsplit(".", 1)[1]`: the text after the last dot. */
  function Extension(name: string): (ext: string)
    requires '.' in name
    ensures |ext| < |name|
    ensures name[|name| - |ext| - 1] == '.'
    ensures name[|name| - |ext|..] == ext
    ensures '.' !in ext
  {
    var n := |name|;
    if name[n - 1] == '.' then []
    else
      assert name == name[..n - 1] + [name[n - 1]];
      Extension(name[..n - 1]) + [name[n - 1]]
  }

  /** `allowed_file`: the name has a dot and its lower-cased extension is an
      accepted one. */
  predicate AllowedFile(name: string): (ok: bool)
    ensures ok ==> '.' in name && 3 <= |Extension(name)| <= 4
  {
    '.' in name && Lower(Extension(name)) in AllowedExt
  }

  /** The extension of `stem + "." + ext` is `ext` whenever `ext` has no dot,
      whatever dots the stem holds. */
  lemma {:induction false} ExtensionOfJoin(stem: string, ext: string)
    requires '.' !in ext
    ensures '.' in stem + "." + ext
    ensures Extension(stem + "." + ext) == ext
  {
    var name := stem + "." + ext;
    assert name[|stem|] == '.';
    var e := Extension(name);
    if |e| < |ext| {
      assert false;
    } else if |e| > |ext| {
      assert false;
    }
  }

  /** `allowed_file` accepts a name exactly when it splits at some dot into a
      stem and a dot-free suffix whose lower-cased form is an accepted
      extension. */
  lemma AllowedFileIff(name: string)
    ensures AllowedFile(name) <==>
      exists k :: 0 <= k < |name| && name[k] == '.' && '.' !in name[k + 1..] && Lower(name[k + 1..]) in AllowedExt
  {
    if AllowedFile(name) {
      var ext := Extension(name);
      var k := |name| - |ext| - 1;
      assert name[k + 1..] == ext;
      assert 0 <= k < |name| && name[k] == '.' && '.' !in name[k + 1..] && Lower(name[k + 1..]) in AllowedExt;
    }
    if k :| 0 <= k < |name| && name[k] == '.' && '.' !in name[k + 1..] && Lower(name[k + 1..]) in AllowedExt {
      ExtensionAfterLastDot(name, k);
    }
  }

  /** A dot with no dot after it is the last one: the extension is the text
      after it. */
  lemma {:induction false} ExtensionAfterLastDot(name: string, k: nat)
    requires k < |name| && name[k] == '.' && '.' !in name[k + 1..]
    ensures '.' in name && Extension(name) == name[k + 1..]
  {
    var n := |name|;
    if k < n - 1 {
      var init := name[..n - 1];
      assert name[n - 1] == name[k + 1..][n - 2 - k];
      assert init[k + 1..] == name[k + 1..n - 1];
      ExtensionAfterLastDot(init, k);
      assert name[k + 1..] == init[k + 1..] + [name[n - 1]];
    }
  }

  /** The check ignores case: `shot.PNG` and `shot.png` are treated alike. */
  lemma AllowedFileIgnoresCase(stem: string, ext: string)
    requires '.' !in ext
    ensures AllowedFile(stem + "." + ext) <==> AllowedFile(stem + "." + Lower(ext))
  {
    var low := Lower(ext);
    LowerKeepsDots(ext);
    ExtensionOfJoin(stem, ext);
    ExtensionOfJoin(stem, low);
    LowerIdempotent(ext);
  }

  /** Only the last dot counts: `a.b.PNG` is accepted. */
  lemma AcceptsUpperCaseAfterLastDot()
    ensures AllowedFile("a.b.PNG")
  {
    ExtensionOfJoin("a.b", "PNG");
    assert "a.b" + "." + "PNG" == "a.b.PNG";
    assert Lower("PNG") == "png";
  }

  /** A name without a dot is refused, even one spelled like an extension. */
  lemma RejectsNameWithoutDot()
    ensures !AllowedFile("png")
  {
  }

  /** A name whose accepted extension is followed by another one is refused. */
  lemma RejectsTrailingExtension()
    ensures !AllowedFile("shot.png.exe")
  {
    ExtensionOfJoin("shot.png", "exe");
    assert "shot.png" + "." + "exe" == "shot.png.exe";
    assert Lower("exe") == "exe";
  }
}
