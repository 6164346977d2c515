/** The image drop zone (`onDrop`, src/layout/CharacterForm.tsx:154-181):
    which dropped file, if any, becomes the selected upload. */
module Upload {
  import opened Wrappers
  import opened Text

  /** A browser `File`, reduced to the two properties the form reads. */
  datatype File = File(mimeType: string, name: string)

  /** The acceptance test applied to a dropped file: a PNG or JPG by MIME
      type or by name suffix. Either test alone is enough, whatever the other
      says. `image/jpeg` and `.jpeg` are not accepted. */
  predicate Acceptable(f: File)
    ensures f.mimeType == "image/png" || f.mimeType == "image/jpg" ==> Acceptable(f)
    ensures EndsWith(f.name, ".png") || EndsWith(f.name, ".jpg") ==> Acceptable(f)
  {
    || f.mimeType == "image/png"
    || EndsWith(f.name, ".png")
    || f.mimeType == "image/jpg"
    || EndsWith(f.name, ".jpg")
  }

  /** `onDrop(acceptedFiles)`: only the first dropped file is looked at; it
      replaces the selection when acceptable, and otherwise (or when nothing
      was dropped) the selection stays as it was. */
  function OnDrop(selected: Option<File>, dropped: seq<File>): (r: Option<File>)
    ensures |dropped| == 0 ==> r == selected
    ensures |dropped| > 0 && Acceptable(dropped[0]) ==> r == Some(dropped[0])
    ensures |dropped| > 0 && !Acceptable(dropped[0]) ==> r == selected
    ensures r == selected || (|dropped| > 0 && r == Some(dropped[0]))
  {
    if |dropped| > 0 && Acceptable(dropped[0]) then Some(dropped[0]) else selected
  }

  /** The text after the last `.` of a file name, or None when it has no `.`. */
  function AfterLastDot(s: string): Option<string>
    decreases |s|
  {
    if s == [] then None
    else if s[|s| - 1] == '.' then Some([])
    else match AfterLastDot(s[..|s| - 1])
      case None => None
      case Some(e) => Some(e + [s[|s| - 1]])
  }

  /** For an extension without a dot, ending with `"." + ext` is the same as
      `ext` being the text after the last dot. */
  lemma {:induction false} EndsWithDotIff(s: string, ext: string)
    requires '.' !in ext
    ensures EndsWith(s, "." + ext) <==> AfterLastDot(s) == Some(ext)
    decreases |s|
  {
    if s == [] {
    } else if ext == [] {
      assert s[|s| - 1..] == [s[|s| - 1]];
    } else {
      var p, c := s[..|s| - 1], s[|s| - 1];
      var e, x := ext[..|ext| - 1], ext[|ext| - 1];
      assert ext == e + [x];
      assert '.' !in e by {
        forall i | 0 <= i < |e| ensures e[i] != '.' {
          assert e[i] == ext[i];
        }
      }
      EndsWithDotIff(p, e);
      if EndsWith(s, "." + ext) {
        assert s[|s| - |"." + ext|..] == "." + ext;
        assert c == x;
        assert p[|p| - |"." + e|..] == s[|s| - |"." + ext|..|s| - 1];
        assert ("." + ext)[..|"." + e|] == "." + e;
        assert EndsWith(p, "." + e);
      }
      if AfterLastDot(s) == Some(ext) {
        assert c != '.';
        assert AfterLastDot(p) == Some(e);
        assert c == x;
        assert s == p + [c];
        assert s[|s| - |"." + ext|..] == p[|p| - |"." + e|..] + [c];
      }
    }
  }

  /** An independent reading of the acceptance test: a PNG or JPG MIME type,
      or a name whose last extension is `png` or `jpg`. */
  lemma AcceptableByExtension(f: File)
    ensures Acceptable(f) <==>
      || f.mimeType == "image/png" || f.mimeType == "image/jpg"
      || AfterLastDot(f.name) == Some("png") || AfterLastDot(f.name) == Some("jpg")
  {
    EndsWithDotIff(f.name, "png");
    EndsWithDotIff(f.name, "jpg");
  }

  /** A JPEG announced as `image/jpeg` and named `.jpeg` is refused, and so
      a good file dropped behind it is never looked at. */
  lemma JpegRefused(selected: Option<File>, good: File)
    requires Acceptable(good)
    ensures !Acceptable(File("image/jpeg", "photo.jpeg"))
    ensures OnDrop(selected, [File("image/jpeg", "photo.jpeg"), good]) == selected
  {
    var n := "photo.jpeg";
    assert n[|n| - 4..] == "jpeg";
  }
}
