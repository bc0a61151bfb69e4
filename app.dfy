/** The upload filter of the web front end: a file is accepted when the text after its
    last dot, lower-cased, is one of the allowed extensions. */
module App {
  import opened PyStr

  /** The extensions an uploaded resume may carry. */
  const ALLOWED_EXTENSIONS: set<string> := {"pdf"}

  /** The text after the last '.' of a name that has one: the second piece of
      `rsplit(".", 1)`. */
  function AfterLastDot(name: string): (ext: string)
    requires '.' in name
    ensures '.' !in ext
    ensures |ext| < |name| && name[|name| - |ext| - 1] == '.'
    ensures ext == name[|name| - |ext|..]
    decreases |name|
  {
    var last := name[|name| - 1];
    if last == '.' then []
    else
      assert '.' in name[..|name| - 1] by {
        var k :| 0 <= k < |name| && name[k] == '.';
        assert name[..|name| - 1][k] == '.';
      }
      AfterLastDot(name[..|name| - 1]) + [last]
  }

  /** Whether an uploaded file name is accepted. */
  predicate AllowedFile(filename: string) {
    '.' in filename && Lower(AfterLastDot(filename)) in ALLOWED_EXTENSIONS
  }

  /** Splitting at the last dot gives back the part after it. */
  lemma {:induction false} AfterLastDotOf(stem: string, ext: string)
    requires '.' !in ext
    ensures '.' in stem + "." + ext
    ensures AfterLastDot(stem + "." + ext) == ext
    decreases |ext|
  {
    var name := stem + "." + ext;
    assert name[|stem|] == '.';
    if ext != [] {
      var init := ext[..|ext| - 1];
      assert name[..|name| - 1] == stem + "." + init;
      assert '.' !in init by {
        forall k | 0 <= k < |init| ensures init[k] != '.' {
          assert init[k] == ext[k];
        }
      }
      AfterLastDotOf(stem, init);
      assert init + [ext[|ext| - 1]] == ext;
    }
  }

  /** A name without a dot is refused. */
  lemma NoDotRefused(filename: string)
    requires '.' !in filename
    ensures !AllowedFile(filename)
  {
  }

  /** Every name with a dot is judged by the text after its last dot alone, and that
      text is accepted exactly when it spells "pdf" in any mix of cases. */
  lemma AllowedFileIff(stem: string, ext: string)
    requires '.' !in ext
    ensures AllowedFile(stem + "." + ext)
      <==> |ext| == 3 && ext[0] in "pP" && ext[1] in "dD" && ext[2] in "fF"
  {
    AfterLastDotOf(stem, ext);
    if AllowedFile(stem + "." + ext) {
      var l := Lower(ext);
      assert l == "pdf";
      assert l[0] == LowerChar(ext[0]) && l[1] == LowerChar(ext[1]) && l[2] == LowerChar(ext[2]);
    }
    if |ext| == 3 && ext[0] in "pP" && ext[1] in "dD" && ext[2] in "fF" {
      assert Lower(ext) == "pdf";
    }
  }

  /** Any name with a dot splits into a stem and the text after its last dot. */
  lemma LastDotSplit(filename: string)
    requires '.' in filename
    ensures var ext := AfterLastDot(filename);
      filename == filename[..|filename| - |ext| - 1] + "." + ext
  {
    var ext := AfterLastDot(filename);
    var k := |filename| - |ext| - 1;
    assert filename[k] == '.' && filename[k + 1..] == ext;
    SliceAround(filename, k);
  }

  lemma SliceAround(s: string, k: nat)
    requires k < |s|
    ensures s == s[..k] + [s[k]] + s[k + 1..]
  {
  }

  /** Whatever comes before it, a name ending in ".pdf" or ".PDF" is accepted: upper
      case is accepted, only the last extension counts ("archive.tar.pdf"), and a name
      that is only the extension (stem "") is accepted too. */
  lemma AcceptedExamples(stem: string)
    ensures AllowedFile(stem + ".pdf")
    ensures AllowedFile(stem + ".PDF")
  {
    ExampleAccepted(stem, ".pdf");
    ExampleAccepted(stem, ".PDF");
  }

  /** An earlier ".pdf" does not help, and a trailing dot or a missing dot is refused. */
  lemma RefusedExamples()
    ensures !AllowedFile("cv.pdf.exe")
    ensures !AllowedFile("report.")
    ensures !AllowedFile("pdf")
  {
    AllowedFileIff("cv.pdf", "exe");
    assert "cv.pdf" + "." + "exe" == "cv.pdf.exe";
    AllowedFileIff("report", "");
    assert "report" + "." + "" == "report.";
    NoDotRefused("pdf");
  }

  lemma ExampleAccepted(stem: string, dotted: string)
    requires dotted == ".pdf" || dotted == ".PDF"
    ensures AllowedFile(stem + dotted)
  {
    var ext := dotted[1..];
    assert dotted == "." + ext;
    assert stem + dotted == stem + "." + ext;
    AllowedFileIff(stem, ext);
  }
}
