/** Which directory entries count as images, and how a file name becomes the
    basename that is looked up in the worksheet (new.py lines 6, 60 and 62). */
module FileNames {
  import opened Wrappers
  import opened Search

  /** The allowlist, in the order the source writes it. */
  const ImageExtensions: seq<string> := [".jpg", ".jpeg", ".png", ".webp"]

  /** Lower-cases an ASCII capital; every other character is left alone. */
  function LowerChar(c: char): char {
    if 'A' <= c <= 'Z' then (c as int + ('a' as int - 'A' as int)) as char else c
  }

  /** `str.lower()` restricted to ASCII letters. */
  function Lower(s: string): (r: string)
    ensures |r| == |s|
    ensures forall i | 0 <= i < |s| :: r[i] == LowerChar(s[i])
  {
    seq(|s|, i requires 0 <= i < |s| => LowerChar(s[i]))
  }

  /** `s.endswith(suffix)`. */
  predicate EndsWith(s: string, suffix: string) {
    |suffix| <= |s| && s[|s| - |suffix|..] == suffix
  }

  /** `name.lower().endswith(valid_image_extensions)`: the filter applied both
      when deciding whether a folder is worth processing and per file. */
  predicate IsImageName(name: string) {
    exists e | e in ImageExtensions :: EndsWith(Lower(name), e)
  }

  /** Each allowlisted extension is a dot followed by dot-free characters. */
  lemma ExtensionShape()
    ensures forall e | e in ImageExtensions :: |e| >= 2 && e[0] == '.' && '.' !in e[1..]
  {
    assert '.' !in ".jpg"[1..] by { assert ".jpg"[1..] == "jpg"; }
    assert '.' !in ".jpeg"[1..] by { assert ".jpeg"[1..] == "jpeg"; }
    assert '.' !in ".png"[1..] by { assert ".png"[1..] == "png"; }
    assert '.' !in ".webp"[1..] by { assert ".webp"[1..] == "webp"; }
  }

  /** Two strings equal up to the case of their ASCII letters. */
  predicate EqualIgnoringCase(a: string, b: string) {
    |a| == |b| && forall i | 0 <= i < |a| :: LowerChar(a[i]) == LowerChar(b[i])
  }

  lemma LowerCaseExtensions()
    ensures forall e | e in ImageExtensions :: Lower(e) == e
  {
    forall e | e in ImageExtensions ensures Lower(e) == e {
      assert forall i | 0 <= i < |e| :: LowerChar(e[i]) == e[i];
    }
  }

  /** The filter is a case-insensitive suffix test: a name is an image exactly
      when its last characters spell one of the extensions in any mix of
      upper and lower case. */
  lemma ImageNameIgnoresCase(name: string)
    ensures IsImageName(name) <==>
      exists e | e in ImageExtensions ::
        |e| <= |name| && EqualIgnoringCase(name[|name| - |e|..], e)
  {
    LowerCaseExtensions();
    var l := Lower(name);
    forall e | e in ImageExtensions
      ensures EndsWith(l, e) <==> |e| <= |name| && EqualIgnoringCase(name[|name| - |e|..], e)
    {
      if |e| <= |name| {
        var t := name[|name| - |e|..];
        assert forall i | 0 <= i < |e| :: l[|name| - |e|..][i] == LowerChar(t[i]);
        assert forall i | 0 <= i < |e| :: LowerChar(e[i]) == e[i] by {
          assert Lower(e) == e;
        }
        if EqualIgnoringCase(t, e) {
          assert l[|name| - |e|..] == e;
        }
        if EndsWith(l, e) {
          assert forall i | 0 <= i < |e| :: LowerChar(t[i]) == e[i] by {
            forall i | 0 <= i < |e| ensures LowerChar(t[i]) == e[i] {
              assert l[|name| - |e|..][i] == e[i];
            }
          }
        }
      }
    }
  }

  /** Names that differ only in the case of their letters are classified alike. */
  lemma ImageNameCaseInvariant(a: string, b: string)
    requires EqualIgnoringCase(a, b)
    ensures IsImageName(a) <==> IsImageName(b)
  {
    assert Lower(a) == Lower(b);
  }

  /** Upper-case and mixed-case extensions are accepted. */
  lemma ImageNameExamples()
    ensures IsImageName("IMG_01.JPG")
    ensures IsImageName("label.WebP")
  {
    assert EndsWith(Lower("IMG_01.JPG"), ".jpg") by {
      assert Lower("IMG_01.JPG")[6..] == ".jpg";
    }
    assert EndsWith(Lower("label.WebP"), ".webp") by {
      assert Lower("label.WebP")[5..] == ".webp";
    }
  }

  /** A name that only contains an extension before another one is not an
      image. */
  lemma NotImageExample()
    ensures !IsImageName("photo.jpg.bak")
  {
    var l := Lower("photo.jpg.bak");
    assert l == "photo.jpg.bak";
    assert l[|l| - 4..] == ".bak";
    assert l[|l| - 5..] == "g.bak";
  }

  /** `filename.rsplit(".", 1)[0]`: everything before the last dot, or the whole
      name when it has no dot. */
  function Basename(name: string): string {
    match LastIndexOf(name, '.')
    case None => name
    case Some(i) => name[..i]
  }

  /** `filename.rsplit(".", 1)[1]` when the name has a dot, else empty. */
  function Extension(name: string): string {
    match LastIndexOf(name, '.')
    case None => ""
    case Some(i) => name[i + 1..]
  }

  /** Splitting at the last dot loses nothing: basename, dot and extension
      give the name back, and the extension holds no further dot. */
  lemma BasenameRoundTrip(name: string)
    ensures '.' in name ==> Basename(name) + "." + Extension(name) == name
    ensures '.' !in Extension(name)
    ensures '.' !in name ==> Basename(name) == name
  {
    match LastIndexOf(name, '.')
    case None =>
    case Some(i) =>
      assert name == name[..i] + [name[i]] + name[i + 1..];
  }

  /** A name whose lower-cased form ends in a dot followed by dot-free
      characters splits exactly at that dot. */
  lemma SplitAtSuffix(name: string, e: string, p: nat)
    requires |e| >= 1 && e[0] == '.' && '.' !in e[1..]
    requires EndsWith(Lower(name), e) && p == |name| - |e|
    ensures LastIndexOf(name, '.') == Some(p)
    ensures Basename(name) == name[..p]
    ensures Lower(Extension(name)) == e[1..]
  {
    assert LastIndexOf(name, '.') == Some(p) by {
      DotsOfSuffix(name, e, p);
      LastIndexOfUnique(name, '.', p);
    }
    assert Extension(name) == name[p + 1..];
    LowerSuffix(name, p + 1);
    assert Lower(name)[p + 1..] == e[1..];
  }

  lemma LowerSuffix(s: string, k: nat)
    requires k <= |s|
    ensures Lower(s[k..]) == Lower(s)[k..]
  {
  }

  /** Lower-casing moves no dots, so a name whose lower-cased form ends in a
      dot and dot-free characters has its last dot at the same place. */
  lemma DotsOfSuffix(name: string, e: string, p: nat)
    requires |e| >= 1 && e[0] == '.' && '.' !in e[1..]
    requires EndsWith(Lower(name), e) && p == |name| - |e|
    ensures name[p] == '.'
    ensures forall k | p < k < |name| :: name[k] != '.'
  {
    var l := Lower(name);
    assert l[p] == '.' by { assert l[p..][0] == l[p]; }
    assert l[p] == LowerChar(name[p]);
    forall k | p < k < |name| ensures name[k] != '.' {
      assert l[k] == e[k - p] by { assert l[p..][k - p] == l[k]; }
      assert e[k - p] == e[1..][k - p - 1];
      assert l[k] == LowerChar(name[k]);
    }
  }

  /** A name ending, ignoring case, in an allowlisted extension splits at
      that extension's dot. */
  lemma SplitAtExtension(name: string, e: string)
    requires e in ImageExtensions && EndsWith(Lower(name), e)
    ensures '.' in name
    ensures Basename(name) + "." + Extension(name) == name
    ensures "." + Lower(Extension(name)) == e
  {
    ExtensionShape();
    SplitAtSuffix(name, e, |name| - |e|);
    assert "." + e[1..] == e;
    BasenameRoundTrip(name);
  }

  /** Every image name has a dot, and its last dot is the one that begins
      the allowlisted extension: splitting there gives the basename and an
      extension that, read ignoring case, is on the allowlist. */
  lemma ImageNameSplit(name: string)
    requires IsImageName(name)
    ensures '.' in name
    ensures Basename(name) + "." + Extension(name) == name
    ensures "." + Lower(Extension(name)) in ImageExtensions
  {
    var e :| e in ImageExtensions && EndsWith(Lower(name), e);
    SplitAtExtension(name, e);
  }
}
