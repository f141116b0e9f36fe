/**
 * Classification of attachment references (`isImgUrl` in the chat view).
 *
 * A reference is tested against three regular expressions in turn, each an
 * alternation of extensions anchored at the end of the string and preceded by
 * a literal dot; the first that matches decides the class, and a reference
 * that matches none has no class. Matching is case-sensitive.
 */
module Attachments {

  import opened Wrappers

  datatype MediaKind = Photo | Video | Audio

  const PhotoExtensions: seq<string> := ["jpg", "jpeg", "png", "webp", "avif", "gif"]
  const VideoExtensions: seq<string> := ["mp4", "webm", "ogg"]
  const AudioExtensions: seq<string> := ["mp3", "wav"]

  predicate EndsWith(s: string, suffix: string)
  {
    |suffix| <= |s| && s[|s| - |suffix|..] == suffix
  }

  /** `/\.(e1|e2|...)$/.test(s)` */
  predicate EndsWithAny(s: string, exts: seq<string>)
    decreases |exts|
  {
    |exts| > 0 && (EndsWith(s, "." + exts[0]) || EndsWithAny(s, exts[1..]))
  }

  /** `isImgUrl`: the first class whose pattern matches, or none. */
  function Classify(url: string): Option<MediaKind>
  {
    if EndsWithAny(url, PhotoExtensions) then Some(Photo)
    else if EndsWithAny(url, VideoExtensions) then Some(Video)
    else if EndsWithAny(url, AudioExtensions) then Some(Audio)
    else None
  }

  // ---------------------------------------------------------------------------
  // An independent reference definition: the text after the last dot, looked
  // up in the three extension tables.

  /** The text after the last '.' of `s`, or None when `s` has no dot. */
  function Extension(s: string): (r: Option<string>)
    ensures r.None? <==> '.' !in s
    ensures r.Some? ==> '.' !in r.value && EndsWith(s, "." + r.value)
  {
    if |s| == 0 then None
    else if s[|s| - 1] == '.' then Some("")
    else
      var init := s[..|s| - 1];
      assert s == init + [s[|s| - 1]];
      match Extension(init)
      case None => None
      case Some(e) =>
        assert s[|s| - |"." + e + [s[|s| - 1]]|..] == init[|init| - |"." + e|..] + [s[|s| - 1]];
        Some(e + [s[|s| - 1]])
  }

  /** Which table an extension belongs to. */
  function KindOf(ext: string): Option<MediaKind>
  {
    if ext in PhotoExtensions then Some(Photo)
    else if ext in VideoExtensions then Some(Video)
    else if ext in AudioExtensions then Some(Audio)
    else None
  }

  /** For a dot-free extension, the end-anchored match is the same as "the last dot is followed by exactly `e`". */
  lemma {:induction false} EndsWithDotIff(s: string, e: string)
    requires '.' !in e
    ensures EndsWith(s, "." + e) <==> Extension(s) == Some(e)
    decreases |s|
  {
    if |s| == 0 {
      return;
    }
    var init, c := s[..|s| - 1], s[|s| - 1];
    assert s == init + [c];
    if e == [] {
      assert EndsWith(s, ".") <==> c == '.';
      if c != '.' {
        assert Extension(s) != Some("");
      }
    } else {
      var e', last := e[..|e| - 1], e[|e| - 1];
      assert e == e' + [last];
      assert "." + e == ("." + e') + [last];
      assert last != '.';
      EndsWithDotIff(init, e');
      if EndsWith(s, "." + e) {
        var n := |"." + e'|;
        assert |"." + e| == n + 1 && n <= |init|;
        assert s[|s| - (n + 1)..] == ("." + e') + [last];
        assert c == last;
        assert init[|init| - n..] == s[|s| - (n + 1)..|s| - 1];
        assert s[|s| - (n + 1)..|s| - 1] == (("." + e') + [last])[..n];
        assert init[|init| - n..] == "." + e';
      }
      if Extension(s) == Some(e) {
        assert c != '.';
        match Extension(init)
        case None =>
        case Some(x) =>
          assert x + [c] == e' + [last];
          assert x == (x + [c])[..|x|];
          assert x == e';
      }
    }
  }

  lemma {:induction false} EndsWithAnyIff(s: string, exts: seq<string>)
    requires forall e :: e in exts ==> '.' !in e
    ensures EndsWithAny(s, exts) <==> Extension(s).Some? && Extension(s).value in exts
    decreases |exts|
  {
    if |exts| > 0 {
      EndsWithDotIff(s, exts[0]);
      EndsWithAnyIff(s, exts[1..]);
      assert exts == [exts[0]] + exts[1..];
    }
  }

  /**
   * The first-match chain of end-anchored patterns classifies a reference
   * exactly by the text after its last dot.
   */
  lemma ClassifyByExtension(url: string)
    ensures Classify(url) == match Extension(url) case None => None case Some(e) => KindOf(e)
  {
    EndsWithAnyIff(url, PhotoExtensions);
    EndsWithAnyIff(url, VideoExtensions);
    EndsWithAnyIff(url, AudioExtensions);
  }

  /** Where the extension of a concatenation comes from. */
  lemma {:induction false} ExtensionOfConcat(a: string, b: string)
    ensures '.' in b ==> Extension(a + b) == Extension(b)
    ensures '.' !in b ==> Extension(a + b) == match Extension(a) case None => None case Some(x) => Some(x + b)
    decreases |b|
  {
    if b == [] {
      assert a + b == a;
      if Extension(a).Some? {
        assert Extension(a).value + b == Extension(a).value;
      }
    } else {
      var b', c := b[..|b| - 1], b[|b| - 1];
      assert b == b' + [c];
      assert a + b == (a + b') + [c];
      assert (a + b)[..|a + b| - 1] == a + b';
      if c != '.' {
        ExtensionOfConcat(a, b');
        if Extension(a).Some? {
          var x := Extension(a).value;
          assert x + b == (x + b') + [c];
        }
      }
    }
  }

  /** No extension in the tables contains a '/'. */
  lemma KindOfSlash(e: string)
    requires '/' in e
    ensures KindOf(e) == None
  {
  }

  /** A name `p + "." + e` with a dot-free `e` has extension `e`. */
  lemma ExtensionAfterDot(p: string, e: string)
    requires '.' !in e
    ensures Extension(p + "." + e) == Some(e)
  {
    var s := p + "." + e;
    assert s[|s| - |"." + e|..] == "." + e;
    EndsWithDotIff(s, e);
  }

  /** A reference whose last dot is followed by `e` is classified by `e` alone. */
  lemma ClassifyNamed(p: string, e: string)
    requires '.' !in e
    ensures Classify(p + "." + e) == KindOf(e)
  {
    ExtensionAfterDot(p, e);
    ClassifyByExtension(p + "." + e);
  }

  /** `a.png` is a photo. */
  lemma ClassifyPhotoExample()
    ensures Classify("a.png") == Some(Photo)
  {
    assert "a.png" == "a" + "." + "png";
    ClassifyNamed("a", "png");
  }

  /** `a.mp4` is a video. */
  lemma ClassifyVideoExample()
    ensures Classify("a.mp4") == Some(Video)
  {
    assert "a.mp4" == "a" + "." + "mp4";
    ClassifyNamed("a", "mp4");
  }

  /** `a.mp3` is audio. */
  lemma ClassifyAudioExample()
    ensures Classify("a.mp3") == Some(Audio)
  {
    assert "a.mp3" == "a" + "." + "mp3";
    ClassifyNamed("a", "mp3");
  }

  /** `a.pdf` has no class. */
  lemma ClassifyDocumentExample()
    ensures Classify("a.pdf") == None
  {
    assert "a.pdf" == "a" + "." + "pdf";
    ClassifyNamed("a", "pdf");
  }

  /** An uploaded picture's storage path is a photo. */
  lemma ClassifyUploadPathExample()
    ensures Classify("images/A/123.png") == Some(Photo)
  {
    assert "images/A/123.png" == "images/A/123" + "." + "png";
    ClassifyNamed("images/A/123", "png");
  }

  /** Matching is case-sensitive: `a.PNG` has no class. */
  lemma ClassifyCaseSensitiveExample()
    ensures Classify("a.PNG") == None
  {
    assert "a.PNG" == "a" + "." + "PNG";
    ClassifyNamed("a", "PNG");
  }

  /** Matching is anchored at the end: `a.png.txt` has no class. */
  lemma ClassifyAnchoredExample()
    ensures Classify("a.png.txt") == None
  {
    assert "a.png.txt" == "a.png" + "." + "txt";
    ClassifyNamed("a.png", "txt");
  }
}
